/** The decisions of the comparison and matchup commands: the player-vs-average
    table (bcli.py:896-994), compare_players (bcli.py:1082-1276), the platoon
    year argument (bcli.py:1351-1362), and handle_versus_matchup with
    render_matchup_stats (bcli.py:1694-1860). */
module Compare {
  import opened Wrappers
  import opened Seqs
  import opened Text
  import opened Parsing
  import opened Rows
  import opened Leaders
  import opened Lookup
  import opened Columns

  // ---------------------------------------------------------------- per-player averages

  /** Counting stats, whose team or league total is shown per player. */
  const CumulativeStats: set<string> :=
    {"r", "h", "doubles", "triples", "hr", "rbi", "sb", "cs", "bb", "so", "tb", "hbp", "sh", "sf", "ibb",
     "w", "l", "gs", "gf", "cg", "sho", "sv", "er", "bk", "wp"}

  /** The column of the average row that counts the players behind it. */
  function CountKey(t: PlayerType): string
  {
    match t
    case Hitter => "bat_count"
    case Pitcher => "pitcher_count"
  }

  /** The average cell: a value (None prints N/A), or NullCount where the
      count column is NULL and `players_used > 0` raises. */
  datatype AverageCell = Average(value: Option<real>) | NullCount

  /** compare_to_average_display's value for one stat: the mapped column of
      the average row, divided by the player count for a counting stat. A
      missing count column counts as one player. */
  function ShownAverage(t: PlayerType, key: string, avg: map<string, Option<real>>): AverageCell
  {
    var average := if key in StatMapping(t) && StatMapping(t)[key] in avg then avg[StatMapping(t)[key]] else None;
    var playersUsed := if CountKey(t) in avg then avg[CountKey(t)] else Some(1.0);
    if average.Some? && key in CumulativeStats then
      (if playersUsed.None? then NullCount
       else if playersUsed.value > 0.0 then Average(Some(average.value / playersUsed.value))
       else Average(average))
    else Average(average)
  }

  /** A rate stat is shown as stored; a stat without a mapped column is N/A. */
  lemma ShownAverageSpec(t: PlayerType, key: string, avg: map<string, Option<real>>)
    ensures key !in StatMapping(t) ==> ShownAverage(t, key, avg) == Average(None)
    ensures key in StatMapping(t) && StatMapping(t)[key] in avg && key !in CumulativeStats ==>
      ShownAverage(t, key, avg) == Average(avg[StatMapping(t)[key]])
  {
  }

  /** A counting stat's shown average times the count gives back the total,
      and only a NULL count column makes the division raise. */
  lemma PerPlayerAverageSpec(t: PlayerType, key: string, avg: map<string, Option<real>>)
    ensures ShownAverage(t, key, avg).Average? && ShownAverage(t, key, avg).value.Some?
            && key in CumulativeStats && CountKey(t) in avg && avg[CountKey(t)].Some? && avg[CountKey(t)].value > 0.0 ==>
      ShownAverage(t, key, avg).value.value * avg[CountKey(t)].value == avg[StatMapping(t)[key]].value
    ensures ShownAverage(t, key, avg).NullCount? <==>
      && key in CumulativeStats && key in StatMapping(t) && StatMapping(t)[key] in avg
      && avg[StatMapping(t)[key]].Some? && CountKey(t) in avg && avg[CountKey(t)].None?
  {
  }

  // ---------------------------------------------------------------- compare_players

  /** One name's find_player result. */
  datatype Side = Side(pitchers: seq<StatLine>, hitters: seq<StatLine>)

  datatype CompareError =
    | NoMatches(which: nat)
    | InvalidYear(year: string)
    | DifferentTypes
    | SeveralPlayers(which: nat, names: seq<string>)
    | NoSeasonData(which: nat, season: int)

  /** The season compared: 2025 without a -y argument. */
  function CompareSeason(year: string): (r: Option<int>)
    ensures year == "" ==> r == Some(2025)
    ensures year != "" ==> r == ParseYearFilter(year)
  {
    if year == "" then Some(2025) else ParseYearFilter(year)
  }

  /** Both players are compared as pitchers when both have pitching rows, else
      as hitters when both have batting rows. */
  function SharedType(a: Side, b: Side): Option<PlayerType>
  {
    if a.pitchers != [] && b.pitchers != [] then Some(Pitcher)
    else if a.hitters != [] && b.hitters != [] then Some(Hitter)
    else None
  }

  function Table(s: Side, t: PlayerType): seq<StatLine>
  {
    match t
    case Pitcher => s.pitchers
    case Hitter => s.hitters
  }

  /** The first 2TM/3TM line of a season, if any. */
  function FirstMultiTeam(rows: seq<StatLine>): (r: Option<nat>)
    ensures r.None? <==> forall k :: 0 <= k < |rows| ==> !IsMultiTeam(rows[k].team)
    ensures r.Some? ==> r.value < |rows| && IsMultiTeam(rows[r.value].team)
                        && forall k :: 0 <= k < r.value ==> !IsMultiTeam(rows[k].team)
  {
    if rows == [] then None
    else if IsMultiTeam(rows[0].team) then Some(0)
    else match FirstMultiTeam(rows[1..])
      case None => None
      case Some(k) => Some(k + 1)
  }

  /** The season line a player is compared on: the aggregate line of a traded
      season, otherwise the first line. */
  function Preferred(rows: seq<StatLine>): StatLine
    requires rows != []
  {
    match FirstMultiTeam(rows)
    case Some(k) => rows[k]
    case None => rows[0]
  }

  /** The loop that looks for the aggregate line and breaks at the first. */
  method PreferredLine(yearRows: seq<StatLine>) returns (line: StatLine)
    requires yearRows != []
    ensures line == Preferred(yearRows)
    ensures line in yearRows
  {
    var found: Option<StatLine> := None;
    var i := 0;
    while i < |yearRows|
      invariant 0 <= i <= |yearRows|
      invariant forall k :: 0 <= k < i ==> !IsMultiTeam(yearRows[k].team)
      invariant found.None?
    {
      var entry := yearRows[i];
      if Contains(entry.team, "2TM") || Contains(entry.team, "3TM") {
        found := Some(entry);
        break;
      }
      i := i + 1;
    }
    if found.Some? {
      line := found.value;
    } else {
      line := yearRows[0];
    }
  }

  /** The two season lines compare_players puts side by side, or the error
      it stops with, in the order it checks them. */
  function ComparedLines(a: Side, b: Side, year: string): Result<(PlayerType, StatLine, StatLine), CompareError>
  {
    if a.pitchers == [] && a.hitters == [] then Err(NoMatches(1))
    else if b.pitchers == [] && b.hitters == [] then Err(NoMatches(2))
    else match CompareSeason(year)
      case None => Err(InvalidYear(year))
      case Some(season) =>
        match SharedType(a, b)
        case None => Err(DifferentTypes)
        case Some(t) =>
          var m1, m2 := Table(a, t), Table(b, t);
          if |RawNames(m1)| > 1 then Err(SeveralPlayers(1, Candidates(m1)))
          else if |RawNames(m2)| > 1 then Err(SeveralPlayers(2, Candidates(m2)))
          else
            var y1, y2 := RowsOfYear(m1, season), RowsOfYear(m2, season);
            if y1 == [] then Err(NoSeasonData(1, season))
            else if y2 == [] then Err(NoSeasonData(2, season))
            else Ok((t, Preferred(y1), Preferred(y2)))
  }

  /** Compared lines come from the same kind of table and the requested
      season, and a traded season's aggregate line is the one compared. */
  lemma ComparedLinesSpec(a: Side, b: Side, year: string)
    requires ComparedLines(a, b, year).Ok?
    ensures var (t, l1, l2) := ComparedLines(a, b, year).value;
      && l1 in Table(a, t) && l2 in Table(b, t)
      && l1.year == CompareSeason(year).value && l2.year == CompareSeason(year).value
      && ((exists r :: r in Table(a, t) && r.year == l1.year && IsMultiTeam(r.team)) ==> IsMultiTeam(l1.team))
  {
    var (t, l1, l2) := ComparedLines(a, b, year).value;
    var season := CompareSeason(year).value;
    ComparedLinesShape(a, b, year);
    var y1, y2 := RowsOfYear(Table(a, t), season), RowsOfYear(Table(b, t), season);
    PreferredIn(y1);
    PreferredIn(y2);
    if exists r :: r in Table(a, t) && r.year == l1.year && IsMultiTeam(r.team) {
      var r :| r in Table(a, t) && r.year == l1.year && IsMultiTeam(r.team);
      assert r in y1;
    }
  }

  /** The lines ComparedLines returns are the preferred lines of the season's rows. */
  lemma ComparedLinesShape(a: Side, b: Side, year: string)
    requires ComparedLines(a, b, year).Ok?
    ensures CompareSeason(year).Some? && SharedType(a, b).Some?
    ensures var (t, l1, l2) := ComparedLines(a, b, year).value;
      var season := CompareSeason(year).value;
      var y1, y2 := RowsOfYear(Table(a, t), season), RowsOfYear(Table(b, t), season);
      && t == SharedType(a, b).value && y1 != [] && y2 != []
      && l1 == Preferred(y1) && l2 == Preferred(y2)
  {
  }

  /** Pitching wins when both players pitched; different types are refused
      exactly when neither table is shared by the two players. */
  lemma ComparedTypeSpec(a: Side, b: Side, year: string)
    ensures ComparedLines(a, b, year).Ok? && a.pitchers != [] && b.pitchers != [] ==>
      ComparedLines(a, b, year).value.0 == Pitcher
    ensures ComparedLines(a, b, year) == Err(DifferentTypes) <==>
      && (a.pitchers != [] || a.hitters != []) && (b.pitchers != [] || b.hitters != [])
      && CompareSeason(year).Some?
      && !(a.pitchers != [] && b.pitchers != []) && !(a.hitters != [] && b.hitters != [])
  {
  }

  lemma PreferredIn(rows: seq<StatLine>)
    requires rows != []
    ensures Preferred(rows) in rows
    ensures (exists r :: r in rows && IsMultiTeam(r.team)) ==> IsMultiTeam(Preferred(rows).team)
  {
    if exists r :: r in rows && IsMultiTeam(r.team) {
      var r :| r in rows && IsMultiTeam(r.team);
      var k :| 0 <= k < |rows| && rows[k] == r;
    }
  }

  /** The stats compared: the requested ones that are columns of the table,
      or the default list of the type. */
  function HeadToHeadStats(t: PlayerType, stats: seq<string>, columnNames: set<string>): seq<StatLabel>
  {
    if stats == [] then DefaultHeadToHead(t)
    else Selected(stats, NormalizeStatLabel, (l: StatLabel) => l.key in columnNames)
  }

  function DefaultHeadToHead(t: PlayerType): seq<StatLabel>
  {
    match t
    case Pitcher =>
      [StatLabel("war", "WAR"), StatLabel("w", "W"), StatLabel("l", "L"), StatLabel("era", "ERA"),
       StatLabel("g", "G"), StatLabel("gs", "GS"), StatLabel("ip", "IP"), StatLabel("h", "H"),
       StatLabel("r", "R"), StatLabel("er", "ER"), StatLabel("hr", "HR"), StatLabel("bb", "BB"),
       StatLabel("so", "SO"), StatLabel("whip", "WHIP"), StatLabel("era_plus", "ERA+"),
       StatLabel("fip", "FIP"), StatLabel("so9", "SO/9"), StatLabel("bb9", "BB/9")]
    case Hitter =>
      [StatLabel("war", "WAR"), StatLabel("g", "G"), StatLabel("pa", "PA"), StatLabel("ab", "AB"),
       StatLabel("r", "R"), StatLabel("h", "H"), StatLabel("doubles", "2B"), StatLabel("triples", "3B"),
       StatLabel("hr", "HR"), StatLabel("rbi", "RBI"), StatLabel("sb", "SB"), StatLabel("bb", "BB"),
       StatLabel("so", "SO"), StatLabel("ba", "BA"), StatLabel("obp", "OBP"), StatLabel("slg", "SLG"),
       StatLabel("ops", "OPS"), StatLabel("ops_plus", "OPS+")]
  }

  /** Requested stats are compared exactly when they name a column. */
  lemma HeadToHeadStatsSpec(t: PlayerType, stats: seq<string>, columnNames: set<string>)
    requires stats != []
    ensures forall l :: l in HeadToHeadStats(t, stats, columnNames) ==> l.key in columnNames
    ensures forall i :: 0 <= i < |stats| && NormalizeStatLabel(stats[i]).key in columnNames ==>
      NormalizeStatLabel(stats[i]) in HeadToHeadStats(t, stats, columnNames)
  {
    SelectedPartition(stats, NormalizeStatLabel, (l: StatLabel) => l.key in columnNames);
  }

  /** The stat list is empty exactly when stats were requested and none of
      them names a column; the width computation then raises. */
  lemma HeadToHeadStatsEmpty(t: PlayerType, stats: seq<string>, columnNames: set<string>)
    ensures HeadToHeadStats(t, stats, columnNames) == []
        <==> stats != [] && forall i :: 0 <= i < |stats| ==> NormalizeStatLabel(stats[i]).key !in columnNames
  {
    SelectedEmpty(stats, NormalizeStatLabel, (l: StatLabel) => l.key in columnNames);
  }

  /** Which of the two values is printed green bold italic. */
  datatype Marks = Marks(first: bool, second: bool)

  /** The head-to-head loop body: only a strictly better value is marked; the
      lower-is-better set is the pitching one whatever the type. */
  function HeadToHead(key: string, v1: Option<real>, v2: Option<real>): Marks
  {
    if v1.None? || v2.None? then Marks(false, false)
    else if key in LowerIsBetter(Pitcher) then
      (if v1.value < v2.value then Marks(true, false)
       else if v2.value < v1.value then Marks(false, true)
       else Marks(false, false))
    else
      (if v1.value > v2.value then Marks(true, false)
       else if v2.value > v1.value then Marks(false, true)
       else Marks(false, false))
  }

  /** A value is marked exactly when both are present and it is strictly
      better; at most one is marked, none on a tie, and swapping the players
      swaps the marks. */
  lemma HeadToHeadSpec(key: string, v1: Option<real>, v2: Option<real>)
    ensures var m, lower := HeadToHead(key, v1, v2), key in LowerIsBetter(Pitcher);
      && (m.first <==> v1.Some? && v2.Some? && Improves(lower, v1.value, v2.value))
      && (m.second <==> v1.Some? && v2.Some? && Improves(lower, v2.value, v1.value))
      && !(m.first && m.second)
    ensures HeadToHead(key, v2, v1) == Marks(HeadToHead(key, v1, v2).second, HeadToHead(key, v1, v2).first)
  {
  }

  // ---------------------------------------------------------------- platoon year

  datatype PlatoonYear = NoYear | AllSeasons | Season(year: int)

  /** display_platoon_splits' -y argument: `all` in any case, a 2- or 4-digit
      season, nothing, or an error. */
  function PlatoonYearFilter(year: string): Option<PlatoonYear>
  {
    if year == "" then Some(NoYear)
    else if Lower(year) == "all" then Some(AllSeasons)
    else if |year| == 2 && AllDigits(year) then Some(Season(2000 + DigitsValue(year)))
    else if |year| == 4 && AllDigits(year) then Some(Season(DigitsValue(year)))
    else None
  }

  /** Apart from `all`, the platoon argument is read as parse_year_filter
      reads a year. */
  lemma PlatoonAgreesWithYearFilter(year: string)
    requires year != "" && Lower(year) != "all"
    ensures PlatoonYearFilter(year).None? <==> ParseYearFilter(year).None?
    ensures ParseYearFilter(year).Some? ==> PlatoonYearFilter(year) == Some(Season(ParseYearFilter(year).value))
  {
  }

  // ---------------------------------------------------------------- versus roles

  /** The outcome of the role rules: which player bats, a prompt when both
      are two-way players, or an error. */
  datatype Roles = FirstBats | SecondBats | AskWhoBats | Undetermined

  /** handle_versus_matchup's role rules over whether each player has
      pitching and batting rows. */
  function AssignRoles(p1: bool, h1: bool, p2: bool, h2: bool): Roles
  {
    if h1 && !p1 && p2 then FirstBats
    else if p1 && h2 && !p2 then SecondBats
    else if h1 && p2 && !h2 then FirstBats
    else if p1 && !h1 && h2 then SecondBats
    else if h1 && p1 && h2 && p2 then AskWhoBats
    else Undetermined
  }

  /** The answer to "Who is batting?": 1 names the first player, any other
      number the second. None when the first player does not bat. */
  function FirstIsBatter(r: Roles, choice: int): Option<bool>
  {
    match r
    case FirstBats => Some(true)
    case SecondBats => Some(false)
    case AskWhoBats => Some(choice == 1)
    case Undetermined => None
  }

  function Mirror(r: Roles): Roles
  {
    match r
    case FirstBats => SecondBats
    case SecondBats => FirstBats
    case other => other
  }

  /** The batter always has batting rows and the pitcher pitching rows; the
      prompt appears exactly for two two-way players; roles are undetermined
      exactly when neither arrangement is possible. */
  lemma RolesSpec(p1: bool, h1: bool, p2: bool, h2: bool)
    ensures AssignRoles(p1, h1, p2, h2) == FirstBats ==> h1 && p2
    ensures AssignRoles(p1, h1, p2, h2) == SecondBats ==> p1 && h2
    ensures AssignRoles(p1, h1, p2, h2) == AskWhoBats <==> p1 && h1 && p2 && h2
    ensures AssignRoles(p1, h1, p2, h2) == Undetermined <==> !(h1 && p2) && !(p1 && h2)
  {
  }

  /** Naming the players the other way round swaps the roles. */
  lemma RolesSymmetric(p1: bool, h1: bool, p2: bool, h2: bool)
    ensures AssignRoles(p2, h2, p1, h1) == Mirror(AssignRoles(p1, h1, p2, h2))
  {
  }

  /** The name a side is shown under: its first pitching row's, else its
      first batting row's, else the query itself. */
  function VersusName(s: Side, query: string): (r: string)
    ensures s.pitchers != [] ==> r == s.pitchers[0].player
    ensures s.pitchers == [] && s.hitters != [] ==> r == s.hitters[0].player
    ensures r == query || exists row :: row in s.pitchers + s.hitters && row.player == r
  {
    if s.pitchers != [] then s.pitchers[0].player
    else if s.hitters != [] then s.hitters[0].player
    else query
  }

  // ---------------------------------------------------------------- matchup years

  /** One entry of the batter-vs-pitcher stats: a season as text, or "career". */
  datatype MatchupLine = MatchupLine(year: string, stats: map<string, Option<real>>)

  datatype MatchupError = NoMatchupFor(year: string) | NoMatchup

  predicate WantsAll(yearFilter: string)
  {
    yearFilter != "" && Lower(yearFilter) == "all"
  }

  /** The season text a year argument selects: "20" before two digits. */
  function YearText(yearFilter: string): string
  {
    if |yearFilter| == 2 && AllDigits(yearFilter) then "20" + yearFilter else yearFilter
  }

  function NotCareer(l: MatchupLine): bool { l.year != "career" }

  function IsCareer(l: MatchupLine): bool { l.year == "career" }

  /** render_matchup_stats' choice of lines: every season and then the career
      total for `all`, one season for a year, the career line otherwise. */
  function MatchupSelection(lines: seq<MatchupLine>, yearFilter: string)
    : Result<(seq<MatchupLine>, seq<MatchupLine>), MatchupError>
  {
    if WantsAll(yearFilter) then
      var display := Filter(lines, NotCareer);
      if display == [] then Err(NoMatchup) else Ok((display, Filter(lines, IsCareer)))
    else if yearFilter != "" then
      var yearStr := YearText(yearFilter);
      var display := Filter(lines, (l: MatchupLine) => l.year == yearStr);
      if display == [] then Err(NoMatchupFor(yearStr)) else Ok((display, []))
    else
      var display := Filter(lines, IsCareer);
      if display == [] then Err(NoMatchup) else Ok((display, []))
  }

  /** What is shown is never empty and keeps the input order; with `all` it
      is every season line, followed by the career lines, which together are
      exactly the input; with a year it is every line of that season; without
      one every career line. There is an error exactly when nothing would be
      shown, and for a year it names the season text it looked for. */
  lemma MatchupSelectionSpec(lines: seq<MatchupLine>, yearFilter: string)
    ensures MatchupSelection(lines, yearFilter).Ok? ==>
      var (display, career) := MatchupSelection(lines, yearFilter).value;
      && display != []
      && IsSubsequence(display, lines)
      && (WantsAll(yearFilter) ==>
            && (forall l :: l in display <==> l in lines && l.year != "career")
            && (forall l :: l in career <==> l in lines && l.year == "career")
            && multiset(display) + multiset(career) == multiset(lines))
      && (!WantsAll(yearFilter) && yearFilter != "" ==>
            career == [] && forall l :: l in display <==> l in lines && l.year == YearText(yearFilter))
      && (yearFilter == "" ==> career == [] && forall l :: l in display <==> l in lines && l.year == "career")
    ensures WantsAll(yearFilter) ==>
      (MatchupSelection(lines, yearFilter).Err? <==> forall l :: l in lines ==> l.year == "career")
    ensures yearFilter == "" ==>
      (MatchupSelection(lines, yearFilter).Err? <==> forall l :: l in lines ==> l.year != "career")
    ensures !WantsAll(yearFilter) && yearFilter != "" ==>
      (MatchupSelection(lines, yearFilter).Err? <==> forall l :: l in lines ==> l.year != YearText(yearFilter))
    ensures MatchupSelection(lines, yearFilter).Err? && !WantsAll(yearFilter) && yearFilter != "" ==>
      MatchupSelection(lines, yearFilter) == Err(NoMatchupFor(YearText(yearFilter)))
  {
    if WantsAll(yearFilter) {
      FilterSplit(lines, NotCareer, IsCareer);
      FilterIsSubsequence(lines, NotCareer);
      EmptyFilter(lines, NotCareer);
    } else if yearFilter != "" {
      var yearStr := YearText(yearFilter);
      FilterIsSubsequence(lines, (l: MatchupLine) => l.year == yearStr);
      EmptyFilter(lines, (l: MatchupLine) => l.year == yearStr);
    } else {
      FilterIsSubsequence(lines, IsCareer);
      EmptyFilter(lines, IsCareer);
    }
  }

  /** The season text a digits argument selects is the season
      parse_year_filter reads from it. */
  lemma YearTextAgrees(yearFilter: string)
    requires AllDigits(yearFilter) && (|yearFilter| == 2 || |yearFilter| == 4)
    ensures AllDigits(YearText(yearFilter))
    ensures ParseYearFilter(yearFilter) == Some(DigitsValue(YearText(yearFilter)))
  {
    if |yearFilter| == 2 {
      DigitsAppend("20", yearFilter);
      DigitsValueAppend("20", yearFilter);
    }
  }
}
