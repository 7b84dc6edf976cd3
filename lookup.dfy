/** The decisions `main` takes between finding rows and rendering them: the
    exclusive mode flags, the fuzzy "did you mean" choice, the prompt / list /
    render choice for several players, and the two-way rule that picks the
    pitcher table, the hitter table or both. */
module Lookup {
  import opened Wrappers
  import opened Seqs
  import opened Text
  import opened Parsing
  import opened Rows
  import opened Resolver

  // ---------------------------------------------------------------- modes

  datatype Mode = Platoon | Versus | ComparePlayers | CompareTeam | CompareLeague | Plain

  /** The mode flags: -c and -v carry a value (non-empty means set), -ct, -cl
      and -p are switches. */
  datatype Flags = Flags(compare: bool, compareTeam: bool, compareLeague: bool, versus: bool, platoon: bool)

  function FlagCount(f: Flags): nat
  {
    (if f.compare then 1 else 0) + (if f.compareTeam then 1 else 0) + (if f.compareLeague then 1 else 0)
    + (if f.versus then 1 else 0) + (if f.platoon then 1 else 0)
  }

  predicate ModeFlag(f: Flags, m: Mode)
  {
    match m
    case Platoon => f.platoon
    case Versus => f.versus
    case ComparePlayers => f.compare
    case CompareTeam => f.compareTeam
    case CompareLeague => f.compareLeague
    case Plain => FlagCount(f) == 0
  }

  /** More than one mode is an error; otherwise the one flag set decides, and
      no flag means the plain lookup. */
  function SelectMode(f: Flags): (r: Option<Mode>)
    ensures r.None? <==> FlagCount(f) > 1
    ensures r.Some? ==> ModeFlag(f, r.value)
    ensures r.Some? ==> forall m :: ModeFlag(f, m) ==> m == r.value
  {
    if FlagCount(f) > 1 then None
    else if f.platoon then Some(Platoon)
    else if f.versus then Some(Versus)
    else if f.compare then Some(ComparePlayers)
    else if f.compareTeam then Some(CompareTeam)
    else if f.compareLeague then Some(CompareLeague)
    else Some(Plain)
  }

  // ---------------------------------------------------------------- fuzzy suggestions

  /** A suggested name and the table it came from. */
  datatype Suggestion = Suggestion(name: string, kind: PlayerType)

  function Tagged(names: seq<string>, t: PlayerType): (r: seq<Suggestion>)
    ensures |r| == |names| && forall i :: 0 <= i < |names| ==> r[i] == Suggestion(names[i], t)
  {
    seq(|names|, i requires 0 <= i < |names| => Suggestion(names[i], t))
  }

  /** The numbered suggestion list: fuzzy pitcher names, then fuzzy hitter names. */
  function Suggestions(fuzzyPitchers: seq<string>, fuzzyHitters: seq<string>): (r: seq<Suggestion>)
    ensures |r| == |fuzzyPitchers| + |fuzzyHitters|
    ensures forall i :: 0 <= i < |fuzzyPitchers| ==> r[i] == Suggestion(fuzzyPitchers[i], Pitcher)
    ensures forall j :: 0 <= j < |fuzzyHitters| ==> r[|fuzzyPitchers| + j] == Suggestion(fuzzyHitters[j], Hitter)
    ensures forall i, j :: 0 <= i < j < |r| && r[j].kind == Pitcher ==> r[i].kind == Pitcher
  {
    Tagged(fuzzyPitchers, Pitcher) + Tagged(fuzzyHitters, Hitter)
  }

  /** The user's reply: a yes/no confirmation for a single suggestion, a number
      for a list, or nothing usable (a non-numeric reply or an abort). */
  datatype Reply = Confirmed(yes: bool) | Number(n: int) | NoReply

  /** The name main searches again with, or None when the user cancels: one
      suggestion is confirmed, several are chosen by number 1..n. */
  function PickSuggestion(all: seq<Suggestion>, reply: Reply): (r: Option<string>)
    ensures r.Some? ==> exists s :: s in all && s.name == r.value
    ensures |all| == 1 ==> (r.Some? <==> reply == Confirmed(true))
    ensures |all| > 1 ==> (r.Some? <==> reply.Number? && 1 <= reply.n <= |all|)
    ensures |all| > 1 && reply.Number? && 1 <= reply.n <= |all| ==> r == Some(all[reply.n - 1].name)
  {
    if |all| == 0 then None
    else if |all| == 1 then (if reply == Confirmed(true) then Some(all[0].name) else None)
    else if reply.Number? && 1 <= reply.n <= |all| then Some(all[reply.n - 1].name)
    else None
  }

  // ---------------------------------------------------------------- several players

  /** The marker-stripped names of a table's matches. */
  function StrippedNames(rows: seq<StatLine>): set<string>
  {
    set r | r in rows :: StripMarkers(r.player)
  }

  /** The non-empty player_additional ids of a table's matches. */
  function Ids(rows: seq<StatLine>): set<string>
  {
    set r | r in rows && r.id.Some? && r.id.value != "" :: r.id.value
  }

  /** The rows of one stripped name. */
  function RowsNamed(rows: seq<StatLine>, name: string): (r: seq<StatLine>)
    ensures forall x :: x in r <==> x in rows && StripMarkers(x.player) == name
  {
    Filter(rows, (x: StatLine) => StripMarkers(x.player) == name)
  }

  /** The name_counts loop of main over all stripped names. */
  method CountNames(allNames: seq<string>) returns (nameCounts: map<string, nat>)
    ensures forall n :: n in nameCounts <==> n in allNames
    ensures forall n :: n in nameCounts ==> nameCounts[n] == Count(allNames, n)
  {
    nameCounts := map[];
    for i := 0 to |allNames|
      invariant forall n :: n in nameCounts <==> n in allNames[..i]
      invariant forall n :: n in nameCounts ==> nameCounts[n] == Count(allNames[..i], n)
    {
      var name := allNames[i];
      assert allNames[..i + 1] == allNames[..i] + [name];
      forall n ensures Count(allNames[..i + 1], n) == Count(allNames[..i], n) + (if n == name then 1 else 0) {
        CountAppend(allNames[..i], [name], n);
      }
      if name !in nameCounts {
        CountAbsent(allNames[..i], name);
      }
      nameCounts := nameCounts[name := (if name in nameCounts then nameCounts[name] else 0) + 1];
    }
    assert allNames[..|allNames|] == allNames;
  }

  predicate HasDuplicateCount(nameCounts: map<string, nat>)
  {
    exists n :: n in nameCounts && nameCounts[n] > 1
  }

  /** Counting over a list of each table's distinct names finds a duplicate
      exactly when some name is both a pitcher's and a hitter's. */
  lemma DuplicateIffShared(a: seq<string>, b: seq<string>, nameCounts: map<string, nat>)
    requires Distinct(a) && Distinct(b)
    requires forall n :: n in nameCounts <==> n in a + b
    requires forall n :: n in nameCounts ==> nameCounts[n] == Count(a + b, n)
    ensures HasDuplicateCount(nameCounts) <==> exists n :: n in a && n in b
  {
    forall n ensures Count(a + b, n) == (if n in a then 1 else 0) + (if n in b then 1 else 0) {
      CountAppend(a, b, n);
      CountDistinct(a, n);
      CountDistinct(b, n);
    }
    if exists n :: n in a && n in b {
      var n :| n in a && n in b;
      assert n in a + b;
    }
  }

  /** main's duplicate test over the two tables' name lists is the shared-name
      test Disambiguate uses. */
  lemma CountsDetectSharedName(m: Matches, a: seq<string>, b: seq<string>, nameCounts: map<string, nat>)
    requires Distinct(a) && Distinct(b)
    requires forall n :: n in a <==> n in StrippedNames(m.pitchers)
    requires forall n :: n in b <==> n in StrippedNames(m.hitters)
    requires forall n :: n in nameCounts <==> n in a + b
    requires forall n :: n in nameCounts ==> nameCounts[n] == Count(a + b, n)
    ensures HasDuplicateCount(nameCounts) <==> SharedName(m)
  {
    DuplicateIffShared(a, b, nameCounts);
    var ps, hs := StrippedNames(m.pitchers), StrippedNames(m.hitters);
    SharedInBoth(a, b, ps, hs);
  }

  lemma SharedInBoth(a: seq<string>, b: seq<string>, ps: set<string>, hs: set<string>)
    requires forall n :: n in a <==> n in ps
    requires forall n :: n in b <==> n in hs
    ensures (exists n :: n in a && n in b) <==> ps * hs != {}
  {
    if ps * hs != {} {
      var n :| n in ps * hs;
      assert n in a && n in b;
    }
    if exists n :: n in a && n in b {
      var n :| n in a && n in b;
      assert n in ps * hs;
    }
  }

  /** One numbered entry of the disambiguation prompt; it is shown with
      ChoiceTeam. */
  datatype Choice = Choice(name: string, kind: PlayerType, rows: seq<StatLine>)

  function ChoiceTeam(c: Choice): Option<string>
  {
    PlayerTeamInfo(c.rows)
  }

  function ChoicesOf(rows: seq<StatLine>, t: PlayerType, names: seq<string>): (r: seq<Choice>)
    ensures |r| == |names|
    ensures forall i :: 0 <= i < |names| ==> r[i] == Choice(names[i], t, RowsNamed(rows, names[i]))
  {
    seq(|names|, i requires 0 <= i < |names| => Choice(names[i], t, RowsNamed(rows, names[i])))
  }

  /** The prompt's entries for one table: one per stripped name, in sorted
      order, each holding the rows of that name. */
  function TableChoices(rows: seq<StatLine>, t: PlayerType): (r: seq<Choice>)
    ensures |r| == |StrippedNames(rows)|
    ensures forall n :: n in StrippedNames(rows) <==> exists k :: 0 <= k < |r| && r[k].name == n
    ensures forall i, j :: 0 <= i < j < |r| ==> LexLt(r[i].name, r[j].name)
    ensures forall k :: 0 <= k < |r| ==> r[k].kind == t && r[k].rows == RowsNamed(rows, r[k].name)
    ensures forall k :: 0 <= k < |r| ==> r[k].rows != [] && StrippedNames(r[k].rows) == {r[k].name}
  {
    var names := SortedNames(StrippedNames(rows));
    ChoiceNames(ChoicesOf(rows, t, names), names, StrippedNames(rows));
    ChoiceRows(rows, t, names);
    ChoicesOf(rows, t, names)
  }

  /** Choices made from the sorted names of a set: one per name, in order. */
  lemma ChoiceNames(r: seq<Choice>, names: seq<string>, s: set<string>)
    requires |r| == |names| && forall k :: 0 <= k < |r| ==> r[k].name == names[k]
    requires |names| == |s| && (forall x :: x in names <==> x in s) && StrictlySorted(names)
    ensures |r| == |s|
    ensures forall n :: n in s <==> exists k :: 0 <= k < |r| && r[k].name == n
    ensures forall i, j :: 0 <= i < j < |r| ==> LexLt(r[i].name, r[j].name)
  {
    forall n | n in s ensures exists k :: 0 <= k < |r| && r[k].name == n {
      var k :| 0 <= k < |names| && names[k] == n;
      assert r[k].name == n;
    }
  }

  lemma ChoiceRows(rows: seq<StatLine>, t: PlayerType, names: seq<string>)
    requires forall n :: n in names ==> n in StrippedNames(rows)
    ensures var r := ChoicesOf(rows, t, names);
      forall k :: 0 <= k < |r| ==> r[k].rows != [] && StrippedNames(r[k].rows) == {r[k].name}
  {
    var r := ChoicesOf(rows, t, names);
    forall k | 0 <= k < |r| ensures r[k].rows != [] && StrippedNames(r[k].rows) == {r[k].name} {
      ChoicesOfNamed(rows, t, names, k);
    }
  }

  /** Each entry holds rows, all of the entry's own stripped name. */
  predicate OneNameEach(cs: seq<Choice>)
  {
    forall k :: 0 <= k < |cs| ==> cs[k].rows != [] && StrippedNames(cs[k].rows) == {cs[k].name}
  }

  lemma OneNameEachJoin(a: seq<Choice>, b: seq<Choice>)
    requires OneNameEach(a) && OneNameEach(b)
    ensures OneNameEach(a + b)
  {
    forall k | 0 <= k < |a + b| ensures (a + b)[k].rows != [] && StrippedNames((a + b)[k].rows) == {(a + b)[k].name} {
      if k < |a| { assert (a + b)[k] == a[k]; } else { assert (a + b)[k] == b[k - |a|]; }
    }
  }

  /** The prompt's entries: the pitchers', then the hitters'. */
  function Choices(m: Matches): (r: seq<Choice>)
    ensures OneNameEach(r)
  {
    var ps := if m.pitchers != [] then TableChoices(m.pitchers, Pitcher) else [];
    var hs := if m.hitters != [] then TableChoices(m.hitters, Hitter) else [];
    OneNameEachJoin(ps, hs);
    ps + hs
  }

  function RawNames(rows: seq<StatLine>): set<string>
  {
    set r | r in rows :: r.player
  }

  /** list_matching_players: the distinct raw names in sorted order; each is
      shown with CandidateTeam. */
  function Candidates(rows: seq<StatLine>): (r: seq<string>)
    ensures |r| == |RawNames(rows)|
    ensures StrictlySorted(r)
    ensures forall n :: n in r <==> n in RawNames(rows)
  {
    SortedNames(RawNames(rows))
  }

  function CandidateTeam(rows: seq<StatLine>, name: string): Option<string>
  {
    PlayerTeamInfo(Filter(rows, (x: StatLine) => x.player == name))
  }

  /** What main does with the rows find_player returned: nothing found, the
      numbered prompt over Choices(m), the list of each table's Candidates
      with their CandidateTeam, or rendering. */
  datatype Decision = NotFound | Prompt | ListAll | Proceed

  predicate SharedName(m: Matches)
  {
    StrippedNames(m.pitchers) * StrippedNames(m.hitters) != {}
  }

  predicate SamePerson(m: Matches)
  {
    Ids(m.pitchers) * Ids(m.hitters) != {}
  }

  /** A shared stripped name without a shared id prompts; otherwise more than
      one stripped name lists the candidates; otherwise main goes on, and
      then every row carries one and the same stripped name. */
  function Disambiguate(m: Matches): (d: Decision)
    ensures d.NotFound? <==> m.pitchers == [] && m.hitters == []
    ensures d.Prompt? <==> (m.pitchers != [] || m.hitters != []) && SharedName(m) && !SamePerson(m)
    ensures d.ListAll? <==> (m.pitchers != [] || m.hitters != []) && !(SharedName(m) && !SamePerson(m))
                            && |StrippedNames(m.pitchers) + StrippedNames(m.hitters)| > 1
    ensures d.Proceed? <==> (m.pitchers != [] || m.hitters != []) && !(SharedName(m) && !SamePerson(m))
                            && |StrippedNames(m.pitchers) + StrippedNames(m.hitters)| <= 1
    ensures d.Proceed? ==> |StrippedNames(m.pitchers) + StrippedNames(m.hitters)| == 1
  {
    if m.pitchers == [] && m.hitters == [] then NotFound
    else if SharedName(m) && !SamePerson(m) then Prompt
    else if |StrippedNames(m.pitchers) + StrippedNames(m.hitters)| > 1 then
      ListAll
    else
      SomeName(m);
      Proceed
  }

  /** Matches with a row have at least one stripped name. */
  lemma SomeName(m: Matches)
    requires m.pitchers != [] || m.hitters != []
    ensures |StrippedNames(m.pitchers) + StrippedNames(m.hitters)| >= 1
  {
    var r := if m.pitchers != [] then m.pitchers[0] else m.hitters[0];
    assert StripMarkers(r.player) in StrippedNames(m.pitchers) + StrippedNames(m.hitters);
  }

  /** The rows kept after the prompt: the chosen entry's rows on its side, nothing
      on the other; None when the reply is 0, out of range or unusable. */
  function ApplyChoice(choices: seq<Choice>, reply: Option<int>): (r: Option<Matches>)
    ensures r.Some? <==> reply.Some? && 1 <= reply.value <= |choices|
    ensures r.Some? && choices[reply.value - 1].kind == Pitcher ==> r.value == Matches(choices[reply.value - 1].rows, [])
    ensures r.Some? && choices[reply.value - 1].kind == Hitter ==> r.value == Matches([], choices[reply.value - 1].rows)
  {
    if reply.None? || reply.value <= 0 || reply.value > |choices| then None
    else
      var c := choices[reply.value - 1];
      Some(if c.kind == Pitcher then Matches(c.rows, []) else Matches([], c.rows))
  }

  /** The rows of a name that occurs are not empty and carry only that name. */
  lemma {:induction false} RowsNamedImage(rows: seq<StatLine>, name: string)
    requires name in StrippedNames(rows)
    ensures RowsNamed(rows, name) != [] && StrippedNames(RowsNamed(rows, name)) == {name}
  {
    RowsNamedNonEmpty(rows, name);
    NameOfRowsNamed(rows, name);
    RowsNamedOnly(rows, name);
  }

  lemma {:induction false} NameOfRowsNamed(rows: seq<StatLine>, name: string)
    requires name in StrippedNames(rows)
    ensures name in StrippedNames(RowsNamed(rows, name))
  {
    var r :| r in rows && StripMarkers(r.player) == name;
    assert r in RowsNamed(rows, name);
  }

  lemma {:induction false} RowsNamedNonEmpty(rows: seq<StatLine>, name: string)
    requires name in StrippedNames(rows)
    ensures RowsNamed(rows, name) != []
  {
    NameOfRowsNamed(rows, name);
  }

  lemma {:induction false} RowsNamedOnly(rows: seq<StatLine>, name: string)
    ensures forall x :: x in StrippedNames(RowsNamed(rows, name)) ==> x == name
  {
    forall x | x in StrippedNames(RowsNamed(rows, name)) ensures x == name {
      var y :| y in RowsNamed(rows, name) && StripMarkers(y.player) == x;
    }
  }

  lemma {:induction false} ChoicesOfNamed(rows: seq<StatLine>, t: PlayerType, names: seq<string>, k: nat)
    requires k < |ChoicesOf(rows, t, names)|
    requires forall n :: n in names ==> n in StrippedNames(rows)
    ensures var c := ChoicesOf(rows, t, names)[k];
            c.kind == t && c.rows != [] && StrippedNames(c.rows) == {c.name}
  {
    assert names[k] in names;
    RowsNamedImage(rows, names[k]);
  }

  /** After a valid answer to the prompt main renders: the kept rows all carry
      the chosen name, so nothing is ambiguous any more. */
  lemma {:induction false} ChosenRowsProceed(m: Matches, reply: Option<int>)
    requires ApplyChoice(Choices(m), reply).Some?
    ensures var m' := ApplyChoice(Choices(m), reply).value;
            Disambiguate(m') == Proceed && (m'.pitchers == [] || m'.hitters == [])
  {
    var cs := Choices(m);
    var c := cs[reply.value - 1];
    assert c.rows != [] && StrippedNames(c.rows) == {c.name};
    var m' := if c.kind == Pitcher then Matches(c.rows, []) else Matches([], c.rows);
    assert ApplyChoice(cs, reply) == Some(m');
    OneNameProceeds(m', c.name);
  }

  /** Rows of one name on one side only are rendered without asking. */
  lemma {:induction false} OneNameProceeds(m: Matches, name: string)
    requires (m.pitchers == [] && m.hitters != [] && StrippedNames(m.hitters) == {name})
          || (m.hitters == [] && m.pitchers != [] && StrippedNames(m.pitchers) == {name})
    ensures Disambiguate(m) == Proceed
  {
    assert StrippedNames([]) == {};
    assert StrippedNames(m.pitchers) + StrippedNames(m.hitters) == {name};
    assert !SharedName(m);
  }

  // ---------------------------------------------------------------- two-way players

  /** The sum of the games column over rows where it is not NULL. */
  function TotalGames(rows: seq<StatLine>): real
  {
    if rows == [] then 0.0
    else (if Get(rows[0], "g").Some? then Get(rows[0], "g").value else 0.0) + TotalGames(rows[1..])
  }

  lemma {:induction false} TotalGamesAppend(a: seq<StatLine>, b: seq<StatLine>)
    ensures TotalGames(a + b) == TotalGames(a) + TotalGames(b)
  {
    if a == [] {
      assert a + b == b;
    } else {
      assert (a + b)[0] == a[0];
      assert (a + b)[1..] == a[1..] + b;
      TotalGamesAppend(a[1..], b);
    }
  }

  /** Rows whose games column is NULL do not change the total. */
  lemma {:induction false} TotalGamesSkipsNull(rows: seq<StatLine>)
    ensures TotalGames(Filter(rows, HasGames)) == TotalGames(rows)
  {
    if rows != [] {
      var p := HasGames;
      TotalGamesSkipsNull(rows[1..]);
      var head := if p(rows[0]) then [rows[0]] else [];
      assert Filter(rows, p) == head + Filter(rows[1..], p);
      TotalGamesAppend(head, Filter(rows[1..], p));
      assert [rows[0]][1..] == [];
    }
  }

  /** The table a two-way non-Ohtani match is shown as: the pitcher table when
      the pitcher rows account for at least as many games. */
  function ByGames(m: Matches): (t: PlayerType)
    ensures t == Pitcher <==> TotalGames(m.pitchers) >= TotalGames(m.hitters)
  {
    if TotalGames(m.pitchers) >= TotalGames(m.hitters) then Pitcher else Hitter
  }

  predicate HasGames(r: StatLine)
  {
    Get(r, "g").Some?
  }

  /** Only rows with a games value take part in the choice. */
  lemma ByGamesIgnoresNullGames(m: Matches)
    ensures ByGames(Matches(Filter(m.pitchers, HasGames), Filter(m.hitters, HasGames))) == ByGames(m)
  {
    TotalGamesSkipsNull(m.pitchers);
    TotalGamesSkipsNull(m.hitters);
  }

  /** The choice adds up: when two groups of rows each favour the pitcher table
      (or each the hitter table), so do the rows together. */
  lemma ByGamesOfParts(a: Matches, b: Matches)
    requires ByGames(a) == ByGames(b)
    ensures ByGames(Matches(a.pitchers + b.pitchers, a.hitters + b.hitters)) == ByGames(a)
  {
    TotalGamesAppend(a.pitchers, b.pitchers);
    TotalGamesAppend(a.hitters, b.hitters);
  }

  /** is_ohtani applied to the first pitching row, as main and the
      comparison commands test a two-way match. */
  predicate FirstPitcherIsOhtani(m: Matches)
    requires m.pitchers != []
  {
    IsOhtani(m.pitchers[0].player)
  }

  /** compare_to_team, compare_to_league and display_platoon_splits: which
      table the comparison uses, or why there is none. */
  datatype TypeChoice = NoPlayer | TwoWayUnsupported | Chosen(t: PlayerType)

  function ComparisonType(m: Matches): (c: TypeChoice)
    ensures c.NoPlayer? <==> m.pitchers == [] && m.hitters == []
    ensures c.TwoWayUnsupported? <==> m.pitchers != [] && m.hitters != [] && FirstPitcherIsOhtani(m)
    ensures c.Chosen? && m.pitchers != [] && m.hitters != [] ==> c.t == ByGames(m)
    ensures c.Chosen? && (m.pitchers == [] || m.hitters == []) ==> (c.t == Pitcher <==> m.pitchers != [])
  {
    if m.pitchers == [] && m.hitters == [] then NoPlayer
    else if m.pitchers != [] && m.hitters != [] then
      (if FirstPitcherIsOhtani(m) then TwoWayUnsupported else Chosen(ByGames(m)))
    else Chosen(if m.pitchers != [] then Pitcher else Hitter)
  }

  /** A requested stat that needs the pitcher table. */
  predicate AsksPitcher(stat: string)
  {
    StatCategoryAsWritten(NormalizeStatLabel(stat).key) != HitterStat
  }

  /** A requested stat that needs the hitter table. */
  predicate AsksHitter(stat: string)
  {
    StatCategoryAsWritten(NormalizeStatLabel(stat).key) != PitcherStat
  }

  /** The loop over the requested stats for Ohtani: a pitcher stat asks for the
      pitcher table, a hitter stat for the hitter table, a common stat for both. */
  method OhtaniTables(stats: seq<string>) returns (showPitcher: bool, showHitter: bool)
    ensures showPitcher <==> exists i :: 0 <= i < |stats| && AsksPitcher(stats[i])
    ensures showHitter <==> exists i :: 0 <= i < |stats| && AsksHitter(stats[i])
  {
    showPitcher, showHitter := false, false;
    for i := 0 to |stats|
      invariant showPitcher == AnyOf(stats[..i], AsksPitcher)
      invariant showHitter == AnyOf(stats[..i], AsksHitter)
    {
      assert stats[..i + 1][..i] == stats[..i];
      var category := StatCategoryAsWritten(NormalizeStatLabel(stats[i]).key);
      assert AsksPitcher(stats[i]) == (category != HitterStat);
      assert AsksHitter(stats[i]) == (category != PitcherStat);
      if category == PitcherStat {
        showPitcher := true;
      } else if category == HitterStat {
        showHitter := true;
      } else {
        showPitcher := true;
        showHitter := true;
      }
    }
    assert stats[..|stats|] == stats;
    AnyOfSpec(stats, AsksPitcher);
    AnyOfSpec(stats, AsksHitter);
  }

  /** The tables the OhtaniTables flags select, pitcher first. Every stat asks
      for at least one table, so something is shown whenever stats were
      requested. */
  function OhtaniShown(stats: seq<string>): (r: seq<PlayerType>)
    ensures r == (if exists i :: 0 <= i < |stats| && AsksPitcher(stats[i]) then [Pitcher] else [])
               + (if exists i :: 0 <= i < |stats| && AsksHitter(stats[i]) then [Hitter] else [])
    ensures stats != [] ==> r == [Pitcher] || r == [Hitter] || r == [Pitcher, Hitter]
  {
    AnyOfSpec(stats, AsksPitcher);
    AnyOfSpec(stats, AsksHitter);
    assert stats != [] ==> AsksPitcher(stats[0]) || AsksHitter(stats[0]);
    (if AnyOf(stats, AsksPitcher) then [Pitcher] else []) + (if AnyOf(stats, AsksHitter) then [Hitter] else [])
  }

  /** Which tables main renders once it proceeds, from which sides matched,
      whether the first pitcher is Ohtani and which side has more games. For
      Ohtani with requested stats, a table is shown when some requested stat
      asks for it (the OhtaniTables loop); without stats both tables. At least
      one table is rendered, the pitcher table first, and only a side with
      rows gets one. */
  function ShownTables(pitchers: bool, hitters: bool, ohtani: bool, byGames: PlayerType, stats: seq<string>): (r: seq<PlayerType>)
    requires pitchers || hitters
    ensures pitchers && hitters && !ohtani ==> r == [byGames]
    ensures !pitchers ==> r == [Hitter]
    ensures !hitters ==> r == [Pitcher]
    ensures pitchers && hitters && ohtani && stats == [] ==> r == [Pitcher, Hitter]
    ensures pitchers && hitters && ohtani && stats != [] ==>
      r == (if exists i :: 0 <= i < |stats| && AsksPitcher(stats[i]) then [Pitcher] else [])
         + (if exists i :: 0 <= i < |stats| && AsksHitter(stats[i]) then [Hitter] else [])
    ensures r != []
    ensures forall i, j :: 0 <= i < j < |r| ==> r[i] == Pitcher && r[j] == Hitter
    ensures forall t :: t in r ==> (t == Pitcher ==> pitchers) && (t == Hitter ==> hitters)
  {
    if pitchers && hitters then
      if ohtani then
        if stats != [] then OhtaniShown(stats)
        else [Pitcher, Hitter]
      else [byGames]
    else if pitchers then [Pitcher]
    else [Hitter]
  }

  /** main's tables for the matched rows. */
  function Tables(m: Matches, stats: seq<string>): (r: seq<PlayerType>)
    requires m.pitchers != [] || m.hitters != []
    ensures m.pitchers != [] && m.hitters != [] && !FirstPitcherIsOhtani(m) ==> r == [ByGames(m)]
    ensures m.pitchers == [] ==> r == [Hitter]
    ensures m.hitters == [] ==> r == [Pitcher]
    ensures m.pitchers != [] && m.hitters != [] && FirstPitcherIsOhtani(m) && stats == [] ==> r == [Pitcher, Hitter]
    ensures m.pitchers != [] && m.hitters != [] && FirstPitcherIsOhtani(m) && stats != [] ==>
      r == (if exists i :: 0 <= i < |stats| && AsksPitcher(stats[i]) then [Pitcher] else [])
         + (if exists i :: 0 <= i < |stats| && AsksHitter(stats[i]) then [Hitter] else [])
  {
    ShownTables(m.pitchers != [], m.hitters != [], m.pitchers != [] && FirstPitcherIsOhtani(m), ByGames(m), stats)
  }

  /** At least one table is rendered, the pitcher table before the hitter
      table, and only a side with rows gets one. */
  lemma TablesShape(m: Matches, stats: seq<string>)
    requires m.pitchers != [] || m.hitters != []
    ensures Tables(m, stats) != []
    ensures forall i, j :: 0 <= i < j < |Tables(m, stats)| ==> Tables(m, stats)[i] == Pitcher && Tables(m, stats)[j] == Hitter
    ensures forall t :: t in Tables(m, stats) ==> (t == Pitcher ==> m.pitchers != []) && (t == Hitter ==> m.hitters != [])
  {
    var ohtani := m.pitchers != [] && FirstPitcherIsOhtani(m);
    var r := ShownTables(m.pitchers != [], m.hitters != [], ohtani, ByGames(m), stats);
    assert Tables(m, stats) == r;
  }
}
