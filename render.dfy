/** render_player's decisions about one player's season table: which rows are
    shown, in what order, with which "did not play" lines, and how each cell
    is emphasised or coloured (bcli.py:404-432, 541-601, 712-858). */
module Render {
  import opened Wrappers
  import opened Seqs
  import opened Text
  import opened Parsing
  import opened Rows
  import opened Leaders
  import opened Lookup
  import opened Columns

  // ---------------------------------------------------------------- rows to render

  datatype RenderError =
    | InvalidYear(year: string)
    | NoSeasonData(season: int)
    | SeveralPlayers(names: seq<string>)
    | NoRows

  /** The -y filter: no filter for an empty argument, an error for a token
      parse_year_filter rejects or a season without rows. */
  function YearFiltered(rows: seq<StatLine>, year: string): Result<seq<StatLine>, RenderError>
  {
    if year == "" then Ok(rows)
    else match ParseYearFilter(year)
      case None => Err(InvalidYear(year))
      case Some(y) =>
        var kept := RowsOfYear(rows, y);
        if kept == [] then Err(NoSeasonData(y)) else Ok(kept)
  }

  /** The rows render_player goes on to show. Several raw names among them is
      an error that lists the names in sorted order; an empty list, which
      the source indexes anyway, is NoRows. */
  function PlayerRows(rows: seq<StatLine>, year: string): Result<seq<StatLine>, RenderError>
  {
    match YearFiltered(rows, year)
    case Err(e) => Err(e)
    case Ok(m) =>
      if |m| > 1 && |RawNames(m)| > 1 then Err(SeveralPlayers(Candidates(m)))
      else if m == [] then Err(NoRows)
      else Ok(m)
  }

  lemma SingletonSet(s: set<string>, x: string, y: string)
    requires |s| <= 1 && x in s && y in s
    ensures x == y
  {
    if x != y {
      assert {x, y} <= s;
      assert |{x, y}| == 2;
      SubsetCardinality({x, y}, s);
    }
  }

  lemma {:induction false} SubsetCardinality(a: set<string>, b: set<string>)
    requires a <= b
    ensures |a| <= |b|
    decreases |b|
  {
    if a != {} {
      var x :| x in a;
      SubsetCardinality(a - {x}, b - {x});
    }
  }

  /** What a successful filter hands on: a non-empty list of rows of one
      player, all from the requested season when one was given, and all of
      that season's rows. */
  lemma PlayerRowsSpec(rows: seq<StatLine>, year: string)
    ensures PlayerRows(rows, year).Ok? ==>
      var m := PlayerRows(rows, year).value;
      && m != []
      && (forall r :: r in m ==> r in rows && r.player == m[0].player)
      && (year == "" ==> m == rows)
      && (year != "" ==> m == RowsOfYear(rows, ParseYearFilter(year).value))
    ensures PlayerRows(rows, year) == Err(InvalidYear(year)) <==> year != "" && ParseYearFilter(year).None?
    ensures (PlayerRows(rows, year).Err? && PlayerRows(rows, year).error.SeveralPlayers?)
        <==> YearFiltered(rows, year).Ok? && |RawNames(YearFiltered(rows, year).value)| > 1
    ensures PlayerRows(rows, year).Err? && PlayerRows(rows, year).error.SeveralPlayers? ==>
      var names := PlayerRows(rows, year).error.names;
      var m := YearFiltered(rows, year).value;
      && |names| == |RawNames(m)| >= 2 && StrictlySorted(names)
      && forall n :: n in names <==> exists r :: r in m && r.player == n
  {
    if YearFiltered(rows, year).Ok? {
      var m := YearFiltered(rows, year).value;
      if |m| == 1 {
        assert RawNames(m) == {m[0].player};
      } else if m == [] {
        assert RawNames(m) == {};
      }
      if PlayerRows(rows, year).Ok? {
        forall r | r in m ensures r in rows && r.player == m[0].player {
          if |m| > 1 {
            assert r.player in RawNames(m) && m[0].player in RawNames(m);
            SingletonSet(RawNames(m), r.player, m[0].player);
          }
        }
      }
    }
  }

  // ---------------------------------------------------------------- historical and 2025 rows

  const CurrentSeason: int := 2025

  /** The rows the loop puts in the historical list, in order. */
  function Historical(rows: seq<StatLine>): seq<StatLine>
  {
    if rows == [] then []
    else
      var n := |rows| - 1;
      Historical(rows[..n]) + (if rows[n].year != CurrentSeason then [rows[n]] else [])
  }

  /** The 2025 rows, in order. */
  function Current(rows: seq<StatLine>): seq<StatLine>
  {
    if rows == [] then []
    else
      var n := |rows| - 1;
      Current(rows[..n]) + (if rows[n].year == CurrentSeason then [rows[n]] else [])
  }

  /** Python's `list(range(lo, hi))`. */
  function Range(lo: int, hi: int): (r: seq<int>)
    ensures |r| == (if hi > lo then hi - lo else 0)
    ensures forall k :: 0 <= k < |r| ==> r[k] == lo + k
  {
    seq(if hi > lo then hi - lo else 0, k requires 0 <= k => lo + k)
  }

  /** A "[Did not play in …]" line, printed before historical row `before`. */
  datatype Gap = Gap(before: nat, missing: seq<int>)

  /** The gap_rows list: a gap before each historical row whose season is more
      than one after the previous historical row's. */
  function GapsOf(hist: seq<StatLine>): (gaps: seq<Gap>)
    ensures forall k :: 0 <= k < |gaps| ==> 1 <= gaps[k].before < |hist|
  {
    if |hist| < 2 then []
    else
      var n := |hist| - 1;
      GapsOf(hist[..n])
        + (if hist[n].year - hist[n - 1].year > 1 then [Gap(n, Range(hist[n - 1].year + 1, hist[n].year))] else [])
  }

  lemma GapsSnoc(hist: seq<StatLine>, row: StatLine)
    ensures GapsOf(hist + [row])
         == GapsOf(hist) + (if |hist| >= 1 && row.year - hist[|hist| - 1].year > 1
                            then [Gap(|hist|, Range(hist[|hist| - 1].year + 1, row.year))] else [])
  {
    assert (hist + [row])[..|hist|] == hist;
  }

  /** The loop over the matches: 2025 rows to one list, the others to the
      historical list, recording a gap whenever a historical season skips
      years after the previous historical season. */
  method SplitRows(rows: seq<StatLine>) returns (hist: seq<StatLine>, current: seq<StatLine>, gaps: seq<Gap>)
    ensures hist == Historical(rows)
    ensures current == Current(rows)
    ensures gaps == GapsOf(hist)
  {
    hist, current, gaps := [], [], [];
    var prevYear: Option<int> := None;
    for i := 0 to |rows|
      invariant hist == Historical(rows[..i])
      invariant current == Current(rows[..i])
      invariant gaps == GapsOf(hist)
      invariant prevYear == if hist == [] then None else Some(hist[|hist| - 1].year)
    {
      assert rows[..i + 1][..i] == rows[..i];
      var currentYear := rows[i].year;
      if currentYear == CurrentSeason {
        assert Historical(rows[..i + 1]) == hist;
        current := current + [rows[i]];
      } else {
        assert Current(rows[..i + 1]) == current;
        GapsSnoc(hist, rows[i]);
        if |hist| > 0 && prevYear.Some? {
          var yearGap := currentYear - prevYear.value;
          if yearGap > 1 {
            var missingYears := Range(prevYear.value + 1, currentYear);
            gaps := gaps + [Gap(|hist|, missingYears)];
          }
        }
        assert gaps == GapsOf(hist + [rows[i]]);
        hist := hist + [rows[i]];
        prevYear := Some(currentYear);
      }
    }
    assert rows[..|rows|] == rows;
  }

  /** Splitting loses no row and invents none. */
  lemma {:induction false} SplitIsPartition(rows: seq<StatLine>)
    ensures multiset(Historical(rows)) + multiset(Current(rows)) == multiset(rows)
    ensures forall r :: r in Historical(rows) ==> r.year != CurrentSeason
    ensures forall r :: r in Current(rows) ==> r.year == CurrentSeason
  {
    if rows != [] {
      var n := |rows| - 1;
      SplitIsPartition(rows[..n]);
      assert rows == rows[..n] + [rows[n]];
    }
  }

  // ---------------------------------------------------------------- display order

  datatype Line = GapLine(missing: seq<int>) | SeasonLine(row: StatLine) | BlankLine

  /** gap_dict.get(i): a later entry for the same row wins, as in a dict. */
  function GapAt(gaps: seq<Gap>, i: nat): Option<seq<int>>
  {
    if gaps == [] then None
    else if gaps[|gaps| - 1].before == i then Some(gaps[|gaps| - 1].missing)
    else GapAt(gaps[..|gaps| - 1], i)
  }

  /** The historical part of the table: each row, preceded by its gap line. */
  function HistoryLines(hist: seq<StatLine>, gaps: seq<Gap>): seq<Line>
  {
    if hist == [] then []
    else
      var n := |hist| - 1;
      HistoryLines(hist[..n], gaps)
        + (match GapAt(gaps, n) case Some(m) => [GapLine(m)] case None => [])
        + [SeasonLine(hist[n])]
  }

  function SeasonLines(rows: seq<StatLine>): (r: seq<Line>)
    ensures |r| == |rows| && forall i :: 0 <= i < |rows| ==> r[i] == SeasonLine(rows[i])
  {
    seq(|rows|, i requires 0 <= i < |rows| => SeasonLine(rows[i]))
  }

  /** The latest non-zero historical season. */
  function MostRecentYear(hist: seq<StatLine>): (m: Option<int>)
    ensures m.None? <==> forall r :: r in hist ==> r.year == 0
    ensures m.Some? ==> m.value != 0 && (exists r :: r in hist && r.year == m.value)
                        && forall r :: r in hist && r.year != 0 ==> r.year <= m.value
  {
    if hist == [] then None
    else
      var rest := MostRecentYear(hist[1..]);
      assert forall r :: r in hist <==> r == hist[0] || r in hist[1..];
      if hist[0].year == 0 then rest
      else if rest.None? || hist[0].year >= rest.value then Some(hist[0].year)
      else rest
  }

  /** The printed table body: historical rows with their gap lines, then, when
      both kinds exist, a gap line for the seasons up to 2024 if the last
      historical season is before 2024 and a blank line, then the 2025 rows.
      None where the source's `max()` of an empty sequence raises. */
  function Display(hist: seq<StatLine>, gaps: seq<Gap>, current: seq<StatLine>): Option<seq<Line>>
  {
    var body := HistoryLines(hist, gaps);
    if current != [] && hist != [] then
      match MostRecentYear(hist)
      case None => None
      case Some(m) =>
        Some(body + (if m < CurrentSeason - 1 then [GapLine(Range(m + 1, CurrentSeason))] else [])
             + [BlankLine] + SeasonLines(current))
    else Some(body + SeasonLines(current))
  }

  /** The season rows of a list of lines, in order. */
  function ShownRows(lines: seq<Line>): seq<StatLine>
  {
    if lines == [] then []
    else ShownRows(lines[..|lines| - 1]) + (if lines[|lines| - 1].SeasonLine? then [lines[|lines| - 1].row] else [])
  }

  lemma {:induction false} ShownRowsAppend(a: seq<Line>, b: seq<Line>)
    ensures ShownRows(a + b) == ShownRows(a) + ShownRows(b)
    decreases |b|
  {
    if b == [] {
      assert a + b == a;
    } else {
      var init := b[..|b| - 1];
      ShownRowsAppend(a, init);
      assert (a + b)[..|a + b| - 1] == a + init;
    }
  }

  lemma {:induction false} ShownHistory(hist: seq<StatLine>, gaps: seq<Gap>)
    ensures ShownRows(HistoryLines(hist, gaps)) == hist
  {
    if hist != [] {
      var n := |hist| - 1;
      ShownHistory(hist[..n], gaps);
      var g := match GapAt(gaps, n) case Some(m) => [GapLine(m)] case None => [];
      ShownRowsAppend(HistoryLines(hist[..n], gaps) + g, [SeasonLine(hist[n])]);
      ShownRowsAppend(HistoryLines(hist[..n], gaps), g);
      assert ShownRows([SeasonLine(hist[n])]) == [hist[n]] by {
        assert [SeasonLine(hist[n])][..0] == [];
      }
      if g != [] {
        assert ShownRows(g) == [] by { assert g[..0] == []; }
      }
      assert hist[..n] + [hist[n]] == hist;
    }
  }

  lemma {:induction false} ShownSeasons(rows: seq<StatLine>)
    ensures ShownRows(SeasonLines(rows)) == rows
  {
    if rows != [] {
      var n := |rows| - 1;
      ShownSeasons(rows[..n]);
      assert SeasonLines(rows)[..n] == SeasonLines(rows[..n]);
    }
  }

  lemma ShownRowsOfGapAndBlank(a: seq<Line>)
    requires forall i :: 0 <= i < |a| ==> !a[i].SeasonLine?
    ensures ShownRows(a) == []
  {
    if a != [] {
      ShownRowsOfGapAndBlank(a[..|a| - 1]);
    }
  }

  /** The rows of the printed table: the historical rows, then the 2025 rows. */
  lemma {:induction false} DisplayRows(hist: seq<StatLine>, gaps: seq<Gap>, current: seq<StatLine>)
    requires Display(hist, gaps, current).Some?
    ensures ShownRows(Display(hist, gaps, current).value) == hist + current
  {
    var body := HistoryLines(hist, gaps);
    ShownHistory(hist, gaps);
    ShownSeasons(current);
    if current != [] && hist != [] {
      var m := MostRecentYear(hist).value;
      var g := if m < CurrentSeason - 1 then [GapLine(Range(m + 1, CurrentSeason))] else [];
      ShownAroundBreak(body, g, SeasonLines(current));
    } else {
      ShownRowsAppend(body, SeasonLines(current));
    }
  }

  /** A gap line and the blank line between the two parts print no row. */
  lemma {:induction false} ShownAroundBreak(body: seq<Line>, g: seq<Line>, rest: seq<Line>)
    requires forall i :: 0 <= i < |g| ==> !g[i].SeasonLine?
    ensures ShownRows(body + g + [BlankLine] + rest) == ShownRows(body) + ShownRows(rest)
  {
    var a := body + g;
    var b := a + [BlankLine];
    ShownRowsAppend(b, rest);
    ShownRowsAppend(a, [BlankLine]);
    ShownRowsAppend(body, g);
    ShownRowsOfGapAndBlank(g);
    ShownRowsOfGapAndBlank([BlankLine]);
    assert ShownRows(b) == ShownRows(body);
  }

  /** Every matched row is printed exactly once: the historical rows in their
      order, then the 2025 rows in theirs; no historical row follows a 2025
      row. */
  lemma DisplayShowsEveryRow(rows: seq<StatLine>)
    requires Display(Historical(rows), GapsOf(Historical(rows)), Current(rows)).Some?
    ensures var s := ShownRows(Display(Historical(rows), GapsOf(Historical(rows)), Current(rows)).value);
      && s == Historical(rows) + Current(rows)
      && multiset(s) == multiset(rows)
      && forall i, j :: 0 <= i < j < |s| && s[i].year == CurrentSeason ==> s[j].year == CurrentSeason
  {
    DisplayRows(Historical(rows), GapsOf(Historical(rows)), Current(rows));
    SplitIsPartition(rows);
    CurrentSeasonLast(Historical(rows), Current(rows));
  }

  lemma CurrentSeasonLast(hist: seq<StatLine>, current: seq<StatLine>)
    requires forall r :: r in hist ==> r.year != CurrentSeason
    requires forall r :: r in current ==> r.year == CurrentSeason
    ensures var s := hist + current;
      forall i, j :: 0 <= i < j < |s| && s[i].year == CurrentSeason ==> s[j].year == CurrentSeason
  {
    var s := hist + current;
    forall k | 0 <= k < |hist| ensures s[k].year != CurrentSeason {
      assert s[k] == hist[k];
    }
    forall i, j | 0 <= i < j < |s| && s[i].year == CurrentSeason ensures s[j].year == CurrentSeason {
      assert s[j] == current[j - |hist|];
    }
  }

  /** The gap recorded before historical row i, read back through gap_dict. */
  function ExpectedGap(hist: seq<StatLine>, i: nat): Option<seq<int>>
    requires i < |hist|
  {
    if i >= 1 && hist[i].year - hist[i - 1].year > 1 then Some(Range(hist[i - 1].year + 1, hist[i].year))
    else None
  }

  lemma {:induction false} GapAtAppend(gaps: seq<Gap>, x: seq<Gap>, i: nat)
    requires forall g :: g in x ==> g.before != i
    ensures GapAt(gaps + x, i) == GapAt(gaps, i)
    decreases |x|
  {
    if x == [] {
      assert gaps + x == gaps;
    } else {
      var init := x[..|x| - 1];
      assert x[|x| - 1] in x;
      assert (gaps + x)[..|gaps + x| - 1] == gaps + init;
      GapAtAppend(gaps, init, i);
    }
  }

  lemma {:induction false} GapAtMissing(gaps: seq<Gap>, i: nat)
    requires forall k :: 0 <= k < |gaps| ==> gaps[k].before < i
    ensures GapAt(gaps, i) == None
  {
    if gaps != [] {
      GapAtMissing(gaps[..|gaps| - 1], i);
    }
  }

  /** The gap list of a longer history: the shorter one's, then possibly
      a gap before the last row. */
  function LastGap(hist: seq<StatLine>): seq<Gap>
    requires |hist| >= 2
  {
    var n := |hist| - 1;
    if hist[n].year - hist[n - 1].year > 1 then [Gap(n, Range(hist[n - 1].year + 1, hist[n].year))] else []
  }

  lemma GapsUnfold(hist: seq<StatLine>)
    requires |hist| >= 2
    ensures GapsOf(hist) == GapsOf(hist[..|hist| - 1]) + LastGap(hist)
  {
  }

  lemma {:induction false} GapAtLast(hist: seq<StatLine>)
    requires |hist| >= 2
    ensures GapAt(GapsOf(hist), |hist| - 1) == ExpectedGap(hist, |hist| - 1)
  {
    var n := |hist| - 1;
    var init := GapsOf(hist[..n]);
    GapsUnfold(hist);
    GapAtMissing(init, n);
    if LastGap(hist) == [] {
      GapAtAppend(init, LastGap(hist), n);
    } else {
      assert (init + LastGap(hist))[..|init + LastGap(hist)| - 1] == init;
    }
  }

  /** Looking a row up in gap_dict finds exactly the gap its season skips. */
  lemma {:induction false} GapAtSpec(hist: seq<StatLine>, i: nat)
    requires i < |hist|
    ensures GapAt(GapsOf(hist), i) == ExpectedGap(hist, i)
  {
    if |hist| >= 2 {
      var n := |hist| - 1;
      if i < n {
        var init := hist[..n];
        GapsUnfold(hist);
        GapAtSpec(init, i);
        GapAtAppend(GapsOf(init), LastGap(hist), i);
        assert init[i] == hist[i];
        if i >= 1 { assert init[i - 1] == hist[i - 1]; }
      } else {
        GapAtLast(hist);
      }
    }
  }

  /** The historical table written directly from consecutive seasons: a row
      whose season is more than one after the previous row's is preceded by a
      line listing exactly the seasons in between. */
  function Annotated(hist: seq<StatLine>): seq<Line>
  {
    if hist == [] then []
    else
      var n := |hist| - 1;
      Annotated(hist[..n])
        + (if n >= 1 && hist[n].year - hist[n - 1].year > 1
           then [GapLine(Range(hist[n - 1].year + 1, hist[n].year))] else [])
        + [SeasonLine(hist[n])]
  }

  lemma {:induction false} HistoryLinesAnnotated(hist: seq<StatLine>, gaps: seq<Gap>)
    requires forall i :: 0 <= i < |hist| ==> GapAt(gaps, i) == ExpectedGap(hist, i)
    ensures HistoryLines(hist, gaps) == Annotated(hist)
  {
    if hist != [] {
      var n := |hist| - 1;
      var init := hist[..n];
      forall i | 0 <= i < |init| ensures GapAt(gaps, i) == ExpectedGap(init, i) {
        assert init[i] == hist[i];
        if i >= 1 { assert init[i - 1] == hist[i - 1]; }
      }
      HistoryLinesAnnotated(init, gaps);
      HistoryLinesAnnotatedStep(hist, gaps);
    }
  }

  lemma HistoryLinesAnnotatedStep(hist: seq<StatLine>, gaps: seq<Gap>)
    requires hist != [] && GapAt(gaps, |hist| - 1) == ExpectedGap(hist, |hist| - 1)
    requires HistoryLines(hist[..|hist| - 1], gaps) == Annotated(hist[..|hist| - 1])
    ensures HistoryLines(hist, gaps) == Annotated(hist)
  {
  }

  /** The gap lines render_player prints are exactly those of Annotated. */
  lemma HistoryGapsAreSkippedSeasons(hist: seq<StatLine>)
    ensures HistoryLines(hist, GapsOf(hist)) == Annotated(hist)
  {
    forall i | 0 <= i < |hist| ensures GapAt(GapsOf(hist), i) == ExpectedGap(hist, i) {
      GapAtSpec(hist, i);
    }
    HistoryLinesAnnotated(hist, GapsOf(hist));
  }

  /** Two rows of the same season never get a gap line between them. */
  lemma SameSeasonNoGap(hist: seq<StatLine>, i: nat)
    requires 1 <= i < |hist| && hist[i].year == hist[i - 1].year
    ensures GapAt(GapsOf(hist), i) == None
  {
    GapAtSpec(hist, i);
  }

  /** The line after the historical block: the trailing gap exists exactly when
      there are 2025 rows and historical rows and the latest historical season
      is before 2024, and it lists the seasons after it up to 2024. */
  lemma TrailingGapSpec(hist: seq<StatLine>, gaps: seq<Gap>, current: seq<StatLine>)
    ensures Display(hist, gaps, current).None?
        <==> current != [] && hist != [] && forall r :: r in hist ==> r.year == 0
    ensures Display(hist, gaps, current).Some? ==>
      var lines := Display(hist, gaps, current).value;
      var n := |HistoryLines(hist, gaps)|;
      && ((n < |lines| && lines[n].GapLine?)
          <==> (current != [] && hist != [] && MostRecentYear(hist).value < CurrentSeason - 1))
      && (n < |lines| && lines[n].GapLine? ==>
            lines[n].missing == Range(MostRecentYear(hist).value + 1, CurrentSeason))
  {
  }

  // ---------------------------------------------------------------- traded seasons

  predicate AllStar(row: StatLine)
  {
    row.awards.Some? && row.awards.value != "" && Contains(row.awards.value, "AS")
  }

  /** Seasons with a 2TM/3TM aggregate line. */
  function TradedYears(rows: seq<StatLine>): set<int>
  {
    set r | r in rows && IsMultiTeam(r.team) :: r.year
  }

  /** Seasons whose aggregate line carries an All-Star selection. */
  function TradedAllStarYears(rows: seq<StatLine>): set<int>
  {
    set r | r in rows && IsMultiTeam(r.team) && AllStar(r) :: r.year
  }

  lemma TradedStep(rows: seq<StatLine>, i: nat)
    requires i < |rows|
    ensures TradedYears(rows[..i + 1])
         == TradedYears(rows[..i]) + (if IsMultiTeam(rows[i].team) then {rows[i].year} else {})
    ensures TradedAllStarYears(rows[..i + 1])
         == TradedAllStarYears(rows[..i]) + (if IsMultiTeam(rows[i].team) && AllStar(rows[i]) then {rows[i].year} else {})
  {
    assert rows[..i + 1] == rows[..i] + [rows[i]];
  }

  /** The traded_years / traded_allstar_years loop. */
  method TradedSets(rows: seq<StatLine>) returns (tradedYears: set<int>, tradedAllStarYears: set<int>)
    ensures tradedYears == TradedYears(rows)
    ensures tradedAllStarYears == TradedAllStarYears(rows)
  {
    tradedYears, tradedAllStarYears := {}, {};
    for i := 0 to |rows|
      invariant tradedYears == TradedYears(rows[..i])
      invariant tradedAllStarYears == TradedAllStarYears(rows[..i])
    {
      TradedStep(rows, i);
      var row := rows[i];
      if IsMultiTeam(row.team) {
        tradedYears := tradedYears + {row.year};
        if row.awards.Some? && row.awards.value != "" && Contains(row.awards.value, "AS") {
          tradedAllStarYears := tradedAllStarYears + {row.year};
        }
      }
    }
    assert rows[..|rows|] == rows;
  }

  lemma TradedAllStarIsTraded(rows: seq<StatLine>)
    ensures TradedAllStarYears(rows) <= TradedYears(rows)
  {
  }

  // ---------------------------------------------------------------- season colour

  datatype Colour = Magenta | Yellow | BrightBlack

  /** `(MVP-1|CYA-1|ROY-1)(?=[A-Z]|$)` matches at offset i. */
  predicate WinnerAt(a: string, i: int)
  {
    && (OccursAt(a, "MVP-1", i) || OccursAt(a, "CYA-1", i) || OccursAt(a, "ROY-1", i))
    && (i + 5 == |a| || (i + 5 < |a| && 'A' <= a[i + 5] <= 'Z'))
  }

  /** The season brought an MVP, Cy Young or Rookie of the Year award (first
      place, not 10th or 13th). */
  predicate AwardWinner(row: StatLine)
  {
    row.awards.Some? && row.awards.value != "" && exists i :: 0 <= i <= |row.awards.value| && WinnerAt(row.awards.value, i)
  }

  /** print_row's season colour: award winner first, then All-Star (or a
      single-team line of a season whose aggregate line is All-Star), then a
      single-team line of a traded season. */
  function YearColour(row: StatLine, tradedYears: set<int>, tradedAllStarYears: set<int>): Option<Colour>
  {
    var isMultiTeam := IsMultiTeam(row.team);
    if AwardWinner(row) then Some(Magenta)
    else if AllStar(row) || (!isMultiTeam && row.year in tradedAllStarYears) then Some(Yellow)
    else if !isMultiTeam && row.year in tradedYears && row.year !in tradedAllStarYears then Some(BrightBlack)
    else None
  }

  /** A plain single-team line, without awards of its own, takes its colour
      from the season's aggregate lines: yellow when one of them is All-Star,
      grey when the player was traded otherwise, none when not traded. */
  lemma SingleTeamColour(rows: seq<StatLine>, r: StatLine)
    requires !IsMultiTeam(r.team) && !AwardWinner(r) && !AllStar(r)
    ensures YearColour(r, TradedYears(rows), TradedAllStarYears(rows))
      == if exists s :: s in rows && s.year == r.year && IsMultiTeam(s.team) && AllStar(s) then Some(Yellow)
         else if exists s :: s in rows && s.year == r.year && IsMultiTeam(s.team) then Some(BrightBlack)
         else None
  {
    if exists s :: s in rows && s.year == r.year && IsMultiTeam(s.team) && AllStar(s) {
      var s :| s in rows && s.year == r.year && IsMultiTeam(s.team) && AllStar(s);
      assert r.year in TradedAllStarYears(rows);
    } else if exists s :: s in rows && s.year == r.year && IsMultiTeam(s.team) {
      var s :| s in rows && s.year == r.year && IsMultiTeam(s.team);
      assert r.year in TradedYears(rows);
    }
  }

  /** An aggregate line is never grey; it is yellow only for its own
      All-Star selection. */
  lemma AggregateLineColour(row: StatLine, tradedYears: set<int>, tradedAllStarYears: set<int>)
    requires IsMultiTeam(row.team) && !AwardWinner(row)
    ensures YearColour(row, tradedYears, tradedAllStarYears) == if AllStar(row) then Some(Yellow) else None
  {
  }

  /** The lookahead at the start of an award code that is followed by the end
      of the text or by another code (every code starts with a capital
      letter): it fires exactly for a first place, never for a 10th to 19th
      place nor for AS, GG or SS. */
  lemma WinnerLookahead(c: string, rest: string)
    requires IsAwardCode(c)
    requires rest == [] || 'A' <= rest[0] <= 'Z'
    ensures WinnerAt(c + rest, 0) <==> c == "MVP-1" || c == "CYA-1" || c == "ROY-1"
  {
    var a := c + rest;
    if |c| == 2 {
      assert a[0] == c[0];
    } else if |c| == 5 {
      assert a[0..5] == c;
      if rest != [] { assert a[5] == rest[0]; }
    } else {
      assert a[5] == c[5];
      assert IsDigit(c[5]);
    }
  }

  // ---------------------------------------------------------------- cell emphasis

  /** How a stat cell is marked: bold or bold italic for league leaders,
      green or orange against the team or league average. */
  datatype Emphasis = NoEmphasis | Bold | BoldItalic | AboveAverage | BelowAverage

  /** The comparison branch of get_stat_formatting. Its lower-is-better set is
      the pitching one whatever the player type. */
  function AverageEmphasis(t: PlayerType, key: string, row: StatLine, avg: map<string, Option<real>>): Emphasis
  {
    if key !in StatMapping(t) then NoEmphasis
    else
      var mapped := StatMapping(t)[key];
      var average := if mapped in avg then avg[mapped] else None;
      var value := Get(row, key);
      if average.None? || value.None? then NoEmphasis
      else if key in LowerIsBetter(Pitcher) then
        (if value.value < average.value then AboveAverage
         else if value.value > average.value then BelowAverage
         else NoEmphasis)
      else
        (if value.value > average.value then AboveAverage
         else if value.value < average.value then BelowAverage
         else NoEmphasis)
  }

  /** Green exactly when strictly better than the average, orange exactly when
      strictly worse, unmarked on a tie. */
  lemma AverageEmphasisSpec(t: PlayerType, key: string, row: StatLine, avg: map<string, Option<real>>)
    requires key in StatMapping(t) && StatMapping(t)[key] in avg
    requires avg[StatMapping(t)[key]].Some? && Get(row, key).Some?
    ensures var v, a, lower := Get(row, key).value, avg[StatMapping(t)[key]].value, key in LowerIsBetter(Pitcher);
      && (AverageEmphasis(t, key, row, avg) == AboveAverage <==> Improves(lower, v, a))
      && (AverageEmphasis(t, key, row, avg) == BelowAverage <==> Improves(lower, a, v))
      && (AverageEmphasis(t, key, row, avg) == NoEmphasis <==> v == a)
  {
  }

  /** The league-leader branch: the row's player must be its own league's
      leader; bold italic when the other league has no leader or the value is
      strictly better than the other leader's, bold otherwise (also when a
      value is missing and the comparison raises). */
  function LeaderEmphasis(t: PlayerType, row: StatLine, key: string, pair: LeaderPair): Emphasis
  {
    var own := if row.lg == "NL" then pair.nl else if row.lg == "AL" then pair.al else None;
    if own.None? || own.value.player != row.player then NoEmphasis
    else
      var other := if row.lg == "NL" then pair.al else pair.nl;
      var value := Get(row, key);
      if value.None? then Bold
      else if other.None? then BoldItalic
      else
        var otherValue := Get(other.value, key);
        if otherValue.None? then Bold
        else if Improves(key in LowerIsBetter(t), value.value, otherValue.value) then BoldItalic
        else Bold
  }

  /** get_stat_formatting. In comparison mode a season with an average is
      marked against it; any other season falls through to the leaders. */
  function CellEmphasis(t: PlayerType, comparing: bool, averages: map<int, map<string, Option<real>>>,
                        leaders: map<int, map<string, LeaderPair>>, row: StatLine, key: string): (e: Emphasis)
    ensures (e == AboveAverage || e == BelowAverage) ==> comparing && row.year in averages
    ensures (e == Bold || e == BoldItalic) ==>
      !(comparing && row.year in averages) && row.year in leaders && key in leaders[row.year]
    ensures !comparing ==> e == NoEmphasis || e == Bold || e == BoldItalic
  {
    if comparing && row.year in averages then AverageEmphasis(t, key, row, averages[row.year])
    else if row.year !in leaders || key !in leaders[row.year] then NoEmphasis
    else LeaderEmphasis(t, row, key, leaders[row.year][key])
  }

  /** Outside comparison mode a cell is marked only when the row's player is
      its own league's leader; it is bold italic exactly when the other league
      has no leader or the value is strictly better than the other leader's. */
  lemma LeaderEmphasisSpec(t: PlayerType, row: StatLine, key: string, pair: LeaderPair)
    ensures var own := if row.lg == "NL" then pair.nl else if row.lg == "AL" then pair.al else None;
      LeaderEmphasis(t, row, key, pair) != NoEmphasis <==> own.Some? && own.value.player == row.player
    ensures var own := if row.lg == "NL" then pair.nl else if row.lg == "AL" then pair.al else None;
      var other := if row.lg == "NL" then pair.al else pair.nl;
      own.Some? && own.value.player == row.player && Get(row, key).Some?
        && (other.Some? ==> Get(other.value, key).Some?) ==>
      (LeaderEmphasis(t, row, key, pair) == BoldItalic <==> BeatsOtherLeague(t, key, row, other))
  {
  }

  /** The other league has no leader, or the row's value is strictly better
      than its leader's. */
  predicate BeatsOtherLeague(t: PlayerType, key: string, row: StatLine, other: Option<StatLine>)
  {
    other.None? ||
    (Get(row, key).Some? && Get(other.value, key).Some?
     && Improves(key in LowerIsBetter(t), Get(row, key).value, Get(other.value, key).value))
  }

  /** With leaders_by_year as computed, an NL leader's own line is bold
      italic when the AL has no eligible row or it is strictly better than
      the AL leader, and bold otherwise. */
  lemma NationalLeaderEmphasis(t: PlayerType, playerRows: seq<StatLine>, keys: seq<string>,
                               yearTable: int -> seq<StatLine>, row: StatLine, key: string)
    requires row in playerRows && row.year != 0 && key in keys && key !in SkippedKeys
    requires LeagueLeader(t, key, yearTable(row.year), "NL") == Some(row)
    ensures CellEmphasis(t, false, map[], LeadersByYear(t, playerRows, keys, yearTable), row, key)
      == if BeatsOtherLeague(t, key, row, LeagueLeader(t, key, yearTable(row.year), "AL")) then BoldItalic else Bold
  {
    var leaders := LeadersByYear(t, playerRows, keys, yearTable);
    assert row.year in leaders;
    assert key in leaders[row.year];
    var pair := PairFor(t, key, yearTable(row.year));
    LeagueLeaderSpec(t, key, yearTable(row.year), "NL");
    LeagueLeaderSpec(t, key, yearTable(row.year), "AL");
    LeaderEmphasisSpec(t, row, key, pair);
  }

  /** The season cell takes the season colour when there is one; every other
      cell, and an uncoloured season cell, takes the cell emphasis. */
  datatype Style = Coloured(colour: Colour) | Emphasised(emphasis: Emphasis)

  function CellStyle(t: PlayerType, comparing: bool, averages: map<int, map<string, Option<real>>>,
                     leaders: map<int, map<string, LeaderPair>>, tradedYears: set<int>, tradedAllStarYears: set<int>,
                     row: StatLine, key: string): Style
  {
    var colour := YearColour(row, tradedYears, tradedAllStarYears);
    if key == "year" && colour.Some? then Coloured(colour.value)
    else Emphasised(CellEmphasis(t, comparing, averages, leaders, row, key))
  }

  /** Only the season cell is ever coloured, and an award season always is. */
  lemma OnlySeasonCellColoured(t: PlayerType, comparing: bool, averages: map<int, map<string, Option<real>>>,
                               leaders: map<int, map<string, LeaderPair>>, tradedYears: set<int>,
                               tradedAllStarYears: set<int>, row: StatLine, key: string)
    ensures CellStyle(t, comparing, averages, leaders, tradedYears, tradedAllStarYears, row, key).Coloured? ==> key == "year"
    ensures key == "year" && AwardWinner(row) ==>
      CellStyle(t, comparing, averages, leaders, tradedYears, tradedAllStarYears, row, key) == Coloured(Magenta)
  {
  }
}
