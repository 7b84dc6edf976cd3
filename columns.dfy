/** The columns of a player's season table: which columns are shown, what
    each cell holds and how wide each column is (bcli.py:440-538, 553-572,
    603-627). */
module Columns {
  import opened Wrappers
  import opened Seqs
  import opened Text
  import opened Parsing
  import opened Rows

  /** A displayed column: its header label and the row key it shows. */
  datatype Column = Column(header: string, key: string)

  function Keys(cols: seq<Column>): (r: seq<string>)
    ensures |r| == |cols| && forall i :: 0 <= i < |cols| ==> r[i] == cols[i].key
  {
    seq(|cols|, i requires 0 <= i < |cols| => cols[i].key)
  }

  /** The four columns every table starts with. */
  const BaseColumns: seq<Column> :=
    [Column("Season", "year"), Column("Age", "age"), Column("Team", "team"), Column("Lg", "lg")]

  // The default tables are written in runs of eight columns, so that facts about
  // their keys can be proved run by run.

  const PitcherDefaults: seq<Column> := BaseColumns + PitcherRunA + PitcherRunB + PitcherRunC + PitcherRunD

  const PitcherRunA: seq<Column> := [
    Column("WAR", "war"), Column("W", "w"), Column("L", "l"), Column("W-L%", "w_l_pct"),
    Column("ERA", "era"), Column("G", "g"), Column("GS", "gs"), Column("GF", "gf")]
  const PitcherRunB: seq<Column> := [
    Column("CG", "cg"), Column("SHO", "sho"), Column("SV", "sv"), Column("IP", "ip"),
    Column("H", "h"), Column("R", "r"), Column("ER", "er"), Column("HR", "hr")]
  const PitcherRunC: seq<Column> := [
    Column("BB", "bb"), Column("IBB", "ibb"), Column("SO", "so"), Column("HBP", "hbp"),
    Column("BK", "bk"), Column("WP", "wp"), Column("BF", "bf"), Column("ERA+", "era_plus")]
  const PitcherRunD: seq<Column> := [
    Column("FIP", "fip"), Column("WHIP", "whip"), Column("H/9", "h9"), Column("HR/9", "hr9"),
    Column("BB/9", "bb9"), Column("SO/9", "so9"), Column("SO/BB", "so_bb"), Column("Awards", "awards")]

  const HitterDefaults: seq<Column> := BaseColumns + HitterRunA + HitterRunB + HitterRunC + HitterRunD

  const HitterRunA: seq<Column> := [
    Column("WAR", "war"), Column("G", "g"), Column("PA", "pa"), Column("AB", "ab"),
    Column("R", "r"), Column("H", "h"), Column("2B", "doubles"), Column("3B", "triples")]
  const HitterRunB: seq<Column> := [
    Column("HR", "hr"), Column("RBI", "rbi"), Column("SB", "sb"), Column("CS", "cs"),
    Column("BB", "bb"), Column("SO", "so"), Column("BA", "ba"), Column("OBP", "obp")]
  const HitterRunC: seq<Column> := [
    Column("SLG", "slg"), Column("OPS", "ops"), Column("OPS+", "ops_plus"), Column("rOBA", "roba"),
    Column("Rbat+", "rbat_plus"), Column("TB", "tb"), Column("GIDP", "gidp"), Column("HBP", "hbp")]
  const HitterRunD: seq<Column> := [
    Column("SH", "sh"), Column("SF", "sf"), Column("IBB", "ibb"), Column("Pos", "pos"),
    Column("Awards", "awards")]

  function DefaultColumns(t: PlayerType): seq<Column>
  {
    match t
    case Pitcher => PitcherDefaults
    case Hitter => HitterDefaults
  }

  // ---------------------------------------------------------------- -s selection

  function CategoryOf(t: PlayerType): Category
  {
    match t
    case Pitcher => PitcherStat
    case Hitter => HitterStat
  }

  /** A category that belongs to neither the common stats nor this player type. */
  predicate OutOfCategory(t: PlayerType, c: Category)
  {
    c != CommonStat && c != CategoryOf(t)
  }

  /** The -s test of bcli.py: a requested stat is shown when the table has the
      column and get_stat_category (as written) calls it common or of this
      player type. */
  predicate Accepts(t: PlayerType, key: string, columnNames: set<string>)
  {
    key in columnNames && !OutOfCategory(t, StatCategoryAsWritten(key))
  }

  /** The same test with the corrected categories. */
  predicate AcceptsIntended(t: PlayerType, key: string, columnNames: set<string>)
  {
    key in columnNames && !OutOfCategory(t, StatCategory(key))
  }

  /** As written, the category test refuses exactly two columns of the default
      tables: `hbp` and `ibb` for a hitter, although the default hitter table
      shows both. No default pitcher column is refused. */
  lemma DefaultColumnsRefusedAsWritten(t: PlayerType, c: Column)
    requires c in DefaultColumns(t)
    ensures OutOfCategory(t, StatCategoryAsWritten(c.key)) <==> t == Hitter && (c.key == "hbp" || c.key == "ibb")
  {
    BaseKeys(c);
    if t == Hitter {
      HitterKeysA(c); HitterKeysB(c); HitterKeysC(c); HitterKeysD(c);
    } else {
      PitcherKeysA(c); PitcherKeysB(c); PitcherKeysC(c); PitcherKeysD(c);
    }
  }

  lemma BaseKeys(c: Column)
    ensures c in BaseColumns ==> c.key !in PitcherOnlyAsWritten && c.key !in HitterOnly
  {
  }

  lemma PitcherKeysA(c: Column)
    ensures c in PitcherRunA ==> c.key !in HitterOnly
  {
  }

  lemma PitcherKeysB(c: Column)
    ensures c in PitcherRunB ==> c.key !in HitterOnly
  {
  }

  lemma PitcherKeysC(c: Column)
    ensures c in PitcherRunC ==> c.key !in HitterOnly
  {
  }

  lemma PitcherKeysD(c: Column)
    ensures c in PitcherRunD ==> c.key !in HitterOnly
  {
  }

  lemma HitterKeysA(c: Column)
    ensures c in HitterRunA ==> c.key !in PitcherOnlyAsWritten
  {
  }

  lemma HitterKeysB(c: Column)
    ensures c in HitterRunB ==> c.key !in PitcherOnlyAsWritten
  {
  }

  lemma HitterKeysC(c: Column)
    ensures c in HitterRunC ==> (c.key in PitcherOnlyAsWritten <==> c.key == "hbp")
  {
  }

  lemma HitterKeysD(c: Column)
    ensures c in HitterRunD ==> (c.key in PitcherOnlyAsWritten <==> c.key == "ibb")
  {
  }

  /** With the corrected categories every column of a default table passes
      the category test for its own player type. */
  lemma DefaultColumnsAcceptedIntended(t: PlayerType, c: Column)
    requires c in DefaultColumns(t)
    ensures !OutOfCategory(t, StatCategory(c.key))
  {
    DefaultColumnsRefusedAsWritten(t, c);
  }

  function StatColumn(stat: string): Column
  {
    var l := NormalizeStatLabel(stat);
    Column(l.display, l.key)
  }

  /** The test of the -s loop as a predicate on columns. */
  function Keeps(t: PlayerType, columnNames: set<string>): Column -> bool
  {
    (c: Column) => Accepts(t, c.key, columnNames)
  }

  /** The columns added for the requested stats, in request order. */
  function AcceptedColumns(t: PlayerType, stats: seq<string>, columnNames: set<string>): seq<Column>
  {
    Selected(stats, StatColumn, Keeps(t, columnNames))
  }

  function Headers(cols: seq<Column>): (r: seq<string>)
    ensures |r| == |cols| && forall i :: 0 <= i < |cols| ==> r[i] == cols[i].header
  {
    if cols == [] then [] else Headers(cols[..|cols| - 1]) + [cols[|cols| - 1].header]
  }

  lemma HeadersSnoc(cols: seq<Column>, c: Column)
    ensures Headers(cols + [c]) == Headers(cols) + [c.header]
  {
    assert (cols + [c])[..|cols|] == cols;
  }

  /** The labels reported as "Stats not available", in request order. */
  function RejectedLabels(t: PlayerType, stats: seq<string>, columnNames: set<string>): seq<string>
  {
    Headers(Refused(stats, StatColumn, Keeps(t, columnNames)))
  }

  /** Every requested stat is either shown or reported, never both, never
      neither. */
  lemma SelectionPartitions(t: PlayerType, stats: seq<string>, columnNames: set<string>)
    ensures |AcceptedColumns(t, stats, columnNames)| + |RejectedLabels(t, stats, columnNames)| == |stats|
    ensures forall c :: c in AcceptedColumns(t, stats, columnNames) ==> Accepts(t, c.key, columnNames)
    ensures forall i :: 0 <= i < |stats| && Accepts(t, StatColumn(stats[i]).key, columnNames)
              ==> StatColumn(stats[i]) in AcceptedColumns(t, stats, columnNames)
    ensures forall i :: 0 <= i < |stats| && !Accepts(t, StatColumn(stats[i]).key, columnNames)
              ==> StatColumn(stats[i]).header in RejectedLabels(t, stats, columnNames)
  {
    var p := Keeps(t, columnNames);
    SelectedPartition(stats, StatColumn, p);
    var refused := Refused(stats, StatColumn, p);
    forall i | 0 <= i < |stats| && !p(StatColumn(stats[i]))
      ensures StatColumn(stats[i]).header in Headers(refused)
    {
      var k :| 0 <= k < |refused| && refused[k] == StatColumn(stats[i]);
      assert Headers(refused)[k] == StatColumn(stats[i]).header;
    }
  }

  /** The -s loop of render_player: the four base columns, then each accepted
      stat; the others are collected for the error message. */
  method SelectColumns(t: PlayerType, stats: seq<string>, columnNames: set<string>)
    returns (allStats: seq<Column>, invalid: seq<string>)
    ensures allStats == BaseColumns + AcceptedColumns(t, stats, columnNames)
    ensures invalid == RejectedLabels(t, stats, columnNames)
  {
    ghost var p := Keeps(t, columnNames);
    allStats := BaseColumns;
    invalid := [];
    for i := 0 to |stats|
      invariant allStats == BaseColumns + Selected(stats[..i], StatColumn, p)
      invariant invalid == Headers(Refused(stats[..i], StatColumn, p))
    {
      SelectedPrefix(stats, i, StatColumn, p);
      ghost var accepted := Selected(stats[..i], StatColumn, p);
      ghost var refused := Refused(stats[..i], StatColumn, p);
      var normalized := NormalizeStatLabel(stats[i]);
      ghost var c := Column(normalized.display, normalized.key);
      assert c == StatColumn(stats[i]);
      // the table lacks the column, or the stat belongs to the other player type
      if !Accepts(t, normalized.key, columnNames) {
        assert !p(c);
        assert Selected(stats[..i + 1], StatColumn, p) == accepted;
        assert Refused(stats[..i + 1], StatColumn, p) == refused + [c];
        HeadersSnoc(refused, c);
        invalid := invalid + [normalized.display];
        continue;
      }
      assert p(c);
      assert Selected(stats[..i + 1], StatColumn, p) == accepted + [c];
      assert Refused(stats[..i + 1], StatColumn, p) == refused;
      AppendAssoc(BaseColumns, accepted, [c]);
      allStats := allStats + [Column(normalized.display, normalized.key)];
    }
    assert stats[..|stats|] == stats;
  }

  /** The table's columns: the defaults without -s; with -s the base columns
      and the accepted stats, or None (nothing is rendered) when no requested
      stat was accepted. */
  function TableColumns(t: PlayerType, stats: seq<string>, columnNames: set<string>): (r: Option<seq<Column>>)
    ensures stats == [] ==> r == Some(DefaultColumns(t))
    ensures stats != [] ==> (r.None? <==> |RejectedLabels(t, stats, columnNames)| == |stats|)
    ensures r.Some? && stats != [] ==> r.value == BaseColumns + AcceptedColumns(t, stats, columnNames)
    ensures r.Some? && stats != [] ==> BaseColumns < r.value
  {
    if stats == [] then Some(DefaultColumns(t))
    else
      SelectionPartitions(t, stats, columnNames);
      var accepted := AcceptedColumns(t, stats, columnNames);
      if accepted == [] then None
      else
        ExtendsBase(accepted);
        Some(BaseColumns + accepted)
  }

  lemma ExtendsBase(extra: seq<Column>)
    requires extra != []
    ensures BaseColumns < BaseColumns + extra
  {
    assert (BaseColumns + extra)[..|BaseColumns|] == BaseColumns;
  }

  // ---------------------------------------------------------------- comparison columns

  const StatMappingHitter: map<string, string> := map[
    "g" := "g", "pa" := "pa", "ab" := "ab", "r" := "r", "h" := "h",
    "doubles" := "doubles", "triples" := "triples", "hr" := "hr", "rbi" := "rbi",
    "sb" := "sb", "cs" := "cs", "bb" := "bb", "so" := "so",
    "ba" := "ba", "obp" := "obp", "slg" := "slg", "ops" := "ops",
    "ops_plus" := "ops_plus", "tb" := "tb", "gidp" := "gdp",
    "hbp" := "hbp", "sh" := "sh", "sf" := "sf", "ibb" := "ibb"]

  const StatMappingPitcher: map<string, string> := map[
    "w" := "w", "l" := "l", "w_l_pct" := "w_l_pct", "era" := "era",
    "g" := "g", "gs" := "gs", "gf" := "gf", "cg" := "cg",
    "sho" := "c_sho", "sv" := "sv", "ip" := "ip", "h" := "h",
    "r" := "r", "er" := "er", "hr" := "hr", "bb" := "bb",
    "ibb" := "ibb", "so" := "so", "hbp" := "hbp", "bk" := "bk",
    "wp" := "wp", "bf" := "bf", "era_plus" := "era_plus",
    "fip" := "fip", "whip" := "whip", "h9" := "h9", "hr9" := "hr9",
    "bb9" := "bb9", "so9" := "so9", "so_bb" := "so_w"]

  /** Player-table key to team-table key. */
  function StatMapping(t: PlayerType): map<string, string>
  {
    match t
    case Pitcher => StatMappingPitcher
    case Hitter => StatMappingHitter
  }

  /** The stats shown against a team or league average. */
  function ComparisonStats(t: PlayerType): set<string>
  {
    match t
    case Pitcher => {"era", "w_l_pct", "whip", "fip", "era_plus", "h9", "hr9", "bb9", "so9", "so_bb"}
    case Hitter => {"ba", "obp", "slg", "ops", "ops_plus"}
  }

  /** Columns kept in comparison mode whatever the averages hold. */
  const IdentityKeys: set<string> := {"year", "age", "team", "lg", "awards"}

  predicate KeptInComparison(t: PlayerType, sampleAverage: map<string, Option<real>>, c: Column)
  {
    || c.key in IdentityKeys
    || (c.key in ComparisonStats(t) && c.key in StatMapping(t) && StatMapping(t)[c.key] in sampleAverage)
  }

  /** The comparison filter's test as a predicate on columns. */
  function ComparisonKeeps(t: PlayerType, sampleAverage: map<string, Option<real>>): Column -> bool
  {
    (c: Column) => KeptInComparison(t, sampleAverage, c)
  }

  /** The comparison-mode column filter: identity columns, and each comparable
      stat whose team-table column is present in the sample average. */
  method ComparisonColumns(t: PlayerType, allStats: seq<Column>, sampleAverage: map<string, Option<real>>)
    returns (filtered: seq<Column>)
    ensures filtered == Filter(allStats, ComparisonKeeps(t, sampleAverage))
  {
    filtered := [];
    for i := 0 to |allStats|
      invariant filtered == Filter(allStats[..i], ComparisonKeeps(t, sampleAverage))
    {
      ghost var p := ComparisonKeeps(t, sampleAverage);
      FilterPrefix(allStats, i, p);
      var col := allStats[i];
      // an identity column, or a comparable stat with an average to show
      if KeptInComparison(t, sampleAverage, col) {
        assert p(col);
        filtered := filtered + [col];
      } else {
        assert !p(col);
      }
    }
    assert allStats[..|allStats|] == allStats;
  }

  /** The filter keeps the column order and exactly the kept columns: never
      the position column, and a stat only when its average can be looked up. */
  lemma ComparisonColumnsSpec(t: PlayerType, allStats: seq<Column>, sampleAverage: map<string, Option<real>>)
    ensures var f := Filter(allStats, ComparisonKeeps(t, sampleAverage));
      && IsSubsequence(f, allStats)
      && (forall c :: c in f <==> c in allStats && KeptInComparison(t, sampleAverage, c))
      && (forall c :: c in f ==> c.key != "pos")
      && (forall c :: c in f && c.key !in IdentityKeys ==>
            c.key in StatMapping(t) && StatMapping(t)[c.key] in sampleAverage)
  {
    FilterIsSubsequence(allStats, ComparisonKeeps(t, sampleAverage));
  }

  // ---------------------------------------------------------------- cells

  /** The text of one cell; `fmt` is format_stat_value on a number. */
  function Cell(key: string, row: StatLine, fmt: real -> string): string
  {
    if key == "awards" then
      (if row.awards.Some? && row.awards.value != "" then
        (match ParseAwards(row.awards.value) case Some(p) => p case None => "")
       else "")
    else if key == "pos" then
      (if row.pos.Some? && row.pos.value != "" then ParsePositions(row.pos.value) else "")
    else if key == "year" then IntToString(row.year)
    else if key == "team" then row.team
    else if key == "lg" then row.lg
    else if key == "player" then row.player
    else if key == "player_additional" then (match row.id case Some(i) => i case None => "")
    else match Get(row, key) case Some(v) => fmt(v) case None => ""
  }


  /** An awards cell shows the season's award codes separated by ", ". */
  lemma AwardsCellListsCodes(row: StatLine, codes: seq<string>, fmt: real -> string)
    requires codes != [] && forall c :: c in codes ==> IsAwardCode(c)
    requires row.awards == Some(Concat(codes))
    ensures Cell("awards", row, fmt) == Join(codes, ", ")
  {
    ParseAwardsRoundTrip(codes);
  }

  /** A position cell keeps the starter mark of the raw code. */
  lemma PositionCellKeepsStar(row: StatLine, fmt: real -> string)
    requires row.pos.Some? && row.pos.value != ""
    ensures |Cell("pos", row, fmt)| > 0 && Cell("pos", row, fmt)[0] == '*' <==> row.pos.value[0] == '*'
  {
  }

  /** The row_values loop: one cell per column. */
  method RowCells(cols: seq<Column>, row: StatLine, fmt: real -> string) returns (values: seq<string>)
    ensures |values| == |cols|
    ensures forall i :: 0 <= i < |cols| ==> values[i] == Cell(cols[i].key, row, fmt)
  {
    values := [];
    for i := 0 to |cols|
      invariant |values| == i
      invariant forall j :: 0 <= j < i ==> values[j] == Cell(cols[j].key, row, fmt)
    {
      values := values + [Cell(cols[i].key, row, fmt)];
    }
  }

  // ---------------------------------------------------------------- widths

  /** The larger of `base` and every element of `xs`. */
  function MaxOf(base: nat, xs: seq<nat>): (m: nat)
    ensures m >= base && forall i :: 0 <= i < |xs| ==> m >= xs[i]
    ensures m == base || exists i :: 0 <= i < |xs| && m == xs[i]
  {
    if xs == [] then base
    else
      var init := xs[..|xs| - 1];
      var m := MaxOf(base, init);
      assert forall i :: 0 <= i < |init| ==> init[i] == xs[i];
      if xs[|xs| - 1] > m then xs[|xs| - 1] else m
  }

  lemma MaxOfSnoc(base: nat, xs: seq<nat>, x: nat)
    ensures MaxOf(base, xs + [x]) == if x > MaxOf(base, xs) then x else MaxOf(base, xs)
  {
    assert (xs + [x])[..|xs|] == xs;
  }

  /** The length of column `i`'s cell in each row. */
  function CellLengths(cells: seq<seq<string>>, i: nat): (r: seq<nat>)
    requires forall j :: 0 <= j < |cells| ==> i < |cells[j]|
    ensures |r| == |cells| && forall j :: 0 <= j < |cells| ==> r[j] == |cells[j][i]|
  {
    seq(|cells|, j requires 0 <= j < |cells| => |cells[j][i]|)
  }

  datatype Scope = TeamScope | LeagueScope

  function ScopeLabel(s: Scope): string
  {
    match s
    case TeamScope => "Team Avg"
    case LeagueScope => "League Avg"
  }

  /** One average line below the table, as printed for season `yr`. */
  function AverageCell(t: PlayerType, scope: Scope, yr: int, avg: map<string, Option<real>>,
                       key: string, fmt: real -> string): string
  {
    if key == "year" then IntToString(yr) + " " + ScopeLabel(scope)
    else if key in {"age", "team", "lg", "awards"} then ""
    else if key in StatMapping(t) && StatMapping(t)[key] in avg then
      (match avg[StatMapping(t)[key]] case Some(v) => fmt(v) case None => "")
    else ""
  }

  /** What the width loop adds for column `key` from one season's average. */
  function AverageLength(t: PlayerType, scope: Scope, entry: (int, map<string, Option<real>>),
                         key: string, fmt: real -> string): nat
  {
    var (yr, avg) := entry;
    if key == "year" then |IntToString(yr) + " " + ScopeLabel(scope)|
    else if key !in IdentityKeys && key in StatMapping(t) && StatMapping(t)[key] in avg then
      |match avg[StatMapping(t)[key]] case Some(v) => fmt(v) case None => ""|
    else 0
  }

  function AverageLengths(t: PlayerType, scope: Scope, averages: seq<(int, map<string, Option<real>>)>,
                          key: string, fmt: real -> string): (r: seq<nat>)
    ensures |r| == |averages|
    ensures forall k :: 0 <= k < |averages| ==> r[k] == AverageLength(t, scope, averages[k], key, fmt)
  {
    seq(|averages|, k requires 0 <= k < |averages| => AverageLength(t, scope, averages[k], key, fmt))
  }

  /** The widths: the longest of the label, the column's cells and, in
      comparison mode (`scope` given), the average values. */
  function Width(header: string, cells: seq<seq<string>>, i: nat, t: PlayerType, scope: Option<Scope>,
                 averages: seq<(int, map<string, Option<real>>)>, key: string, fmt: real -> string): nat
    requires forall j :: 0 <= j < |cells| ==> i < |cells[j]|
  {
    MaxOf(|header|, CellLengths(cells, i)
      + (if scope.Some? then AverageLengths(t, scope.value, averages, key, fmt) else []))
  }

  /** The col_widths loop. `cells` are the rendered rows, each with one cell
      per column; `averages` are the comparison averages by season. */
  method ColumnWidths(cols: seq<Column>, cells: seq<seq<string>>, t: PlayerType, scope: Option<Scope>,
                      averages: seq<(int, map<string, Option<real>>)>, fmt: real -> string)
    returns (widths: seq<nat>)
    requires forall j :: 0 <= j < |cells| ==> |cells[j]| == |cols|
    ensures |widths| == |cols|
    ensures forall i :: 0 <= i < |cols| ==>
      widths[i] == Width(cols[i].header, cells, i, t, scope, averages, cols[i].key, fmt)
  {
    widths := [];
    for i := 0 to |cols|
      invariant |widths| == i
      invariant forall k :: 0 <= k < i ==>
        widths[k] == Width(cols[k].header, cells, k, t, scope, averages, cols[k].key, fmt)
    {
      var w := ColumnWidth(cols[i], cells, i, t, scope, averages, fmt);
      ghost var prev := widths;
      widths := widths + [w];
      assert forall k :: 0 <= k < i ==> widths[k] == prev[k];
    }
  }

  lemma {:induction false} MaxOfAppend(base: nat, a: seq<nat>, b: seq<nat>)
    ensures MaxOf(base, a + b) == MaxOf(MaxOf(base, a), b)
  {
    if b == [] {
      assert a + b == a;
    } else {
      var init := b[..|b| - 1];
      MaxOfAppend(base, a, init);
      assert (a + b)[..|a + b| - 1] == a + init;
    }
  }

  /** One `max_width = max(max_width, …)` loop. */
  method Widen(start: nat, lengths: seq<nat>) returns (maxWidth: nat)
    ensures maxWidth == MaxOf(start, lengths)
  {
    maxWidth := start;
    for j := 0 to |lengths|
      invariant maxWidth == MaxOf(start, lengths[..j])
    {
      MaxOfSnoc(start, lengths[..j], lengths[j]);
      assert lengths[..j + 1] == lengths[..j] + [lengths[j]];
      if lengths[j] > maxWidth {
        maxWidth := lengths[j];
      }
    }
    assert lengths[..|lengths|] == lengths;
  }

  method ColumnWidth(col: Column, cells: seq<seq<string>>, i: nat, t: PlayerType, scope: Option<Scope>,
                     averages: seq<(int, map<string, Option<real>>)>, fmt: real -> string)
    returns (maxWidth: nat)
    requires forall j :: 0 <= j < |cells| ==> i < |cells[j]|
    ensures maxWidth == Width(col.header, cells, i, t, scope, averages, col.key, fmt)
  {
    var lengths := CellLengths(cells, i);
    maxWidth := Widen(|col.header|, lengths);
    if scope.Some? {
      var extra := AverageLengths(t, scope.value, averages, col.key, fmt);
      maxWidth := Widen(maxWidth, extra);
      MaxOfAppend(|col.header|, lengths, extra);
    } else {
      assert lengths + [] == lengths;
    }
  }

  /** Every cell, and in comparison mode every printed average line, fits its
      column. */
  lemma {:induction false} WidthsFitAverageRows(header: string, cells: seq<seq<string>>, i: nat, t: PlayerType,
                                                scope: Scope, averages: seq<(int, map<string, Option<real>>)>,
                                                key: string, fmt: real -> string, k: nat)
    requires forall j :: 0 <= j < |cells| ==> i < |cells[j]|
    requires k < |averages|
    ensures |AverageCell(t, scope, averages[k].0, averages[k].1, key, fmt)|
            <= Width(header, cells, i, t, Some(scope), averages, key, fmt)
    ensures forall j :: 0 <= j < |cells| ==> |cells[j][i]| <= Width(header, cells, i, t, Some(scope), averages, key, fmt)
  {
    var lengths := CellLengths(cells, i);
    var extra := AverageLengths(t, scope, averages, key, fmt);
    AverageLengthIsCell(t, scope, averages[k], key, fmt);
    assert (lengths + extra)[|lengths| + k] == extra[k];
    forall j | 0 <= j < |cells| ensures |cells[j][i]| <= Width(header, cells, i, t, Some(scope), averages, key, fmt) {
      assert (lengths + extra)[j] == lengths[j];
    }
  }

  /** The width loop measures exactly the cell the average line prints. */
  lemma AverageLengthIsCell(t: PlayerType, scope: Scope, entry: (int, map<string, Option<real>>),
                            key: string, fmt: real -> string)
    ensures AverageLength(t, scope, entry, key, fmt) == |AverageCell(t, scope, entry.0, entry.1, key, fmt)|
  {
  }

  /** A text column prints its text as stored (format_stat_value returns a
      string unchanged), and a NULL text column prints empty. */
  lemma TextCellsShowText(row: StatLine, fmt: real -> string)
    ensures Cell("player", row, fmt) == row.player
    ensures Cell("team", row, fmt) == row.team
    ensures Cell("lg", row, fmt) == row.lg
    ensures row.id.Some? ==> Cell("player_additional", row, fmt) == row.id.value
    ensures row.id.None? ==> Cell("player_additional", row, fmt) == ""
  {
  }
}
