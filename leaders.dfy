/** The yearly league leaders render_player computes so that a season line
    can be marked when the player led the NL or the AL in a stat
    (bcli.py:629-694). */
module Leaders {
  import opened Wrappers
  import opened Seqs
  import opened Rows

  /** Stats where the smallest value leads; there are none for hitters. */
  function LowerIsBetter(t: PlayerType): set<string>
  {
    match t
    case Pitcher => {"era", "fip", "whip", "h9", "hr9", "bb9"}
    case Hitter => {}
  }

  /** Rate stats that only count for players who reached the qualifier. */
  function NeedsQualification(t: PlayerType): set<string>
  {
    match t
    case Pitcher => {"era", "whip", "fip", "h9", "hr9", "bb9", "so9", "w_l_pct", "era_plus", "so_bb"}
    case Hitter => {"ba", "obp", "slg", "ops", "ops_plus", "roba", "rbat_plus"}
  }

  /** The qualifying column: innings pitched or plate appearances. */
  function QualField(t: PlayerType): string
  {
    match t
    case Pitcher => "ip"
    case Hitter => "pa"
  }

  function QualThreshold(t: PlayerType): real
  {
    match t
    case Pitcher => 162.0
    case Hitter => 502.0
  }

  /** Columns that never get a leader entry. */
  const SkippedKeys: set<string> := {"year", "age", "team", "lg", "awards", "pos"}

  /** A row enters the race for `key`: it has a value, and for a rate stat it
      also has a qualifier at or above the threshold. */
  predicate Eligible(t: PlayerType, key: string, row: StatLine)
  {
    && Get(row, key).Some?
    && (key in NeedsQualification(t) ==>
          Get(row, QualField(t)).Some? && Get(row, QualField(t)).value >= QualThreshold(t))
  }

  /** `x` is strictly better than `y`. */
  predicate Improves(lower: bool, x: real, y: real)
  {
    if lower then x < y else x > y
  }

  /** The `stat_values` list: (value, row) for each eligible row of the
      league, in table order. */
  function StatValues(t: PlayerType, key: string, rows: seq<StatLine>, league: string): (sv: seq<(real, StatLine)>)
    ensures |sv| <= |rows|
  {
    if rows == [] then []
    else
      var rest := StatValues(t, key, rows[1..], league);
      if rows[0].lg == league && Eligible(t, key, rows[0])
      then [(Get(rows[0], key).value, rows[0])] + rest
      else rest
  }

  /** An entry of stat_values is an eligible row of the league with its value,
      and every such row has its entry. */
  lemma {:induction false} StatValuesMembers(t: PlayerType, key: string, rows: seq<StatLine>, league: string)
    ensures var sv := StatValues(t, key, rows, league);
      forall e :: e in sv <==> (e.1 in rows && e.1.lg == league && Eligible(t, key, e.1) && e.0 == Get(e.1, key).value)
  {
    if rows != [] {
      StatValuesMembers(t, key, rows[1..], league);
      assert forall r :: r in rows <==> r == rows[0] || r in rows[1..];
    }
  }

  /** The rows of a stat_values list. */
  function EntryRows(sv: seq<(real, StatLine)>): (r: seq<StatLine>)
    ensures |r| == |sv| && forall i :: 0 <= i < |sv| ==> r[i] == sv[i].1
  {
    if sv == [] then [] else [sv[0].1] + EntryRows(sv[1..])
  }

  /** The race is run over the league's eligible rows in their table order. */
  lemma {:induction false} StatValuesInOrder(t: PlayerType, key: string, rows: seq<StatLine>, league: string)
    ensures EntryRows(StatValues(t, key, rows, league))
         == Filter(rows, (r: StatLine) => r.lg == league && Eligible(t, key, r))
  {
    if rows != [] {
      StatValuesInOrder(t, key, rows[1..], league);
    }
  }

  /** Python's `min(sv, key=…)` / `max(sv, key=…)`: a later entry replaces the
      best so far only when it is strictly better. */
  function BestEntry(lower: bool, sv: seq<(real, StatLine)>): (r: (real, StatLine))
    requires sv != []
    ensures r in sv
    ensures forall i :: 0 <= i < |sv| ==> !Improves(lower, sv[i].0, r.0)
  {
    if |sv| == 1 then sv[0]
    else
      var b := BestEntry(lower, sv[..|sv| - 1]);
      assert forall i :: 0 <= i < |sv| - 1 ==> sv[..|sv| - 1][i] == sv[i];
      if Improves(lower, sv[|sv| - 1].0, b.0) then sv[|sv| - 1] else b
  }

  /** Among equally good entries the earliest one wins: every entry before the
      winner is strictly worse. */
  lemma {:induction false} BestEntryIsFirst(lower: bool, sv: seq<(real, StatLine)>)
    requires sv != []
    ensures exists k :: 0 <= k < |sv| && sv[k] == BestEntry(lower, sv)
              && forall j :: 0 <= j < k ==> Improves(lower, BestEntry(lower, sv).0, sv[j].0)
  {
    if |sv| == 1 {
      assert sv[0] == BestEntry(lower, sv);
    } else {
      var init := sv[..|sv| - 1];
      BestEntryIsFirst(lower, init);
      var b := BestEntry(lower, init);
      var k :| 0 <= k < |init| && init[k] == b && forall j :: 0 <= j < k ==> Improves(lower, b.0, init[j].0);
      if Improves(lower, sv[|sv| - 1].0, b.0) {
        var w := sv[|sv| - 1];
        forall j | 0 <= j < |sv| - 1 ensures Improves(lower, w.0, sv[j].0) {
          assert init[j] == sv[j];
          assert !Improves(lower, init[j].0, b.0);
        }
        assert sv[|sv| - 1] == BestEntry(lower, sv);
        assert forall j :: 0 <= j < |sv| - 1 ==> Improves(lower, BestEntry(lower, sv).0, sv[j].0);
      } else {
        assert sv[k] == init[k];
        forall j | 0 <= j < k ensures Improves(lower, b.0, sv[j].0) {
          assert init[j] == sv[j];
        }
        assert sv[k] == BestEntry(lower, sv);
      }
    }
  }

  /** The leader of one league in one stat for one season's table. */
  function LeagueLeader(t: PlayerType, key: string, yearRows: seq<StatLine>, league: string): Option<StatLine>
  {
    var sv := StatValues(t, key, yearRows, league);
    if sv == [] then None else Some(BestEntry(key in LowerIsBetter(t), sv).1)
  }

  /** The leader is an eligible row of its league that no eligible row of the
      league beats; there is none exactly when no row of the league is
      eligible. */
  lemma LeagueLeaderSpec(t: PlayerType, key: string, yearRows: seq<StatLine>, league: string)
    ensures LeagueLeader(t, key, yearRows, league).None?
        <==> forall r :: r in yearRows ==> !(r.lg == league && Eligible(t, key, r))
    ensures LeagueLeader(t, key, yearRows, league).Some? ==>
      var l := LeagueLeader(t, key, yearRows, league).value;
      && l in yearRows && l.lg == league && Eligible(t, key, l)
      && forall r :: r in yearRows && r.lg == league && Eligible(t, key, r) ==>
           !Improves(key in LowerIsBetter(t), Get(r, key).value, Get(l, key).value)
  {
    var sv := StatValues(t, key, yearRows, league);
    var lower := key in LowerIsBetter(t);
    StatValuesMembers(t, key, yearRows, league);
    forall r | r in yearRows && r.lg == league && Eligible(t, key, r)
      ensures (Get(r, key).value, r) in sv
    {
    }
    if sv != [] {
      var b := BestEntry(lower, sv);
      assert b in sv;
      forall r | r in yearRows && r.lg == league && Eligible(t, key, r)
        ensures !Improves(lower, Get(r, key).value, Get(b.1, key).value)
      {
        var i :| 0 <= i < |sv| && sv[i] == (Get(r, key).value, r);
      }
    }
  }

  /** Entry `k` of stat_values is strictly better than every entry before it. */
  predicate BeatsAllBefore(lower: bool, sv: seq<(real, StatLine)>, k: int)
  {
    0 <= k < |sv| && forall j :: 0 <= j < k ==> Improves(lower, sv[k].0, sv[j].0)
  }

  /** Ties go to the row that comes first in the table. */
  lemma LeagueLeaderFirstAmongTies(t: PlayerType, key: string, yearRows: seq<StatLine>, league: string)
    requires LeagueLeader(t, key, yearRows, league).Some?
    ensures exists k ::
              && BeatsAllBefore(key in LowerIsBetter(t), StatValues(t, key, yearRows, league), k)
              && StatValues(t, key, yearRows, league)[k].1 == LeagueLeader(t, key, yearRows, league).value
  {
    var sv := StatValues(t, key, yearRows, league);
    var lower := key in LowerIsBetter(t);
    BestEntryIsFirst(lower, sv);
    var k :| 0 <= k < |sv| && sv[k] == BestEntry(lower, sv)
      && forall j :: 0 <= j < k ==> Improves(lower, BestEntry(lower, sv).0, sv[j].0);
    assert BeatsAllBefore(lower, sv, k);
  }

  /** A rate stat never goes to a row below the qualifier. */
  lemma UnqualifiedNeverLeads(t: PlayerType, key: string, yearRows: seq<StatLine>, league: string)
    requires key in NeedsQualification(t)
    requires LeagueLeader(t, key, yearRows, league).Some?
    ensures var q := Get(LeagueLeader(t, key, yearRows, league).value, QualField(t));
      q.Some? && q.value >= QualThreshold(t)
  {
    LeagueLeaderSpec(t, key, yearRows, league);
  }

  /** The loop that builds stat_values, then the min/max over it. */
  method ComputeLeagueLeader(t: PlayerType, key: string, yearRows: seq<StatLine>, league: string)
    returns (leader: Option<StatLine>)
    ensures leader == LeagueLeader(t, key, yearRows, league)
  {
    var statValues: seq<(real, StatLine)> := [];
    var i := 0;
    while i < |yearRows|
      invariant 0 <= i <= |yearRows|
      invariant statValues + StatValues(t, key, yearRows[i..], league) == StatValues(t, key, yearRows, league)
    {
      var row := yearRows[i];
      assert yearRows[i..][1..] == yearRows[i + 1..];
      if row.lg == league {
        var val := Get(row, key);
        var qualVal := Get(row, QualField(t));
        if val.Some? {
          if key in NeedsQualification(t) && (qualVal.None? || qualVal.value < QualThreshold(t)) {
            // a rate stat without a qualifying workload is skipped
          } else {
            statValues := statValues + [(val.value, row)];
          }
        }
      }
      i := i + 1;
    }
    assert yearRows[i..] == [];
    assert statValues == StatValues(t, key, yearRows, league);
    if statValues == [] {
      leader := None;
    } else {
      var best := BestEntry(key in LowerIsBetter(t), statValues);
      leader := Some(best.1);
    }
  }

  datatype LeaderPair = LeaderPair(nl: Option<StatLine>, al: Option<StatLine>)

  /** The entry of one stat for one season: the NL and the AL leader. */
  function PairFor(t: PlayerType, key: string, yearRows: seq<StatLine>): LeaderPair
  {
    LeaderPair(LeagueLeader(t, key, yearRows, "NL"), LeagueLeader(t, key, yearRows, "AL"))
  }

  /** The stats of the table that get a leader entry. */
  function LeaderKeys(keys: seq<string>): (r: set<string>)
    ensures forall k :: k in r <==> k in keys && k !in SkippedKeys
  {
    set k | k in keys && k !in SkippedKeys
  }

  /** The seasons of the player's lines, leaving out a zero (falsy) year. */
  function LeaderYears(playerRows: seq<StatLine>): (r: set<int>)
    ensures forall y :: y in r <==> y != 0 && exists row :: row in playerRows && row.year == y
  {
    set row | row in playerRows && row.year != 0 :: row.year
  }

  function YearLeaders(t: PlayerType, keys: seq<string>, yearRows: seq<StatLine>): map<string, LeaderPair>
  {
    map k | k in LeaderKeys(keys) :: PairFor(t, k, yearRows)
  }

  /** leaders_by_year: for every season of the player, every displayed stat's
      NL and AL leader in that season's whole table. */
  function LeadersByYear(t: PlayerType, playerRows: seq<StatLine>, keys: seq<string>,
                         yearTable: int -> seq<StatLine>): (r: map<int, map<string, LeaderPair>>)
    ensures forall y :: y in r <==> y != 0 && exists row :: row in playerRows && row.year == y
    ensures forall y, k :: y in r ==> (k in r[y] <==> k in keys && k !in SkippedKeys)
    ensures forall y, k :: y in r && k in r[y] ==> r[y][k] == PairFor(t, k, yearTable(y))
  {
    map y | y in LeaderYears(playerRows) :: YearLeaders(t, keys, yearTable(y))
  }

  /** The inner loop over the displayed stats of one season. */
  method ComputeYearLeaders(t: PlayerType, keys: seq<string>, yearRows: seq<StatLine>)
    returns (entry: map<string, LeaderPair>)
    ensures entry == YearLeaders(t, keys, yearRows)
  {
    entry := map[];
    for i := 0 to |keys|
      invariant forall k :: k in entry <==> k in LeaderKeys(keys[..i])
      invariant forall k :: k in entry ==> entry[k] == PairFor(t, k, yearRows)
    {
      assert keys[..i + 1] == keys[..i] + [keys[i]];
      var key := keys[i];
      if key in SkippedKeys {
        continue;
      }
      var nl := ComputeLeagueLeader(t, key, yearRows, "NL");
      var al := ComputeLeagueLeader(t, key, yearRows, "AL");
      entry := entry[key := LeaderPair(nl, al)];
    }
    assert keys[..|keys|] == keys;
  }

  /** calculate_yearly_league_leaders: the season table of each year is the
      query result `yearTable(year)`. */
  method ComputeLeadersByYear(t: PlayerType, playerRows: seq<StatLine>, keys: seq<string>,
                              yearTable: int -> seq<StatLine>)
    returns (leaders: map<int, map<string, LeaderPair>>)
    ensures leaders == LeadersByYear(t, playerRows, keys, yearTable)
  {
    leaders := map[];
    var remaining := LeaderYears(playerRows);
    while remaining != {}
      invariant remaining <= LeaderYears(playerRows)
      invariant forall y :: y in leaders <==> y in LeaderYears(playerRows) && y !in remaining
      invariant forall y :: y in leaders ==> leaders[y] == YearLeaders(t, keys, yearTable(y))
      decreases |remaining|
    {
      var year :| year in remaining;
      var entry := ComputeYearLeaders(t, keys, yearTable(year));
      leaders := leaders[year := entry];
      remaining := remaining - {year};
    }
  }
}
