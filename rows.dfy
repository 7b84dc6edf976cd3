/** One season line of the pitcher or hitter table, as bcli.py reads a row
    with its column names, and the team summary shown next to a player. */
module Rows {
  import opened Wrappers
  import opened Seqs
  import opened Text

  /** A season line. `team` and `lg` are "" where the database holds NULL;
      `awards` and `pos` stay raw; every numeric column (g, ip, pa, ab, era, …)
      sits in `stats`, None where the database holds NULL. `id` is the
      player_additional link, None where the database holds NULL. */
  datatype StatLine = StatLine(
    year: int,
    player: string,
    team: string,
    lg: string,
    id: Option<string>,
    awards: Option<string>,
    pos: Option<string>,
    stats: map<string, Option<real>>)

  datatype PlayerType = Pitcher | Hitter

  /** A numeric column's value; absent columns read as NULL. */
  function Get(row: StatLine, key: string): (v: Option<real>)
    ensures key !in row.stats ==> v.None?
  {
    if key in row.stats then row.stats[key] else None
  }

  /** The aggregate line of a player traded during the season. */
  predicate IsMultiTeam(team: string)
  {
    Contains(team, "2TM") || Contains(team, "3TM")
  }

  /** The team column of some rows, in row order. */
  function Teams(rows: seq<StatLine>): (r: seq<string>)
    ensures |r| == |rows| && forall i :: 0 <= i < |rows| ==> r[i] == rows[i].team
  {
    seq(|rows|, i requires 0 <= i < |rows| => rows[i].team)
  }

  predicate IsSingleTeam(team: string)
  {
    !IsMultiTeam(team)
  }

  /** The teams of the rows that are not aggregate lines, in row order and
      with repeats, as the list comprehension of get_player_team_info builds
      them. */
  function SingleTeams(rows: seq<StatLine>): (teams: seq<string>)
    ensures teams == Filter(Teams(rows), IsSingleTeam)
    ensures forall t :: t in teams ==> !IsMultiTeam(t) && exists r :: r in rows && r.team == t
    ensures forall r :: r in rows && !IsMultiTeam(r.team) ==> r.team in teams
  {
    if rows == [] then []
    else
      var rest := SingleTeams(rows[1..]);
      assert Teams(rows) == [rows[0].team] + Teams(rows[1..]);
      assert forall r :: r in rows[1..] ==> r in rows;
      if IsMultiTeam(rows[0].team) then rest else [rows[0].team] + rest
  }

  function MaxYear(rows: seq<StatLine>): (y: int)
    requires rows != []
    ensures exists r :: r in rows && r.year == y
    ensures forall r :: r in rows ==> r.year <= y
  {
    if |rows| == 1 then rows[0].year
    else
      var m := MaxYear(rows[1..]);
      assert forall r :: r in rows[1..] ==> r in rows;
      if rows[0].year >= m then rows[0].year else m
  }

  /** The season a player's team is described from: 2025 when the player has
      a 2025 row, otherwise the most recent season. */
  function ReportSeason(rows: seq<StatLine>): (y: int)
    requires rows != []
    ensures exists r :: r in rows && r.year == y
    ensures (exists r :: r in rows && r.year == 2025) ==> y == 2025
    ensures (forall r :: r in rows ==> r.year != 2025) ==> forall r :: r in rows ==> r.year <= y
  {
    if exists r :: r in rows && r.year == 2025 then 2025 else MaxYear(rows)
  }

  function RowsOfYear(rows: seq<StatLine>, y: int): (r: seq<StatLine>)
    ensures forall x :: x in r <==> x in rows && x.year == y
  {
    Filter(rows, (x: StatLine) => x.year == y)
  }

  /** get_player_team_info: the single-team clubs of the reported season
      joined by ", ", or that season's first (aggregate) team when it has
      only aggregate lines; None when there are no rows. */
  function PlayerTeamInfo(rows: seq<StatLine>): (info: Option<string>)
    ensures info.None? <==> rows == []
  {
    if rows == [] then None
    else
      var season := RowsOfYear(rows, ReportSeason(rows));
      assert season != [] by {
        var r :| r in rows && r.year == ReportSeason(rows);
        assert r in season;
      }
      var teams := SingleTeams(season);
      Some(Join(if teams != [] then teams else [season[0].team], ", "))
  }

  /** What the summary lists: the reported season's single-team clubs when it
      has any, each of them, and otherwise one team seen in that season. */
  lemma PlayerTeamInfoSpec(rows: seq<StatLine>)
    requires rows != []
    ensures var y := ReportSeason(rows);
            var season := RowsOfYear(rows, y);
            var teams := SingleTeams(season);
            && (teams != [] ==> PlayerTeamInfo(rows) == Some(Join(teams, ", ")))
            && (forall r :: r in rows && r.year == y && !IsMultiTeam(r.team) ==> r.team in teams)
            && (forall t :: t in teams ==> exists r :: r in rows && r.year == y && r.team == t)
            && (teams == [] ==> PlayerTeamInfo(rows) == Some(season[0].team))
            && season != []
            && (exists i :: 0 <= i < |rows| && season[0] == rows[i] && rows[i].year == y
                             && forall j :: 0 <= j < i ==> rows[j].year != y)
  {
    var y := ReportSeason(rows);
    var season := RowsOfYear(rows, y);
    assert season != [] by {
      var r :| r in rows && r.year == y;
      assert r in season;
    }
    FilterHead(rows, (x: StatLine) => x.year == y);
  }
}
