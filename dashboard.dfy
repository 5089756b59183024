/**
 * The dashboard's two charts (main.py:95-198): per team, the week points summed
 * at each gameweek, and the sum of the team's stored running totals at each
 * gameweek, carried forward through gameweeks where the team has no rows.
 */
module Dashboard {
  import opened Wrappers
  import opened Models
  import opened Sorting

  /** A score joined with its player, as the dashboard's query returns them. */
  type JoinedRow = (Score, Player)

  datatype Dataset = Dataset(team: string, data: seq<int>)

  /** One chart: the gameweek labels of the x axis and one dataset per team. */
  datatype Chart = Chart(labels: seq<int>, datasets: seq<Dataset>)

  function FindPlayer(players: seq<Player>, id: int): (r: Option<Player>)
    ensures r.Some? ==> r.value in players && r.value.id == id
    ensures r.None? <==> id !in PlayerIds(players)
  {
    if players == [] then None
    else if players[0].id == id then Some(players[0])
    else FindPlayer(players[1..], id)
  }

  function ScoresOf(rows: seq<JoinedRow>): seq<Score>
  {
    seq(|rows|, k requires 0 <= k < |rows| => rows[k].0)
  }

  /** The inner join of scores with players (main.py:98-102): each score whose player exists, once, with that player. */
  function JoinPlayers(table: seq<Score>, players: seq<Player>): (r: seq<JoinedRow>)
    ensures |r| <= |table|
    ensures forall k :: 0 <= k < |r| ==> r[k].1 in players && r[k].1.id == r[k].0.playerId
    ensures forall s :: multiset(ScoresOf(r))[s] == if s.playerId in PlayerIds(players) then multiset(table)[s] else 0
  {
    if table == [] then []
    else
      assert table == [table[0]] + table[1..];
      assert multiset(table) == multiset{table[0]} + multiset(table[1..]);
      var rest := JoinPlayers(table[1..], players);
      match FindPlayer(players, table[0].playerId)
      case None => rest
      case Some(p) =>
        var r := [(table[0], p)] + rest;
        assert ScoresOf(r) == [table[0]] + ScoresOf(rest);
        assert multiset(ScoresOf(r)) == multiset{table[0]} + multiset(ScoresOf(rest));
        r
  }

  /** The teams that appear in the rows. */
  function Teams(rows: seq<JoinedRow>): set<string>
  {
    set k | 0 <= k < |rows| :: rows[k].1.team
  }

  /** The gameweeks that appear in the rows. */
  function Gameweeks(rows: seq<JoinedRow>): set<int>
  {
    set k | 0 <= k < |rows| :: rows[k].0.gameweek
  }

  /** The sum of week_points over a team's rows at gameweek g (0 when it has none). */
  function TeamWeekPoints(rows: seq<JoinedRow>, team: string, g: int): int
  {
    if rows == [] then 0
    else
      var last := rows[|rows| - 1];
      TeamWeekPoints(rows[..|rows| - 1], team, g)
        + (if last.1.team == team && last.0.gameweek == g then last.0.weekPoints else 0)
  }

  /** The sum of week_points over all of a team's rows. */
  function TeamPoints(rows: seq<JoinedRow>, team: string): int
  {
    if rows == [] then 0
    else
      var last := rows[|rows| - 1];
      TeamPoints(rows[..|rows| - 1], team) + (if last.1.team == team then last.0.weekPoints else 0)
  }

  predicate TeamHasRowAt(rows: seq<JoinedRow>, team: string, g: int)
  {
    exists k :: 0 <= k < |rows| && rows[k].1.team == team && rows[k].0.gameweek == g
  }

  /** The sum of the stored running totals of a team's rows at gameweek g (main.py:170-177). */
  function TeamOverallAt(rows: seq<JoinedRow>, team: string, g: int): int
  {
    if rows == [] then 0
    else
      var last := rows[|rows| - 1];
      TeamOverallAt(rows[..|rows| - 1], team, g)
        + (if last.1.team == team && last.0.gameweek == g then last.0.overallPoints else 0)
  }

  /**
   * The overall chart's value for one team at labels[k]: at a gameweek where
   * the team has rows, the sum of their stored totals; elsewhere the value at
   * the previous label, or 0 at the first.
   */
  function CarriedValue(rows: seq<JoinedRow>, team: string, labels: seq<int>, k: nat): int
    requires k < |labels|
  {
    if TeamHasRowAt(rows, team, labels[k]) then TeamOverallAt(rows, team, labels[k])
    else if k == 0 then 0
    else CarriedValue(rows, team, labels, k - 1)
  }

  ghost predicate IsCarriedSeries(series: seq<int>, rows: seq<JoinedRow>, team: string, labels: seq<int>)
  {
    && |series| == |labels|
    && forall k :: 0 <= k < |labels| ==> series[k] == CarriedValue(rows, team, labels, k)
  }

  function Lookup(m: map<(string, int), int>, team: string, g: int): int
  {
    if (team, g) in m then m[(team, g)] else 0
  }

  /** The weekly series of one team: its accumulated week points at each label, 0 where it has none (main.py:144-146). */
  method WeeklySeries(weekly: map<(string, int), int>, team: string, labels: seq<int>) returns (series: seq<int>)
    ensures |series| == |labels|
    ensures forall k :: 0 <= k < |labels| ==> series[k] == Lookup(weekly, team, labels[k])
  {
    series := [];
    for k := 0 to |labels|
      invariant |series| == k
      invariant forall j :: 0 <= j < k ==> series[j] == Lookup(weekly, team, labels[j])
    {
      series := series + [Lookup(weekly, team, labels[k])];
    }
  }

  /** The overall series of one team, carrying its last value forward (main.py:164-178). */
  method CarriedSeries(rows: seq<JoinedRow>, team: string, labels: seq<int>) returns (series: seq<int>)
    ensures IsCarriedSeries(series, rows, team, labels)
  {
    series := [];
    var cumulative := 0;
    for k := 0 to |labels|
      invariant |series| == k
      invariant k > 0 ==> cumulative == CarriedValue(rows, team, labels, k - 1)
      invariant k == 0 ==> cumulative == 0
      invariant forall j :: 0 <= j < k ==> series[j] == CarriedValue(rows, team, labels, j)
    {
      if TeamHasRowAt(rows, team, labels[k]) {
        cumulative := TeamOverallAt(rows, team, labels[k]);
      }
      series := series + [cumulative];
    }
  }

  /** The first loop (main.py:112-117): the teams, the gameweeks, and week points summed per (team, gameweek). */
  method Accumulate(rows: seq<JoinedRow>) returns (teams: set<string>, gameweeks: set<int>, weeklyPoints: map<(string, int), int>)
    ensures teams == Teams(rows)
    ensures gameweeks == Gameweeks(rows)
    ensures forall team, g :: Lookup(weeklyPoints, team, g) == TeamWeekPoints(rows, team, g)
  {
    teams, gameweeks, weeklyPoints := {}, {}, map[];
    for i := 0 to |rows|
      invariant teams == Teams(rows[..i])
      invariant gameweeks == Gameweeks(rows[..i])
      invariant forall team, g :: Lookup(weeklyPoints, team, g) == TeamWeekPoints(rows[..i], team, g)
    {
      var (score, player) := rows[i];
      assert rows[..i + 1] == rows[..i] + [rows[i]];
      assert rows[..i + 1][..i] == rows[..i];
      teams := teams + {player.team};
      gameweeks := gameweeks + {score.gameweek};
      weeklyPoints := weeklyPoints[(player.team, score.gameweek) :=
                                   Lookup(weeklyPoints, player.team, score.gameweek) + score.weekPoints];
    }
    assert rows[..|rows|] == rows;
  }

  /** Whether a chart's datasets are the given teams, in that order, with the dashboard's two series. */
  ghost predicate DatasetsFor(weekly: seq<Dataset>, overall: seq<Dataset>, rows: seq<JoinedRow>,
                              teams: seq<string>, labels: seq<int>)
  {
    && |weekly| == |overall| == |teams|
    && forall u :: 0 <= u < |teams| ==>
         && weekly[u].team == teams[u] && overall[u].team == teams[u]
         && |weekly[u].data| == |labels|
         && (forall k :: 0 <= k < |labels| ==> weekly[u].data[k] == TeamWeekPoints(rows, teams[u], labels[k]))
         && IsCarriedSeries(overall[u].data, rows, teams[u], labels)
  }

  /** The two loops over the sorted teams (main.py:143-189). */
  method BuildDatasets(rows: seq<JoinedRow>, weeklyPoints: map<(string, int), int>, teams: seq<string>, labels: seq<int>)
    returns (weekly: seq<Dataset>, overall: seq<Dataset>)
    requires forall team, g :: Lookup(weeklyPoints, team, g) == TeamWeekPoints(rows, team, g)
    ensures DatasetsFor(weekly, overall, rows, teams, labels)
  {
    weekly, overall := [], [];
    for t := 0 to |teams|
      invariant DatasetsFor(weekly, overall, rows, teams[..t], labels)
    {
      var weeklyData := WeeklySeries(weeklyPoints, teams[t], labels);
      var overallData := CarriedSeries(rows, teams[t], labels);
      weekly := weekly + [Dataset(teams[t], weeklyData)];
      overall := overall + [Dataset(teams[t], overallData)];
    }
    assert teams[..|teams|] == teams;
  }

  function TeamsOf(datasets: seq<Dataset>): seq<string>
  {
    seq(|datasets|, t requires 0 <= t < |datasets| => datasets[t].team)
  }

  /**
   * The dashboard: the sorted distinct gameweeks as labels ([1] when there are
   * no scores), the sorted distinct teams, and for each team its weekly points
   * series and its carried-forward overall series.
   */
  method BuildDashboard(table: seq<Score>, players: seq<Player>) returns (weekly: Chart, overall: Chart)
    ensures var rows := JoinPlayers(table, players);
      && weekly.labels == overall.labels
      && (rows == [] ==> weekly.labels == [1])
      && (rows != [] ==> StrictlySorted(weekly.labels, IntLess)
                         && forall g :: g in weekly.labels <==> g in Gameweeks(rows))
      && StrictlySorted(TeamsOf(weekly.datasets), StrLess)
      && (forall team :: team in TeamsOf(weekly.datasets) <==> team in Teams(rows))
      && DatasetsFor(weekly.datasets, overall.datasets, rows, TeamsOf(weekly.datasets), weekly.labels)
  {
    var rows := JoinPlayers(table, players);
    var teams, gameweeks, weeklyPoints := Accumulate(rows);
    assert rows != [] ==> rows[0].0.gameweek in gameweeks;
    var labels := [1];
    if gameweeks != {} {
      labels := SortSet(gameweeks, IntLess);
    }
    StrLessOrdersStrings(teams);
    var sortedTeams := SortSet(teams, StrLess);
    var weeklySets, overallSets := BuildDatasets(rows, weeklyPoints, sortedTeams, labels);
    weekly := Chart(labels, weeklySets);
    overall := Chart(labels, overallSets);
    assert TeamsOf(weeklySets) == sortedTeams;
  }

  /** Between gameweeks where the team has rows, the overall series holds its last value. */
  lemma {:induction false} CarriedHoldsValue(rows: seq<JoinedRow>, team: string, labels: seq<int>, j: nat, k: nat)
    requires j <= k < |labels|
    requires forall m :: j < m <= k ==> !TeamHasRowAt(rows, team, labels[m])
    ensures CarriedValue(rows, team, labels, k) == CarriedValue(rows, team, labels, j)
    decreases k
  {
    if k > j {
      CarriedHoldsValue(rows, team, labels, j, k - 1);
    }
  }

  /** Before the team's first gameweek with rows, the overall series is 0. */
  lemma {:induction false} CarriedStartsAtZero(rows: seq<JoinedRow>, team: string, labels: seq<int>, k: nat)
    requires k < |labels|
    requires forall m :: 0 <= m <= k ==> !TeamHasRowAt(rows, team, labels[m])
    ensures CarriedValue(rows, team, labels, k) == 0
  {
    if k > 0 {
      CarriedStartsAtZero(rows, team, labels, k - 1);
    }
  }

  /** The sum of a team's weekly series over the labels. */
  function SumOverLabels(rows: seq<JoinedRow>, team: string, labels: seq<int>): int
  {
    if labels == [] then 0
    else TeamWeekPoints(rows, team, labels[0]) + SumOverLabels(rows, team, labels[1..])
  }

  lemma {:induction false} SumOverLabelsEmpty(team: string, labels: seq<int>)
    ensures SumOverLabels([], team, labels) == 0
  {
    if labels != [] {
      SumOverLabelsEmpty(team, labels[1..]);
    }
  }

  /** One more row adds its points once, at its own gameweek, when that gameweek is a label. */
  lemma {:induction false} SumOverLabelsSnoc(rows: seq<JoinedRow>, x: JoinedRow, team: string, labels: seq<int>)
    requires StrictlySorted(labels, IntLess)
    ensures SumOverLabels(rows + [x], team, labels)
         == SumOverLabels(rows, team, labels)
            + (if x.1.team == team && x.0.gameweek in labels then x.0.weekPoints else 0)
  {
    assert (rows + [x])[..|rows|] == rows;
    if labels != [] {
      assert StrictlySorted(labels[1..], IntLess);
      assert labels[0] !in labels[1..];
      SumOverLabelsSnoc(rows, x, team, labels[1..]);
    }
  }

  /**
   * When the labels list every gameweek of the rows once, a team's weekly
   * entries add up to all of its week points: nothing is lost or counted twice.
   */
  lemma {:induction false} WeeklyPointsAddUp(rows: seq<JoinedRow>, team: string, labels: seq<int>)
    requires StrictlySorted(labels, IntLess)
    requires forall g :: g in Gameweeks(rows) ==> g in labels
    ensures SumOverLabels(rows, team, labels) == TeamPoints(rows, team)
    decreases |rows|
  {
    if rows == [] {
      SumOverLabelsEmpty(team, labels);
    } else {
      var n := |rows| - 1;
      var before := rows[..n];
      assert rows == before + [rows[n]];
      assert Gameweeks(before) <= Gameweeks(rows);
      assert rows[n].0.gameweek in Gameweeks(rows);
      WeeklyPointsAddUp(before, team, labels);
      SumOverLabelsSnoc(before, rows[n], team, labels);
    }
  }
}
