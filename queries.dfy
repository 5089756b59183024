/**
 * The read-only queries the routes issue against the scores table: lookup by
 * primary key, the first row of a (player, gameweek) pair, the list filter and
 * the next-gameweek suggestion of the scores page, and the id SQLite gives the
 * next inserted row.
 */
module Queries {
  import opened Wrappers
  import opened Models

  /** Lookup by primary key (main.py:440): the position of the row with this id, if any. */
  function IndexOfId(table: seq<Score>, id: int): (r: Option<nat>)
    ensures r.Some? ==> r.value < |table| && table[r.value].id == id
    ensures r.Some? ==> forall j :: 0 <= j < r.value ==> table[j].id != id
    ensures r.None? <==> forall j :: 0 <= j < |table| ==> table[j].id != id
  {
    if table == [] then None
    else if table[0].id == id then Some(0)
    else match IndexOfId(table[1..], id)
      case None => None
      case Some(i) => Some(i + 1)
  }

  /**
   * The first row of the player at gameweek g (main.py:386-391). Rows are kept
   * in rowid order, so the first in table order is the first the query returns.
   */
  function FirstAt(table: seq<Score>, player: int, g: int): (r: Option<nat>)
    ensures r.Some? ==> r.value < |table| && table[r.value].playerId == player && table[r.value].gameweek == g
    ensures r.Some? ==> forall j :: 0 <= j < r.value ==> table[j].playerId != player || table[j].gameweek != g
    ensures r.None? <==> forall j :: 0 <= j < |table| ==> table[j].playerId != player || table[j].gameweek != g
  {
    if table == [] then None
    else if table[0].playerId == player && table[0].gameweek == g then Some(0)
    else match FirstAt(table[1..], player, g)
      case None => None
      case Some(i) => Some(i + 1)
  }

  /** The rowid SQLite assigns to the next insert: one more than the largest id, or 1 in an empty table. */
  function NextScoreId(table: seq<Score>): (r: int)
    ensures forall k :: 0 <= k < |table| ==> table[k].id < r
    ensures table == [] ==> r == 1
    ensures table != [] ==> exists k :: 0 <= k < |table| && table[k].id == r - 1
  {
    if table == [] then 1
    else
      var rest := NextScoreId(table[1..]);
      if |table| == 1 || table[0].id + 1 >= rest then table[0].id + 1 else rest
  }

  /** Whether a row passes the scores list's filters; a filter that is not given passes every row. */
  predicate Matches(s: Score, player: Option<int>, gameweek: Option<int>)
  {
    (player.None? || s.playerId == player.value) && (gameweek.None? || s.gameweek == gameweek.value)
  }

  /** The scores list (main.py:312-332): the rows matching every filter that is given, in table order. */
  function FilterScores(table: seq<Score>, player: Option<int>, gameweek: Option<int>): (r: seq<Score>)
    ensures |r| <= |table|
    ensures forall s :: s in r <==> s in table && Matches(s, player, gameweek)
    ensures forall s :: multiset(r)[s] == if Matches(s, player, gameweek) then multiset(table)[s] else 0
  {
    if table == [] then []
    else
      var s := table[0];
      var rest := FilterScores(table[1..], player, gameweek);
      assert table == [s] + table[1..];
      if Matches(s, player, gameweek) then [s] + rest else rest
  }

  /** The largest gameweek over all scores, 0 when there are none (main.py:336-338). */
  function MaxGameweek(table: seq<Score>): (m: int)
    ensures forall k :: 0 <= k < |table| ==> table[k].gameweek <= m
    ensures table == [] ==> m == 0
    ensures table != [] ==> exists k :: 0 <= k < |table| && table[k].gameweek == m
  {
    if table == [] then 0
    else if |table| == 1 then table[0].gameweek
    else
      var rest := MaxGameweek(table[1..]);
      if table[0].gameweek >= rest then table[0].gameweek else rest
  }

  /** The gameweek the scores page proposes for the next bulk upload: one after the largest stored (main.py:339). */
  function NextGameweek(table: seq<Score>): (r: int)
    ensures forall k :: 0 <= k < |table| ==> table[k].gameweek < r
    ensures table != [] ==> exists k :: 0 <= k < |table| && table[k].gameweek == r - 1
    ensures table == [] ==> r == FirstGameweek
    ensures AllRowsSatisfyChecks(table) ==> FirstGameweek <= r <= LastGameweek + 1
  {
    MaxGameweek(table) + 1
  }
}
