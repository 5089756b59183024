/**
 * The sums the scoring routes compute over filtered score rows
 * (main.py:404, 454, 483), and the running-total invariant they are meant to keep.
 */
module Ledger {
  import opened Wrappers
  import opened Models

  /**
   * Whether a row is selected by the filter "player_id == player, gameweek <= upTo
   * (when given), id != exceptId (when given)".
   */
  predicate Counts(s: Score, player: int, upTo: Option<int>, exceptId: Option<int>)
  {
    && s.playerId == player
    && (upTo.None? || s.gameweek <= upTo.value)
    && (exceptId.None? || s.id != exceptId.value)
  }

  /** sum(week_points - week_cost) over the selected rows. */
  function NetSum(table: seq<Score>, player: int, upTo: Option<int>, exceptId: Option<int>): int
  {
    if table == [] then 0
    else (if Counts(table[0], player, upTo, exceptId) then Net(table[0]) else 0)
         + NetSum(table[1..], player, upTo, exceptId)
  }

  /** A player's running total up to and including gameweek g. */
  function PrefixTotal(table: seq<Score>, player: int, g: int): int
  {
    NetSum(table, player, Some(g), None)
  }

  /** The sum over all of a player's rows, whatever their gameweek. */
  function PlayerTotal(table: seq<Score>, player: int): int
  {
    NetSum(table, player, None, None)
  }

  /** The sum over a player's rows up to gameweek g, leaving out the row with the given id. */
  function OtherPrefixTotal(table: seq<Score>, player: int, g: int, id: int): int
  {
    NetSum(table, player, Some(g), Some(id))
  }

  /** The running-total invariant for one player: every row of theirs stores its prefix total. */
  ghost predicate Consistent(table: seq<Score>, player: int)
  {
    forall k :: 0 <= k < |table| && table[k].playerId == player ==>
      table[k].overallPoints == PrefixTotal(table, player, table[k].gameweek)
  }

  /** The running-total invariant for every player at once. */
  ghost predicate LedgerConsistent(table: seq<Score>)
  {
    forall k :: 0 <= k < |table| ==>
      table[k].overallPoints == PrefixTotal(table, table[k].playerId, table[k].gameweek)
  }

  lemma {:induction false} NetSumAppend(a: seq<Score>, b: seq<Score>, player: int, upTo: Option<int>, exceptId: Option<int>)
    ensures NetSum(a + b, player, upTo, exceptId) == NetSum(a, player, upTo, exceptId) + NetSum(b, player, upTo, exceptId)
  {
    if a == [] {
      assert a + b == b;
    } else {
      assert (a + b)[1..] == a[1..] + b;
      NetSumAppend(a[1..], b, player, upTo, exceptId);
    }
  }

  /** A sum reads only the selected rows, and of them only points and cost. */
  lemma {:induction false} NetSumAgree(a: seq<Score>, b: seq<Score>, player: int, upTo: Option<int>, exceptId: Option<int>)
    requires |a| == |b|
    requires forall k :: 0 <= k < |a| ==>
      Counts(a[k], player, upTo, exceptId) == Counts(b[k], player, upTo, exceptId)
    requires forall k :: 0 <= k < |a| && Counts(a[k], player, upTo, exceptId) ==> Net(a[k]) == Net(b[k])
    ensures NetSum(a, player, upTo, exceptId) == NetSum(b, player, upTo, exceptId)
  {
    if a != [] {
      assert Counts(a[0], player, upTo, exceptId) == Counts(b[0], player, upTo, exceptId);
      NetSumAgree(a[1..], b[1..], player, upTo, exceptId);
    }
  }

  /** Sums never read the stored running totals. */
  lemma SumsIgnoreOverall(a: seq<Score>, b: seq<Score>, player: int, upTo: Option<int>, exceptId: Option<int>)
    requires |a| == |b|
    requires forall k :: 0 <= k < |a| ==> SameExceptOverall(a[k], b[k])
    ensures NetSum(a, player, upTo, exceptId) == NetSum(b, player, upTo, exceptId)
  {
    forall k | 0 <= k < |a|
      ensures Counts(a[k], player, upTo, exceptId) == Counts(b[k], player, upTo, exceptId)
      ensures Net(a[k]) == Net(b[k])
    {
      assert a[k].(overallPoints := 0) == b[k].(overallPoints := 0);
    }
    NetSumAgree(a, b, player, upTo, exceptId);
  }

  /** A sum over rows none of which is selected is zero. */
  lemma {:induction false} NetSumNoneSelected(table: seq<Score>, player: int, upTo: Option<int>, exceptId: Option<int>)
    requires forall k :: 0 <= k < |table| ==> !Counts(table[k], player, upTo, exceptId)
    ensures NetSum(table, player, upTo, exceptId) == 0
  {
    if table != [] {
      assert !Counts(table[0], player, upTo, exceptId);
      NetSumNoneSelected(table[1..], player, upTo, exceptId);
    }
  }

  /** When no row lies past gameweek g, the sum up to g is the sum over all gameweeks. */
  lemma {:induction false} NetSumAllUpTo(table: seq<Score>, player: int, g: int, exceptId: Option<int>)
    requires forall k :: 0 <= k < |table| ==> table[k].gameweek <= g
    ensures NetSum(table, player, Some(g), exceptId) == NetSum(table, player, None, exceptId)
  {
    if table != [] {
      assert table[0].gameweek <= g;
      NetSumAllUpTo(table[1..], player, g, exceptId);
    }
  }

  /** A sum that selects exactly one row is that row's net. */
  lemma NetSumOnlyOne(table: seq<Score>, i: nat, player: int, upTo: Option<int>, exceptId: Option<int>)
    requires i < |table| && Counts(table[i], player, upTo, exceptId)
    requires forall k :: 0 <= k < |table| && k != i ==> !Counts(table[k], player, upTo, exceptId)
    ensures NetSum(table, player, upTo, exceptId) == Net(table[i])
  {
    var front, back := table[..i], table[i + 1..];
    assert table == front + ([table[i]] + back);
    NetSumAppend(front, [table[i]] + back, player, upTo, exceptId);
    NetSumAppend([table[i]], back, player, upTo, exceptId);
    assert forall k :: 0 <= k < |front| ==> front[k] == table[k];
    NetSumNoneSelected(front, player, upTo, exceptId);
    assert forall k :: 0 <= k < |back| ==> back[k] == table[i + 1 + k];
    NetSumNoneSelected(back, player, upTo, exceptId);
  }

  /**
   * With distinct ids, excluding the id of row i from a sum removes exactly
   * that row's contribution.
   */
  lemma {:induction false} NetSumExcept(table: seq<Score>, i: nat, player: int, upTo: Option<int>)
    requires DistinctIds(table) && i < |table|
    ensures NetSum(table, player, upTo, None)
         == NetSum(table, player, upTo, Some(table[i].id))
            + (if Counts(table[i], player, upTo, None) then Net(table[i]) else 0)
  {
    var id := table[i].id;
    if i == 0 {
      forall k | 0 <= k < |table[1..]| ensures table[1..][k].id != id {
        assert table[1..][k] == table[k + 1];
      }
      NetSumAgreeFilters(table[1..], player, upTo, id);
    } else {
      assert table[1..][i - 1] == table[i];
      assert DistinctIds(table[1..]) by {
        forall j, k | 0 <= j < k < |table[1..]| ensures table[1..][j].id != table[1..][k].id {
          assert table[1..][j] == table[j + 1] && table[1..][k] == table[k + 1];
        }
      }
      NetSumExcept(table[1..], i - 1, player, upTo);
      assert table[0].id != id;
    }
  }

  /** When no row carries the excluded id, excluding it changes nothing. */
  lemma {:induction false} NetSumAgreeFilters(table: seq<Score>, player: int, upTo: Option<int>, id: int)
    requires forall k :: 0 <= k < |table| ==> table[k].id != id
    ensures NetSum(table, player, upTo, None) == NetSum(table, player, upTo, Some(id))
  {
    if table != [] {
      assert table[0].id != id;
      NetSumAgreeFilters(table[1..], player, upTo, id);
    }
  }
}
