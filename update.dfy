/**
 * Editing one score (main.py:430-493): the edited row gets the running total of
 * the player's other rows up to its gameweek plus its own points minus cost,
 * then every later row of that player is recomputed by a full rescan, and the
 * whole change is committed only if every row passes the CHECK constraints.
 */
module Update {
  import opened Wrappers
  import opened Models
  import opened Ledger
  import opened Queries

  /** The edited row as it is written: new fields and the total of main.py:454-456. */
  function EditedRow(table: seq<Score>, id: int, player: int, g: int, points: int, cost: int): Score
  {
    Score(id, player, g, points, cost, OtherPrefixTotal(table, player, g, id) + (points - cost))
  }

  /** One row after the cascade: a later row of the player gets its prefix total over `edited`. */
  function Recomputed(edited: seq<Score>, player: int, g: int, s: Score): Score
  {
    if s.playerId == player && s.gameweek > g
    then s.(overallPoints := PrefixTotal(edited, player, s.gameweek))
    else s
  }

  /**
   * The table after the cascade. The totals are read from `edited`, the table in
   * which the edited row is already rewritten (the session flushes it before the
   * cascade's queries run).
   */
  function Cascade(edited: seq<Score>, player: int, g: int): seq<Score>
  {
    seq(|edited|, k requires 0 <= k < |edited| => Recomputed(edited, player, g, edited[k]))
  }

  /** The rows the route writes before committing, when the edited row is at position i. */
  function UpdatedRows(table: seq<Score>, i: nat, id: int, player: int, g: int, points: int, cost: int): seq<Score>
    requires i < |table|
  {
    Cascade(table[i := EditedRow(table, id, player, g, points, cost)], player, g)
  }

  /** The edit route (main.py:430-493): the new table, or why the request fails (the table is then unchanged). */
  function ApplyUpdate(table: seq<Score>, id: int, player: int, g: int, points: int, cost: int): (r: Result<seq<Score>, Error>)
    ensures r == Failure(NotFound) <==> IndexOfId(table, id).None?
    ensures r.Success? ==> AllRowsSatisfyChecks(r.value) && |r.value| == |table|
    ensures r.Success? ==> var i := IndexOfId(table, id).value;
      && r.value[i].id == id && r.value[i].playerId == player && r.value[i].gameweek == g
      && r.value[i].weekPoints == points && r.value[i].weekCost == cost
      // every other row keeps its id, player, gameweek, points and cost
      && (forall k :: 0 <= k < |table| && k != i ==> SameExceptOverall(r.value[k], table[k]))
      // and only the player's rows after gameweek g get a new total
      && (forall k :: 0 <= k < |table| && k != i && (table[k].playerId != player || table[k].gameweek <= g) ==>
            r.value[k] == table[k])
  {
    match IndexOfId(table, id)
    case None => Failure(NotFound)
    case Some(i) =>
      var rows := UpdatedRows(table, i, id, player, g, points, cost);
      if AllRowsSatisfyChecks(rows) then Success(rows) else Failure(IntegrityError)
  }

  lemma {:induction false} IndexOfIdSameIds(a: seq<Score>, b: seq<Score>, id: int)
    requires |a| == |b| && forall k :: 0 <= k < |a| ==> a[k].id == b[k].id
    ensures IndexOfId(a, id) == IndexOfId(b, id)
  {
    if a != [] && a[0].id != id {
      IndexOfIdSameIds(a[1..], b[1..], id);
    }
  }

  /** The edited row's total is its own prefix total in the edited table (ids being distinct). */
  lemma EditedRowTotal(table: seq<Score>, i: nat, id: int, player: int, g: int, points: int, cost: int)
    requires DistinctIds(table) && i < |table| && table[i].id == id
    ensures var e := EditedRow(table, id, player, g, points, cost);
      e.overallPoints == PrefixTotal(table[i := e], player, g)
  {
    var e := EditedRow(table, id, player, g, points, cost);
    var edited := table[i := e];
    assert DistinctIds(edited) by {
      forall j, k | 0 <= j < k < |edited| ensures edited[j].id != edited[k].id {
        assert edited[j].id == table[j].id && edited[k].id == table[k].id;
      }
    }
    NetSumExcept(edited, i, player, Some(g));
    NetSumAgree(edited, table, player, Some(g), Some(id));
  }

  /**
   * After an edit, the edited row holds the sum of the player's other rows up
   * to its gameweek plus its own points minus cost, which is its prefix total
   * in the new table; every later row of the player holds its prefix total in
   * the new table, the edited row included.
   */
  lemma UpdateTotals(table: seq<Score>, id: int, player: int, g: int, points: int, cost: int)
    requires DistinctIds(table)
    requires ApplyUpdate(table, id, player, g, points, cost).Success?
    ensures var rows := ApplyUpdate(table, id, player, g, points, cost).value;
      var i := IndexOfId(table, id).value;
      && rows[i].overallPoints == OtherPrefixTotal(table, player, g, id) + (points - cost)
      && rows[i].overallPoints == PrefixTotal(rows, player, g)
      && forall k :: 0 <= k < |rows| && rows[k].playerId == player && rows[k].gameweek > g ==>
           rows[k].overallPoints == PrefixTotal(rows, player, rows[k].gameweek)
  {
    var i := IndexOfId(table, id).value;
    var e := EditedRow(table, id, player, g, points, cost);
    var edited := table[i := e];
    var rows := Cascade(edited, player, g);
    EditedRowTotal(table, i, id, player, g, points, cost);
    forall k | 0 <= k < |rows| ensures SameExceptOverall(rows[k], edited[k]) {
    }
    SumsIgnoreOverall(rows, edited, player, Some(g), None);
    forall k | 0 <= k < |rows| && rows[k].playerId == player && rows[k].gameweek > g
      ensures rows[k].overallPoints == PrefixTotal(rows, player, rows[k].gameweek)
    {
      SumsIgnoreOverall(rows, edited, player, Some(rows[k].gameweek), None);
    }
  }

  /**
   * The running-total invariant survives an edit that keeps the row with its
   * player, does not move it to a later gameweek, and does not land on a
   * gameweek where the player already has another row. Re-parenting and
   * moving later are the cases the route does not repair.
   */
  lemma UpdateKeepsLedger(table: seq<Score>, id: int, player: int, g: int, points: int, cost: int)
    requires DistinctIds(table) && LedgerConsistent(table)
    requires IndexOfId(table, id).Some?
    requires table[IndexOfId(table, id).value].playerId == player
    requires g <= table[IndexOfId(table, id).value].gameweek
    requires forall k :: 0 <= k < |table| && table[k].id != id ==>
      table[k].playerId != player || table[k].gameweek != g
    requires ApplyUpdate(table, id, player, g, points, cost).Success?
    ensures LedgerConsistent(ApplyUpdate(table, id, player, g, points, cost).value)
  {
    var i := IndexOfId(table, id).value;
    var e := EditedRow(table, id, player, g, points, cost);
    var edited := table[i := e];
    var rows := Cascade(edited, player, g);
    EditedRowTotal(table, i, id, player, g, points, cost);
    forall k | 0 <= k < |rows| ensures SameExceptOverall(rows[k], edited[k]) {
    }
    forall k | 0 <= k < |rows|
      ensures rows[k].overallPoints == PrefixTotal(rows, rows[k].playerId, rows[k].gameweek)
    {
      var q, gw := rows[k].playerId, rows[k].gameweek;
      SumsIgnoreOverall(rows, edited, q, Some(gw), None);
      if k != i && !(q == player && gw > g) {
        assert rows[k] == table[k];
        assert table[k].id != id;
        forall j | 0 <= j < |table|
          ensures Counts(edited[j], q, Some(gw), None) == Counts(table[j], q, Some(gw), None)
        {
        }
        NetSumAgree(edited, table, q, Some(gw), None);
      }
    }
  }

  /** Repeating an edit with the same inputs leaves the table as the first edit left it. */
  lemma UpdateIdempotent(table: seq<Score>, id: int, player: int, g: int, points: int, cost: int)
    requires ApplyUpdate(table, id, player, g, points, cost).Success?
    ensures var rows := ApplyUpdate(table, id, player, g, points, cost).value;
      ApplyUpdate(rows, id, player, g, points, cost) == Success(rows)
  {
    var i := IndexOfId(table, id).value;
    var e := EditedRow(table, id, player, g, points, cost);
    var edited := table[i := e];
    var rows := Cascade(edited, player, g);
    IndexOfIdSameIds(rows, table, id);
    NetSumAgree(rows, table, player, Some(g), Some(id));
    assert EditedRow(rows, id, player, g, points, cost) == e;
    assert rows[i := e] == rows;
    forall k | 0 <= k < |rows| ensures SameExceptOverall(rows[k], edited[k]) {
    }
    forall k | 0 <= k < |rows| ensures Recomputed(rows, player, g, rows[k]) == rows[k] {
      SumsIgnoreOverall(rows, edited, player, Some(rows[k].gameweek), None);
    }
    assert Cascade(rows, player, g) == rows;
  }

  /**
   * Only the rows the route writes can break the CHECK constraints: given a
   * valid table, the edit commits exactly when the edited row passes them and
   * no recomputed later total is negative.
   */
  lemma UpdateCommitsIff(table: seq<Score>, id: int, player: int, g: int, points: int, cost: int)
    requires AllRowsSatisfyChecks(table) && IndexOfId(table, id).Some?
    ensures var i := IndexOfId(table, id).value;
      var e := EditedRow(table, id, player, g, points, cost);
      ApplyUpdate(table, id, player, g, points, cost).Success? <==>
        && SatisfiesChecks(e)
        && forall k :: 0 <= k < |table| && k != i && table[k].playerId == player && table[k].gameweek > g ==>
             PrefixTotal(table[i := e], player, table[k].gameweek) >= 0
  {
    var i := IndexOfId(table, id).value;
    var e := EditedRow(table, id, player, g, points, cost);
    var rows := Cascade(table[i := e], player, g);
    if SatisfiesChecks(e) && forall k :: 0 <= k < |table| && k != i && table[k].playerId == player && table[k].gameweek > g ==>
             PrefixTotal(table[i := e], player, table[k].gameweek) >= 0 {
      forall k | 0 <= k < |rows| ensures SatisfiesChecks(rows[k]) {
        if k != i {
          assert SatisfiesChecks(table[k]);
        }
      }
    } else if !SatisfiesChecks(e) {
      assert rows[i] == e;
    } else {
      var k :| 0 <= k < |table| && k != i && table[k].playerId == player && table[k].gameweek > g &&
        PrefixTotal(table[i := e], player, table[k].gameweek) < 0;
      assert !SatisfiesChecks(rows[k]);
    }
  }
}
