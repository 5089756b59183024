/**
 * Deleting a score (main.py:496-522; both the DELETE route and the form POST
 * route do the same): the row with the id is removed and nothing is recomputed.
 */
module Delete {
  import opened Wrappers
  import opened Models
  import opened Queries

  /** The table without the row at position i; rows after it shift down by one. */
  function Without(table: seq<Score>, i: nat): (r: seq<Score>)
    requires i < |table|
    ensures |r| == |table| - 1
    ensures forall k :: 0 <= k < i ==> r[k] == table[k]
    ensures forall k :: i <= k < |r| ==> r[k] == table[k + 1]
  {
    table[..i] + table[i + 1..]
  }

  /** The delete routes (main.py:496-522): the table without the row, or NotFound. */
  function ApplyDelete(table: seq<Score>, id: int): (r: Result<seq<Score>, Error>)
    ensures r.Failure? <==> forall k :: 0 <= k < |table| ==> table[k].id != id
    ensures r.Failure? ==> r.error == NotFound
    ensures r.Success? ==> |r.value| == |table| - 1
  {
    match IndexOfId(table, id)
    case None => Failure(NotFound)
    case Some(i) => Success(Without(table, i))
  }

  /**
   * A delete removes exactly the row with the id: every other row stays, with
   * its stored total, in the same order.
   */
  lemma DeleteRemovesExactlyOne(table: seq<Score>, id: int)
    requires DistinctIds(table)
    requires ApplyDelete(table, id).Success?
    ensures var rows := ApplyDelete(table, id).value;
      && (forall s :: s in rows <==> s in table && s.id != id)
      && multiset(rows) + multiset{table[IndexOfId(table, id).value]} == multiset(table)
  {
    var i := IndexOfId(table, id).value;
    var rows := Without(table, i);
    assert table == table[..i] + [table[i]] + table[i + 1..];
    forall s | s in rows ensures s.id != id {
      var k :| 0 <= k < |rows| && rows[k] == s;
      assert s == table[if k < i then k else k + 1];
    }
    forall s | s in table && s.id != id ensures s in rows {
      var k :| 0 <= k < |table| && table[k] == s;
      assert k != i;
      assert s == rows[if k < i then k else k - 1];
    }
  }

  /** A delete keeps the primary key and the CHECK constraints of the remaining rows. */
  lemma DeleteKeepsInvariants(table: seq<Score>, id: int)
    requires ApplyDelete(table, id).Success?
    ensures var rows := ApplyDelete(table, id).value;
      && (DistinctIds(table) ==> DistinctIds(rows))
      && (AllRowsSatisfyChecks(table) ==> AllRowsSatisfyChecks(rows))
  {
    var i := IndexOfId(table, id).value;
    var rows := Without(table, i);
    if DistinctIds(table) {
      forall j, k | 0 <= j < k < |rows| ensures rows[j].id != rows[k].id {
        assert rows[j] == table[if j < i then j else j + 1];
        assert rows[k] == table[if k < i then k else k + 1];
      }
    }
  }
}
