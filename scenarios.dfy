/**
 * The scoring routes on a ledger of two rows of one player, at gameweeks 1
 * and 2. The first lemmas show the running totals the routes are meant to
 * keep; the others show where the routes, as written, leave a stored total
 * stale or let a player hold two rows at one gameweek.
 */
module Scenarios {
  import opened Wrappers
  import opened Models
  import opened Ledger
  import opened Queries
  import opened Update
  import opened Bulk
  import opened Delete

  // Facts about one- and two-row tables, stated for any rows.

  lemma NetSumOne(a: Score, player: int, upTo: Option<int>, exceptId: Option<int>)
    ensures NetSum([a], player, upTo, exceptId) == (if Counts(a, player, upTo, exceptId) then Net(a) else 0)
  {
    assert [a][1..] == [];
  }

  lemma NetSumPair(a: Score, b: Score, player: int, upTo: Option<int>, exceptId: Option<int>)
    ensures NetSum([a, b], player, upTo, exceptId)
         == (if Counts(a, player, upTo, exceptId) then Net(a) else 0)
            + (if Counts(b, player, upTo, exceptId) then Net(b) else 0)
  {
    assert [a, b][1..] == [b];
    NetSumOne(b, player, upTo, exceptId);
  }

  lemma PairConsistent(a: Score, b: Score)
    ensures LedgerConsistent([a, b]) <==>
      && a.overallPoints == PrefixTotal([a, b], a.playerId, a.gameweek)
      && b.overallPoints == PrefixTotal([a, b], b.playerId, b.gameweek)
  {
    assert [a, b][0] == a && [a, b][1] == b;
  }

  lemma NextIdOfPair(a: Score, b: Score)
    ensures NextScoreId([a, b]) == (if a.id < b.id then b.id else a.id) + 1
  {
    assert [a, b][1..] == [b];
  }

  lemma PairChecks(a: Score, b: Score)
    requires SatisfiesChecks(a) && SatisfiesChecks(b)
    ensures AllRowsSatisfyChecks([a, b])
  {
  }

  lemma AppendChecks(t: seq<Score>, x: Score)
    requires AllRowsSatisfyChecks(t) && SatisfiesChecks(x)
    ensures AllRowsSatisfyChecks(t + [x])
  {
    assert forall k :: 0 <= k < |t| ==> (t + [x])[k] == t[k];
  }

  lemma PairUnique(a: Score, b: Score)
    ensures UniquePerGameweek([a, b]) <==> a.playerId != b.playerId || a.gameweek != b.gameweek
  {
    assert [a, b][0] == a && [a, b][1] == b;
  }

  lemma CascadePair(a: Score, b: Score, player: int, g: int)
    ensures Cascade([a, b], player, g) == [Recomputed([a, b], player, g, a), Recomputed([a, b], player, g, b)]
  {
  }

  lemma UpdateFirstOfPair(a: Score, b: Score, id: int, player: int, g: int, points: int, cost: int)
    requires a.id == id
    ensures var rows := Cascade([EditedRow([a, b], id, player, g, points, cost), b], player, g);
      ApplyUpdate([a, b], id, player, g, points, cost)
        == if AllRowsSatisfyChecks(rows) then Success(rows) else Failure(IntegrityError)
  {
    assert IndexOfId([a, b], id) == Some(0);
    assert [a, b][0 := EditedRow([a, b], id, player, g, points, cost)]
        == [EditedRow([a, b], id, player, g, points, cost), b];
  }

  lemma UpdateSecondOfPair(a: Score, b: Score, id: int, player: int, g: int, points: int, cost: int)
    requires a.id != id && b.id == id
    ensures var rows := Cascade([a, EditedRow([a, b], id, player, g, points, cost)], player, g);
      ApplyUpdate([a, b], id, player, g, points, cost)
        == if AllRowsSatisfyChecks(rows) then Success(rows) else Failure(IntegrityError)
  {
    assert [a, b][1..] == [b];
    assert IndexOfId([a, b], id) == Some(1);
    assert [a, b][1 := EditedRow([a, b], id, player, g, points, cost)]
        == [a, EditedRow([a, b], id, player, g, points, cost)];
  }

  lemma DeleteFirstOfPair(a: Score, b: Score)
    ensures ApplyDelete([a, b], a.id) == Success([b])
  {
    assert IndexOfId([a, b], a.id) == Some(0);
    assert Without([a, b], 0) == [b];
  }

  lemma BulkOnePlayer(t: seq<Score>, p: Player, g: int, points: map<int, int>, costs: map<int, int>)
    ensures BulkRows(t, [p], g, points, costs) == BulkEntry(t, p.id, g, points, costs)
  {
    assert [p][..0] == [];
  }

  // The scenarios, for any two rows of one player at gameweeks 1 and 2.

  /** Two rows of one player at gameweeks 1 and 2, storing their running totals. */
  predicate TwoWeeks(a: Score, b: Score)
  {
    && a.id != b.id && a.playerId == b.playerId
    && a.gameweek == 1 && b.gameweek == 2
    && SatisfiesChecks(a) && SatisfiesChecks(b)
    && a.overallPoints == Net(a) && b.overallPoints == Net(a) + Net(b)
  }

  lemma TwoWeeksConsistent(a: Score, b: Score)
    requires TwoWeeks(a, b)
    ensures LedgerConsistent([a, b])
  {
    NetSumPair(a, b, a.playerId, Some(1), None);
    NetSumPair(a, b, a.playerId, Some(2), None);
    PairConsistent(a, b);
  }

  /**
   * Editing gameweek 1 rewrites both totals; e.g. 50 then 40 for a cost of 5
   * store 50 and 85, and raising gameweek 1 to 60 stores 60 and 95.
   */
  lemma EditRecomputesLaterWeeks(a: Score, b: Score, points: int, cost: int)
    requires TwoWeeks(a, b)
    requires points >= 0 && cost >= 0 && points - cost >= 0 && points - cost + Net(b) >= 0
    ensures ApplyUpdate([a, b], a.id, a.playerId, 1, points, cost)
         == Success([a.(weekPoints := points, weekCost := cost, overallPoints := points - cost),
                     b.(overallPoints := points - cost + Net(b))])
  {
    var p := a.playerId;
    UpdateFirstOfPair(a, b, a.id, p, 1, points, cost);
    NetSumPair(a, b, p, Some(1), Some(a.id));
    var e := a.(weekPoints := points, weekCost := cost, overallPoints := points - cost);
    assert EditedRow([a, b], a.id, p, 1, points, cost) == e;
    CascadePair(e, b, p, 1);
    NetSumPair(e, b, p, Some(2), None);
    PairChecks(e, b.(overallPoints := points - cost + Net(b)));
  }

  /**
   * Uploading a later gameweek appends a row seeded with every earlier row's
   * points; e.g. 85 after two weeks and 30 for a cost of 10 stores 105.
   */
  lemma UploadSeedsFromAllRows(a: Score, b: Score, player: Player, g: int, points: int, cost: int)
    requires TwoWeeks(a, b) && player.id == a.playerId
    requires 3 <= g <= LastGameweek && points >= 0 && cost >= 0 && b.overallPoints + points - cost >= 0
    ensures ApplyBulk([a, b], [player], Some(g), map[player.id := points], map[player.id := cost])
         == Success([a, b, Score((if a.id < b.id then b.id else a.id) + 1, player.id, g, points, cost,
                                 b.overallPoints + points - cost)])
  {
    var pts, costs := map[player.id := points], map[player.id := cost];
    BulkOnePlayer([a, b], player, g, pts, costs);
    assert FirstAt([a, b], player.id, g) == None by {
      assert [a, b][0] == a && [a, b][1] == b;
    }
    NextIdOfPair(a, b);
    NetSumPair(a, b, player.id, None, None);
    var row := Score((if a.id < b.id then b.id else a.id) + 1, player.id, g, points, cost, b.overallPoints + points - cost);
    assert BulkEntry([a, b], player.id, g, pts, costs) == [a, b] + [row];
    PairChecks(a, b);
    AppendChecks([a, b], row);
    assert [a, b] + [row] == [a, b, row];
  }

  /** Moving gameweek 1's row to another player leaves the first player's gameweek-2 total stale. */
  lemma ReassignLeavesOldPlayerStale(a: Score, b: Score, other: int)
    requires TwoWeeks(a, b) && other != a.playerId && Net(a) != 0
    ensures LedgerConsistent([a, b])
    ensures ApplyUpdate([a, b], a.id, other, 1, a.weekPoints, a.weekCost) == Success([a.(playerId := other), b])
    ensures !LedgerConsistent([a.(playerId := other), b])
  {
    TwoWeeksConsistent(a, b);
    var e := a.(playerId := other);
    UpdateFirstOfPair(a, b, a.id, other, 1, a.weekPoints, a.weekCost);
    NetSumPair(a, b, other, Some(1), Some(a.id));
    assert EditedRow([a, b], a.id, other, 1, a.weekPoints, a.weekCost) == e;
    CascadePair(e, b, other, 1);
    PairChecks(e, b);
    NetSumPair(e, b, b.playerId, Some(2), None);
    PairConsistent(e, b);
  }

  /** Moving gameweek 1's row to a later gameweek leaves gameweek 2's total stale. */
  lemma MoveLaterLeavesGapStale(a: Score, b: Score, g: int)
    requires TwoWeeks(a, b) && 3 <= g <= LastGameweek && Net(a) != 0
    ensures LedgerConsistent([a, b])
    ensures ApplyUpdate([a, b], a.id, a.playerId, g, a.weekPoints, a.weekCost)
         == Success([a.(gameweek := g, overallPoints := b.overallPoints), b])
    ensures !LedgerConsistent([a.(gameweek := g, overallPoints := b.overallPoints), b])
  {
    TwoWeeksConsistent(a, b);
    var p := a.playerId;
    var e := a.(gameweek := g, overallPoints := b.overallPoints);
    UpdateFirstOfPair(a, b, a.id, p, g, a.weekPoints, a.weekCost);
    NetSumPair(a, b, p, Some(g), Some(a.id));
    assert EditedRow([a, b], a.id, p, g, a.weekPoints, a.weekCost) == e;
    CascadePair(e, b, p, g);
    PairChecks(e, b);
    NetSumPair(e, b, p, Some(2), None);
    PairConsistent(e, b);
  }

  /** Deleting gameweek 1 leaves gameweek 2's total stale: nothing is recomputed. */
  lemma DeleteLeavesLaterStale(a: Score, b: Score)
    requires TwoWeeks(a, b) && Net(a) != 0
    ensures LedgerConsistent([a, b])
    ensures ApplyDelete([a, b], a.id) == Success([b])
    ensures !LedgerConsistent([b])
  {
    TwoWeeksConsistent(a, b);
    DeleteFirstOfPair(a, b);
    NetSumOne(b, b.playerId, Some(2), None);
    assert [b][0] == b;
  }

  /** Editing gameweek 2's row to gameweek 1 gives the player two rows at gameweek 1. */
  lemma EditCanDuplicateGameweek(a: Score, b: Score)
    requires TwoWeeks(a, b)
    ensures UniquePerGameweek([a, b])
    ensures ApplyUpdate([a, b], b.id, b.playerId, 1, b.weekPoints, b.weekCost) == Success([a, b.(gameweek := 1)])
    ensures !UniquePerGameweek([a, b.(gameweek := 1)])
  {
    var p := b.playerId;
    var e := b.(gameweek := 1);
    UpdateSecondOfPair(a, b, b.id, p, 1, b.weekPoints, b.weekCost);
    NetSumPair(a, b, p, Some(1), Some(b.id));
    assert EditedRow([a, b], b.id, p, 1, b.weekPoints, b.weekCost) == e;
    CascadePair(a, e, p, 1);
    PairChecks(a, e);
    PairUnique(a, b);
    PairUnique(a, e);
  }

  /**
   * Uploading gameweek 1 again with a different net overwrites its points and
   * cost but recomputes no total, so both stored totals go stale.
   */
  lemma ReuploadLeavesTotalsStale(a: Score, b: Score, player: Player, points: int, cost: int)
    requires TwoWeeks(a, b) && player.id == a.playerId
    requires points >= 0 && cost >= 0 && points - cost != Net(a)
    ensures LedgerConsistent([a, b])
    ensures ApplyBulk([a, b], [player], Some(1), map[player.id := points], map[player.id := cost])
         == Success([a.(weekPoints := points, weekCost := cost), b])
    ensures var e := a.(weekPoints := points, weekCost := cost);
      && e.overallPoints != PrefixTotal([e, b], e.playerId, 1)
      && b.overallPoints != PrefixTotal([e, b], b.playerId, 2)
    ensures !LedgerConsistent([a.(weekPoints := points, weekCost := cost), b])
  {
    TwoWeeksConsistent(a, b);
    var pts, costs := map[player.id := points], map[player.id := cost];
    var e := a.(weekPoints := points, weekCost := cost);
    BulkOnePlayer([a, b], player, 1, pts, costs);
    assert FirstAt([a, b], player.id, 1) == Some(0) by {
      assert [a, b][0] == a;
    }
    assert BulkEntry([a, b], player.id, 1, pts, costs) == [e, b];
    PairChecks(e, b);
    NetSumPair(e, b, e.playerId, Some(1), None);
    NetSumPair(e, b, b.playerId, Some(2), None);
    PairConsistent(e, b);
  }
}
