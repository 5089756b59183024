/**
 * The scores database as one object: the players and scores tables, and the
 * three routes that write scores. Each route works on a copy of the table (the
 * request's session) and replaces the table only when every row passes the
 * CHECK constraints, as a commit does; otherwise the table is left as it was.
 */
module Store {
  import opened Wrappers
  import opened Models
  import opened Ledger
  import opened Queries
  import opened Update
  import opened Bulk
  import opened Delete

  /** How a write request ends: committed, or failed with nothing written. */
  datatype Outcome = Committed | Failed(error: Error)

  class ScoreStore {
    var players: seq<Player>
    var scores: seq<Score>

    /**
     * What the database guarantees of its tables: the CHECK constraints, and
     * primary keys that grow along each table's rowid order.
     */
    ghost predicate Valid()
      reads this
    {
      && AllRowsSatisfyChecks(scores)
      && IdsIncreasing(scores)
      && PlayerIdsIncreasing(players)
    }

    constructor (players: seq<Player>, scores: seq<Score>)
      requires AllRowsSatisfyChecks(scores) && IdsIncreasing(scores) && PlayerIdsIncreasing(players)
      ensures Valid() && this.players == players && this.scores == scores
    {
      this.players := players;
      this.scores := scores;
    }

    /** Lookup by primary key (main.py:440). */
    method GetScore(id: int) returns (r: Option<Score>)
      ensures r.Some? ==> r.value in scores && r.value.id == id
      ensures r.None? <==> forall k :: 0 <= k < |scores| ==> scores[k].id != id
    {
      var found := IndexOfId(scores, id);
      if found.None? {
        r := None;
      } else {
        r := Some(scores[found.value]);
      }
    }

    /**
     * The edit route (main.py:430-493): rewrite the row with the new fields and its running total,
     * then recompute the player's later rows one by one.
     */
    method UpdateScore(scoreId: int, playerId: int, gameweek: int, weekPoints: int, weekCost: int)
      returns (outcome: Outcome)
      requires Valid()
      modifies this`scores
      ensures Valid()
      ensures outcome == Committed ==>
        ApplyUpdate(old(scores), scoreId, playerId, gameweek, weekPoints, weekCost) == Success(scores)
      ensures outcome.Failed? ==>
        ApplyUpdate(old(scores), scoreId, playerId, gameweek, weekPoints, weekCost) == Failure(outcome.error)
        && scores == old(scores)
      ensures outcome == Committed ==>
        forall k ::
          (0 <= k < |scores| && scores[k].playerId == playerId &&
           (scores[k].gameweek > gameweek || scores[k].id == scoreId)) ==>
          scores[k].overallPoints == PrefixTotal(scores, playerId, scores[k].gameweek)
    {
      var found := IndexOfId(scores, scoreId);
      if found.None? {
        return Failed(NotFound);
      }
      var i := found.value;
      var total := OtherPrefixTotal(scores, playerId, gameweek, scoreId) + (weekPoints - weekCost);
      var work := scores[i := Score(scoreId, playerId, gameweek, weekPoints, weekCost, total)];
      ghost var edited := work;
      var k := 0;
      while k < |work|
        invariant 0 <= k <= |work| == |edited|
        invariant scores == old(scores)
        invariant forall j :: 0 <= j < |work| ==> SameExceptOverall(work[j], edited[j])
        invariant forall j :: 0 <= j < k ==> work[j] == Recomputed(edited, playerId, gameweek, edited[j])
        invariant forall j :: k <= j < |work| ==> work[j] == edited[j]
      {
        var s := work[k];
        if s.playerId == playerId && s.gameweek > gameweek {
          // the rescan reads only points and cost, which the cascade never changes
          SumsIgnoreOverall(work, edited, playerId, Some(s.gameweek), None);
          work := work[k := s.(overallPoints := PrefixTotal(work, playerId, s.gameweek))];
        }
        k := k + 1;
      }
      assert work == Cascade(edited, playerId, gameweek);
      if !AllRowsSatisfyChecks(work) {
        return Failed(IntegrityError);
      }
      UpdateTotals(scores, scoreId, playerId, gameweek, weekPoints, weekCost);
      assert forall j :: 0 <= j < |work| ==> work[j].id == old(scores)[j].id;
      scores := work;
      outcome := Committed;
    }

    /** The loop over the players list (main.py:370-416), on the session's copy of the scores. */
    method UploadRows(gameweek: int, points: map<int, int>, costs: map<int, int>) returns (work: seq<Score>)
      ensures work == BulkRows(scores, players, gameweek, points, costs)
    {
      work := scores;
      var i := 0;
      while i < |players|
        invariant 0 <= i <= |players|
        invariant work == BulkRows(scores, players[..i], gameweek, points, costs)
      {
        var player := players[i].id;
        assert players[..i + 1][..i] == players[..i];
        if player in points && player in costs {
          var existing := FirstAt(work, player, gameweek);
          if existing.Some? {
            var s := work[existing.value];
            work := work[existing.value := s.(weekPoints := points[player], weekCost := costs[player])];
          } else {
            var total := PlayerTotal(work, player) + (points[player] - costs[player]);
            work := work + [Score(NextScoreId(work), player, gameweek, points[player], costs[player], total)];
          }
        }
        i := i + 1;
      }
      assert players[..|players|] == players;
    }

    /** The bulk upload (main.py:355-419): one pass over the players list, then one commit. */
    method CreateScoresBulk(gameweekField: Option<int>, points: map<int, int>, costs: map<int, int>)
      returns (outcome: Outcome)
      requires Valid()
      modifies this`scores
      ensures Valid()
      ensures outcome == Committed ==>
        ApplyBulk(old(scores), players, gameweekField, points, costs) == Success(scores)
      ensures outcome.Failed? ==>
        ApplyBulk(old(scores), players, gameweekField, points, costs) == Failure(outcome.error)
        && scores == old(scores)
      ensures outcome == Committed ==>
        BulkEffect(old(scores), scores, players, FormGameweek(gameweekField), points, costs)
    {
      var gameweek := FormGameweek(gameweekField);
      var work := UploadRows(gameweek, points, costs);
      if !AllRowsSatisfyChecks(work) {
        return Failed(IntegrityError);
      }
      assert DistinctPlayerIds(players);
      BulkRowsEffect(scores, players, gameweek, points, costs);
      BulkKeepsInvariants(scores, players, gameweek, points, costs);
      scores := work;
      outcome := Committed;
    }

    /** The delete routes (main.py:496-522): remove the row; nothing is recomputed. */
    method DeleteScore(scoreId: int) returns (outcome: Outcome)
      requires Valid()
      modifies this`scores
      ensures Valid()
      ensures outcome == Committed ==> ApplyDelete(old(scores), scoreId) == Success(scores)
      ensures outcome.Failed? ==> ApplyDelete(old(scores), scoreId) == Failure(outcome.error) && scores == old(scores)
      ensures forall s :: s in scores <==> s in old(scores) && s.id != scoreId
    {
      var found := IndexOfId(scores, scoreId);
      if found.None? {
        return Failed(NotFound);
      }
      DeleteRemovesExactlyOne(scores, scoreId);
      DeleteKeepsInvariants(scores, scoreId);
      scores := Without(scores, found.value);
      outcome := Committed;
    }
  }
}
