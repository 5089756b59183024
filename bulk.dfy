/**
 * The bulk upload of one gameweek (main.py:355-419). For every player, in
 * table order: skip them when their points or cost field is missing or empty;
 * otherwise overwrite points and cost of their first row at that gameweek
 * (leaving its stored total as it was), or, when they have none, insert a row
 * seeded with the sum over all of their existing rows, whatever the gameweek.
 * The request commits only if every row passes the CHECK constraints.
 */
module Bulk {
  import opened Wrappers
  import opened Models
  import opened Ledger
  import opened Queries

  /** The uploaded gameweek: the form's value, or 1 when the field is absent (main.py:365). */
  function FormGameweek(field: Option<int>): int
  {
    if field.Some? then field.value else 1
  }

  /**
   * Whether both form fields of a player carry a value. `points` and `costs` hold
   * the already-parsed week_points_<id> and week_cost_<id> fields; a field that is
   * missing or empty has no key.
   */
  predicate Submitted(player: int, points: map<int, int>, costs: map<int, int>)
  {
    player in points && player in costs
  }

  /** An existing row after the overwrite branch: new points and cost, same stored total. */
  function Overwritten(s: Score, points: map<int, int>, costs: map<int, int>): Score
    requires Submitted(s.playerId, points, costs)
  {
    s.(weekPoints := points[s.playerId], weekCost := costs[s.playerId])
  }

  /** One iteration of the loop over players. */
  function BulkEntry(table: seq<Score>, player: int, g: int, points: map<int, int>, costs: map<int, int>): seq<Score>
  {
    if !Submitted(player, points, costs) then table
    else match FirstAt(table, player, g)
      case Some(k) => table[k := table[k].(weekPoints := points[player], weekCost := costs[player])]
      case None =>
        table + [Score(NextScoreId(table), player, g, points[player], costs[player],
                       PlayerTotal(table, player) + (points[player] - costs[player]))]
  }

  /** The loop over the players list, in order. */
  function BulkRows(table: seq<Score>, players: seq<Player>, g: int, points: map<int, int>, costs: map<int, int>): seq<Score>
    decreases |players|
  {
    if players == [] then table
    else
      var n := |players| - 1;
      BulkEntry(BulkRows(table, players[..n], g, points, costs), players[n].id, g, points, costs)
  }

  /** The bulk upload of main.py:355-419: the new table, or IntegrityError (the table is then unchanged). */
  function ApplyBulk(table: seq<Score>, players: seq<Player>, gameweekField: Option<int>,
                     points: map<int, int>, costs: map<int, int>): (r: Result<seq<Score>, Error>)
    ensures r.Success? ==> AllRowsSatisfyChecks(r.value)
    ensures r.Failure? ==> r.error == IntegrityError
  {
    var rows := BulkRows(table, players, FormGameweek(gameweekField), points, costs);
    if AllRowsSatisfyChecks(rows) then Success(rows) else Failure(IntegrityError)
  }

  /** A row inserted by the upload: a submitted player with no row at g, seeded from their pre-existing rows. */
  ghost predicate IsSeeded(table: seq<Score>, s: Score, players: seq<Player>, g: int,
                           points: map<int, int>, costs: map<int, int>)
  {
    && s.playerId in PlayerIds(players)
    && Submitted(s.playerId, points, costs)
    && FirstAt(table, s.playerId, g).None?
    && s.gameweek == g
    && s.weekPoints == points[s.playerId]
    && s.weekCost == costs[s.playerId]
    && s.overallPoints == PlayerTotal(table, s.playerId) + (points[s.playerId] - costs[s.playerId])
  }

  /** What happened to a submitted player: their first row at g was overwritten, or a row was inserted. */
  ghost predicate Written(table: seq<Score>, rows: seq<Score>, player: int, g: int,
                          points: map<int, int>, costs: map<int, int>)
    requires Submitted(player, points, costs)
  {
    match FirstAt(table, player, g)
    case Some(k) => k < |rows| && rows[k] == Overwritten(table[k], points, costs)
    case None => exists k :: |table| <= k < |rows| && rows[k].playerId == player
  }

  /**
   * An existing row is untouched, unless it is a submitted player's first row
   * at g, which then takes the submitted points and cost and keeps its stored total.
   */
  ghost predicate ExistingRowsEffect(table: seq<Score>, rows: seq<Score>, players: seq<Player>, g: int,
                                     points: map<int, int>, costs: map<int, int>)
  {
    && |table| <= |rows|
    && forall k :: 0 <= k < |table| ==>
         || rows[k] == table[k]
         || (&& table[k].playerId in PlayerIds(players)
             && Submitted(table[k].playerId, points, costs)
             && FirstAt(table, table[k].playerId, g) == Some(k)
             && rows[k] == Overwritten(table[k], points, costs))
  }

  /** Every appended row is a seeded row, at most one per player, with an id above all earlier ones. */
  ghost predicate AppendedRowsEffect(table: seq<Score>, rows: seq<Score>, players: seq<Player>, g: int,
                                     points: map<int, int>, costs: map<int, int>)
  {
    && |table| <= |rows|
    && (forall k :: |table| <= k < |rows| ==> IsSeeded(table, rows[k], players, g, points, costs))
    && (forall j, k :: |table| <= j < k < |rows| ==> rows[j].playerId != rows[k].playerId)
    && (forall j, k :: 0 <= j < k < |rows| && |table| <= k ==> rows[j].id < rows[k].id)
  }

  /** Every submitted player was written. */
  ghost predicate AllWritten(table: seq<Score>, rows: seq<Score>, players: seq<Player>, g: int,
                             points: map<int, int>, costs: map<int, int>)
  {
    forall q :: q in PlayerIds(players) && Submitted(q, points, costs) ==> Written(table, rows, q, g, points, costs)
  }

  /** The effect of uploading for `players` on `table`, giving `rows`. */
  ghost predicate BulkEffect(table: seq<Score>, rows: seq<Score>, players: seq<Player>, g: int,
                             points: map<int, int>, costs: map<int, int>)
  {
    && ExistingRowsEffect(table, rows, players, g, points, costs)
    && AppendedRowsEffect(table, rows, players, g, points, costs)
    && AllWritten(table, rows, players, g, points, costs)
  }

  /** A player the upload has not reached yet has their original first row at g. */
  lemma UntouchedFirstAt(table: seq<Score>, rows: seq<Score>, player: int, g: int)
    requires |table| <= |rows|
    requires forall k :: 0 <= k < |table| && (table[k].playerId == player || rows[k].playerId == player) ==>
      rows[k] == table[k]
    requires forall k :: |table| <= k < |rows| ==> rows[k].playerId != player
    ensures FirstAt(rows, player, g) == FirstAt(table, player, g)
  {
    var r := FirstAt(rows, player, g);
    forall j | 0 <= j < |rows| && rows[j].playerId == player
      ensures j < |table| && rows[j] == table[j]
    {
    }
    match FirstAt(table, player, g)
    case Some(k) =>
      assert rows[k] == table[k];
      assert r.Some?;
      assert r.value == k;
    case None =>
      assert r.None?;
  }

  /** A player the upload has not reached yet has their original total. */
  lemma UntouchedTotal(table: seq<Score>, rows: seq<Score>, player: int)
    requires |table| <= |rows|
    requires forall k :: 0 <= k < |table| && (table[k].playerId == player || rows[k].playerId == player) ==>
      rows[k] == table[k]
    requires forall k :: |table| <= k < |rows| ==> rows[k].playerId != player
    ensures PlayerTotal(rows, player) == PlayerTotal(table, player)
  {
    assert rows == rows[..|table|] + rows[|table|..];
    NetSumAppend(rows[..|table|], rows[|table|..], player, None, None);
    NetSumAgree(rows[..|table|], table, player, None, None);
    NetSumNoneSelected(rows[|table|..], player, None, None);
  }

  lemma PlayerIdsSnoc(players: seq<Player>)
    requires players != [] && DistinctPlayerIds(players)
    ensures var n := |players| - 1;
      && DistinctPlayerIds(players[..n])
      && PlayerIds(players) == PlayerIds(players[..n]) + {players[n].id}
      && players[n].id !in PlayerIds(players[..n])
  {
    var n := |players| - 1;
    assert players == players[..n] + [players[n]];
  }

  /** The step when the new player is skipped. */
  lemma SkipStep(table: seq<Score>, rows: seq<Score>, players: seq<Player>, g: int,
                 points: map<int, int>, costs: map<int, int>)
    requires players != [] && DistinctPlayerIds(players)
    requires !Submitted(players[|players| - 1].id, points, costs)
    requires BulkEffect(table, rows, players[..|players| - 1], g, points, costs)
    ensures BulkEffect(table, rows, players, g, points, costs)
  {
    PlayerIdsSnoc(players);
  }

  /** The step when the new player already has a row at g. */
  lemma OverwriteStep(table: seq<Score>, rows: seq<Score>, players: seq<Player>, g: int,
                      points: map<int, int>, costs: map<int, int>)
    requires players != [] && DistinctPlayerIds(players)
    requires Submitted(players[|players| - 1].id, points, costs)
    requires FirstAt(rows, players[|players| - 1].id, g) == FirstAt(table, players[|players| - 1].id, g)
    requires FirstAt(table, players[|players| - 1].id, g).Some?
    requires BulkEffect(table, rows, players[..|players| - 1], g, points, costs)
    requires forall k :: 0 <= k < |table| && table[k].playerId == players[|players| - 1].id ==> rows[k] == table[k]
    ensures BulkEffect(table, BulkEntry(rows, players[|players| - 1].id, g, points, costs), players, g, points, costs)
  {
    var n := |players| - 1;
    var q := players[n].id;
    PlayerIdsSnoc(players);
    var k := FirstAt(table, q, g).value;
    var next := BulkEntry(rows, q, g, points, costs);
    assert next == rows[k := Overwritten(table[k], points, costs)];
    assert ExistingRowsEffect(table, next, players, g, points, costs);
    assert AppendedRowsEffect(table, next, players, g, points, costs);
    forall q' | q' in PlayerIds(players) && Submitted(q', points, costs)
      ensures Written(table, next, q', g, points, costs)
    {
      if q' != q {
        assert Written(table, rows, q', g, points, costs);
        if FirstAt(table, q', g).None? {
          var w :| |table| <= w < |rows| && rows[w].playerId == q';
          assert next[w] == rows[w];
        }
      }
    }
  }

  /** The step when the new player has no row at g. */
  lemma InsertStep(table: seq<Score>, rows: seq<Score>, players: seq<Player>, g: int,
                   points: map<int, int>, costs: map<int, int>)
    requires players != [] && DistinctPlayerIds(players)
    requires Submitted(players[|players| - 1].id, points, costs)
    requires FirstAt(rows, players[|players| - 1].id, g) == FirstAt(table, players[|players| - 1].id, g)
    requires FirstAt(table, players[|players| - 1].id, g).None?
    requires PlayerTotal(rows, players[|players| - 1].id) == PlayerTotal(table, players[|players| - 1].id)
    requires BulkEffect(table, rows, players[..|players| - 1], g, points, costs)
    ensures BulkEffect(table, BulkEntry(rows, players[|players| - 1].id, g, points, costs), players, g, points, costs)
  {
    var n := |players| - 1;
    var q := players[n].id;
    PlayerIdsSnoc(players);
    var next := BulkEntry(rows, q, g, points, costs);
    assert next == rows + [next[|rows|]];
    assert ExistingRowsEffect(table, next, players, g, points, costs) by {
      forall k | 0 <= k < |table| ensures next[k] == rows[k] {
      }
    }
    InsertAppends(table, rows, players, g, points, costs);
    InsertWrites(table, rows, players, g, points, costs);
  }

  lemma InsertAppends(table: seq<Score>, rows: seq<Score>, players: seq<Player>, g: int,
                      points: map<int, int>, costs: map<int, int>)
    requires players != [] && DistinctPlayerIds(players)
    requires Submitted(players[|players| - 1].id, points, costs)
    requires FirstAt(rows, players[|players| - 1].id, g) == FirstAt(table, players[|players| - 1].id, g)
    requires FirstAt(table, players[|players| - 1].id, g).None?
    requires PlayerTotal(rows, players[|players| - 1].id) == PlayerTotal(table, players[|players| - 1].id)
    requires AppendedRowsEffect(table, rows, players[..|players| - 1], g, points, costs)
    ensures AppendedRowsEffect(table, BulkEntry(rows, players[|players| - 1].id, g, points, costs), players, g, points, costs)
  {
    var n := |players| - 1;
    var q := players[n].id;
    var before := players[..n];
    PlayerIdsSnoc(players);
    var next := BulkEntry(rows, q, g, points, costs);
    assert next == rows + [next[|rows|]];
    forall k | |table| <= k < |next| ensures IsSeeded(table, next[k], players, g, points, costs) {
      if k < |rows| {
        assert IsSeeded(table, rows[k], before, g, points, costs);
      }
    }
    forall j, k | |table| <= j < k < |next| ensures next[j].playerId != next[k].playerId {
      if k == |rows| {
        assert IsSeeded(table, rows[j], before, g, points, costs);
      }
    }
    forall j, k | 0 <= j < k < |next| && |table| <= k ensures next[j].id < next[k].id {
    }
  }

  lemma InsertWrites(table: seq<Score>, rows: seq<Score>, players: seq<Player>, g: int,
                     points: map<int, int>, costs: map<int, int>)
    requires players != [] && DistinctPlayerIds(players)
    requires Submitted(players[|players| - 1].id, points, costs)
    requires FirstAt(rows, players[|players| - 1].id, g).None?
    requires FirstAt(table, players[|players| - 1].id, g).None?
    requires |table| <= |rows|
    requires AllWritten(table, rows, players[..|players| - 1], g, points, costs)
    ensures AllWritten(table, BulkEntry(rows, players[|players| - 1].id, g, points, costs), players, g, points, costs)
  {
    var n := |players| - 1;
    var q := players[n].id;
    PlayerIdsSnoc(players);
    var next := BulkEntry(rows, q, g, points, costs);
    assert next == rows + [next[|rows|]];
    forall q' | q' in PlayerIds(players) && Submitted(q', points, costs)
      ensures Written(table, next, q', g, points, costs)
    {
      if q' != q {
        assert Written(table, rows, q', g, points, costs);
        if FirstAt(table, q', g).None? {
          var w :| |table| <= w < |rows| && rows[w].playerId == q';
          assert next[w] == rows[w];
        }
      } else {
        assert next[|rows|].playerId == q;
      }
    }
  }

  /** One more player: the effect over players[..n] extends to players[..n+1]. */
  lemma BulkEntryStep(table: seq<Score>, rows: seq<Score>, players: seq<Player>, g: int,
                      points: map<int, int>, costs: map<int, int>)
    requires players != [] && DistinctPlayerIds(players)
    requires BulkEffect(table, rows, players[..|players| - 1], g, points, costs)
    ensures BulkEffect(table, BulkEntry(rows, players[|players| - 1].id, g, points, costs), players, g, points, costs)
  {
    var n := |players| - 1;
    var q := players[n].id;
    PlayerIdsSnoc(players);
    if !Submitted(q, points, costs) {
      SkipStep(table, rows, players, g, points, costs);
    } else {
      forall k | 0 <= k < |table| && (table[k].playerId == q || rows[k].playerId == q)
        ensures rows[k] == table[k]
      {
      }
      UntouchedFirstAt(table, rows, q, g);
      UntouchedTotal(table, rows, q);
      if FirstAt(table, q, g).Some? {
        OverwriteStep(table, rows, players, g, points, costs);
      } else {
        InsertStep(table, rows, players, g, points, costs);
      }
    }
  }

  /**
   * The whole upload, player by player: existing rows change only in the
   * points and cost of a submitted player's first row at the gameweek (never
   * in their stored totals); every inserted row is seeded from that player's
   * rows as they stood before the upload, not from rows of the same batch.
   */
  lemma {:induction false} BulkRowsEffect(table: seq<Score>, players: seq<Player>, g: int,
                                          points: map<int, int>, costs: map<int, int>)
    requires DistinctPlayerIds(players)
    ensures BulkEffect(table, BulkRows(table, players, g, points, costs), players, g, points, costs)
    decreases |players|
  {
    if players == [] {
      assert PlayerIds(players) == {};
    } else {
      var n := |players| - 1;
      PlayerIdsSnoc(players);
      BulkRowsEffect(table, players[..n], g, points, costs);
      BulkEntryStep(table, BulkRows(table, players[..n], g, points, costs), players, g, points, costs);
    }
  }

  /** Existing rows keep their id, player, gameweek and stored total; rows are only appended. */
  lemma BulkKeepsRowKeys(table: seq<Score>, players: seq<Player>, g: int, points: map<int, int>, costs: map<int, int>)
    requires DistinctPlayerIds(players)
    ensures var rows := BulkRows(table, players, g, points, costs);
      && |table| <= |rows|
      && forall k :: 0 <= k < |table| ==>
           && rows[k].id == table[k].id
           && rows[k].playerId == table[k].playerId
           && rows[k].gameweek == table[k].gameweek
           && rows[k].overallPoints == table[k].overallPoints
  {
    BulkRowsEffect(table, players, g, points, costs);
  }

  /**
   * The upload keeps the primary key and its rowid order, the declared one-score-per-gameweek
   * intent, and references to listed players, whenever the table had them.
   */
  lemma BulkKeepsInvariants(table: seq<Score>, players: seq<Player>, g: int, points: map<int, int>, costs: map<int, int>)
    requires DistinctPlayerIds(players)
    ensures var rows := BulkRows(table, players, g, points, costs);
      && (DistinctIds(table) ==> DistinctIds(rows))
      && (IdsIncreasing(table) ==> IdsIncreasing(rows))
      && (UniquePerGameweek(table) ==> UniquePerGameweek(rows))
      && (ReferencesPlayers(table, players) ==> ReferencesPlayers(rows, players))
  {
    var rows := BulkRows(table, players, g, points, costs);
    BulkRowsEffect(table, players, g, points, costs);
    BulkKeepsRowKeys(table, players, g, points, costs);
    if DistinctIds(table) {
      forall j, k | 0 <= j < k < |rows| ensures rows[j].id != rows[k].id {
        if k < |table| {
          assert table[j].id != table[k].id;
        }
      }
    }
    if IdsIncreasing(table) {
      forall j, k | 0 <= j < k < |rows| ensures rows[j].id < rows[k].id {
        if k < |table| {
          assert table[j].id < table[k].id;
        }
      }
    }
    if UniquePerGameweek(table) {
      forall j, k | 0 <= j < k < |rows|
        ensures rows[j].playerId != rows[k].playerId || rows[j].gameweek != rows[k].gameweek
      {
        if k < |table| {
          assert table[j].playerId != table[k].playerId || table[j].gameweek != table[k].gameweek;
        } else if j < |table| {
          assert IsSeeded(table, rows[k], players, g, points, costs);
        }
      }
    }
    if ReferencesPlayers(table, players) {
      forall k | 0 <= k < |rows| ensures rows[k].playerId in PlayerIds(players) {
        if k >= |table| {
          assert IsSeeded(table, rows[k], players, g, points, costs);
        }
      }
    }
  }

  /**
   * Uploading a gameweek past every stored one (the form's default, main.py:336-339)
   * keeps the running-total invariant: no existing row is touched and each inserted
   * row, seeded from all of its player's rows, stores exactly its prefix total.
   */
  lemma BulkKeepsLedger(table: seq<Score>, players: seq<Player>, g: int, points: map<int, int>, costs: map<int, int>)
    requires LedgerConsistent(table) && DistinctPlayerIds(players)
    requires forall k :: 0 <= k < |table| ==> table[k].gameweek < g
    ensures LedgerConsistent(BulkRows(table, players, g, points, costs))
  {
    var rows := BulkRows(table, players, g, points, costs);
    BulkRowsEffect(table, players, g, points, costs);
    var added := rows[|table|..];
    forall k | 0 <= k < |table| ensures rows[k] == table[k] {
      assert FirstAt(table, table[k].playerId, g).None?;
    }
    assert rows == table + added;
    forall k | 0 <= k < |rows| ensures rows[k].overallPoints == PrefixTotal(rows, rows[k].playerId, rows[k].gameweek) {
      var p, gk := rows[k].playerId, rows[k].gameweek;
      NetSumAppend(table, added, p, Some(gk), None);
      if k < |table| {
        forall j | 0 <= j < |added| ensures !Counts(added[j], p, Some(gk), None) {
          assert IsSeeded(table, rows[|table| + j], players, g, points, costs);
        }
        NetSumNoneSelected(added, p, Some(gk), None);
      } else {
        var i := k - |table|;
        assert IsSeeded(table, rows[k], players, g, points, costs);
        forall j | 0 <= j < |added| && j != i ensures !Counts(added[j], p, Some(g), None) {
          assert rows[|table| + j].playerId != rows[k].playerId;
        }
        NetSumOnlyOne(added, i, p, Some(g), None);
        NetSumAllUpTo(table, p, g, None);
      }
    }
  }
}
