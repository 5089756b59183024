/**
 * The two database records, Player and Score, and the constraints the schema
 * declares on the scores table (models.py).
 */
module Models {

  /** The allowed range of the gameweek column. */
  const FirstGameweek: int := 1
  const LastGameweek: int := 38

  /** A row of the players table. */
  datatype Player = Player(id: int, name: string, team: string)

  /** A row of the scores table; overallPoints is the stored running total. */
  datatype Score = Score(
    id: int,
    playerId: int,
    gameweek: int,
    weekPoints: int,
    weekCost: int,
    overallPoints: int)

  /** What one gameweek adds to a player's running total. */
  function Net(s: Score): int
  {
    s.weekPoints - s.weekCost
  }

  /** The column CHECK constraints of one scores row. */
  predicate SatisfiesChecks(s: Score)
  {
    && FirstGameweek <= s.gameweek <= LastGameweek
    && s.weekPoints >= 0
    && s.weekCost >= 0
    && s.overallPoints >= 0
  }

  predicate AllRowsSatisfyChecks(table: seq<Score>)
  {
    forall k :: 0 <= k < |table| ==> SatisfiesChecks(table[k])
  }

  /** The primary key: no two score rows share an id. */
  predicate DistinctIds(table: seq<Score>)
  {
    forall j, k :: 0 <= j < k < |table| ==> table[j].id != table[k].id
  }

  /**
   * Rows in rowid order: SQLite returns an unordered select in ascending rowid,
   * and every insert takes a larger id than any before it.
   */
  predicate IdsIncreasing(table: seq<Score>)
  {
    forall j, k :: 0 <= j < k < |table| ==> table[j].id < table[k].id
  }

  /** Players in rowid order, as the players query returns them. */
  predicate PlayerIdsIncreasing(players: seq<Player>)
  {
    forall j, k :: 0 <= j < k < |players| ==> players[j].id < players[k].id
  }

  predicate DistinctPlayerIds(players: seq<Player>)
  {
    forall j, k :: 0 <= j < k < |players| ==> players[j].id != players[k].id
  }

  /** The declared (but not enforced) intent: one score per player and gameweek. */
  predicate UniquePerGameweek(table: seq<Score>)
  {
    forall j, k :: 0 <= j < k < |table| ==>
      table[j].playerId != table[k].playerId || table[j].gameweek != table[k].gameweek
  }

  /** The set of ids of a list of players. */
  function PlayerIds(players: seq<Player>): set<int>
  {
    set q | q in players :: q.id
  }

  /** The foreign key from scores to players (declared, not enforced by SQLite by default). */
  predicate ReferencesPlayers(table: seq<Score>, players: seq<Player>)
  {
    forall k :: 0 <= k < |table| ==> table[k].playerId in PlayerIds(players)
  }

  /** Why a route fails: an unknown id (HTTP 404), or a row the CHECK constraints reject at commit. */
  datatype Error = NotFound | IntegrityError

  /** Two rows that differ at most in their stored running total. */
  predicate SameExceptOverall(a: Score, b: Score)
  {
    a.(overallPoints := 0) == b.(overallPoints := 0)
  }
}
