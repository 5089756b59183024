# FPL dashboard score ledger in Dafny

This project models the score ledger of a small fantasy-football dashboard. A
`scores` table holds one row per player and gameweek with the week's points,
the week's transfer cost and a stored running total `overall_points`. The
running total is meant to be the sum of `week_points - week_cost` over the
player's rows up to that gameweek. Three routes write the table:

- **Edit a score.** It rewrites one row and then recomputes the player's later totals.
- **Bulk upload.** For one gameweek, for each player, it skips them, overwrites an existing row, or inserts a seeded row.
- **Delete a score.** It removes one row and recomputes nothing.

Two read-only computations sit beside them. The dashboard builds per-team
weekly and carried-forward overall chart series. The scores page proposes the
next gameweek.

Modules, one per file:

- `Models` (models.dfy): the `Player` and `Score` records. It also holds the CHECK constraints (gameweek 1..38; points, cost and total non-negative), the primary key, the declared one-score-per-gameweek intent and the foreign key, each as a predicate.
- `Ledger` (ledger.dfy): the filtered sums of points minus cost that the routes compute, and the running-total invariant `LedgerConsistent`.
- `Queries` (queries.dfy): primary-key lookup, the first row of a (player, gameweek) pair, the id SQLite assigns on insert, the scores-page filter and the next-gameweek suggestion.
- `Update`, `Bulk`, `Delete`: each route as a function from the old table to the new table or an error, with the lemmas about it.
- `Store` (store.dfy): the class `ScoreStore` holding both tables. Its methods perform each route step by step, as the source does: a loop over later rows, a loop over players. Each method is proved to produce exactly what the matching function specifies.
- `Sorting`, `Dashboard`: Python's `sorted` over a set, and the two chart builders with their loops.
- `Scenarios`: what each route does to any two-row ledger of one player. This includes the cases where a stored total goes stale.

Both tables are kept in ascending id order. SQLite returns rows in rowid
order when no order is asked for, so "the first row" of a query is the one with
the smallest id. The store's invariant states this order.

A write either commits all its changes or none. SQLite rejects a row that
breaks a CHECK constraint when the session flushes, so the request never
commits and the table stays as it was. The model returns `IntegrityError` in
that case. SQLite does not enforce the foreign key by default, and the
one-score-per-gameweek intent is not a database constraint. The model
therefore states both as predicates and never assumes them.

Behaviour of the source kept as written:

- The bulk upload seeds a new row with the sum over *all* of the player's rows, whatever their gameweek.
- The bulk overwrite leaves the stored total untouched.
- The edit's cascade uses the *new* player id, so the old player's later rows keep stale totals.
- An edit that moves a row to a *later* gameweek leaves the rows in between stale.
- The cascade's sums see the edited row already rewritten.
- A delete leaves later totals stale.

`UpdateKeepsLedger` states the conditions under which an edit keeps every total
correct. The `Scenarios` lemmas exhibit each stale case.

## Model

| member | source | states |
|---|---|---|
| Queries.IndexOfId | main.py:440-442 | The position of the first row with the id. It is absent exactly when no row has that id, which is the not-found path of the edit and delete routes. |
| Queries.FirstAt | main.py:386-391 | The first row, in table order, of the player at the gameweek. It is absent exactly when the player has no row there. |
| Queries.NextScoreId | main.py:409-416 | The id given to an inserted row is above every existing id: one more than the largest, or 1 in an empty table. |
| Queries.FilterScores | main.py:312-332 | The listed scores are exactly the table rows that match each filter given: player, gameweek, both or neither. Each matching row appears as many times as in the table, and no other row appears. |
| Queries.MaxGameweek | main.py:336-338 | The largest gameweek present: no row exceeds it and some row has it. It is 0 when there are no scores. |
| Queries.NextGameweek | main.py:336-339 | The proposed gameweek is after every stored gameweek, and on a non-empty table some row sits at the gameweek just before it. It is 1 on an empty table and lies in 1..39 when all rows pass the CHECK constraints. |
| Ledger.NetSumAppend | main.py:404 | A filtered sum over two concatenated tables is the sum of the two parts. |
| Ledger.NetSumAgree | main.py:454 | A sum depends only on which rows are selected and on their points and cost. |
| Ledger.SumsIgnoreOverall | main.py:476-483 | The cascade's rescans never read stored totals. A total rewritten earlier in the cascade therefore cannot change a later one, and the order of the later rows does not matter. |
| Ledger.NetSumNoneSelected | main.py:404 | A sum over rows none of which is selected is 0. |
| Ledger.NetSumExcept | main.py:446-456 | With distinct ids, leaving out the edited row's id removes exactly that row's contribution. |
| Ledger.NetSumAgreeFilters | main.py:450 | Excluding an id that no row carries changes no sum. |
| Ledger.NetSumAllUpTo | main.py:404 | When no row lies past gameweek g, the sum up to g equals the unfiltered sum the upload uses. |
| Ledger.NetSumOnlyOne | main.py:404 | A sum that selects exactly one row equals that row's points minus cost. |
| Update.ApplyUpdate | main.py:430-493 | The edit fails with NotFound exactly when the id is absent. On success, every row passes the CHECK constraints. The edited row carries the new player, gameweek, points and cost. Every other row keeps all fields but its total. Only the new player's rows after the new gameweek get a new total. |
| Update.IndexOfIdSameIds | main.py:440 | Lookup by id depends only on the ids, so it finds the same position after the edit. |
| Update.EditedRowTotal | main.py:446-463 | The total written to the edited row equals its own prefix total once the row is rewritten. |
| Update.UpdateTotals | main.py:446-486 | The edited row holds the sum of the player's other rows up to its gameweek plus its own points minus cost. That is also its prefix total in the new table. Every later row of the player holds its prefix total in the new table, the edited row included. |
| Update.UpdateKeepsLedger | main.py:446-486 | If every total was correct, an edit that keeps the row's player, does not move it later, and lands on a gameweek free of other rows of the player leaves every total correct. |
| Update.UpdateIdempotent | main.py:446-489 | Repeating an edit with the same inputs succeeds and leaves the table unchanged. |
| Update.UpdateCommitsIff | models.py:22-31 | On a table that passes the CHECK constraints, the edit commits exactly when the edited row passes them and no recomputed later total is negative. |
| Bulk.ApplyBulk | main.py:355-419 | A successful upload leaves every row passing the CHECK constraints. A failed one fails with IntegrityError. |
| Bulk.BulkRowsEffect | main.py:370-416 | For each player, in turn: a player without both values is skipped. Otherwise the player's first row at the gameweek gets the new points and cost and keeps its total. If there is no such row, one row is appended, seeded with the sum over all the player's pre-existing rows plus points minus cost. Appended rows have fresh, increasing ids, one per player, and no other row changes. |
| Bulk.BulkKeepsRowKeys | main.py:393-397 | Existing rows keep their id, player, gameweek and stored total; rows are only appended. |
| Bulk.BulkKeepsInvariants | models.py:20-38 | The upload preserves the primary key and its increasing order, the one-score-per-gameweek intent and the references to listed players, whenever the table had them. |
| Bulk.BulkKeepsLedger | main.py:336-416 | If every total was correct and the uploaded gameweek is after every stored gameweek, as the proposed next gameweek is, every total is still correct afterwards: the seed from all rows is then the new row's prefix total. |
| Bulk.UntouchedFirstAt | main.py:386-391 | A player the upload has not reached yet still finds their original first row at the gameweek. |
| Bulk.UntouchedTotal | main.py:400-405 | A player the upload has not reached yet still sums to their original total. |
| Delete.Without | main.py:505 | Removing the row at one position shifts the rows after it down by one and keeps the rows before it. |
| Delete.ApplyDelete | main.py:496-522 | The delete fails with NotFound exactly when no row has the id. Otherwise the table loses one row. |
| Delete.DeleteRemovesExactlyOne | main.py:505-506 | The remaining rows are exactly the rows whose id differs, totals included. As multisets, the old table is the new table plus the removed row. |
| Delete.DeleteKeepsInvariants | main.py:505-506 | A delete keeps the primary key and the CHECK constraints of the remaining rows. |
| Store.ScoreStore.GetScore | main.py:440-442 | Returns the row with the id, or nothing exactly when no row has it. |
| Store.ScoreStore.UpdateScore | main.py:430-493 | The loop over later rows commits exactly the table `ApplyUpdate` gives. The edited row and the player's later rows hold their prefix totals. On failure the table is unchanged. |
| Store.ScoreStore.UploadRows | main.py:370-416 | The loop over players builds exactly the rows `BulkRows` specifies, and changes nothing yet. |
| Store.ScoreStore.CreateScoresBulk | main.py:355-419 | Commits exactly the table `ApplyBulk` gives, with the per-player effect of `BulkRowsEffect`. On failure the table is unchanged. The store keeps the CHECK constraints and increasing ids. |
| Store.ScoreStore.DeleteScore | main.py:496-522 | Commits exactly the table `ApplyDelete` gives. The remaining rows are exactly those with another id. |
| Sorting.StrLessOrdersStrings | main.py:123 | Python's string comparison, lexicographic by code point, is a strict total order. |
| Sorting.LeastOfInsert | main.py:123-124 | Adding an element to a set with least element m makes the smaller of the two the least element. |
| Sorting.HasLeast | main.py:123-124 | Every non-empty set under a strict total order has a least element. |
| Sorting.SortSet | main.py:123-124 | `sorted` of a set returns its elements in strictly increasing order, each exactly once. |
| Dashboard.JoinPlayers | main.py:98-102 | The joined rows pair each score with its player. Each score whose player exists appears as many times as in the table, and no other score appears. |
| Dashboard.FindPlayer | main.py:100 | Finds the player with the id, or nothing exactly when no player has it. |
| Dashboard.WeeklySeries | main.py:144-146 | One entry per label: the team's accumulated week points at that gameweek, or 0. |
| Dashboard.CarriedSeries | main.py:164-178 | One entry per label. Where the team has rows it is the sum of their stored totals; elsewhere it is the previous entry, or 0 at the start. |
| Dashboard.Accumulate | main.py:112-117 | The first loop collects exactly the teams and gameweeks present, and for every (team, gameweek) the sum of week points. |
| Dashboard.BuildDatasets | main.py:143-189 | One weekly and one overall dataset per team, in the teams' order. |
| Dashboard.BuildDashboard | main.py:95-189 | Both charts share labels. The labels are `[1]` when there are no scores, else the distinct gameweeks in increasing order. The datasets are the distinct teams in string order. Each weekly entry is the team's week points at that gameweek; each overall series carries its last value forward. |
| Dashboard.CarriedHoldsValue | main.py:175-178 | Across labels where the team has no rows, the overall series keeps its last value. |
| Dashboard.CarriedStartsAtZero | main.py:165 | Before the team's first gameweek with rows, the overall series is 0. |
| Dashboard.SumOverLabelsSnoc | main.py:117 | One more row adds its week points once, at its own gameweek, when that gameweek is a label. |
| Dashboard.WeeklyPointsAddUp | main.py:117-146 | Over distinct labels covering every gameweek, a team's weekly series adds up to all of the team's week points: nothing is lost or counted twice. |
| Scenarios.TwoWeeksConsistent | main.py:446-486 | Two rows of one player at gameweeks 1 and 2 that store their running totals satisfy the invariant. |
| Scenarios.EditRecomputesLaterWeeks | main.py:446-486 | Editing gameweek 1 rewrites its total and gameweek 2's. For example, 50 and then 40 at a cost of 5 store 50 and 85; raising gameweek 1 to 60 stores 60 and 95. |
| Scenarios.UploadSeedsFromAllRows | main.py:399-416 | Uploading gameweek 3 or later appends one row with the next id, seeded with the player's whole total plus points minus cost. |
| Scenarios.ReassignLeavesOldPlayerStale | main.py:459-472 | Giving gameweek 1's row (net points not zero) to another player commits, but the first player's gameweek-2 total is then wrong. |
| Scenarios.MoveLaterLeavesGapStale | main.py:446-472 | Moving gameweek 1's row to gameweek 3 or later commits, but gameweek 2's total is then wrong. |
| Scenarios.DeleteLeavesLaterStale | main.py:505-506 | Deleting gameweek 1 (net points not zero) leaves gameweek 2's total wrong. |
| Scenarios.ReuploadLeavesTotalsStale | main.py:386-397 | Uploading gameweek 1 again with a different net overwrites its points and cost. Both stored totals are then wrong, so the ledger is no longer consistent. |
| Scenarios.EditCanDuplicateGameweek | main.py:446-464 | Editing gameweek 2's row to gameweek 1 commits and gives the player two rows at gameweek 1. |

## Left out

- HTTP routing, redirects, templates, static files, HTTP Basic authentication, the logout route's clock, the SQLite engine and the session lifecycle: framework glue and I/O. A route's request is a method call on `ScoreStore`; a commit is the replacement of `scores`.
- Parsing of form fields and query strings with Python's `int()`, including the ignored `ValueError` on the scores page. The model takes the values already parsed. A bulk field that is missing or empty is a missing key in the `points`/`costs` map. The gameweek field is an `Option`, defaulting to 1.
- Chart colours, the `tension` float, `json.dumps` and the `print` of the edit route: presentation and logging only.
- `team_overall_data` in the dashboard: it is accumulated but never read.
- Player create, edit and delete: plain assignments with a not-found check, outside the score ledger.
- Dashboard.BuildDashboard: the SQL `order_by` of the joined query is not modelled. Rows are taken in table order, which changes no output, because every output is a sum or a sorted set.
- Store.ScoreStore.UpdateScore: the cascade visits the player's later rows in table order rather than ordered by gameweek. `SumsIgnoreOverall` shows this gives the same totals.
- Queries.NextScoreId: SQLite's 64-bit rowid limit and its random-id fallback past that limit are not modelled.
- Integers are unbounded. Python's integers are too, and SQLite's 64-bit INTEGER overflow is not modelled.
- The `overall_points` default of 0 is not modelled: every insert in these routes sets the total explicitly.
- The foreign key is stated (`ReferencesPlayers`) but not enforced, matching SQLite's default. The edit route does not check that the new player exists.
