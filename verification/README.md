# No Bad Days Club challenge verifier: a Dafny model of the core

The app is a gamified challenge tracker. A player picks a challenge (a
task worth some points) and uploads a photo as proof. A remote vision
model answers `VERIFIED|<sentence>|<confidence>` or
`NOT VERIFIED|<sentence>|<confidence>`. A verified answer awards the task's
points as a transaction. Any other answer can be escalated to a
human-review queue, where an admin accepts the item (which awards the
points) or rejects it. Players are ranked on a leaderboard by their total
points.

This project models that core as pure functions over an immutable store:

- `Decimal`: Python's `str()` for the non-negative ids and counts that make
  up a transaction key, plus a reader that inverts it.
- `Text`: `str.split('|')` with `Join` as its inverse, and the substring
  test `t in s` with an occurrence-based reference definition.
- `Verification`: the client's error line for a raised exception, the
  three-field parse of the reply, and the verdict predicate.
- `Store`: the four tables (tasks, players, transactions, review queue),
  the pending verification (the session's `last_verification` entry), the
  seed data, the lookups, the key formulas, and the admin add-task and
  add-player forms.
- `Workflow`: Submit, Escalate, Accept and Reject as transitions on the
  store.
- `Scoring`: per-player totals and completion counts, and the ranked
  leaderboard.

Model choices:

- The remote reply is an input: either the reply text (already stripped)
  or the message of a raised exception.
- Timestamps are opaque strings passed in by the caller.
- The presence of the API key is a boolean parameter.

Behaviour of the code that the model keeps as it is:

- Accepting a review item whose task description matches no task makes
  `.values[0]` raise an `IndexError` (app.py:418-427); the app does not
  catch it. `Workflow.Accept` therefore requires a matching task
  (`HasMatchingTask`).
- Transaction keys are `"a"` followed by the new row count, the player id
  and (for submissions) the task id, concatenated without separators
  (app.py:246, 423). Such keys can repeat, and `Store.KeysCollide`
  exhibits two collisions.
- Three of the six seed transactions award points different from their
  task's (app.py:42-53): `a21221` gives 50 for task 2 (worth 75), and
  `a32132` and `a53113` give 75 for task 1 (worth 50).
  `Store.SeedAwardsMismatch` names exactly these rows. Every transaction
  the workflow records does award its task's points
  (`Workflow.SubmitAwardsMatch`, `Workflow.AcceptAwardsMatch`).
- The leaderboard is ordered by pandas' default `sort_values` (app.py:300),
  a quicksort that fixes no order among equal totals.

## Model

| member | source | states |
|---|---|---|
| `Decimal.ParseNatToString` | app.py:246 | the decimal text that `str()` gives an id or count reads back to the same number, so different numbers render differently |
| `Decimal.NatToStringInjective` | app.py:423 | two ids or counts with the same decimal text are equal |
| `Text.Split` | app.py:218 | `split('|')` gives one more piece than there are separators, and no piece contains a separator |
| `Text.JoinSplit` | app.py:218 | joining the pieces of `split('|')` with `|` rebuilds the reply exactly |
| `Text.SplitJoin` | app.py:218 | splitting a `|`-join of separator-free fields gives back exactly those fields |
| `Text.ContainsIffOccurs` | app.py:236 | the substring test holds exactly when the needle occurs at some position of the status |
| `Verification.Parse` | app.py:218-222 | with fewer than two separators the result is ("ERROR", whole reply, "0"); otherwise the reply is status, `|`, explanation, `|`, confidence, followed by nothing or by a separator, and no field contains a separator |
| `Verification.ParseFields` | app.py:218-222 | a reply made of three separator-free fields, optionally followed by more `|`-separated text, parses to exactly those three fields, and the extra text is ignored |
| `Verification.CanEscalate` | app.py:269 | the human-review condition is exactly the negation of the verified test at app.py:236 |
| `Verification.RaisedIsNeverVerified` | app.py:135-136 | a raised exception yields status "ERROR", which is never verified; a message without `|` ends up whole in the explanation with confidence "0" |
| `Verification.ExampleVerified` | app.py:218-236 | "VERIFIED\|Matches receipt\|92" parses to its three fields and is verified |
| `Verification.ExampleNotVerified` | app.py:218-236 | "NOT VERIFIED\|Wrong store\|10" parses to its three fields, is not verified, and can be escalated |
| `Verification.ExampleGarbage` | app.py:218-236 | a reply with no separator becomes ("ERROR", reply, "0") and is not verified |
| `Store.Seed` | app.py:23-60 | the seed store is well formed: ids are positions plus one, and all references are valid |
| `Store.SeedAwardsMismatch` | app.py:24-54 | a seed transaction awards its task's points exactly for the first, fourth and sixth rows; the second, third and fifth award a different amount |
| `Store.FirstMatch` | app.py:161-163 | the lookup returns a row that matches and no earlier row matches; the profile's id and Accept's task (app.py:418-427) both come from the first hit |
| `Store.KeyShape` | app.py:246 | both key forms are "a" followed only by decimal digits, beginning with the new row count |
| `Store.KeysCollide` | app.py:246 | keys are not unique: two different submissions can share a key, and so can an accepted review and a submission |
| `Store.AddTask` | app.py:338-350 | an empty description changes nothing; otherwise exactly one task is appended with id = count + 1, and the other tables are untouched |
| `Store.AddPlayer` | app.py:360-371 | an empty name changes nothing; otherwise exactly one player is appended with id = count + 1, and the other tables are untouched |
| `Store.AddPreservesWellFormed` | app.py:338-371 | adding a task or a player keeps ids equal to positions plus one and keeps every reference valid |
| `Workflow.PendingFor` | app.py:225-234 | the pending entry holds the parsed reply, the id of the first player with the chosen name, and the chosen task's description, id and points |
| `Workflow.Submit` | app.py:208-264 | without an API key nothing changes. With one, the pending entry holds the parsed reply with the selected player (first name match) and the chosen task's description, id and points, and the queue is unchanged. A verified status appends exactly one transaction (selected player and task, the task's points, key built from count + 1); any other status appends none |
| `Workflow.Escalate` | app.py:267-284 | succeeds exactly when a pending, non-verified result exists. It appends one review item copying the player id, name and task description, with the explanation as reason. It clears the pending entry and leaves the transactions unchanged |
| `Workflow.RemoveAt` | app.py:437-439 | removing a queue item keeps the items before it and shifts the ones after it down by one |
| `Workflow.Accept` | app.py:416-441 | the queue shrinks by one (item i removed) and exactly one transaction is appended. It carries the item's player and the id and points of the first task with the item's description, under the key "a" + str(count + 1) + str(player id) |
| `Workflow.Reject` | app.py:444-449 | the queue shrinks by one (only item i removed); transactions, tasks, players and the pending entry are unchanged |
| `Workflow.EscalateOnce` | app.py:283-284 | after one successful escalation a second one is refused, so the queue grows by at most one |
| `Workflow.SubmitThenEscalate` | app.py:236-284 | a non-verified submission followed by escalation appends one review item (the explanation as reason, the chosen task's description, the chosen name) and no transaction |
| `Workflow.VerifiedNotEscalable` | app.py:267-270 | after a verified submission escalation is not offered |
| `Workflow.RaisedSubmissionEscalates` | app.py:135-136 | a submission whose remote call raised records no transaction, reports "not verified", and can be escalated |
| `Workflow.SubmitPreservesWellFormed` | app.py:225-255 | Submit keeps every stored reference valid |
| `Workflow.EscalatePreservesWellFormed` | app.py:270-284 | Escalate keeps every stored reference valid |
| `Workflow.AcceptPreservesWellFormed` | app.py:416-441 | Accept keeps every stored reference valid |
| `Workflow.RejectPreservesWellFormed` | app.py:444-449 | Reject keeps every stored reference valid |
| `Workflow.SubmitAwardsMatch` | app.py:245-250 | a verified submission's transaction awards exactly the points of the task it names |
| `Workflow.AcceptAwardsMatch` | app.py:418-429 | an accepted review's transaction awards exactly the points of the task it names |
| `Scoring.PlayerTransactions` | app.py:289-291 | the selection keeps only rows carrying the player's id and is no longer than the table |
| `Scoring.PlayerTransactionsMembers` | app.py:289-291 | the player's transactions are exactly the table rows with that player id |
| `Scoring.StatsAppend` | app.py:289-294 | one more transaction changes only its own player's total (by its points) and count (by one) |
| `Scoring.PlayerStats` | app.py:289-294 | "Total Points" is the sum of points over the player's transactions, and "Challenges Completed" is how many there are |
| `Scoring.VerifiedSubmitScores` | app.py:245-294 | a verified submission raises the submitter's total by the task's points and their count by one; every other player is unchanged |
| `Scoring.ResolveScores` | app.py:416-449 | Accept raises the item's player's total by the awarded points and nobody else's; Reject changes no total |
| `Scoring.Standings` | app.py:297-299 | every grouped row is for a player id with at least one transaction and carries that id's total |
| `Scoring.StandingsFromPlayers` | app.py:297-299 | every grouped row carries the id and name of a player in the player table (the inner merge) |
| `Scoring.StandingsComplete` | app.py:297-299 | every player with at least one transaction gets a grouped row with their total |
| `Store.WellFormedIdsDistinct` | app.py:360-371 | in a well-formed store no two players share an id |
| `Scoring.StandingsDistinct` | app.py:297 | with distinct player ids the grouped rows carry distinct ids, one row per player |
| `Scoring.InsertDistinct` | app.py:300 | inserting an entry whose id is not yet present keeps the ids distinct |
| `Scoring.SortDistinct` | app.py:300 | sorting by points keeps the ids distinct |
| `Scoring.Insert` | app.py:300 | inserting into a list of non-increasing totals keeps it non-increasing and adds exactly that entry |
| `Scoring.SortByPoints` | app.py:300 | the sorted standings are a permutation of the input, with non-increasing totals |
| `Scoring.Leaderboard` | app.py:296-301 | ranks run 1, 2, ..., n consecutively and totals never increase down the board |
| `Scoring.LeaderboardRows` | app.py:297-301 | every row on the board is a player with at least one transaction, shown with their true total |
| `Scoring.LeaderboardComplete` | app.py:297-301 | every player with at least one transaction appears on the board, with their total and the rank matching their position |
| `Scoring.LeaderboardDistinct` | app.py:297-301 | with distinct player ids no player appears twice on the board |

## Left out

- Page layout, CSS and HTML, the sidebar router, the progress bar with its
  `time.sleep`, the balloons, and the wording and styling of the messages
  (app.py:15-102, 208-214, 237-243, 457-463). These are presentation only.
  What a message reports (the explanation, the confidence and the points
  earned, or the missing key) is kept, as `Workflow.Outcome`.
- The remote model call, `genai.configure`, the prompt text and the PNG
  re-encoding (app.py:105-133). They are an external service and a foreign
  library. The reply is an input, and the `.strip()` applied to it is
  assumed to be already done.
- `resize_image` (app.py:139-147) is for display only and uses
  floating-point scaling.
- The image upload itself (app.py:190-193). Both buttons are shown only
  once an image is uploaded, and the model takes that as given.
- The formatting of `datetime.now()` (app.py:249, 276, 428). Timestamps
  are opaque values supplied by the caller.
- The transaction-history view, with its merges and timestamp sort
  (app.py:373-386), and the admin metric tiles (app.py:312-320). These are
  read-only displays.
- Task selection goes through the display string `task_options.index`
  (app.py:169-175), which returns the first task with that string. When two
  tasks have identical display strings the app can never select the later
  one. The model takes the task position directly, so it can also name a
  later duplicate, which the app never does.
- pandas index labels versus positions (app.py:405, 438). After
  `concat(..., ignore_index=True)` the labels are unique, so dropping the
  selected row's label removes exactly that position. The queue is
  modelled as a sequence with positional removal.
- Scoring.Leaderboard: says nothing about the order of players with equal
  totals. pandas' default quicksort does not fix one, so neither does the
  contract, although the model's insertion sort keeps table order.
- Scoring.Standings: builds the grouped rows from the player table rather
  than from the transaction table. The group-by and inner merge at
  app.py:297-299 give the same rows when player ids are distinct, which
  `Store.WellFormed` guarantees (`Store.WellFormedIdsDistinct`) and every
  transition keeps. With duplicate player ids the merge would repeat rows
  and the model does not describe that case.
- The admin form's points step of 5 (app.py:336) is not enforced by the
  widget, so only the bounds 10..500 are kept, as a precondition of
  `Store.AddTask`.
