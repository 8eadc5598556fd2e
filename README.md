# Tournament registration: a verified model

This project models the core of a small web application that runs 3v3
tournaments. An organiser creates a tournament under a short code, and its
registration window closes 24 hours after creation. Players register by
gamertag while the window is open. Once at least six players are
registered, the organiser generates the tournament's matches: one match per
round, each between two teams of three players drawn at random, with the game
types used in turn. Anyone with the link can then record the winner of a
match as side A or side B.

The four SQLite tables are modelled as the fields of one `Store` class:

- `tournaments` and `players` as sequences, in insertion order;
- `tournament_meta` as a map from tournament id to row;
- `matches` as a sequence, together with the next value of the matches
  table's auto-increment key.

Each request handler is a method of the class. It either refuses with an
`Error` and leaves the tables as they were, or it makes the change the
handler makes. The class invariant `Valid` collects the tables' constraints
and the facts the handlers keep true:

- tournament ids are 1, 2, ...;
- codes are unique and non-empty;
- each deadline is 24 hours after creation;
- no gamertag is registered twice for one tournament;
- meta rows and matches belong to stored tournaments;
- match ids increase;
- every match is a 3v3 whose two disjoint teams are drawn from its
  tournament's roster.

Instants are integers, in microseconds. Every read of the clock is a
parameter of the handler that makes it; `join_submit` reads it twice, once
for the window check and once for the instant it stores. `random.shuffle` is a parameter too: a
function from the round number and the roster to a reordering of the roster.
`IsShuffle` requires that the result is a permutation of its input.

The files:

- `base.dfy`: option and result types, and duplicate-free sequences.
- `text.dfy`: Python's `strip`, `upper`, `split` and `join` on strings.
- `model.dfy`: the table rows and the refusal reasons.
- `registration.dfy`: the registration window, form checks, lookup by code
  and rosters.
- `schedule.dfy`: the game-type list, the team split and the plan of rounds.
- `ledger.dfy`: selecting and deleting matches, and recording a winner.
- `store.dfy`: the store class, its invariant and the four handlers.

## Model

| member | source | states |
|---|---|---|
| Registration.RegistrationOpen | app.py:354-356 | open while the current instant has not passed the stored deadline; its meaning over time is stated by `WindowClosesOnceForAll` |
| Registration.WindowClosesOnceForAll | app.py:354-356 | with the deadline fixed at creation plus 24 hours, the window is open exactly while `now - created <= 24h`; once closed it stays closed at every later instant |
| Registration.CheckNewTournament | app.py:383-387 | fails with `MissingNameOrCode` iff the name or the code is blank; otherwise gives the stripped name and the stripped, upper-cased code, both non-empty |
| Registration.NewTournament | app.py:389-396 | the row stores the given id, code and name, is created at `now`, and its deadline is `now` plus 24 hours |
| Registration.CheckRegistration | app.py:510-530 | checks the gamertag, then the days, then the time window, each error iff that field is the first one missing; on success the gamertag, window and notes are stripped, with the gamertag and window non-empty, and the days column is the submitted days joined by commas |
| Registration.RegisteredDaysRoundTrip | app.py:530 | the comma-joined days column splits back into the submitted days when none of them holds a comma |
| Registration.FindTournament | app.py:523 | finds a stored tournament with exactly this code, and finds nothing iff no stored code equals it |
| Registration.FindAfterAppend | app.py:392-398 | after appending a tournament under a fresh code, that code finds it and every other code finds what it found before |
| Registration.Roster | app.py:571-575 | a gamertag is on a tournament's roster iff some player row of that tournament carries it; its order is stated by `RosterAppend` |
| Registration.RosterAppend | app.py:571-575 | the roster keeps registration order: the roster of players registered in two stretches is the first stretch's roster followed by the second's |
| Registration.RosterDistinct | app.py:57-66 | under the `UNIQUE(tournament_id, gamertag)` constraint no roster holds a gamertag twice |
| Schedule.NonBlankTrimmedEmpty | app.py:597 | the comprehension keeps nothing iff every piece is blank |
| Schedule.NonBlankTrimmed | app.py:597 | never longer than the pieces, and every entry non-empty with no whitespace at either end; which entries, in which order, is stated by `NonBlankTrimmedFrom`, `NonBlankTrimmedPiece` and `NonBlankTrimmedAppend` |
| Schedule.NonBlankTrimmedFrom | app.py:597 | the entries kept are exactly the stripped forms of the non-blank pieces: each kept entry is the strip of some piece, and the strip of every non-blank piece is kept |
| Schedule.NonBlankTrimmedPiece | app.py:597 | a single piece contributes its stripped form when it is not blank, and nothing when it is |
| Schedule.NonBlankTrimmedAppend | app.py:597 | the comprehension goes piece by piece in order: the entries of a concatenation are those of the first part followed by those of the second, repeats included |
| Schedule.ParseGameTypes | app.py:597-599 | the game-type list is never empty, and each entry is non-empty with no whitespace at either end |
| Schedule.BlankColumnDefaults | app.py:598-599 | a column whose every comma-separated piece is blank falls back to `Type A, Type B, Type C` |
| Schedule.GameTypesFromColumn | app.py:597-598 | a column with a non-blank piece gives the comprehension itself, without the fallback: exactly the stripped non-blank pieces, in column order |
| Schedule.ColumnEntriesInOrder | app.py:597 | reading a column from the front: the first comma-separated piece contributes its stripped form, if not blank, ahead of the entries of the rest of the column |
| Schedule.ParseJoinedGameTypes | app.py:597 | a comma-joined list of stripped, comma-free game types parses back to itself |
| Schedule.DefaultColumnParses | app.py:73 | the column default `Type A,Type B,Type C` parses to the three default types |
| Schedule.GameTypeOf | app.py:609 | round `r` gets an entry of the list, and the `r`-th entry while `r` does not exceed the list's length |
| Schedule.GameTypesCycle | app.py:609 | game types repeat with period equal to the list's length |
| Schedule.SplitTeams | app.py:558-561 | the two teams concatenate back to the six picked players, and team A holds the first three |
| Schedule.ShuffledTeams | app.py:605-608 | with six or more distinct players and a permuting shuffle, team A is the first three and team B the next three of the shuffle; they are disjoint, three each, and drawn from the roster |
| Schedule.RoundMatch | app.py:605-617 | the match of one round; its teams are stated by `ShuffledTeams` and its game type by `GameTypeOf` |
| Schedule.PlanAt | app.py:604-617 | entry `k` of the plan is the match of round `k + 1` under id `firstId + k` |
| Schedule.Plan | app.py:604-617 | a plan of `n` rounds holds `n` matches; their contents are stated by `PlanAt`, `PlanShape` and `PlanTeams` |
| Schedule.PlanShape | app.py:604-617 | a plan of `n` rounds has `n` matches of this tournament with consecutive ids, rounds numbered 1 to `n`, the game type at index `k` modulo the list length, and no winner |
| Schedule.PlanTeams | app.py:604-617 | every round of a plan is a 3v3 drawn from the roster |
| Schedule.DefaultPlanGameTypes | app.py:596-609 | with the meta defaults, five rounds are played with game types A, B, C, A, B |
| Ledger.ParseSide | app.py:685-687 | a side is accepted iff the stripped field is `A`, `a`, `B` or `b`, and it is the side named |
| Ledger.MatchesOf | app.py:695 | selects exactly the matches of the tournament |
| Ledger.MatchesExcept | app.py:601 | the delete keeps exactly the other tournaments' matches, and ids still increase |
| Ledger.MatchesOfAppend | app.py:601-617 | selecting a tournament's matches distributes over concatenation |
| Ledger.MatchesOfOwn | app.py:611-617 | a list of one tournament's matches selects to itself |
| Ledger.MatchesOfOthers | app.py:601 | a list without this tournament's matches selects to nothing |
| Ledger.MatchesAfterReplace | app.py:601-617 | after the delete and the inserts, the tournament's matches are exactly the inserted ones |
| Ledger.RecordWinner | app.py:694-697 | the match with this id in this tournament gets the winner; no other field and no other match changes |
| Ledger.RecordWinnerIdempotent | app.py:694-697 | recording the same winner twice equals recording it once |
| Ledger.RecordWinnerOverrides | app.py:694-697 | a later winner overrides an earlier one |
| Ledger.RecordWinnerTouchesAtMostOne | app.py:694-697 | with increasing ids at most one match changes, and none changes when no match has this id in this tournament |
| Text.Trim | app.py:383 | the result is no longer than the input, is empty iff the input is all whitespace, and otherwise starts and ends with a non-space; what it drops is stated by `TrimDropsOnlySpaces` |
| Text.TrimIsInfix | app.py:383 | the result is the infix of the input after its leading whitespace |
| Text.TrimDropsOnlySpaces | app.py:383 | everything before and after the stripped infix is whitespace, so strip drops whitespace at the ends and nothing else |
| Text.TrimIdempotent | app.py:383 | stripping twice equals stripping once |
| Text.Upper | app.py:384 | keeps the length, leaves no lower-case ASCII letter, and changes only lower-case letters |
| Text.UpperIdempotent | app.py:384 | upper-casing twice equals upper-casing once |
| Text.Split | app.py:597 | at least one piece, no piece holds the separator |
| Text.JoinSplit | app.py:597 | joining the pieces of a split gives the string back |
| Text.SplitJoin | app.py:530 | splitting a join of comma-free pieces gives the pieces back |
| Text.Join | app.py:530 | the comma-joined column; `SplitJoin` and `JoinSplit` make it the inverse of `Split` |
| Store.CreateKeepsValid | app.py:392-398 | storing a tournament with the next id, a fresh non-empty code and the 24-hour deadline keeps every table valid |
| Store.AppendKeepsUnique | app.py:65 | a gamertag not yet on its roster keeps registrations unique |
| Store.AppendKeepsPlayersValid | app.py:532-540 | a player of a stored tournament under a gamertag not yet on its roster keeps the players table valid |
| Store.AppendKeepsMatchesValid | app.py:532-540 | rosters only grow, so matches stay drawn from their rosters |
| Store.JoinKeepsValid | app.py:532-540 | such a registration keeps every table valid |
| Store.PlanKeepsMatchesValid | app.py:601-617 | replacing a tournament's matches by the plan for its roster of six or more keeps the matches table valid |
| Store.GenerateKeepsValid | app.py:591-623 | the meta stamp together with the replaced matches keeps every table valid |
| Store.SetWinnerKeepsValid | app.py:694-697 | recording a winner keeps every table valid |
| Store.InsertRounds | app.py:604-617 | the loop appends exactly the plan of `max(rounds, 0)` rounds and advances the key by that many |
| Store.RoundsToPlay | app.py:604 | `range(1, rounds + 1)` runs no round iff `rounds <= 0`, and otherwise exactly `rounds` rounds |
| Store.MetaOrDefault | app.py:587-596 | the stored meta row, or the column defaults the lazy insert creates; what generation does with it is stated by `Store.Store.Generate` |
| Store.Store.constructor | app.py:44-89 | the empty store is valid |
| Store.Store.CreateTournament | app.py:381-402 | refuses blank fields, then a taken code; otherwise appends the tournament with the next id, the cleaned name and code and the 24-hour deadline, so that it is found by its code; no other table changes |
| Store.Store.JoinSubmit | app.py:508-552 | the outcome is the first of: a form error, `NotFound`, `RegistrationClosed` (the instant of the check past the deadline), `AlreadyRegistered` (gamertag on the roster); on success exactly one player row is appended, stamped with the second clock read, and on every refusal the players table is unchanged |
| Store.Store.AddPlayer | app.py:532-540 | appends exactly the given row and keeps the store valid |
| Store.Store.Generate | app.py:564-625 | `NotFound`, then `NotEnoughPlayers` below six, then a no-op when already generated; otherwise the meta row (or its defaults) is stamped with `now` and the tournament's matches are replaced by the plan of its rounds; tournaments and players never change |
| Store.Store.WriteMatches | app.py:591-623 | deletes the tournament's matches, appends the plan and stores the meta row stamped with `now` |
| Store.Store.SetWinner | app.py:683-700 | `InvalidSide` unless the field is A or B after strip and upper-case, then `NotFound`; otherwise the winner is recorded and nothing else changes |
| Store.GenerateTwice | app.py:587-589 | once a generation request succeeds, a second one answers `AlreadyGenerated` and leaves the matches as the first left them |

## Left out

- HTML rendering, redirects, `fmt_dt`, the read-only pages (`home`, `join_page`, `tournament_view`, `admin_tournament`) and the start-up hook are not modelled. They change no state.
- Store.Store.JoinSubmit, Store.Store.Generate, Store.Store.SetWinner: the tournament code in the URL is matched after upper-casing only, as in the source. `Upper` covers ASCII letters only; Python's Unicode case mapping is not modelled.
- Text.Trim: whitespace is Python's `str.isspace` set of characters, given as a fixed list.
- Store.Store.Generate: the source commits the lazy meta insert and the delete before the inserts. The model writes the end state in one step, so a request that fails part-way is not modelled. Concurrent requests are not modelled either.
- Store.Store.Generate: the meta row's `rounds` and `game_types` columns only ever hold their defaults, because no handler changes them. The model nevertheless takes the stored row as it is.
- Schedule.ParseGameTypes: its own contract states only that the list is never empty and that every entry is stripped and non-blank. Which entries are kept, and in which order, is stated by `BlankColumnDefaults`, `GameTypesFromColumn`, `NonBlankTrimmedAppend` and `ColumnEntriesInOrder`. Keeping that out of the function's own contract keeps every caller's proof small.
- Store.Store.JoinSubmit: the two clock reads are independent parameters. Nothing requires the stored instant to follow the checked one, so the players table carries no invariant about registration instants.
- Team columns are stored comma-joined in the source. The model keeps them as sequences of gamertags.
- The players table's `ORDER BY created_at_utc` is modelled as insertion order. Registration instants are non-decreasing when the clock is.
- `random.shuffle` is a parameter that must permute its input. Randomness itself is not modelled.
- Timestamps are integers. The ISO-8601 text stored in the database and its parsing are not modelled.
- Foreign-key cascades are not modelled: no handler deletes a tournament.
- Store.Store.SetWinner: a winner for a match id that does not belong to the tournament changes nothing and still succeeds, as the code does; it is not refused as not found.
