# gym-reminder-bot, modelled in Dafny

The gym reminder bot is a Telegram bot. A user builds a workout program for each
weekday by typing one exercise per line, and later plays the program back: the
bot shows one exercise at a time, rests between exercises, and records progress
in a session. The repository holds two generations of the bot:

- `handlers.py`, the newer bot. Lines are written as `name reps sets weight [media]`.
  An animation may carry the line as its caption. There is an undo token, programs
  can be viewed, edited, deleted and overwritten, single exercises can be edited,
  and the player has a "back" button and a rest length set by the user.
- `bot.py`, the older bot. Lines are written as `name، sets، weight`. There is no
  undo and no back, and the rest is a fixed minute.

Both bots store their data through `database.py`, a SQLite store with four tables
(users, workout programs, exercises and workout sessions).

This project models the three pieces in Dafny:

- **Text and numbers** (`text.dfy`, `numbers.dfy`, `seqs.dfy`):
  - Python's `str.strip`, `str.split()`, `str.split(sep)`, `' '.join` and `str.replace`;
  - `int()` and `float()` for the token grammar the bot's users type, which is an
    optional sign, then digits, with an optional fraction for a weight;
  - the filter and the stable insertion sort behind the store's `DELETE ... WHERE`
    and `ORDER BY`.
- **The two line formats** (`exercise_line.dfy`), as pure parse functions. Each is
  proved to round-trip against a formatter.
- **The callback data of the buttons** (`callbacks.dfy`): `set_rest_<n>`,
  `ex_edit_<id>`, `start_<id>` and `program_<action>_<id>`. Each is proved to give
  back what its button encodes.
- **The store** (`store.dfy`), as a class `Database`:
  - the four tables are sequence fields in rowid order;
  - the three AUTOINCREMENT counters are integer fields;
  - every method keeps an invariant: ids increase and are below their counter,
    each (user, day) pair appears on at most one program, and each user has at
    most one active session.
- **The per-user state** (`conversation.dfy`). `context.user_data` is a class
  `UserData` with one field per key. This file also holds the player step both
  bots share, which shows the exercise at the cursor or completes the session.
- **The handlers of `handlers.py`** (`handlers.dfy`), as methods on `UserData`.
  `handlers.py` calls store methods that `database.py` does not define, so here the
  store is an interface:
  - every store call that changes something is returned, in order, as a log of `Write`s;
  - every answer the store gives is a parameter (the existing program, the created
    id, whether an undo removed a row, the stored exercises, the rest setting).
- **The handlers of `bot.py`** (`bot.dfy`), as methods on `UserData` and the
  concrete `Database`.
- **Whole conversations** (`handler_runs.dfy`, `bot_runs.dfy`). Each is a method
  that starts from a fresh user and, for `bot.py`, a fresh store, runs several
  handlers in a row, and states the outcome:
  - building a program line by line (for `bot.py`, from the text the user types);
  - playing a program to the end;
  - back followed by done;
  - choosing the same day twice in `bot.py`.

Python truthiness is modelled where the code relies on it. `if not program_id`
treats 0 like a missing id, and `rest or 60` does the same. `handlers.py`
persists the player's index when `session_id is not None`, while `bot.py` does so
only when the id is truthy; the model keeps that difference. Where Python raises
and the handler does not catch the error (`int()` on a bad id, the missing
`current_program_id` key in `bot.py`), the handler's result is `Raised` and
nothing further happens.

Two behaviours of the code are worth knowing. The model follows the code in
each case:

- **The weight is required.** The prompt texts of `handlers.py` call the weight
  optional, but its parse reads the last token as the weight. A line without a
  weight is therefore read with its sets as the weight, and is usually rejected.
  Only the comma format of `bot.py` makes the weight optional; see
  `ExerciseLine.CommaWeightOptional`.
- **Choosing a day again orphans its exercises.** `create_workout_program` uses
  `INSERT OR REPLACE` on the unique (user, day) pair. SQLite deletes the old row
  and inserts a new one with a fresh AUTOINCREMENT id. So the
  `delete_exercises(new id)` that `bot.py`'s `day_selected` issues next deletes
  nothing. The old exercises stay in the table under an id no program has any
  more. Foreign keys are never switched on, so the declared `ON DELETE CASCADE`
  does not apply. `BotRuns.ReselectDay` proves this scenario.

## Model

| member | source | states |
|---|---|---|
| Text.Strip | handlers.py:242 | the result has no surrounding whitespace and is no longer than the input |
| Text.StripAround | bot.py:143 | stripping removes exactly the whitespace around a text that neither starts nor ends with whitespace |
| Text.Split | handlers.py:272 | `str.split()` yields non-empty tokens without whitespace |
| Text.SplitJoin | handlers.py:288 | splitting the single-space join of whitespace-free tokens gives the tokens back |
| Text.SplitOn | bot.py:160 | `str.split(sep)` yields at least one part, and no part holds the separator |
| Text.JoinSplitOn | bot.py:160 | joining the parts of `str.split(sep)` with the separator gives the text back |
| Text.SplitOnJoinWith | bot.py:160 | splitting the join of separator-free parts gives the parts back |
| Text.RemoveAllPrefix | handlers.py:380 | `replace('start_', '')` on the pattern followed by a text without the pattern's first character gives that text |
| Text.LexTotal | database.py:162 | the `ORDER BY day_name` comparison relates any two names |
| Text.LexTransitive | database.py:162 | the `ORDER BY day_name` comparison is transitive |
| Numbers.IntRoundTrip | handlers.py:283-284 | `int(str(i)) == i` for every integer |
| Numbers.DecimalRoundTrip | handlers.py:282 | `float` reads a written weight back exactly, scale included |
| Numbers.IntTokenIsWholeWeight | bot.py:174-175 | a token `int()` accepts is read by `float()` as the same whole number |
| Seqs.Filter | database.py:146-153 | a `DELETE ... WHERE` keeps exactly the rows not matched, and never more rows |
| Seqs.FilterConcat | database.py:146-153 | filtering distributes over concatenation |
| Seqs.FilterPairwise | database.py:146-153 | deleting rows keeps every ordering fact between the rows kept |
| Seqs.SortByIsSort | database.py:123-144 | `ORDER BY` returns a permutation of the selected rows, in order |
| Seqs.SortBySorted | database.py:123-144 | rows already in order come back unchanged |
| ExerciseLine.ParseLine | handlers.py:272-291 | fewer than 3 tokens is rejected; a trailing `http…`/`….gif` token is the media; weight, sets and reps are the last three remaining tokens, read right to left; the name is the non-empty rest, joined by single spaces; a line with at least four remaining tokens whose last three read as numbers is accepted |
| ExerciseLine.LineRoundTrip | handlers.py:272-291 | every exercise whose name is non-empty with single spaces, and whose media, if any, is one media token, is read back from its formatted line |
| ExerciseLine.ParseLineCanonical | handlers.py:272-291 | re-formatting an accepted line gives a line accepted with the same fields |
| ExerciseLine.ParseCommaLine | bot.py:160-181 | a text without `،` is rejected as too short; otherwise the line is accepted exactly when the second stripped part reads as an integer and the third, if there is one, as a number, and it is then the first part, the sets and the weight (0 with two parts), and else it is rejected as not numeric; an accepted name is trimmed and comma-free |
| ExerciseLine.SplitOnSingle | bot.py:160-169 | there is more than one part exactly when the separator occurs |
| ExerciseLine.FormattedCommaStripped | bot.py:143 | a formatted comma line is left as it is by `strip()` and holds a comma |
| ExerciseLine.CommaRoundTrip | bot.py:160-181 | every exercise with a trimmed name without `،` is read back from its formatted line |
| ExerciseLine.CommaWeightOptional | bot.py:175 | a line with only name and sets is accepted with weight 0 |
| ExerciseLine.CommaExtraPartsIgnored | bot.py:160-181 | parts after the third do not change the result |
| Callbacks.LastField | handlers.py:74 | `split('_')[-1]` holds no underscore and ends the data, either as all of it or right after an underscore |
| Callbacks.TrailingIdOfButton | handlers.py:202-230 | `<prefix>_<n>` gives back n whatever the prefix |
| Callbacks.RestSecondsOfButton | handlers.py:70-79 | a `set_rest_<n>` button sets n seconds |
| Callbacks.RestSecondsFallback | handlers.py:73-76 | data whose last field does not read as an integer sets 60 seconds |
| Callbacks.StartProgramIdOfButton | handlers.py:376-380 | `start_<id>` gives back the id |
| Callbacks.SplitOnce | handlers.py:145 | a cut at the first separator, or none exactly when there is no separator |
| Callbacks.SplitMax2 | handlers.py:145 | `split('_', 2)`: one to three parts, one exactly without a separator, the last part keeps the rest whole, and joining gives the text back |
| Callbacks.ParseProgramCommand | handlers.py:141-151 | "invalid operation" exactly when there are fewer than three parts; otherwise the id raises exactly when the third part does not read, and else the command is the second part with that id |
| Callbacks.ProgramButtonRoundTrip | handlers.py:141-151 | `program_<action>_<id>` gives back its action and id |
| Conversation.OrElse | handlers.py:480 | `v or d` is v when truthy and d otherwise, so `rest or 60` never gives a rest of 0 |
| Conversation.WithoutBuilder | handlers.py:61-63 | the builder's four keys are gone and the player's keys are kept |
| Conversation.UserData.constructor | handlers.py:233-315 | a user the bot has never seen has nothing stored |
| Conversation.UserData.StartBuilder | handlers.py:130-132 | the builder's program, day and a count of 0 are stored, every other key is kept (bot.py:126-128 is the same) |
| Conversation.UserData.StartPlayer | handlers.py:392-395 | the session, program and exercises are stored with the cursor at 0, every other key is kept (bot.py:297-300 is the same) |
| Conversation.UserData.MoveTo | handlers.py:469 | only the cursor changes (handlers.py:497 and bot.py:360 are the same) |
| Conversation.UserData.Clear | handlers.py:318 | `user_data.clear()` leaves nothing stored |
| Conversation.Cancel | handlers.py:317-325 | all per-user state is cleared and the conversation ends (bot.py:204-211 is the same) |
| Conversation.PyIndex | handlers.py:416 | Python indexing: in-range positions, negative positions from the end, and an IndexError exactly outside both; whatever it returns is an element of the list |
| Conversation.ShowOutcome | handlers.py:400-416 | past the last exercise the session completes, the truthy session id is closed and everything is cleared; otherwise the exercise at the cursor, counted from the end when negative, is shown and nothing changes |
| Conversation.ShowCurrent | handlers.py:400-416 | the screen, the session closed and the new state are those of ShowOutcome |
| Store.FindProgram | database.py:111-121 | the first row for (user, day), or None exactly when there is none |
| Store.ReplacedHasOneRow | database.py:82-99 | after the replace there is exactly one row for (user, day), the new one, and the lookup returns its id |
| Store.ReplacedKeepsOthers | database.py:82-99 | the programs of other users and days are kept |
| Store.ReplacedKeepsInvariant | database.py:32-39 | the replace keeps ids increasing and (user, day) pairs unique |
| Store.DeletedProgramIsEmpty | database.py:146-153 | after delete_exercises(p) program p has no exercises and the other programs' rows are all kept |
| Store.DeleteNothing | database.py:146-153 | deleting a program with no exercises changes nothing |
| Store.ByOrderIndexIsOrder | database.py:131 | `ORDER BY order_index` is a total preorder |
| Store.ByDayNameIsOrder | database.py:162 | `ORDER BY day_name` is a total preorder |
| Store.FirstActive | database.py:195-212 | u's first active session, or None exactly when u has none |
| Store.FirstActiveConcat | database.py:195-212 | the first active session of a concatenation is found in the first part if there is one |
| Store.FirstActiveMapped | database.py:195-212 | a row-wise update that leaves every row's standing with u alone leaves what u sees unchanged |
| Store.OpenedIsOnlyActive | database.py:174-193 | after opening, the new session is u's only active one, at index 0; other users' rows and what they see are unchanged |
| Store.OpenedKeepsInvariant | database.py:174-193 | opening keeps every id below the next one, ids increasing and one active session per user |
| Store.UpdateIndexVisible | database.py:214-223 | a new index on u's active session is what get_active_session(u) then reports |
| Store.SetIndexChangesOnly | database.py:214-223 | only the row with that id changes, and only in its index |
| Store.CloseChangesOnly | database.py:225-234 | only the row with that id changes, and only in becoming inactive |
| Store.CloseActiveHidesSession | database.py:225-234 | closing u's active session leaves u with no active session |
| Seqs.MapAt | database.py:214-234 | an `UPDATE` applies its change to every row, each row staying in its place |
| Store.MappedKeepsInvariant | database.py:214-234 | an update that keeps ids and users and activates nothing keeps the invariant |
| Store.UniqueDay | database.py:38 | with (user, day) unique, the row found for a pair is the only one |
| Store.OneActiveSession | database.py:174-212 | with one active session per user, the session found is the only one |
| Store.Database.constructor | database.py:16-70 | the tables start empty and the counters at 1 |
| Store.Database.AddUser | database.py:72-80 | upsert: one entry per user id, holding the latest username, tables otherwise untouched |
| Store.Database.CreateWorkoutProgram | database.py:82-99 | the programs become the replace of (user, day) under a fresh id, which is returned and is what the lookup finds |
| Store.Database.AddExercise | database.py:101-109 | the row is appended under a fresh id |
| Store.Database.GetWorkoutProgram | database.py:111-121 | None exactly when (user, day) has no program; otherwise the id of every row for the pair |
| Store.Database.GetExercises | database.py:123-144 | exactly the rows of program p, as a permutation, in non-decreasing order_index (ties in table order, by the model's stable sort) |
| Store.Database.DeleteExercises | database.py:146-153 | the rows of p go and the others stay, in order |
| Store.Database.GetUserPrograms | database.py:155-172 | exactly u's programs, as a permutation, ordered by day name |
| Store.Database.CreateWorkoutSession | database.py:174-193 | u's active sessions are deactivated and a new active one at index 0 is appended under the returned fresh id |
| Store.Database.GetActiveSession | database.py:195-212 | None exactly when u has no active session; otherwise the view of every active session of u |
| Store.Database.UpdateSessionExerciseIndex | database.py:214-223 | the index of the session with that id is set |
| Store.Database.CloseSession | database.py:225-234 | the session with that id becomes inactive |
| Handlers.AddExerciseLine | handlers.py:233-315 | an empty caption or a rejected line changes nothing; the terminator ends and forgets program and edit target; undo deletes the last exercise of the current program and lowers the count, not below 0, if one was removed; an accepted line updates the edit target and clears it, or is appended at `exercise_count`, which grows by one; without a program nothing is written |
| Handlers.HandleLine | handlers.py:245-315 | the same, for a message already classified |
| Handlers.UndoLast | handlers.py:259-270 | no store call without a current program; otherwise the delete, and the count lowered only if a row was removed |
| Handlers.StoreEntry | handlers.py:293-315 | an update of the edit target, which is then cleared, or an append at `exercise_count` with the count grown by one, or nothing without a program |
| Handlers.Max0 | handlers.py:266 | `max(0, n)` is a natural number, at least n, either 0 or n, and n itself when n is not negative |
| Handlers.DaySelected | handlers.py:108-138 | an existing program ends with nothing created; otherwise the program is created, its exercises cleared and the count set to 0 |
| Handlers.ProgramAction | handlers.py:141-199 | fewer than three parts writes nothing; a bad id raises; delete removes exercises and program; overwrite clears the exercises and, when the row is found, creates the day again and starts the builder on it; other actions write nothing |
| Handlers.ExerciseAction | handlers.py:202-230 | edit sets the target, delete removes the exercise, add starts the builder at the program's exercise count; a bad id raises |
| Handlers.StartAddFromMenu | handlers.py:504-522 | without a current program it ends; otherwise the count restarts at the number of stored exercises |
| Handlers.MenuBack | handlers.py:61-65 | the builder's four keys are removed and nothing else |
| Handlers.SetRest | handlers.py:70-79 | one rest write for the user: the int of the last `_` field whenever it reads (so n for a `set_rest_<n>` button), 60 otherwise |
| Handlers.WorkoutSelected | handlers.py:376-397 | a bad id or an empty program writes nothing; otherwise a session is opened, the cursor set to 0 and the first exercise shown |
| Handlers.ExerciseDone | handlers.py:462-487 | the cursor moves to i+1, persisted when there is a session id; at the end the session is closed with no rest; otherwise the rest is the stored setting or 60 |
| Handlers.SessionBack | handlers.py:490-501 | at 0 or below nothing happens; otherwise the cursor moves to i-1, which is persisted |
| Bot.DaySelected | bot.py:111-138 | the program for the day is replaced under a fresh id, the exercises under that id are deleted, and the builder starts on it at count 0 |
| Bot.AddExerciseLine | bot.py:141-201 | `تمام` clears everything and ends; a rejected line changes nothing; an accepted line is appended at `exercise_count`, which grows by one; without a current program it raises |
| Bot.TypedCommaLine | bot.py:141-181 | the typed line of an exercise with a trimmed, comma-free name is not `تمام` and is accepted as that exercise |
| Bot.StoreCommaEntry | bot.py:183-189 | the append under the current program at `exercise_count`, or the KeyError without one |
| Bot.WorkoutSelected | bot.py:275-303 | a bad id raises; an empty program changes nothing; otherwise a session is opened at 0 on the program's exercises in order, and the first is shown |
| Bot.StartSession | bot.py:284-303 | the same once the id has been read |
| Bot.OpenSession | bot.py:294-303 | the session opened under a fresh id, the four keys set, the first exercise shown |
| Bot.ExerciseDone | bot.py:351-386 | the cursor moves to i+1, persisted when the session id is truthy; at the end the session is closed and everything cleared with no rest; otherwise a 60-second rest |
| Bot.Advance | bot.py:358-366 | the cursor moves to i+1, persisted when the session id is truthy |
| Bot.ShowAndClose | bot.py:306-329 | show_current_exercise, with the finished session closed in the store |
| HandlerRuns.BuildProgram | handlers.py:108-315 | a day chosen and lines typed: the accepted lines are appended at positions 0, 1, 2, … with no gap for rejected lines, and the count is the number accepted |
| HandlerRuns.TypeLine | handlers.py:272-315 | one parse result typed into the builder: an accepted line is appended at the count, a rejected one writes nothing |
| HandlerRuns.BackThenDone | handlers.py:462-501 | back and then done returns the cursor to where it was, persisting both moves, after a rest |
| HandlerRuns.PlayThrough | handlers.py:376-487 | starting and pressing done on every exercise opens a session, persists 1, 2, …, n, closes the session, rests n-1 times and clears the state |
| BotRuns.ReselectDay | bot.py:111-141 | choosing a day, adding a line and choosing the day again leaves the first exercise orphaned and the day's program empty |
| BotRuns.FirstDay | bot.py:111-201 | a fresh store after a day and one typed line holds one program and one exercise |
| BotRuns.TypeLine | bot.py:141-189 | the typed line of an expressible exercise appends its row at the count, which grows by one |
| BotRuns.RowsListed | database.py:123-144 | the rows added under one program come back from get_exercises in the order they were typed |
| BotRuns.Build | bot.py:111-201 | a day chosen and the lines of expressible exercises typed: the rows are those exercises in order, at ids and positions counting up |
| BotRuns.Started | bot.py:275-303 | starting the program built shows the first line typed and opens session 1 at 0 |
| BotRuns.DoneAt | bot.py:351-386 | done mid-program rests and advances the persisted index; on the last exercise it completes and closes the session |
| BotRuns.PlayThrough | bot.py:275-386 | a program built and played to the end shows the first line first, rests n-1 times, completes, and leaves no active session |

## Left out

- The Telegram transport is not modelled. That covers replies, message edits, sent
  animations, inline keyboards, callback answers and every message text. A handler's
  reply is reflected only in the state it returns and the screen it shows.
- `main()` (bot.py:389-424) and the handler registration in both bots are not
  modelled. They are framework wiring. Whether `program_action` and `exercise_action`,
  which are declared to return None, have their returned state honoured depends on
  that registration; the model returns their state literally.
- `start`, `help_command`, `new_program`, `my_programs`, `start_workout`,
  `format_program_summary`, the other branches of `menu_callback`, and the display
  half of `show_current_exercise` are not modelled. They only build text and
  keyboards.
- `ui.py` is not part of this model beyond the seven weekday labels
  (`Conversation.WeekdayLabels`, ui.py:3-5), which are keyboard layout.
- The rest wait (`asyncio.sleep`) is not modelled. The rest is a returned length,
  with no timing and no concurrency between updates.
- Python's `int()` and `float()` are modelled only for optional sign, digits and one
  point. Not modelled: `inf`, `nan`, exponents, underscores, non-ASCII digits and
  whitespace inside a token.
- Numbers.ParseFloat: a weight is kept exactly as a decimal, not as an IEEE double,
  so rounding of long fractions is not modelled.
- `handlers.py` calls store methods that `database.py` lacks:
  - `get_program_by_user_day`, `delete_exercise_by_id`, `delete_last_exercise` and
    `update_exercise`;
  - `get_rest_seconds` and `set_rest_seconds`;
  - a seven-argument `add_exercise`;
  - SQL through `db.conn`.

  Their effects appear only as entries of the `Write` log, and their answers as
  parameters. The model states nothing about what they do to the tables.
- Store.Database.GetExercises: `get_exercises` orders by `order_index` only, and
  SQLite does not promise an order for rows with equal `order_index`. The model
  returns them in table (rowid) order; that is the model's choice, not a promise
  of the code.
- SQLite mechanics are not modelled: connections, commits, SQL text, timestamps, and
  the columns no query reads. `get_exercises` returns dictionaries without the
  program id; the model returns whole rows.
- `ON DELETE CASCADE` (database.py:52) is not modelled. Foreign keys are never
  switched on, so no delete cascades.
- Conversation.Scratch: a key that is absent and a key holding None are one state
  here, because every read in the modelled code goes through `.get`. This leaves out
  the TypeError that `None + 1` would raise in the rare case of a stored None count.
- Handlers.AddExerciseLine: the boolean that `update_exercise` returns is not
  modelled. It only selects the reply text.
- HandlerRuns.BuildProgram takes the parse result of each typed line, not the line
  itself. It relies on AddExerciseLine's contract for how a message turns into that
  result.
- Bot.AddExerciseLine accepts only `تمام` as the terminator, as `bot.py` does; `تمام.`
  is read as an exercise line there.
