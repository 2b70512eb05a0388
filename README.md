# Telegram broadcaster: a Dafny model of the dispatch loop

`client_win.py` is a small Tkinter tool that sends every row of a CSV file to
every Telegram group the account belongs to. This project models its core and
proves properties of it:

- **`get_all_groups`** is modelled as `Roster.GetAllGroups`. It walks the
  account's dialogs and keeps the entity of every group, in iteration order.
- **`send_messages`** is modelled as `Broadcast.SendMessages` and its loop
  methods. It loads the roster and logs its size, and stops at once when the
  roster is empty. Otherwise, for every CSV row in file order:
  - it strips the `message` and `image` cells and skips the row when the
    message is empty;
  - it sends the row to every group in roster order: a media send with the
    message as caption when the image path is non-empty and exists, a text
    send otherwise;
  - it handles each send's outcome: a success line, a flood wait (log line and
    sleep), or any other error (failure line);
  - after the row, it counts down `delay` one-second ticks.

  It logs a completion line at the end.
- **The guard of `TelegramApp.start`** is modelled as `Startup.Start`: the
  three entry fields must be non-empty after stripping and a CSV file must be
  selected before the settings are saved and the bot is run.

The loop's effects are an ordered trace of `Broadcast.Event`s: sends, sleeps
and structured log lines. Its inputs are made explicit:

- the dialogs, as a sequence of `Roster.Dialog`;
- the CSV rows, as maps from column name to cell, a missing cell reading as "";
- `os.path.exists`, as a predicate parameter `pathExists`;
- the client's answer to each send, as an outcome oracle
  `outcome: nat -> Outcome` indexed by the send's ordinal in the run.

The methods build the trace step by step. Their loop invariants tie it to the
reference functions `Broadcast.Run`, `RowsTrace`, `GroupsTrace` and `Ticks`.
The lemmas of `BroadcastProperties` are proved about those functions.

After a flood wait the loop does not re-send. Lines 62-64 of
`client_win.py` log the wait, sleep and fall through to the next group, so
the group that was told to wait never gets that row. `FloodWaitMovesOn` and
`SendCountOfRun` state this: exactly one send per (non-blank row, group)
pair.

Positions in the run are stated with `BroadcastProperties.OccursAfter(x, t, k)`:
the trace `t` is `before + x + after`, where `before` holds exactly `k`
sends. When `x` starts with a send, `SendAtOrdinal` shows that this send is
send number `k` of the run. So the attempt for the i-th non-blank row and
group j is pinned to send number `i * |groups| + j` even when rows or groups
repeat.

Files:

- `text.dfy`: Python's `str.strip()`.
- `roster.dfy`: `get_all_groups`.
- `broadcast.dfy`: `send_messages` and its reference trace.
- `properties.dfy`: the properties of a run.
- `startup.dfy`: the start guard.

## Model

| member | source | states |
|---|---|---|
| Text.IsSpace | client_win.py:48-49 | the characters `str.strip()` removes, those `str.isspace()` accepts: TAB..CR, FS..SPACE, NEL, NO-BREAK SPACE and the Unicode space separators; `StripSpec` states what stripping them keeps |
| Text.StripSpec | client_win.py:48-49 | `strip()` removes whitespace at both ends only. The result is an infix of the input that neither starts nor ends with whitespace, everything cut off is whitespace, and the result is empty exactly when the input is all whitespace |
| Text.StripStartSpec | client_win.py:48-49 | removing leading whitespace leaves the suffix that starts at the first non-space character; all that was cut is whitespace |
| Text.StripEndSpec | client_win.py:48-49 | removing trailing whitespace leaves the prefix that ends at the last non-space character; all that was cut is whitespace |
| Text.StripStart | client_win.py:48-49 | the leading half of `strip()`, dropping `isspace` characters from the front; its contract is `StripStartSpec` |
| Text.StripEnd | client_win.py:48-49 | the trailing half of `strip()`, dropping `isspace` characters from the back; its contract is `StripEndSpec` |
| Text.Strip | client_win.py:48-49 | `str.strip()` with no argument; its contract is `StripSpec`, and stripping twice is `StripIdempotent` |
| Text.StripIdempotent | client_win.py:125-127 | stripping an already stripped field changes nothing |
| Roster.Groups | client_win.py:30-36 | the roster is never longer than the dialog list |
| Roster.GroupPositions | client_win.py:33-35 | the positions of the group dialogs: each points at a group dialog, they strictly increase, and every group dialog is listed |
| Roster.GroupsAreSelection | client_win.py:30-36 | the roster's k-th entity is the entity of the k-th group dialog: exactly the groups, in iteration order, none added, dropped, duplicated or reordered |
| Roster.GroupsAppend | client_win.py:33-35 | the roster of a concatenation of dialog lists is the concatenation of their rosters |
| Roster.GetAllGroups | client_win.py:30-36 | the appending loop returns exactly the roster `Groups(dialogs)` |
| Broadcast.Field | client_win.py:48-49 | `row.get(key, "")`: the cell, or "" when the column is missing; with `Prepare`, `BlankIffWhitespace` and `TextSendWithoutImage` state what an absent cell leads to |
| Broadcast.Prepare | client_win.py:48-49 | the stripped message and image path of one row; `BlankIffWhitespace` states when the result is blank and `TextSendWithoutImage` when its image is not sent |
| Broadcast.IsBlank | client_win.py:51-52 | the skip test on a stripped row; `BlankIffWhitespace` states it holds exactly when the message cell is missing, empty or whitespace |
| Broadcast.Prepared | client_win.py:47-49 | one stripped row per CSV row |
| Broadcast.BlankIffWhitespace | client_win.py:48-52 | a row is skipped exactly when its message cell is missing, empty or whitespace only |
| Broadcast.NonBlank | client_win.py:51-52 | the rows that are not skipped are all non-blank and no more than the rows |
| Broadcast.Request | client_win.py:56-61 | the media-or-text decision: `PlannedSend` states that send `i * groups + j` is a media send exactly when the stripped path is non-empty and exists, and `TextSendWithoutImage` that a blank cell or missing file gives a text send |
| Broadcast.SendCount | client_win.py:47-61 | the number of sends a run of rows has issued, the oracle ordinal of the next send; `SendCountIsProduct` states it is non-blank rows times groups |
| Broadcast.Attempt | client_win.py:55-66 | one pass through the `try` block: `SendsOfAttempt` states it issues exactly one send, `FailuresOfAttempt` that it logs one failure line exactly for a `Fail` answer, and `FloodWaitInRowBlock` what a flood wait adds |
| Broadcast.GroupsTrace | client_win.py:54-66 | the inner loop's events; `SendToGroups` is proved to produce them, `SendsOfGroupsTrace` gives their sends and `PairInRowBlock`/`LastInRowBlock` their order |
| Broadcast.Ticks | client_win.py:69-73 | the countdown's events; `CountDown` is proved to produce them and `TicksCountDown` gives their closed form |
| Broadcast.RowTrace | client_win.py:50-73 | one row's events; `SendRow` is proved to produce them and `BlankRowsLeaveNoTrace` states that a blank row has none |
| Broadcast.RowsTrace | client_win.py:47-73 | the row loop's events; `SendRows` is proved to produce them, and `SendsOfRowsTrace`, `FailuresOfRowsTrace` and `RowBlockInRows` state their sends, failure lines and blocks |
| Broadcast.Run | client_win.py:38-75 | the whole run; `SendMessages` is proved to produce it, and the `BroadcastProperties` lemmas state its early return, completion line, sends, failure lines and positions |
| Broadcast.RowsTraceStep | client_win.py:47-73 | one more row appends that row's events, numbered from the send counter, and advances the counter by the roster size exactly when the row is not blank |
| Broadcast.GroupsTraceStep | client_win.py:54-66 | one more group appends that group's attempt, answered by the oracle at the next ordinal |
| Broadcast.SendToGroups | client_win.py:54-66 | the inner loop for one row produces `GroupsTrace`: per group, in roster order, the media or text send and then the handling of that send's outcome |
| Broadcast.CountDown | client_win.py:69-73 | the countdown loop produces `Ticks(delay)` and nothing when `delay <= 0` |
| Broadcast.SendRow | client_win.py:50-73 | one row's loop body: nothing when its stripped message is empty, otherwise its sends then its countdown |
| Broadcast.SendRows | client_win.py:45-73 | the row loop produces `RowsTrace` over the stripped rows, the oracle's index advancing by one per send |
| Broadcast.SendMessages | client_win.py:38-75 | the whole run produces `Run` for the roster `Groups(dialogs)` and the stripped rows |
| BroadcastProperties.EmptyRosterStopsEarly | client_win.py:40-43 | with no group the run is the count line "0 groups" then the warning, whatever the rows, delay and outcomes |
| BroadcastProperties.CompletionLineOnceAtEnd | client_win.py:40-75 | with a group the run starts with the group count and ends with the completion line, which occurs nowhere earlier |
| BroadcastProperties.GroupsTraceLines | client_win.py:54-66 | a row's sends never log the completion line, and log no failure line when none of the row's own ordinals is answered with an error |
| BroadcastProperties.RowsTraceLines | client_win.py:47-73 | the row loop never logs the completion line, and logs no failure line when none of its sends is answered with an error |
| BroadcastProperties.NoFailureWithoutError | client_win.py:56-66 | when the client answers none of the run's sends with an error other than a flood wait, whatever it would answer beyond them, the run has no failure line; a missing image never fails on its own |
| BroadcastProperties.FailuresOfAttempt | client_win.py:55-66 | one attempt logs exactly one failure line, naming the group and the error, when the answer is an error other than a flood wait, and none otherwise |
| BroadcastProperties.FailuresOfGroupsTrace | client_win.py:54-66 | a row's failure lines are `GroupFailures`: one per group answered with an error at its own ordinal, in roster order |
| BroadcastProperties.FailuresOfRowsTrace | client_win.py:47-66 | the row loop's failure lines are `PlannedFailures`: each non-blank row's `GroupFailures`, in file order, at the ordinals the send counter gives |
| BroadcastProperties.RunFailures | client_win.py:40-66 | the run's failure lines are exactly one per (non-blank row, group) send answered with an error, naming that group and error, in send order, and none without a group |
| BroadcastProperties.TicksCountDown | client_win.py:69-73 | the countdown has `2 * delay` events for `delay > 0`, and none otherwise: each tick a line for `delay, delay - 1, ..., 1` and then a one-second sleep |
| BroadcastProperties.TicksHaveNoLines | client_win.py:69-73 | the countdown holds only countdown lines and one-second sleeps |
| BroadcastProperties.NonBlankAppend | client_win.py:47-52 | the skip rule works row by row: the kept rows of a concatenation are the concatenation of the kept rows |
| BroadcastProperties.NonBlankKeepsNonBlank | client_win.py:51-52 | rows that are all non-blank are all kept |
| BroadcastProperties.RowsTraceOfNonBlank | client_win.py:47-73 | the row loop over all rows produces what it produces over the non-blank rows alone, with the same number of sends |
| BroadcastProperties.BlankRowsLeaveNoTrace | client_win.py:48-73 | a run equals the run over the non-blank rows: a skipped row issues no send, no log line and no countdown |
| BroadcastProperties.PreparedInsert | client_win.py:47-49 | rows are stripped one at a time, independently of their neighbours |
| BroadcastProperties.NonBlankSkips | client_win.py:51-52 | a blank row anywhere is dropped from the kept rows |
| BroadcastProperties.BlankRowAnywhere | client_win.py:48-52 | inserting a row whose message cell is missing, empty or whitespace anywhere into the file leaves the run unchanged |
| BroadcastProperties.SendsOfAttempt | client_win.py:55-66 | each try block issues exactly one send, whatever its outcome |
| BroadcastProperties.SendsOfGroupsTrace | client_win.py:54-61 | a row's sends are one per group, in roster order, each the media-or-text send for that group |
| BroadcastProperties.SendsOfRowsTrace | client_win.py:47-61 | the sends of the row loop are the planned ones: for each non-blank row in file order, one per group in roster order |
| BroadcastProperties.RunSends | client_win.py:41-61 | the sends of a run are none when the roster is empty, otherwise the planned ones, whatever the client answers |
| BroadcastProperties.PlannedSend | client_win.py:54-61 | the plan has `non-blank rows * groups` sends, and send `i * groups + j` goes to group j with row i: a media send captioned with the stripped message when the stripped path is non-empty and exists, a text send of that message otherwise |
| BroadcastProperties.PlannedCount | client_win.py:47-61 | the plan has as many sends as the loop's send counter reaches |
| BroadcastProperties.PlannedLength | client_win.py:47-54 | the plan has one send per (non-blank row, group) pair |
| BroadcastProperties.SendCountOfRun | client_win.py:47-66 | a run issues exactly `non-blank rows * groups` sends: no retry, no skipped group |
| BroadcastProperties.SendsIgnoreOutcomes | client_win.py:62-66 | which sends happen, and in which order, depends neither on the client's answers nor on the delay |
| BroadcastProperties.TextSendWithoutImage | client_win.py:49-60 | a missing or whitespace-only image cell, or a path that does not exist, gives a text send of the stripped message |
| BroadcastProperties.SendCountIsProduct | client_win.py:47-54 | the send counter after some rows is their number of non-blank rows times the number of groups |
| BroadcastProperties.RowOrdinalIsProduct | client_win.py:47-54 | the ordinal of a row's first send is its index among non-blank rows times the number of groups |
| BroadcastProperties.SendCountOfNonBlank | client_win.py:47-54 | over non-blank rows the send counter after `k` rows is the ordinal of row `k` |
| BroadcastProperties.GroupsTracePrefix | client_win.py:54 | the events of the first k groups of a row are a prefix of the row's events |
| BroadcastProperties.RowsTracePrefix | client_win.py:47 | the events of the first k rows are a prefix of the row loop's events |
| BroadcastProperties.RowsTraceInRun | client_win.py:40-75 | with a group the run is exactly the count line, the row loop's events and the completion line, so the row loop starts after none of the run's sends |
| BroadcastProperties.GroupsTraceHead | client_win.py:54-66 | the events of a row's first k groups open its events and hold its first k sends |
| BroadcastProperties.RowsTraceHead | client_win.py:47-73 | the events of the first k rows open the row loop's events and hold as many sends as the counter reaches after them |
| BroadcastProperties.KeptRowBlock | client_win.py:47-73 | over non-blank rows, row i appends its sends and countdown, numbered from `i * groups`, to earlier events holding exactly `i * groups` sends |
| BroadcastProperties.GroupsTracePair | client_win.py:54-66 | the events of the first j + 2 groups end with the attempts for groups j and j + 1 |
| BroadcastProperties.RowBlockInRows | client_win.py:47-73 | the i-th non-blank row's sends then countdown form one contiguous block of the row loop, right after its first `i * groups` sends, its first send having ordinal `i * groups` |
| BroadcastProperties.RowBlockInRun | client_win.py:38-75 | that block is a contiguous part of the run, right after the run's first `i * groups` sends |
| BroadcastProperties.InRowBlockInRun | client_win.py:38-75 | whatever follows k sends of row i's block follows `i * groups + k` sends of the run |
| BroadcastProperties.PairInRowBlock | client_win.py:54-66 | the attempt for group j + 1 directly follows the attempt for group j, itself right after the row's first j sends, whatever the first outcome |
| BroadcastProperties.LastInRowBlock | client_win.py:54-73 | the attempt for a row's last group comes after the other groups' sends and is directly followed by the row's countdown |
| BroadcastProperties.AttemptInRowBlock | client_win.py:54-66 | group j's attempt appears whole right after the row's first j sends |
| BroadcastProperties.FloodWaitInRowBlock | client_win.py:62-64 | a flood wait of n on group j: its send (the row's j-th) is followed by one wait line for n, one sleep of n and then the send to group j + 1 |
| BroadcastProperties.FailureInRowBlock | client_win.py:65-66 | a failure on group j: its send (the row's j-th) is followed by one failure line naming the group and the error and then the send to group j + 1 |
| BroadcastProperties.FloodWaitMovesOn | client_win.py:62-64 | in the run, a flood wait of n on send number `i * groups + j` is followed by exactly its wait line and sleep and then the send to the next group: no re-send |
| BroadcastProperties.FailureMovesOn | client_win.py:65-66 | in the run, a failure of send number `i * groups + j` is reported once, naming group and error, and the next group of the row is still sent to |
| BroadcastProperties.AttemptInRun | client_win.py:54-66 | the attempt of non-blank row i and group j stands in the run as send number `i * groups + j` followed by the handling of the oracle's answer for that ordinal |
| Startup.Start | client_win.py:124-135 | the guard launches exactly when the three stripped fields are non-empty and a CSV file is selected, and otherwise shows the fixed error text. A launch carries the stripped values and saves the configuration with the four keys set and every other key unchanged |
| Startup.RestartIsStable | client_win.py:92-135 | starting again with the saved values, as the next start-up fills them in, and the same CSV file gives the same launch and the same saved configuration |

## Left out

- The Tkinter GUI is presentation only and not modelled. That covers the window, the entry widgets, `select_csv`, the code dialog `simple_input_dialog` and the widget calls of `log_event`. The log box is an append-only sequence of structured lines, without their emoji and fixed wording.
- The countdown's line replacement is not modelled. `log_box.delete("end-2l", tk.END)` (client_win.py:71) deletes the last line before appending each countdown line. On the first tick of a row this removes the row's last status line from the widget. Only the appended lines are in the trace.
- `load_config` and `save_config` (client_win.py:18-26) are JSON file I/O. `Startup.Start` returns the configuration that would be saved.
- The Telethon client and the login flow are foreign network calls, outside the model. That covers `TelegramClient`, `connect`, `is_user_authorized`, `send_code_request`, `sign_in` and `disconnect` (client_win.py:139-149). The client's answers to sends come from the outcome oracle.
- `run_bot` is left out as login plumbing. Its call of `send_messages` is `Broadcast.SendMessages` with the arguments of a `Startup.Start` launch.
- `csv.DictReader` parsing (client_win.py:46) is left out, and so is opening the file (client_win.py:45), which can fail. Rows arrive as maps. A short row, whose missing cells DictReader fills with `None`, would make `.strip()` raise. The model reads every missing cell as "" instead.
- `os.path.exists` is a fixed predicate. The filesystem is assumed not to change during a run.
- `int(...)` on the delay field (client_win.py:128) raises on non-numeric text. It runs before the guard and is left out: `Startup.Start` takes the delay already parsed. So `Startup.RestartIsStable` does not cover the `str`/`int` round trip of the delay.
- `Startup.Start`: the CSV selection is a string, "" meaning nothing selected. `None` and a cancelled dialog's "" are both falsy in the source, so the guard treats them alike.
- Sleeps are trace events, not time. asyncio scheduling is not modelled because the loop has no concurrency.
- `markdown` parse mode is not modelled, because it only affects Telegram's rendering.

Every position lemma in `BroadcastProperties` states the ordinal of a row's first send as `RowOrdinal(i, |groups|)`. `RowOrdinalIsProduct` proves it equals `i * |groups|`. The product itself is kept out of those statements so the proofs stay linear.
