# Minecraft server bot: verified model of its decision logic

This project is a Dafny model of the decision logic in a Telegram bot that
starts, stops and watches a Minecraft server run by docker compose. The model
covers four parts of the bot:

- **The server manager** (`MinecraftServerManager`, minecraft.py).
  - It keeps a registry of event listeners.
  - Each monitor cycle classifies the containers' health, inside a grace
    window. It detects running/stopped edges, which open and close uptime
    sessions, and health edges, which send `health_unhealthy` and `health_ok`.
  - `start_server` runs a chain of guards and then a watcher. Each watcher
    poll confirms the start, defers it, fails it or times out.
  - `stop_server` closes the open session.
  - The manager keeps a statistics file with starts per day, a sessions file
    holding the last 100 sessions, and an uptime log of
    `timestamp - EVENT - reason` lines.
  - `server_status` folds the containers into one status, and the result
    depends on their order.
  - `escape_minecraft_command_returns` strips ANSI escape sequences.
- **The history repair script** (scripts/repair_history.py). It parses the
  uptime log back into records and replays them. The replay is a left fold
  that rebuilds the sessions and statistics.
- **The access lists** (access.py).
  - It loads and saves the authorised users and group chats.
    Normalisation yields duplicate-free ids in first-occurrence order.
  - It plans a broadcast: the admin first, each id once, and every attempt
    ends up either sent or failed.
  - It adds a group chat, from a direct call or from the command handler.
- **The bot** (bot.py).
  - `_manager_event_handler` is a two-flag state machine. It suppresses
    repeated "healthy" and "stopped" broadcasts.
  - The three authorisation decorators become allow/deny predicates.
  - The `/add_user` and `/remove_user` commands edit the user list.

Modules, one per file:

- `Wrappers`: `Option` and `NoDup`.
- `Text`: Python string operations.
  - `strip` with Python's whitespace set.
  - `split(" - ")`, `split(maxsplit=1)`, `lower()`.
  - `str(int)` and `int(str)`.
- `Ansi`: the escape-sequence scanner.
- `UptimeLog`: the log line format, sessions, the statistics record, and the
  last-100 cut.
- `Health`: container snapshots, the consolidated health, and the
  `server_status` fold.
- `ManagerLogic`: the manager's decision steps as pure functions over a
  `ManagerState` record.
  - The record holds `last_known_status`, `current_session_start`,
    `start_pending` and `start_requested_at`.
  - Each step returns the new state and the list of effects it performs, in
    order: log lines, statistics updates, session records and event
    dispatches.
- `Manager`: the class `MinecraftServerManager`.
  - Its fields are the state and the files.
  - Its methods do what the steps compute, and the steps' effects are
    applied to the files.
- `RepairHistory`: `parse_log_line`, the start/stop classification, the
  replay fold and the loop of `repair_from_log`.
- `Access`: JSON entries, normalisation, broadcast planning and the class
  `AccessStore`, which holds the two list files, the bot flag and the admin
  id.
- `Bot`: the class `EventRelay`, the authorisation predicates and the user
  list edits.

Modelling choices:

- Timestamps are integer seconds.
- The log's ISO 8601 timestamp text is modelled as the decimal text of that
  integer.
- A local calendar day is `Day(t) = t / 86400`.
- Everything outside the process is a parameter:
  - the uptime log, stats and session files found at start-up;
  - the container list;
  - whether a docker command succeeded;
  - the readiness probe;
  - the current time;
  - whether a send or a file write succeeds.
- Each monitor cycle and each watcher poll is one atomic step.

## Model

| member | source | states |
|---|---|---|
| Ansi.MatchLengthSound | minecraft.py:15-28 | When the scanner matches at the head of a string, the matched prefix is an ECMA-48 escape sequence: ESC followed by an Fe byte (section 5.3 of ECMA-48), or a CSI control sequence (section 5.4) of parameter bytes, then intermediate bytes, then a final byte |
| Ansi.MatchLengthComplete | minecraft.py:15-28 | Every escape sequence at the head of a string is matched in full, whatever follows it |
| Ansi.StripEscapes | minecraft.py:14-30 | Stripping never lengthens the text |
| Ansi.StripRemovesOnly | minecraft.py:14-30 | Stripping only removes characters: the result is a sub-multiset of the input |
| Ansi.StripDropsSequence | minecraft.py:29 | A leading escape sequence is removed entirely |
| Ansi.StripKeepsPlain | minecraft.py:29 | A character other than ESC is kept in place |
| Ansi.StripPlainText | minecraft.py:14-30 | Text without ESC comes back unchanged |
| Ansi.StripRendered | minecraft.py:14-30 | For any interleaving of visible characters and well-formed escape sequences, stripping yields exactly the visible characters |
| Ansi.StripPlainPrefix | minecraft.py:29 | A prefix without ESC survives and stripping continues on the rest |
| Ansi.StripColouredReply | minecraft.py:14-30 | A reply wrapped in a green colour code and a reset strips to its text |
| Ansi.StripWrapped | minecraft.py:14-30 | Any text between two escape sequences strips to that text |
| UptimeLog.TimestampRoundTrip | scripts/repair_history.py:31 | The timestamp text the manager writes reads back as the same timestamp |
| UptimeLog.LineFields | minecraft.py:202-205 | A log line has two fields, or three when the reason is non-empty |
| UptimeLog.FormatLineIsJoin | minecraft.py:202-205 | A log line is its fields joined by " - " |
| UptimeLog.Tail | minecraft.py:247 | The last n elements: exactly n, or all if fewer, and they are a suffix of the list |
| UptimeLog.TailOfAppend | minecraft.py:243-273 | Loading the cut list, appending and cutting again equals cutting the whole history |
| UptimeLog.SavedAfterIsLast | minecraft.py:251-273 | After any series of logged sessions the file holds the last 100 sessions ever logged, in order |
| UptimeLog.LastSessionsIdempotent | minecraft.py:247 | Cutting to the last 100 twice is cutting once |
| UptimeLog.StatsAfter | minecraft.py:870-887 | A start adds one to the total and to today's count and sets the last start. A stop sets only the last stop and creates today's count as 0 if absent. Other days are untouched |
| UptimeLog.StatsAfterConsistent | minecraft.py:870-887 | The total equals the sum of the per-day counts before and after an update |
| UptimeLog.MapSumUpdate | minecraft.py:876-881 | Overwriting one day's count changes the sum of the per-day counts by the difference |
| UptimeLog.RecentLines | minecraft.py:951 | The last n lines (all of them when n is 0 or negative, or exceeds the count), as a suffix of the file |
| UptimeLog.UptimeLogTail | minecraft.py:939-955 | A missing log yields no lines. Otherwise the result is the stripped last lines of the file |
| UptimeLog.StripAll | minecraft.py:954 | Each returned line is the corresponding line stripped |
| Health.ConsolidateIsWorst | minecraft.py:305-318 | The consolidated health is the worst per-container health (unhealthy > starting > running > stopped) |
| Health.ConsolidateAppend | minecraft.py:309-318 | Consolidating two groups of containers is the worse of the two results |
| Health.ConsolidateOrderFree | minecraft.py:309-318 | The consolidated health does not depend on container order |
| Health.Worse | minecraft.py:309-318 | The worse of two values is one of them and at least as severe as both |
| Health.StatusStoppedIff | minecraft.py:757-820 | server_status reports stopped exactly when no line is a starting or running container |
| Health.StatusUnhealthyIff | minecraft.py:774-818 | It reports unhealthy exactly when some running, unhealthy, not-starting line is followed by no starting or running line |
| Health.StatusStartingIff | minecraft.py:774-816 | It reports starting exactly when some starting line is followed only by healthy running lines among the lines it acts on |
| Health.ServerStatus | minecraft.py:743-836 | A docker failure is the error result. Otherwise the result is the fold over the parsed lines, with the parsed containers |
| Health.StatusFoldSnoc | minecraft.py:757-820 | Reading one more line applies one more status step |
| Health.StatusOrderMatters | minecraft.py:774-818 | The same two containers in opposite order give unhealthy and starting, while the consolidated health is unhealthy both ways |
| Health.ConsolidatePair | minecraft.py:309-313 | One unhealthy container makes a pair unhealthy in either order |
| Health.Parsed | minecraft.py:757-770 | Unparsable lines are dropped, never added |
| ManagerLogic.KindNameInjective | minecraft.py:120-131 | Distinct event kinds carry distinct names |
| ManagerLogic.RegisteredNoDup | minecraft.py:106-112 | The registry stays duplicate-free. Registering twice equals registering once. A callable listener is present afterwards |
| ManagerLogic.UnregisterUndoesRegister | minecraft.py:106-118 | Unregistering a freshly registered listener restores the registry |
| ManagerLogic.UnregisteredNoDup | minecraft.py:114-118 | After unregistering, the listener is absent and the registry stays duplicate-free |
| ManagerLogic.RemoveFirstSplits | minecraft.py:117 | list.remove drops exactly the first occurrence |
| ManagerLogic.RemoveFirstMultiset | minecraft.py:117 | list.remove takes one copy of the element out and keeps everything else |
| ManagerLogic.RemoveFirstNoDup | minecraft.py:117 | Removing from a duplicate-free list leaves it duplicate-free and without the element |
| ManagerLogic.RemoveFirstOfAppend | minecraft.py:110-117 | Removing the listener just appended restores the list |
| ManagerLogic.MonitorHealthEvents | minecraft.py:378-409 | A cycle sends health_unhealthy exactly when the effective health becomes unhealthy and was not before. It sends health_ok exactly when the effective health becomes running and was not before |
| ManagerLogic.GraceWindowSilent | minecraft.py:323-335 | Inside the grace window an unhealthy reading counts as starting and sends nothing. unhealthy_since is set on the first unhealthy cycle and kept after it |
| ManagerLogic.NoRunEdge | minecraft.py:337-375 | Without a known, different previous status the session is untouched and nothing is counted or recorded |
| ManagerLogic.ToRunningEdge | minecraft.py:343-356 | Going to running opens a session only if none is open. It always logs SERVER_START, counts a start and dispatches server_start |
| ManagerLogic.ToStoppedEdge | minecraft.py:357-375 | Going to stopped records the open session, if any, and clears it. It counts a stop and dispatches server_stop |
| ManagerLogic.UnhealthyReportedOnce | minecraft.py:323-409 | However many cycles an unhealthy period lasts, health_unhealthy is sent at most once, and not at all if the period was already reported |
| ManagerLogic.UnhealthyStepCount | minecraft.py:323-409 | One unhealthy cycle keeps the reporting invariant and sends health_unhealthy only on the cycle the period first becomes reported |
| ManagerLogic.UnhealthySinceIsFirst | minecraft.py:323-328 | Through an unhealthy period, unhealthy_since is the time of its first cycle |
| ManagerLogic.KeepsSince | minecraft.py:324-328 | A set unhealthy_since is kept while the containers stay unhealthy |
| ManagerLogic.StartGuards | minecraft.py:425-475 | A pending start returns pending. A running container or open session returns running. A failed command returns error. Each of these changes nothing. Success sets start_pending and start_requested_at, arms the watcher deadlines and dispatches server_start |
| ManagerLogic.WatcherConfirmIff | minecraft.py:524-569 | A poll confirms exactly when, in that same poll, the start is pending, the deadline has not passed, a container runs, none is unhealthy, no state says starting, at least 5 s have passed since the request and the server is ready |
| ManagerLogic.WatcherPending | minecraft.py:498-635 | Every terminal outcome clears start_pending and has effects. A deferring poll changes nothing. The loop stops exactly when no start is pending |
| ManagerLogic.WatcherFailures | minecraft.py:585-633 | Exited/dead fails only when nothing runs. No-containers fails only after the 10 s early window. The timeout happens exactly when the deadline passes with the start pending |
| ManagerLogic.DuplicateKeepsSession | minecraft.py:570-581 | A confirmation with a session already open leaves the session and the statistics untouched |
| ManagerLogic.AfterTerminalFinished | minecraft.py:498 | After a terminal poll the watcher loop does not run again |
| ManagerLogic.HealthStartingDoesNotDefer | minecraft.py:526-531 | Any running container whose health says starting, that is not unhealthy and whose state does not say starting, is consolidated as starting by the monitor, yet the watcher confirms it |
| ManagerLogic.RunningWithHealthStarting | minecraft.py:526-531 | A container in state running with health starting meets those conditions |
| ManagerLogic.StopSession | minecraft.py:647-700 | A successful stop records the open session with manual_start/manual_stop, clears it and counts a stop. A failed stop changes nothing |
| ManagerLogic.ConfirmThenEdgeCountsTwice | minecraft.py:343-349 | A watcher confirmation followed by the monitor's to-running edge counts two starts for one session, with one server_start and one manual_start_confirmed dispatch |
| Manager.Deliveries | minecraft.py:120-131 | An event is delivered to every registered listener, in registration order |
| Manager.ApplyAllAppend | minecraft.py:200-273 | Applying two effect lists in turn is applying their concatenation |
| Manager.ApplyAllValid | minecraft.py:243-249 | Whatever the manager does, the sessions file holds at most 100 sessions and the statistics stay consistent |
| Manager.MinecraftServerManager.constructor | minecraft.py:42-84 | A new manager has no listeners, no session, no pending start and no known status, and finds the log, stats and session files as they already are on disk |
| Manager.MinecraftServerManager.Register | minecraft.py:106-112 | The registry becomes Registered(old, cb) |
| Manager.MinecraftServerManager.Unregister | minecraft.py:114-118 | The registry becomes Unregistered(old, cb) |
| Manager.MinecraftServerManager.DispatchEvent | minecraft.py:120-131 | Every listener receives the event, in order |
| Manager.MinecraftServerManager.LogEvent | minecraft.py:200-211 | One record is appended to the log |
| Manager.MinecraftServerManager.UpdateStats | minecraft.py:870-887 | The statistics become StatsAfter of the old ones |
| Manager.MinecraftServerManager.LogSession | minecraft.py:251-273 | The sessions file becomes the last 100 of the old sessions plus the new one |
| Manager.MinecraftServerManager.TakeRunEdge | minecraft.py:337-375 | The state and files change as RunEdge says |
| Manager.MinecraftServerManager.NotifyHealth | minecraft.py:378-407 | The log and deliveries change as HealthEdge says |
| Manager.MinecraftServerManager.MonitorCycle | minecraft.py:294-416 | One loop body: the state, the loop-carried locals and the files become those of MonitorStep |
| Manager.MinecraftServerManager.StartServer | minecraft.py:419-475 | The result, the watcher and the new state are those of StartStep |
| Manager.MinecraftServerManager.FailStart | minecraft.py:585-633 | A failure clears start_pending, logs START_FAILED and dispatches manual_start_failed |
| Manager.MinecraftServerManager.ConfirmStart | minecraft.py:552-581 | Without an open session, it opens one, logs, counts a start and dispatches. With one open, it only logs and dispatches the duplicate |
| Manager.MinecraftServerManager.WatcherPoll | minecraft.py:498-635 | One poll: the outcome, the watcher and the new state are those of WatcherStep |
| Manager.MinecraftServerManager.CloseSession | minecraft.py:666-677 | The open session, if any, is recorded and cleared |
| Manager.MinecraftServerManager.StopServer | minecraft.py:647-700 | The result and new state are those of StopStep |
| RepairHistory.ParseLogLine | scripts/repair_history.py:25-36 | A parsed line had at least two " - " fields |
| RepairHistory.ParseJoined | scripts/repair_history.py:25-36 | Fields joined by " - " parse to the first three, when the timestamp parses, with reason "" when only two are present |
| RepairHistory.ParseFormatRoundTrip | scripts/repair_history.py:25-36 | A line written by the manager, with a non-empty event and an event and reason free of whitespace, parses back to the same timestamp, event and reason. Being free of the separator is not enough: an event such as "a -" is split again at the boundary and loses its trailing space |
| RepairHistory.ManagerLinesRoundTrip | minecraft.py:202-205 | The round trip holds for every event and reason the manager writes |
| RepairHistory.ExtraFieldsIgnored | scripts/repair_history.py:34-35 | Fields beyond the third are ignored |
| RepairHistory.NoSeparatorSkipped | scripts/repair_history.py:27-29 | A line without " - " is skipped |
| RepairHistory.DuplicateIsNotStart | scripts/repair_history.py:12-22 | A manual_start_ignored_duplicate line is never a start event |
| RepairHistory.DuplicateLineIgnored | scripts/repair_history.py:84-98 | The watcher's duplicate line leaves the replay unchanged |
| RepairHistory.ParseAll | scripts/repair_history.py:77-79 | Every line is parsed, one result per line |
| RepairHistory.ParseAllAppend | scripts/repair_history.py:77-79 | Parsing two files concatenated is parsing each |
| RepairHistory.ParseLine | scripts/repair_history.py:78-80 | The loop parses line i as ParseAll does |
| RepairHistory.RepairFromLog | scripts/repair_history.py:53-148 | A missing log is exit status 1. A failed write is exit status 2. Otherwise the output is the replay of the lines: the last 100 sessions, the statistics and the three anomaly counters |
| RepairHistory.ReplayRecordConsistent | scripts/repair_history.py:88-123 | One record keeps the invariant: total starts = sum of daily starts = closed sessions + 1 if a session is open, every session ends no earlier than it starts, and the open start is the last start |
| RepairHistory.ReplayLinesConsistent | scripts/repair_history.py:77-133 | The invariant holds after any log |
| RepairHistory.ReplayAllConsistent | scripts/repair_history.py:77-123 | The invariant holds after any list of parsed records |
| RepairHistory.SessionsAppendOnly | scripts/repair_history.py:107-120 | Sessions are only ever appended: more lines extend the list |
| RepairHistory.ReplayAllAppendOnly | scripts/repair_history.py:77-123 | Replaying more records extends the session list |
| RepairHistory.StopSetsLastStop | scripts/repair_history.py:101-102 | Every valid stop sets the last stop, in every case |
| RepairHistory.StopClosesSession | scripts/repair_history.py:107-120 | An in-order stop closes the open session with its start and the stop's time and reason |
| RepairHistory.StartOpensSession | scripts/repair_history.py:88-95 | A valid start with no open session opens one and counts a start, in the total and on its day |
| RepairHistory.StartWhileOpenIgnored | scripts/repair_history.py:96-98 | A valid start while a session is open only increments duplicates_ignored |
| RepairHistory.OutOfOrderStopKeepsSession | scripts/repair_history.py:103-106 | A stop before the open start keeps the session open and increments out_of_order_stops_skipped |
| RepairHistory.StopWithoutSession | scripts/repair_history.py:121-122 | A stop with no open session increments stops_without_session |
| RepairHistory.OtherEventsIgnored | scripts/repair_history.py:81-123 | Lines that are neither valid starts nor valid stops change nothing |
| RepairHistory.ManagerNamesNoSpace | minecraft.py:202-205 | The manager's event and reason names contain no whitespace, so they survive strip and split |
| RepairHistory.ConfirmedStartThenStop | scripts/repair_history.py:77-133 | The manager's log of a confirmed start and a manual stop replays to one session and one start |
| RepairHistory.ConfirmedThenAutoDetectedCountsOnce | scripts/repair_history.py:85-98 | A confirmed start followed by the monitor's auto-detected start replays to one start and one ignored duplicate |
| Access.LStripChar | access.py:153 | lstrip("-") drops exactly the leading minus signs |
| Access.Converted | access.py:86-103 | Conversion never yields more ids than entries |
| Access.ConvertedMembers | access.py:86-103 | An id is converted exactly when some entry converts to it |
| Access.Dedup | access.py:97-99 | De-duplication never lengthens the list |
| Access.DedupMembers | access.py:97-99 | De-duplication keeps exactly the same ids |
| Access.DedupNoDup | access.py:97-99 | The result is duplicate-free |
| Access.DedupOfNoDup | access.py:97-99 | A duplicate-free list is unchanged |
| Access.DedupFirstOrder | access.py:97-99 | Ids keep the order of their first occurrences |
| Wrappers.IndexOf | access.py:97-99 | The position of the first occurrence of an id, which no earlier position holds |
| Access.Normalize | access.py:86-103 | The loop with its seen set computes the normalised list |
| Access.Loaded | access.py:65-106 | Loaded lists are duplicate-free. A missing file or a non-list payload gives the empty list |
| Access.LoadList | access.py:65-106 | The loader returns Loaded |
| Access.LoadedShape | access.py:86-103 | The loaded list is duplicate-free. It holds exactly the ids some entry converts to, in first-occurrence order |
| Access.DecimalEntries | access.py:91-92 | The chat loader accepts the decimal text of every id, negative included. The user loader accepts it exactly when the id is not negative |
| Access.DoubleMinusDropped | access.py:153-157 | "--" followed by digits passes the lstrip digit test but fails int(), and is dropped |
| Access.ConvertedInts | access.py:113-123 | A list of ints converts to itself under each of the three conversions |
| Access.NormalizedInts | access.py:109-126 | Saving a duplicate-free list of ints writes it unchanged |
| Access.LoadAfterSave | access.py:109-183 | Loading what was saved gives back the saved normalised list |
| Access.Ints | access.py:124 | The file holds exactly the saved ids as JSON ints |
| Access.UserTargets | access.py:236-238 | Every user id becomes a user target, in order |
| Access.ChatTargets | access.py:238-239 | Every chat id becomes a chat target, in order |
| Access.FirstByIdShape | access.py:242-249 | The send loop attempts each id once, as its first target, and attempts all ids |
| Access.FirstWithId | access.py:242-249 | The position of the first target with a given id |
| Access.OnlyPartition | access.py:242-259 | Every attempt lands in exactly one of sent or failed |
| Access.TargetIds | access.py:230-239 | The targets' ids are the users, the chats and the admin |
| Access.FirstUserTarget | access.py:230-239 | A user id's first target is a user target, before the chats |
| Access.PlannedKind | access.py:236-249 | An id goes out as a chat exactly when it is a chat and not a user |
| Access.PlanShape | access.py:230-259 | The plan attempts every distinct id of users, chats and admin exactly once. An id on both lists goes out as a user |
| Access.SendAll | access.py:242-259 | The loop's sent and failed lists are the partition of the plan by failure |
| Access.TargetWithoutArgument | access.py:279-289 | Without an argument the target is the replied chat or the current chat, and it always parses |
| Access.TargetFromArgument | access.py:276-299 | An argument that is an id's decimal text selects that id |
| Access.AccessStore.constructor | access.py:21-22 | No bot and no admin id are set initially |
| Access.AccessStore.Users | access.py:65-106 | The user list read from the file is duplicate-free |
| Access.AccessStore.Chats | access.py:129-165 | The chat list read from the file is duplicate-free |
| Access.AccessStore.SetBot | access.py:191-194 | The bot is set |
| Access.AccessStore.SetAdminId | access.py:197-203 | The admin id is int() of the value, or none |
| Access.AccessStore.SaveUsers | access.py:109-126 | The file holds the normalised list, and reading it back gives that list |
| Access.AccessStore.SaveChats | access.py:168-183 | The file holds the normalised list, and reading it back gives that list |
| Access.AccessStore.Broadcast | access.py:211-261 | Without a bot, nothing is sent. Otherwise the sent and failed lists partition the plan |
| Access.AccessStore.AddGroupChat | access.py:359-365 | A present id returns false and leaves the file. An absent id is appended and returns true |
| Access.AccessStore.AddGroupChatHandler | access.py:271-307 | A non-integer target is invalid_chat_id with no save. A present id is already_exists. An absent one is appended and reported as added |
| Bot.Decide | bot.py:97-103 | An event is ignored exactly when its name is not one of the three final names |
| Bot.RelayRules | bot.py:100-129 | A healthy event is suppressed exactly in state (healthy, not stopped) and otherwise leads there. A stop event likewise leads to (stopped, not healthy). Other events and undelivered broadcasts change nothing |
| Bot.RunNeverBoth | bot.py:108-125 | The relay is never healthy and stopped at once, and never broadcasts more than once per event |
| Bot.SameKindTwice | bot.py:73-125 | Two final events of the same kind broadcast at most once, and, from the initial state, exactly once |
| Bot.AlternatingBroadcastsAll | bot.py:73-125 | Alternating healthy and stopped events broadcast every time |
| Bot.KindNameLower | bot.py:97 | A manager event's name reaches the relay unchanged by lower-casing |
| Bot.ManagerEventsRelayed | bot.py:97-103 | Of the manager's events, manual_start_confirmed and health_ok are the healthy ones, and server_stop is the only stop |
| Bot.EventRelay.constructor | bot.py:73 | The relay starts neither healthy nor stopped |
| Bot.EventRelay.HandleEvent | bot.py:96-129 | The decision is Decide's. A broadcast happens exactly when it is Broadcast, and reports no bot exactly when none is set. A delivered broadcast is the plan over the admin id and the saved users and chats, partitioned into the ids that were sent and those that failed. The state changes only after a delivered broadcast |
| Bot.UserRestrictedAllows | bot.py:140-159 | user_restricted allows exactly when the sender is known and is the admin, a saved user, or writing from the admin's chat |
| Bot.AdminImpliesUser | bot.py:199-251 | Whoever passes admin_restricted passes user_restricted. The two together allow exactly the admin or the admin's chat |
| Bot.GroupChatAllows | bot.py:172-186 | An unknown chat is refused. The admin is allowed. Anyone else is allowed exactly in a saved chat of type group or supergroup |
| Bot.Without | bot.py:407-410 | Removal keeps every id but the removed one |
| Bot.WithoutShape | bot.py:407-410 | Removing an absent id changes nothing. Removing a present one from a duplicate-free list shortens it by one |
| Bot.WithoutNoDup | bot.py:407-410 | Removal keeps the list duplicate-free |
| Bot.AddUser | bot.py:359-374 | A present id is reported and left. An absent one is appended and saved. A failed save leaves the file |
| Bot.RemoveUser | bot.py:402-417 | An absent id is reported. A present one is removed, every occurrence. A failed save leaves the file |
| Text.SplitJoin | scripts/repair_history.py:27 | Splitting joined fields on the separator gives the fields back |
| Text.SplitOnce | access.py:276 | split(maxsplit=1) gives at most two non-empty parts, and neither starts with whitespace |
| Text.SplitOnceCommand | access.py:276-279 | A command word, a gap and an argument split into the word and the argument |
| Text.ParseIntOfDecimal | access.py:292-293 | int(str(i)) == i |
| Text.IntToDecimalShape | access.py:283-289 | str(i) is unpadded: an optional minus sign and digits |
| Text.LStripShape | scripts/repair_history.py:27 | lstrip drops exactly the leading whitespace |
| Text.RStripShape | scripts/repair_history.py:27 | rstrip drops exactly the trailing whitespace |
| Text.StripUnpadded | scripts/repair_history.py:34 | A string with no whitespace at either end is its own strip |
| Text.FindFrom | scripts/repair_history.py:27 | The first occurrence of the separator at or after a position, or none |
| Text.Lower | bot.py:97 | lower() maps each character and keeps the length |
| Text.NatToDecimal | access.py:283-289 | Decimal text is non-empty digits whose value is the number |

## Left out

- Manager.MinecraftServerManager.constructor: accepts only a stats file whose
  total equals the sum of its day counts and a session file of at most 100
  entries. The manager and the repair script only ever write such files.
  `_update_stats` (minecraft.py:870-887) and `_load_sessions` accept any
  content; a hand-edited file outside these bounds is not modelled. A missing
  stats or sessions file is passed in as the empty default the loaders
  return.
- Docker, rcon-cli, Telegram and file I/O are left out; their results are
  parameters:
  - the container list;
  - whether a command succeeded;
  - the readiness probe;
  - whether a send failed (a set of failing ids);
  - whether a save succeeded.
- JSON decoding is left out:
  - Container records come in already decoded; an unparsable line is `None`.
  - Access list files come in as `Json` values.
  - Floats, null and objects are one `JOther` case that every conversion
    drops. The loaders skip floats as the model does. `save_users`,
    `save_chats` and `set_admin_id` would truncate a float through `int()`;
    the `IntCall` conversion drops it instead. No caller passes a float:
    the bot converts ids to integers first.
- `_atomic_write` is left out: its temp file, fsync and replace, and the
  `.bak` backups. Access saves always succeed. In `add_user`/`remove_user`
  the failure path is a parameter, and a failed save leaves the file
  unchanged.
- Threads, locks, sleeps and the stop event are left out.
  - One monitor cycle and one watcher poll are atomic steps.
  - The relay's broadcast thread runs to completion inside `HandleEvent`.
  - Each step reads one value of `now`, where the source reads the clock
    several times.
- ISO 8601 text, `fromisoformat`/`isoformat`, local days and `strftime` are
  left out. Times are integer seconds, the log text is the decimal integer,
  and a day is `t / 86400`. The naive/aware comparison `TypeError` at
  scripts/repair_history.py:104 is not modelled.
- Floats are left out: session durations in hours and their rounding, and
  the averages and maxima of `get_historic_uptime`. The `duration_hours >= 0`
  guard at scripts/repair_history.py:108 is modelled as the integer
  comparison `start <= end`.
- `get_uptime_stats`, `get_historic_uptime`, `get_logs`, `add_whitelist`,
  `validate_setup`, monitor start/stop and `close` are left out: they are
  reporting and I/O around the modelled logic.
- `register_handlers` and the Telegram handlers' message texts and Markdown
  are left out, as are help text, configuration and signal handling.
- `set_bot` stores the bot object; the model keeps only whether it is set.
  Broadcast results carry the targets sent and failed, not the error texts.
- The target resolution of `/add_user` (bot.py:295-358) is left out: the
  reply-to sender, forwarded-from, `@username` lookups and the bot-self
  check are Telegram lookups. The model starts from a resolved user id.
- The argument parsing of `/remove_user` (bot.py:380-401) is left out for
  the same reason.
- `Text.ParseInt` models `int()` for ASCII digits with an optional sign and
  surrounding whitespace. It does not model underscores between digits or
  non-ASCII digits; `isdigit` and `lower` are likewise ASCII only.
- `_last_known_health` at minecraft.py is declared but never assigned, so it
  is left out.
- The reassignment of `containers` after an rcon call in `server_status`
  (minecraft.py:785) is left out with the rcon call.
- Event payloads beyond their kind (message texts, timestamps in the event
  dict) are left out; listeners receive the kind's name.

## Notes on the code as written

- The monitor's to-running edge always logs `SERVER_START auto_detected` and
  counts a start, even when the watcher has already opened the session.
  - The live statistics then count two starts for one session
    (`ManagerLogic.ConfirmThenEdgeCountsTwice`).
  - Replaying the same log counts one start and one ignored duplicate
    (`RepairHistory.ConfirmedThenAutoDetectedCountsOnce`).
  - So the repair script and the live counters disagree on such histories.
- A manual stop records its session with start reason `manual_start`, while
  a replay of the same log records `manual_start_confirmed`, the reason on
  the confirmed start line.
- The duplicate test at scripts/repair_history.py:85-86 can never fire:
  `manual_start_ignored_duplicate` is not a valid start reason, so such
  lines are already ignored (`RepairHistory.DuplicateIsNotStart`).
- The `or "unknown"` fallback on the stop reason can never apply, because
  every valid stop reason is non-empty.
- The watcher's defer test looks for "starting" in the state field only
  (minecraft.py:530). A running container whose health says "starting" is
  consolidated as starting by the monitor, yet the watcher can confirm it
  (`ManagerLogic.HealthStartingDoesNotDefer`).
