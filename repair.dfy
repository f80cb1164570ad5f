/**
 * scripts/repair_history.py: rebuilds the sessions file and the stats file
 * from the uptime log alone. Each line is parsed as "TS - EVENT - REASON";
 * a valid start opens a session when none is open, a valid stop closes the
 * open one, and everything else is skipped and counted where the script
 * counts it.
 */
module RepairHistory {
  import opened Wrappers
  import opened Text
  import opened UptimeLog

  const IDLE_TIMEOUT: string := "idle_timeout"

  const VALID_START_REASONS: set<string> := {MANUAL_START_CONFIRMED, AUTO_DETECTED}
  const VALID_STOP_REASONS: set<string> := {MANUAL_STOP, AUTO_DETECTED, IDLE_TIMEOUT}
  const DUPLICATE_START_REASON: string := MANUAL_START_IGNORED_DUPLICATE

  const SEP: string := " - "

  // ---------------------------------------------------------------------------
  // One line
  // ---------------------------------------------------------------------------

  /** parse_log_line: fields after the third are ignored; a missing reason reads as "". */
  function ParseLogLine(line: string): (r: Option<LogRecord>)
    ensures r.Some? ==> |Split(Strip(line), SEP)| >= 2
  {
    var parts := Split(Strip(line), SEP);
    if |parts| < 2 then None
    else
      match ParseTimestamp(Strip(parts[0]))
      case None => None
      case Some(ts) => Some(LogRecord(ts, Strip(parts[1]), if |parts| > 2 then Strip(parts[2]) else ""))
  }

  predicate IsStartEvent(event: string, reason: string) {
    (event == SERVER_START_CONFIRMED || event == SERVER_START) && reason in VALID_START_REASONS
  }

  predicate IsStopEvent(event: string, reason: string) {
    event == SERVER_STOP && reason in VALID_STOP_REASONS
  }

  /** Fields joined by " - " read back as the first three, when none holds whitespace. */
  lemma ParseJoined(fs: seq<string>)
    requires |fs| >= 2
    requires forall k :: 0 <= k < |fs| ==> NoSpace(fs[k])
    requires fs[0] != [] && fs[|fs| - 1] != []
    ensures ParseLogLine(Join(fs, SEP)) ==
      match ParseTimestamp(fs[0])
      case None => None
      case Some(ts) => Some(LogRecord(ts, fs[1], if |fs| > 2 then fs[2] else ""))
  {
    var line := Join(fs, SEP);
    JoinFirst(fs, SEP);
    JoinLast(fs, SEP);
    StripUnpadded(line);
    assert IsSpace(SEP[0]);
    SplitJoin(fs, SEP);
    forall k | 0 <= k < |fs| ensures Strip(fs[k]) == fs[k] {
      StripUnpadded(fs[k]);
    }
  }

  /** A line the manager's _log_event writes reads back as the record it was written from. */
  lemma ParseFormatRoundTrip(r: LogRecord)
    requires r.event != [] && NoSpace(r.event) && NoSpace(r.reason)
    ensures ParseLogLine(FormatLine(r)) == Some(r)
  {
    FormatLineIsJoin(r);
    IntToDecimalShape(r.ts);
    TimestampRoundTrip(r.ts);
    ParseJoined(LineFields(r));
  }

  /** Fields after the reason are ignored. */
  lemma ExtraFieldsIgnored(r: LogRecord, extra: string)
    requires r.event != [] && NoSpace(r.event) && r.reason != [] && NoSpace(r.reason)
    requires extra != [] && NoSpace(extra)
    ensures ParseLogLine(FormatLine(r) + SEP + extra) == Some(r)
  {
    var fs := LineFields(r);
    FormatLineIsJoin(r);
    JoinSnoc(fs, extra, SEP);
    IntToDecimalShape(r.ts);
    TimestampRoundTrip(r.ts);
    ParseJoined(fs + [extra]);
  }

  /** A line without a '-' in it, such as an empty line, is skipped. */
  lemma NoSeparatorSkipped(line: string)
    requires forall i :: 0 <= i < |line| ==> line[i] != '-'
    ensures ParseLogLine(line) == None
  {
    var l := LStrip(line);
    var t := RStrip(l);
    LStripShape(line);
    RStripShape(l);
    assert t == Strip(line);
    assert forall j :: 0 <= j < |t| ==> t[j] == line[|line| - |l| + j];
    forall j | 0 <= j ensures !OccursAt(t, SEP, j) {
      if j + |SEP| <= |t| {
        assert t[j..j + |SEP|][1] == t[j + 1] != SEP[1];
      }
    }
    assert FindFrom(t, SEP, 0).None?;
  }

  /**
   * The check for the duplicate-start reason inside the start branch can never
   * succeed: that reason is not a valid start reason, so such a line is not a
   * start at all.
   */
  lemma DuplicateIsNotStart(event: string)
    ensures !IsStartEvent(event, DUPLICATE_START_REASON)
  {
    assert |DUPLICATE_START_REASON| != |MANUAL_START_CONFIRMED|;
    assert |DUPLICATE_START_REASON| != |AUTO_DETECTED|;
  }

  // ---------------------------------------------------------------------------
  // The replay
  // ---------------------------------------------------------------------------

  /** The accumulators of repair_from_log. */
  datatype Replay = Replay(
    sessions: seq<Session>,
    openStart: Option<int>,
    openReason: string,
    daily: map<int, int>,
    totalStarts: int,
    lastStart: Option<int>,
    lastStop: Option<int>,
    duplicatesIgnored: nat,
    outOfOrderStops: nat,
    stopsWithoutSession: nat)

  const REPLAY_START: Replay := Replay([], None, "", map[], 0, None, None, 0, 0, 0)

  /** The text itself, or "unknown" when it is empty. */
  function OrUnknown(s: string): string {
    if s == "" then "unknown" else s
  }

  /** The body of the loop over the lines, for one parsed line. */
  function ReplayRecord(st: Replay, rec: LogRecord): Replay {
    if IsStartEvent(rec.event, rec.reason) then
      if rec.reason == DUPLICATE_START_REASON then st
      else if st.openStart.None? then
        var day := Day(rec.ts);
        st.(openStart := Some(rec.ts), openReason := rec.reason,
            daily := st.daily[day := (if day in st.daily then st.daily[day] else 0) + 1],
            totalStarts := st.totalStarts + 1, lastStart := Some(rec.ts))
      else st.(duplicatesIgnored := st.duplicatesIgnored + 1)
    else if IsStopEvent(rec.event, rec.reason) then
      var st1 := st.(lastStop := Some(rec.ts));
      if st.openStart.Some? then
        if rec.ts < st.openStart.value then st1.(outOfOrderStops := st.outOfOrderStops + 1)
        else
          var s := Session(st.openStart.value, rec.ts, OrUnknown(st.openReason), OrUnknown(rec.reason));
          st1.(sessions := st.sessions + [s], openStart := None, openReason := "")
      else st1.(stopsWithoutSession := st.stopsWithoutSession + 1)
    else st
  }

  /** A line that does not parse is skipped. */
  function ReplayParsed(st: Replay, parsed: Option<LogRecord>): Replay {
    match parsed
    case None => st
    case Some(rec) => ReplayRecord(st, rec)
  }

  /** Every line parsed on its own, in file order. */
  function ParseAll(lines: seq<string>): (ps: seq<Option<LogRecord>>)
    ensures |ps| == |lines|
    decreases |lines|
  {
    if lines == [] then [] else ParseAll(lines[..|lines| - 1]) + [ParseLogLine(lines[|lines| - 1])]
  }

  lemma {:induction false} ParseAllAt(lines: seq<string>, i: nat)
    requires i < |lines|
    ensures ParseAll(lines)[i] == ParseLogLine(lines[i])
    decreases |lines|
  {
    if i < |lines| - 1 {
      var init := lines[..|lines| - 1];
      ParseAllAt(init, i);
    }
  }

  lemma {:induction false} ParseAllAppend(a: seq<string>, b: seq<string>)
    ensures ParseAll(a + b) == ParseAll(a) + ParseAll(b)
    decreases |b|
  {
    if b == [] {
      assert a + b == a;
    } else {
      var init := b[..|b| - 1];
      assert (a + b)[..|a + b| - 1] == a + init;
      ParseAllAppend(a, init);
    }
  }

  /** The accumulators after the given parsed lines, in file order. */
  function ReplayAll(ps: seq<Option<LogRecord>>): Replay
    decreases |ps|
  {
    if ps == [] then REPLAY_START
    else ReplayParsed(ReplayAll(ps[..|ps| - 1]), ps[|ps| - 1])
  }

  function ReplayLines(lines: seq<string>): Replay {
    ReplayAll(ParseAll(lines))
  }

  // ---------------------------------------------------------------------------
  // What the script writes
  // ---------------------------------------------------------------------------

  datatype RepairOutcome =
    | LogMissing                // exit status 1
    | WriteFailed               // exit status 2
    | Repaired(sessionsFile: seq<Session>, stats: Stats, sessionCount: nat,
               duplicatesIgnored: nat, outOfOrderStops: nat, stopsWithoutSession: nat)

  function Outcome(st: Replay): RepairOutcome {
    Repaired(LastSessions(st.sessions), Stats(st.totalStarts, st.daily, st.lastStart, st.lastStop),
             |st.sessions|, st.duplicatesIgnored, st.outOfOrderStops, st.stopsWithoutSession)
  }

  /** parse_log_line on the i-th line. */
  method ParseLine(lines: seq<string>, i: nat) returns (r: Option<LogRecord>)
    requires i < |lines|
    ensures r == ParseAll(lines)[i]
  {
    ParseAllAt(lines, i);
    r := ParseLogLine(lines[i]);
  }

  /**
   * repair_from_log, given the log file's lines (None when it does not exist)
   * and whether writing the two files succeeds.
   */
  method RepairFromLog(log: Option<seq<string>>, writeOk: bool) returns (r: RepairOutcome)
    ensures log.None? ==> r == LogMissing
    ensures log.Some? && !writeOk ==> r == WriteFailed
    ensures log.Some? && writeOk ==> r == Outcome(ReplayLines(log.value))
  {
    if log.None? {
      return LogMissing;
    }
    var lines := log.value;
    ghost var ps := ParseAll(lines);
    var sessions: seq<Session> := [];
    var currentStartTs: Option<int> := None;
    var currentStartReason := "";
    var dailyStarts: map<int, int> := map[];
    var totalStarts := 0;
    var lastStart: Option<int> := None;
    var lastStop: Option<int> := None;
    var duplicatesIgnored: nat := 0;
    var outOfOrderStopsSkipped: nat := 0;
    var stopsWithoutSession: nat := 0;

    for i := 0 to |lines|
      invariant Replay(sessions, currentStartTs, currentStartReason, dailyStarts, totalStarts, lastStart, lastStop,
                       duplicatesIgnored, outOfOrderStopsSkipped, stopsWithoutSession) == ReplayAll(ps[..i])
    {
      ghost var prev := Replay(sessions, currentStartTs, currentStartReason, dailyStarts, totalStarts, lastStart, lastStop,
                               duplicatesIgnored, outOfOrderStopsSkipped, stopsWithoutSession);
      assert ps[..i + 1][..i] == ps[..i];
      var parsed := ParseLine(lines, i);
      if parsed.None? {
        continue;
      }
      var ts, event, reason := parsed.value.ts, parsed.value.event, parsed.value.reason;

      if IsStartEvent(event, reason) {
        if reason == DUPLICATE_START_REASON {
          continue;
        }
        if currentStartTs.None? {
          currentStartTs := Some(ts);
          currentStartReason := reason;
          var dateKey := Day(ts);
          dailyStarts := dailyStarts[dateKey := (if dateKey in dailyStarts then dailyStarts[dateKey] else 0) + 1];
          totalStarts := totalStarts + 1;
          lastStart := Some(ts);
        } else {
          duplicatesIgnored := duplicatesIgnored + 1;
        }
        continue;
      }

      if IsStopEvent(event, reason) {
        lastStop := Some(ts);
        if currentStartTs.Some? {
          if ts < currentStartTs.value {
            outOfOrderStopsSkipped := outOfOrderStopsSkipped + 1;
            continue;
          }
          sessions := sessions + [Session(currentStartTs.value, ts, OrUnknown(currentStartReason), OrUnknown(reason))];
          currentStartTs := None;
          currentStartReason := "";
        } else {
          stopsWithoutSession := stopsWithoutSession + 1;
        }
        continue;
      }
    }
    assert ps[..|lines|] == ps;

    if !writeOk {
      return WriteFailed;
    }
    var stats := Stats(totalStarts, dailyStarts, lastStart, lastStop);
    r := Repaired(LastSessions(sessions), stats, |sessions|, duplicatesIgnored, outOfOrderStopsSkipped, stopsWithoutSession);
  }

  // ---------------------------------------------------------------------------
  // Properties of the replay
  // ---------------------------------------------------------------------------

  /**
   * What the replay keeps true: the total equals the day counters and counts
   * every closed session plus the open one, every session ends no earlier
   * than it starts, and an open session is the last start.
   */
  ghost predicate Consistent(st: Replay) {
    && st.totalStarts == MapSum(st.daily)
    && st.totalStarts == |st.sessions| + (if st.openStart.Some? then 1 else 0)
    && (forall k :: 0 <= k < |st.sessions| ==> st.sessions[k].start <= st.sessions[k].end)
    && (st.openStart.Some? ==> st.lastStart == st.openStart)
  }

  lemma ReplayRecordConsistent(st: Replay, rec: LogRecord)
    requires Consistent(st)
    ensures Consistent(ReplayRecord(st, rec))
  {
    if IsStartEvent(rec.event, rec.reason) && rec.reason != DUPLICATE_START_REASON && st.openStart.None? {
      var day := Day(rec.ts);
      MapSumUpdate(st.daily, day, (if day in st.daily then st.daily[day] else 0) + 1);
    }
  }

  lemma {:induction false} ReplayAllConsistent(ps: seq<Option<LogRecord>>)
    ensures Consistent(ReplayAll(ps))
    decreases |ps|
  {
    if ps == [] {
      assert MapSum(REPLAY_START.daily) == 0;
    } else {
      var prev := ReplayAll(ps[..|ps| - 1]);
      ReplayAllConsistent(ps[..|ps| - 1]);
      match ps[|ps| - 1]
      case None =>
      case Some(rec) => ReplayRecordConsistent(prev, rec);
    }
  }

  /** Whatever the log holds, the repaired files are consistent. */
  lemma ReplayLinesConsistent(lines: seq<string>)
    ensures Consistent(ReplayLines(lines))
  {
    ReplayAllConsistent(ParseAll(lines));
  }

  /** One record never removes or changes a session already recorded. */
  lemma ReplayRecordAppends(st: Replay, rec: LogRecord)
    ensures st.sessions <= ReplayRecord(st, rec).sessions
  {
  }

  lemma {:induction false} ReplayAllAppendOnly(ps: seq<Option<LogRecord>>, more: seq<Option<LogRecord>>)
    ensures ReplayAll(ps).sessions <= ReplayAll(ps + more).sessions
    decreases |more|
  {
    if more == [] {
      assert ps + more == ps;
    } else {
      var init := more[..|more| - 1];
      var all := ps + more;
      assert all[..|all| - 1] == ps + init;
      ReplayAllAppendOnly(ps, init);
      match all[|all| - 1]
      case None =>
      case Some(rec) => ReplayRecordAppends(ReplayAll(ps + init), rec);
    }
  }

  /** Sessions are only ever appended: the sessions after a prefix of the log are a prefix of the final ones. */
  lemma SessionsAppendOnly(lines: seq<string>, more: seq<string>)
    ensures ReplayLines(lines).sessions <= ReplayLines(lines + more).sessions
  {
    ParseAllAppend(lines, more);
    ReplayAllAppendOnly(ParseAll(lines), ParseAll(more));
  }

  /** A valid stop always sets the last stop time, whether or not it closes a session. */
  lemma StopSetsLastStop(st: Replay, rec: LogRecord)
    requires IsStopEvent(rec.event, rec.reason)
    ensures ReplayRecord(st, rec).lastStop == Some(rec.ts)
  {
  }

  /** A valid stop at or after the open session's start closes it and records that session. */
  lemma StopClosesSession(st: Replay, rec: LogRecord)
    requires IsStopEvent(rec.event, rec.reason) && st.openStart.Some? && st.openStart.value <= rec.ts
    ensures var r := ReplayRecord(st, rec);
      && r.openStart.None?
      && r.sessions == st.sessions + [Session(st.openStart.value, rec.ts, OrUnknown(st.openReason), rec.reason)]
      && r.totalStarts == st.totalStarts && r.daily == st.daily
  {
    assert rec.reason != "";
  }

  /** A valid start with no session open opens one and counts it on its day. */
  lemma StartOpensSession(st: Replay, rec: LogRecord)
    requires IsStartEvent(rec.event, rec.reason) && st.openStart.None?
    ensures var r := ReplayRecord(st, rec);
      && r.openStart == Some(rec.ts) && r.openReason == rec.reason
      && r.totalStarts == st.totalStarts + 1 && r.lastStart == Some(rec.ts)
      && Day(rec.ts) in r.daily
      && r.daily[Day(rec.ts)] == (if Day(rec.ts) in st.daily then st.daily[Day(rec.ts)] else 0) + 1
      && r.sessions == st.sessions
  {
    DuplicateIsNotStart(rec.event);
  }

  /**
   * A stop stamped before the open session's start is skipped and counted,
   * and the session stays open; the last stop time is still set to it.
   */
  lemma OutOfOrderStopKeepsSession(st: Replay, rec: LogRecord)
    requires IsStopEvent(rec.event, rec.reason) && st.openStart.Some? && rec.ts < st.openStart.value
    ensures ReplayRecord(st, rec) == st.(lastStop := Some(rec.ts), outOfOrderStops := st.outOfOrderStops + 1)
  {
  }

  /** A valid stop with no session open is counted and sets only the last stop time. */
  lemma StopWithoutSession(st: Replay, rec: LogRecord)
    requires IsStopEvent(rec.event, rec.reason) && st.openStart.None?
    ensures ReplayRecord(st, rec) == st.(lastStop := Some(rec.ts), stopsWithoutSession := st.stopsWithoutSession + 1)
  {
  }

  /** A start while a session is open is counted as a duplicate and changes nothing else. */
  lemma StartWhileOpenIgnored(st: Replay, rec: LogRecord)
    requires IsStartEvent(rec.event, rec.reason) && st.openStart.Some?
    ensures ReplayRecord(st, rec) == st.(duplicatesIgnored := st.duplicatesIgnored + 1)
  {
    DuplicateIsNotStart(rec.event);
  }

  /** Health issues, start failures and any other events are ignored. */
  lemma OtherEventsIgnored(st: Replay, rec: LogRecord)
    requires !IsStartEvent(rec.event, rec.reason) && !IsStopEvent(rec.event, rec.reason)
    ensures ReplayRecord(st, rec) == st
  {
  }

  /** The event names the manager writes. */
  const MANAGER_EVENTS: set<string> := {SERVER_START, SERVER_START_CONFIRMED, SERVER_STOP, START_FAILED, SERVER_HEALTH_ISSUE}

  /** The reasons the manager writes. */
  const MANAGER_REASONS: set<string> := {
    AUTO_DETECTED, MANUAL_START, MANUAL_START_CONFIRMED, MANUAL_START_IGNORED_DUPLICATE, MANUAL_STOP,
    CONTAINER_EXITED_DURING_START, NO_CONTAINERS_AFTER_START, MANUAL_START_TIMEOUT, UNHEALTHY_PERSISTED}

  /** Names made of letters and underscores hold no whitespace. */
  lemma NameNoSpace(s: string)
    requires forall i :: 0 <= i < |s| ==> 'A' <= s[i] <= 'z'
    ensures NoSpace(s)
  {
  }

  lemma EventNamesNoSpace()
    ensures forall s :: s in MANAGER_EVENTS ==> s != [] && NoSpace(s)
  {
    NameNoSpace(SERVER_START);
    NameNoSpace(SERVER_START_CONFIRMED);
    NameNoSpace(SERVER_STOP);
    NameNoSpace(START_FAILED);
    NameNoSpace(SERVER_HEALTH_ISSUE);
  }

  lemma StartReasonsNoSpace()
    ensures NoSpace(AUTO_DETECTED) && NoSpace(MANUAL_START) && NoSpace(MANUAL_START_CONFIRMED)
    ensures NoSpace(MANUAL_START_IGNORED_DUPLICATE) && NoSpace(MANUAL_STOP)
  {
    NameNoSpace(AUTO_DETECTED);
    NameNoSpace(MANUAL_START);
    NameNoSpace(MANUAL_START_CONFIRMED);
    NameNoSpace(MANUAL_START_IGNORED_DUPLICATE);
    NameNoSpace(MANUAL_STOP);
  }

  lemma FailureReasonsNoSpace()
    ensures NoSpace(CONTAINER_EXITED_DURING_START) && NoSpace(NO_CONTAINERS_AFTER_START)
    ensures NoSpace(MANUAL_START_TIMEOUT) && NoSpace(UNHEALTHY_PERSISTED)
  {
    NameNoSpace(CONTAINER_EXITED_DURING_START);
    NameNoSpace(NO_CONTAINERS_AFTER_START);
    NameNoSpace(MANUAL_START_TIMEOUT);
    NameNoSpace(UNHEALTHY_PERSISTED);
  }

  /** The manager's event and reason names hold no whitespace, so they survive strip and split. */
  lemma ManagerNamesNoSpace()
    ensures forall s :: s in MANAGER_EVENTS ==> s != [] && NoSpace(s)
    ensures forall s :: s in MANAGER_REASONS ==> NoSpace(s)
  {
    EventNamesNoSpace();
    StartReasonsNoSpace();
    FailureReasonsNoSpace();
  }

  /** Every line the manager writes reads back as the record it was written from. */
  lemma ManagerLinesRoundTrip(r: LogRecord)
    requires r.event in MANAGER_EVENTS && r.reason in MANAGER_REASONS
    ensures ParseLogLine(FormatLine(r)) == Some(r)
  {
    ManagerNamesNoSpace();
    ParseFormatRoundTrip(r);
  }

  /** The line the watcher writes for a duplicate start leaves the replay unchanged. */
  lemma DuplicateLineIgnored(st: Replay, ts: int)
    ensures ReplayParsed(st, ParseLogLine(FormatLine(LogRecord(ts, SERVER_START, DUPLICATE_START_REASON)))) == st
  {
    ManagerLinesRoundTrip(LogRecord(ts, SERVER_START, DUPLICATE_START_REASON));
    DuplicateIsNotStart(SERVER_START);
  }

  lemma ParseAllTwo(a: string, b: string)
    ensures ParseAll([a, b]) == [ParseLogLine(a), ParseLogLine(b)]
  {
    assert [a, b][..1] == [a];
    assert [a][..0] == [];
  }

  lemma ReplayAllTwo(p: Option<LogRecord>, q: Option<LogRecord>)
    ensures ReplayAll([p, q]) == ReplayParsed(ReplayParsed(REPLAY_START, p), q)
  {
    assert [p, q][..1] == [p];
    assert [p][..0] == [];
    assert ReplayAll([p]) == ReplayParsed(ReplayAll([]), p);
    assert ReplayAll([p, q]) == ReplayParsed(ReplayAll([p]), q);
  }

  /**
   * The manager's log of a confirmed manual start followed by a manual stop
   * replays to exactly one session between the two times, and one start.
   */
  lemma ConfirmedStartThenStop(t1: int, t2: int)
    requires t1 <= t2
    ensures var st := ReplayLines([FormatLine(LogRecord(t1, SERVER_START_CONFIRMED, MANUAL_START_CONFIRMED)),
                                   FormatLine(LogRecord(t2, SERVER_STOP, MANUAL_STOP))]);
      && st.sessions == [Session(t1, t2, MANUAL_START_CONFIRMED, MANUAL_STOP)]
      && st.openStart.None? && st.totalStarts == 1 && st.daily == map[Day(t1) := 1]
      && st.lastStart == Some(t1) && st.lastStop == Some(t2)
  {
    var r1 := LogRecord(t1, SERVER_START_CONFIRMED, MANUAL_START_CONFIRMED);
    var r2 := LogRecord(t2, SERVER_STOP, MANUAL_STOP);
    ManagerLinesRoundTrip(r1);
    ManagerLinesRoundTrip(r2);
    ParseAllTwo(FormatLine(r1), FormatLine(r2));
    ReplayAllTwo(Some(r1), Some(r2));
    var s1 := ReplayRecord(REPLAY_START, r1);
    StartOpensSession(REPLAY_START, r1);
    StopClosesSession(s1, r2);
  }

  /**
   * The log of a confirmed manual start followed by the monitor's auto-detected
   * start replays to one start and one ignored duplicate, while the live
   * statistics count both lines as starts (see ConfirmThenEdgeCountsTwice).
   */
  lemma ConfirmedThenAutoDetectedCountsOnce(t1: int, t2: int)
    ensures var st := ReplayLines([FormatLine(LogRecord(t1, SERVER_START_CONFIRMED, MANUAL_START_CONFIRMED)),
                                   FormatLine(LogRecord(t2, SERVER_START, AUTO_DETECTED))]);
      && st.totalStarts == 1 && st.duplicatesIgnored == 1
      && st.openStart == Some(t1) && st.sessions == []
  {
    var r1 := LogRecord(t1, SERVER_START_CONFIRMED, MANUAL_START_CONFIRMED);
    var r2 := LogRecord(t2, SERVER_START, AUTO_DETECTED);
    ManagerLinesRoundTrip(r1);
    ManagerLinesRoundTrip(r2);
    ParseAllTwo(FormatLine(r1), FormatLine(r2));
    ReplayAllTwo(Some(r1), Some(r2));
    var s1 := ReplayRecord(REPLAY_START, r1);
    StartOpensSession(REPLAY_START, r1);
    StartWhileOpenIgnored(s1, r2);
  }
}
