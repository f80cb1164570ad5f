/**
 * The records the server manager keeps about uptime (minecraft.py): the event
 * log line it appends, the saved session list (only the last 100 are kept),
 * and the stats record with its per-day start counters.
 *
 * Timestamps are integer seconds. The log line writes a timestamp as a
 * decimal integer, standing in for the ISO 8601 text the source writes;
 * a day key is the timestamp divided by the length of a day.
 */
module UptimeLog {
  import opened Wrappers
  import opened Text

  // Event names written to the uptime log.
  const SERVER_START: string := "SERVER_START"
  const SERVER_START_CONFIRMED: string := "SERVER_START_CONFIRMED"
  const SERVER_STOP: string := "SERVER_STOP"
  const START_FAILED: string := "START_FAILED"
  const SERVER_HEALTH_ISSUE: string := "SERVER_HEALTH_ISSUE"

  // Reasons written after the event name.
  const AUTO_DETECTED: string := "auto_detected"
  const MANUAL_START: string := "manual_start"
  const MANUAL_START_CONFIRMED: string := "manual_start_confirmed"
  const MANUAL_START_IGNORED_DUPLICATE: string := "manual_start_ignored_duplicate"
  const MANUAL_STOP: string := "manual_stop"
  const CONTAINER_EXITED_DURING_START: string := "container_exited_during_start"
  const NO_CONTAINERS_AFTER_START: string := "no_containers_after_start"
  const MANUAL_START_TIMEOUT: string := "manual_start_timeout"
  const UNHEALTHY_PERSISTED: string := "unhealthy_persisted"

  /** One line of the uptime log. */
  datatype LogRecord = LogRecord(ts: int, event: string, reason: string)

  function FormatTimestamp(ts: int): string {
    IntToDecimal(ts)
  }

  function ParseTimestamp(s: string): Option<int> {
    ParseInt(s)
  }

  /** The timestamp text reads back as the timestamp it was written from. */
  lemma TimestampRoundTrip(ts: int)
    ensures ParseTimestamp(FormatTimestamp(ts)) == Some(ts)
  {
    ParseIntOfDecimal(ts);
  }

  /** _log_event: "ts - event", then " - reason" when the reason is not empty. */
  function FormatLine(r: LogRecord): string {
    FormatTimestamp(r.ts) + " - " + r.event + (if r.reason != "" then " - " + r.reason else "")
  }

  /** The fields of a formatted line, in order; the reason is absent when it is empty. */
  function LineFields(r: LogRecord): (fs: seq<string>)
    ensures |fs| == if r.reason == "" then 2 else 3
  {
    [FormatTimestamp(r.ts), r.event] + (if r.reason != "" then [r.reason] else [])
  }

  /** A log line is its fields joined by " - ". */
  lemma FormatLineIsJoin(r: LogRecord)
    ensures FormatLine(r) == Join(LineFields(r), " - ")
  {
    var fs := LineFields(r);
    var t := FormatTimestamp(r.ts);
    assert fs[1..][1..] == fs[2..];
    if r.reason == "" {
      assert Join(fs[1..], " - ") == r.event;
    } else {
      assert Join(fs[1..], " - ") == r.event + " - " + r.reason;
    }
  }

  /** A completed session; the duration in hours is left to the reader of the file. */
  datatype Session = Session(start: int, end: int, startReason: string, stopReason: string)

  /** The most sessions the sessions file keeps. */
  const MAX_SESSIONS: nat := 100

  /** Python's s[-n:] for n > 0: the last n elements, or all of them when there are fewer. */
  function Tail<T>(s: seq<T>, n: nat): (r: seq<T>)
    requires n > 0
    ensures |r| == if |s| < n then |s| else n
    ensures s == s[..|s| - |r|] + r
  {
    if |s| <= n then s else s[|s| - n..]
  }

  /** _save_sessions keeps the last 100 sessions. */
  function LastSessions(s: seq<Session>): seq<Session> {
    Tail(s, MAX_SESSIONS)
  }

  /**
   * _log_session loads the saved list, appends and saves the last 100 again.
   * That is the same as cutting the whole history: the file always holds
   * the last 100 sessions ever logged.
   */
  lemma {:induction false} TailOfAppend<T>(s: seq<T>, x: T, n: nat)
    requires n > 0
    ensures Tail(Tail(s, n) + [x], n) == Tail(s + [x], n)
  {
    var t := Tail(s, n);
    if |s| >= n {
      assert t == s[|s| - n..];
      assert Tail(t + [x], n) == (t + [x])[1..];
      assert (t + [x])[1..] == s[|s| - n + 1..] + [x];
      assert (s + [x])[|s| + 1 - n..] == s[|s| - n + 1..] + [x];
    }
  }

  /** The saved sessions file after logging a sequence of sessions one by one. */
  function SavedAfter(saved: seq<Session>, logged: seq<Session>): seq<Session>
    decreases |logged|
  {
    if logged == [] then saved
    else SavedAfter(LastSessions(saved + [logged[0]]), logged[1..])
  }

  /** Whatever was saved before, logging sessions one at a time leaves the last 100 of the whole history. */
  lemma {:induction false} SavedAfterIsLast(saved: seq<Session>, logged: seq<Session>)
    ensures SavedAfter(LastSessions(saved), logged) == LastSessions(saved + logged)
    decreases |logged|
  {
    if logged == [] {
      assert saved + logged == saved;
      LastSessionsIdempotent(saved);
    } else {
      TailOfAppend(saved, logged[0], MAX_SESSIONS);
      SavedAfterIsLast(saved + [logged[0]], logged[1..]);
      assert saved + [logged[0]] + logged[1..] == saved + logged;
    }
  }

  /** Cutting twice is cutting once. */
  lemma LastSessionsIdempotent(s: seq<Session>)
    ensures LastSessions(LastSessions(s)) == LastSessions(s)
  {
  }

  /** The day key of a timestamp (the source uses the local calendar date). */
  function Day(t: int): int {
    t / 86400
  }

  /** server_stats.json: total starts, starts per day, the last start and stop times. */
  datatype Stats = Stats(totalStarts: int, daily: map<int, int>, lastStart: Option<int>, lastStop: Option<int>)

  /** The defaults _load_stats returns when there is no stats file. */
  const EMPTY_STATS: Stats := Stats(0, map[], None, None)

  datatype StatAction = StartAction | StopAction

  /** The sum of all values of a map. */
  ghost function MapSum(m: map<int, int>): int
    decreases |m|
  {
    if exists k :: k in m then
      var k :| k in m;
      m[k] + MapSum(m - {k})
    else 0
  }

  /** Any key may be taken out first. */
  lemma {:induction false} MapSumRemove(m: map<int, int>, k: int)
    requires k in m
    ensures MapSum(m) == m[k] + MapSum(m - {k})
    decreases |m|
  {
    var j :| j in m && MapSum(m) == m[j] + MapSum(m - {j});
    if j != k {
      var m1 := m - {j};
      assert k in m1;
      MapSumRemove(m1, k);
      var m2 := m - {k};
      assert j in m2;
      MapSumRemove(m2, j);
      assert m1 - {k} == m2 - {j};
    }
  }

  /** Setting one key changes the sum by the difference at that key. */
  lemma MapSumUpdate(m: map<int, int>, k: int, v: int)
    ensures MapSum(m[k := v]) == MapSum(m) - (if k in m then m[k] else 0) + v
  {
    var m' := m[k := v];
    MapSumRemove(m', k);
    assert m' - {k} == m - {k};
    if k in m {
      MapSumRemove(m, k);
    } else {
      assert m - {k} == m;
    }
  }

  /**
   * _update_stats: the day's counter is created at 0 when missing; a start
   * adds one to it and to the total and sets the last start; a stop only
   * sets the last stop.
   */
  function StatsAfter(s: Stats, action: StatAction, now: int): (r: Stats)
    ensures Day(now) in r.daily && r.daily.Keys == s.daily.Keys + {Day(now)}
    ensures forall d :: d in s.daily && d != Day(now) ==> r.daily[d] == s.daily[d]
    ensures action.StartAction? ==>
      && r.totalStarts == s.totalStarts + 1
      && r.daily[Day(now)] == (if Day(now) in s.daily then s.daily[Day(now)] else 0) + 1
      && r.lastStart == Some(now) && r.lastStop == s.lastStop
    ensures action.StopAction? ==>
      && r.totalStarts == s.totalStarts
      && r.daily[Day(now)] == (if Day(now) in s.daily then s.daily[Day(now)] else 0)
      && r.lastStart == s.lastStart && r.lastStop == Some(now)
  {
    var today := Day(now);
    var daily := if today in s.daily then s.daily else s.daily[today := 0];
    match action
    case StartAction => Stats(s.totalStarts + 1, daily[today := daily[today] + 1], Some(now), s.lastStop)
    case StopAction => s.(daily := daily, lastStop := Some(now))
  }

  /** The total equals the sum of the day counters, and _update_stats keeps it so. */
  ghost predicate StatsConsistent(s: Stats) {
    s.totalStarts == MapSum(s.daily)
  }

  lemma StatsAfterConsistent(s: Stats, action: StatAction, now: int)
    requires StatsConsistent(s)
    ensures StatsConsistent(StatsAfter(s, action, now))
  {
    var today := Day(now);
    var daily := if today in s.daily then s.daily else s.daily[today := 0];
    MapSumUpdate(s.daily, today, 0);
    if today !in s.daily {
      assert MapSum(daily) == MapSum(s.daily);
    }
    MapSumUpdate(daily, today, daily[today] + 1);
  }

  /** Each line with its surrounding whitespace removed. */
  function StripAll(lines: seq<string>): (r: seq<string>)
    ensures |r| == |lines| && forall i :: 0 <= i < |lines| ==> r[i] == Strip(lines[i])
  {
    seq(|lines|, i requires 0 <= i < |lines| => Strip(lines[i]))
  }

  /** The lines get_uptime_log shows: the last n, or all of them when n <= 0. */
  function RecentLines(lines: seq<string>, n: int): (r: seq<string>)
    ensures |r| == if 0 < n < |lines| then n else |lines|
    ensures lines == lines[..|lines| - |r|] + r
  {
    if n > 0 then Tail(lines, n) else lines
  }

  /**
   * get_uptime_log: the last n lines, stripped (all lines when n <= 0);
   * no lines when the log file does not exist.
   */
  function UptimeLogTail(file: Option<seq<string>>, n: int): (r: seq<string>)
    ensures file.None? ==> r == []
    ensures file.Some? ==> |r| == if 0 < n < |file.value| then n else |file.value|
    ensures file.Some? ==> r == StripAll(file.value[|file.value| - |r|..])
  {
    if file.None? then []
    else
      var recent := RecentLines(file.value, n);
      assert recent == file.value[|file.value| - |recent|..];
      StripAll(recent)
  }
}
