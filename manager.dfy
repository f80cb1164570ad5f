/**
 * MinecraftServerManager (minecraft.py) as a class whose fields the methods
 * update in place, step by step as the source does. Each method is proved
 * against the transition of ManagerLogic that specifies it: the new state is
 * that transition's state, and the files and listeners have seen exactly its
 * effects, in order.
 *
 * The uptime log, the stats file and the sessions file are fields holding
 * their contents; the listeners receive deliveries recorded in `deliveries`.
 */
module Manager {
  import opened Wrappers
  import opened Health
  import opened UptimeLog
  import opened ManagerLogic

  /** One event handed to one listener. */
  datatype Delivery = Delivery(listener: Callback, kind: EventKind)

  /** _dispatch_event: every listener of the snapshot receives the event, in registration order. */
  function Deliveries(ls: seq<Callback>, k: EventKind): (ds: seq<Delivery>)
    ensures |ds| == |ls| && forall i :: 0 <= i < |ls| ==> ds[i].listener == ls[i] && ds[i].kind == k
  {
    seq(|ls|, i requires 0 <= i < |ls| => Delivery(ls[i], k))
  }

  /** The contents of the three files and what the listeners have received. */
  datatype Outside = Outside(log: seq<LogRecord>, stats: Stats, sessions: seq<Session>, deliveries: seq<Delivery>)

  /** Carrying out one effect at time now. */
  function Apply(o: Outside, e: Effect, ls: seq<Callback>, now: int): Outside {
    match e
    case LogLine(ev, reason) => o.(log := o.log + [LogRecord(now, ev, reason)])
    case StatsUpdate(a) => o.(stats := StatsAfter(o.stats, a, now))
    case SessionLogged(s) => o.(sessions := LastSessions(o.sessions + [s]))
    case Dispatch(k) => o.(deliveries := o.deliveries + Deliveries(ls, k))
  }

  function ApplyAll(o: Outside, es: seq<Effect>, ls: seq<Callback>, now: int): Outside
    decreases |es|
  {
    if es == [] then o else ApplyAll(Apply(o, es[0], ls, now), es[1..], ls, now)
  }

  lemma {:induction false} ApplyAllSnoc(o: Outside, es: seq<Effect>, e: Effect, ls: seq<Callback>, now: int)
    ensures ApplyAll(o, es + [e], ls, now) == Apply(ApplyAll(o, es, ls, now), e, ls, now)
    decreases |es|
  {
    if es == [] {
      assert [] + [e] == [e];
    } else {
      assert (es + [e])[1..] == es[1..] + [e];
      ApplyAllSnoc(Apply(o, es[0], ls, now), es[1..], e, ls, now);
    }
  }

  lemma {:induction false} ApplyAllAppend(o: Outside, a: seq<Effect>, b: seq<Effect>, ls: seq<Callback>, now: int)
    ensures ApplyAll(o, a + b, ls, now) == ApplyAll(ApplyAll(o, a, ls, now), b, ls, now)
    decreases |a|
  {
    if a == [] {
      assert a + b == b;
    } else {
      assert (a + b)[1..] == a[1..] + b;
      ApplyAllAppend(Apply(o, a[0], ls, now), a[1..], b, ls, now);
    }
  }

  lemma ApplyAllTwo(o: Outside, a: Effect, b: Effect, ls: seq<Callback>, now: int)
    ensures ApplyAll(o, [a, b], ls, now) == Apply(Apply(o, a, ls, now), b, ls, now)
  {
    var o1 := Apply(o, a, ls, now);
    assert [a, b][1..] == [b];
    assert [b][1..] == [];
    assert ApplyAll(o, [a, b], ls, now) == ApplyAll(o1, [b], ls, now);
    assert ApplyAll(o1, [b], ls, now) == ApplyAll(Apply(o1, b, ls, now), [], ls, now);
  }

  lemma ApplyAllThree(o: Outside, a: Effect, b: Effect, c: Effect, ls: seq<Callback>, now: int)
    ensures ApplyAll(o, [a, b, c], ls, now) == Apply(Apply(Apply(o, a, ls, now), b, ls, now), c, ls, now)
  {
    assert [a, b, c][1..] == [b, c];
    ApplyAllTwo(Apply(o, a, ls, now), b, c, ls, now);
  }

  /** The files stay well formed: at most 100 sessions, and the total equals the day counters. */
  ghost predicate OutsideValid(o: Outside) {
    |o.sessions| <= MAX_SESSIONS && StatsConsistent(o.stats)
  }

  /** Whatever the manager does, the files stay well formed. */
  lemma {:induction false} ApplyAllValid(o: Outside, es: seq<Effect>, ls: seq<Callback>, now: int)
    requires OutsideValid(o)
    ensures OutsideValid(ApplyAll(o, es, ls, now))
    decreases |es|
  {
    if es != [] {
      if es[0].StatsUpdate? {
        StatsAfterConsistent(o.stats, es[0].action, now);
      }
      ApplyAllValid(Apply(o, es[0], ls, now), es[1..], ls, now);
    }
  }

  class MinecraftServerManager {
    const healthGraceSeconds: int
    const startTimeout: int

    var listeners: seq<Callback>

    var lastKnownStatus: Option<bool>
    var currentSessionStart: Option<int>
    var startPending: bool
    var startRequestedAt: Option<int>

    var log: seq<LogRecord>
    var stats: Stats
    var sessions: seq<Session>
    var deliveries: seq<Delivery>

    ghost predicate Valid()
      reads this
    {
      && NoDup(listeners)
      && |sessions| <= MAX_SESSIONS
      && StatsConsistent(stats)
      && (startPending ==> startRequestedAt.Some?)
    }

    function State(): ManagerState
      reads this
    {
      ManagerState(lastKnownStatus, currentSessionStart, startPending, startRequestedAt)
    }

    function OutsideNow(): Outside
      reads this
    {
      Outside(log, stats, sessions, deliveries)
    }

    /** A new manager: no listeners, nothing known, and the history files as they already are on disk
        (the source's defaults are 120 s of grace and 360 s to start). */
    constructor (healthGraceSeconds: int, startTimeout: int, log: seq<LogRecord>, stats: Stats, sessions: seq<Session>)
      requires |sessions| <= MAX_SESSIONS && StatsConsistent(stats)
      ensures Valid()
      ensures this.healthGraceSeconds == healthGraceSeconds && this.startTimeout == startTimeout
      ensures listeners == [] && State() == INITIAL
      ensures OutsideNow() == Outside(log, stats, sessions, [])
    {
      this.healthGraceSeconds := healthGraceSeconds;
      this.startTimeout := startTimeout;
      listeners := [];
      lastKnownStatus := None;
      currentSessionStart := None;
      startPending := false;
      startRequestedAt := None;
      this.log := log;
      this.stats := stats;
      this.sessions := sessions;
      deliveries := [];
    }

    method Register(cb: Callback)
      requires Valid()
      modifies this`listeners
      ensures Valid()
      ensures listeners == Registered(old(listeners), cb)
    {
      if !cb.isCallable {
        return;
      }
      if cb !in listeners {
        listeners := listeners + [cb];
      }
    }

    method Unregister(cb: Callback)
      requires Valid()
      modifies this`listeners
      ensures Valid()
      ensures listeners == Unregistered(old(listeners), cb)
    {
      UnregisteredNoDup(listeners, cb);
      if cb in listeners {
        listeners := RemoveFirst(listeners, cb);
      }
    }

    method DispatchEvent(k: EventKind)
      requires Valid()
      ensures Valid()
      modifies this`deliveries
      ensures deliveries == old(deliveries) + Deliveries(listeners, k)
    {
      var snapshot := listeners;
      for i := 0 to |snapshot|
        invariant deliveries == old(deliveries) + Deliveries(snapshot[..i], k)
      {
        assert Deliveries(snapshot[..i + 1], k) == Deliveries(snapshot[..i], k) + [Delivery(snapshot[i], k)];
        deliveries := deliveries + [Delivery(snapshot[i], k)];
      }
      assert snapshot[..|snapshot|] == snapshot;
    }

    method LogEvent(event: string, reason: string, now: int)
      requires Valid()
      ensures Valid()
      modifies this`log
      ensures log == old(log) + [LogRecord(now, event, reason)]
    {
      log := log + [LogRecord(now, event, reason)];
    }

    method UpdateStats(action: StatAction, now: int)
      requires Valid()
      modifies this`stats
      ensures Valid()
      ensures stats == StatsAfter(old(stats), action, now)
    {
      StatsAfterConsistent(stats, action, now);
      var today := Day(now);
      var daily := stats.daily;
      if today !in daily {
        daily := daily[today := 0];
      }
      match action
      case StartAction =>
        daily := daily[today := daily[today] + 1];
        stats := Stats(stats.totalStarts + 1, daily, Some(now), stats.lastStop);
      case StopAction =>
        stats := stats.(daily := daily, lastStop := Some(now));
    }

    method LogSession(start: int, end: int, startReason: string, stopReason: string)
      requires Valid()
      ensures Valid()
      modifies this`sessions
      ensures sessions == LastSessions(old(sessions) + [Session(start, end, startReason, stopReason)])
    {
      sessions := LastSessions(sessions + [Session(start, end, startReason, stopReason)]);
    }

    /** The running/stopped edge of one monitor cycle (before the status is recorded). */
    method TakeRunEdge(running: bool, now: int)
      requires Valid()
      modifies this`currentSessionStart, this`log, this`stats, this`sessions, this`deliveries
      ensures Valid()
      ensures var e := RunEdge(old(State()), running, now);
        && State() == e.state
        && OutsideNow() == ApplyAll(old(OutsideNow()), e.effects, listeners, now)
    {
      ghost var o0 := OutsideNow();
      if lastKnownStatus.None? || running == lastKnownStatus.value {
        return;
      }
      if running {
        if currentSessionStart.None? {
          currentSessionStart := Some(now);
        }
        LogEvent(SERVER_START, AUTO_DETECTED, now);
        ghost var o1 := OutsideNow();
        UpdateStats(StartAction, now);
        ghost var o2 := OutsideNow();
        DispatchEvent(ServerStart);
        assert o1 == Apply(o0, LogLine(SERVER_START, AUTO_DETECTED), listeners, now);
        assert o2 == Apply(o1, StatsUpdate(StartAction), listeners, now);
        assert OutsideNow() == Apply(o2, Dispatch(ServerStart), listeners, now);
        ApplyAllThree(o0, LogLine(SERVER_START, AUTO_DETECTED), StatsUpdate(StartAction), Dispatch(ServerStart), listeners, now);
      } else {
        ghost var logged := ClosingEffects(currentSessionStart, now, AUTO_DETECTED, AUTO_DETECTED);
        CloseSession(AUTO_DETECTED, AUTO_DETECTED, now);
        ghost var o0' := OutsideNow();
        LogEvent(SERVER_STOP, AUTO_DETECTED, now);
        ghost var o1 := OutsideNow();
        UpdateStats(StopAction, now);
        ghost var o2 := OutsideNow();
        DispatchEvent(ServerStop);
        assert o1 == Apply(o0', LogLine(SERVER_STOP, AUTO_DETECTED), listeners, now);
        assert o2 == Apply(o1, StatsUpdate(StopAction), listeners, now);
        assert OutsideNow() == Apply(o2, Dispatch(ServerStop), listeners, now);
        ApplyAllThree(o0', LogLine(SERVER_STOP, AUTO_DETECTED), StatsUpdate(StopAction), Dispatch(ServerStop), listeners, now);
        ApplyAllAppend(o0, logged, [LogLine(SERVER_STOP, AUTO_DETECTED), StatsUpdate(StopAction), Dispatch(ServerStop)], listeners, now);
      }
    }

    /** The health notifications of one monitor cycle. */
    method NotifyHealth(prev: Option<Health>, effective: Health, since: Option<int>, now: int)
      requires Valid()
      modifies this`log, this`deliveries
      ensures Valid()
      ensures OutsideNow() == ApplyAll(old(OutsideNow()), HealthEdge(prev, effective, since, now, healthGraceSeconds), listeners, now)
    {
      ghost var o0 := OutsideNow();
      if prev != Some(effective) {
        if effective == Unhealthy {
          if since.None? || now - since.value >= healthGraceSeconds {
            LogEvent(SERVER_HEALTH_ISSUE, UNHEALTHY_PERSISTED, now);
            ghost var o1 := OutsideNow();
            DispatchEvent(HealthUnhealthy);
            assert o1 == Apply(o0, LogLine(SERVER_HEALTH_ISSUE, UNHEALTHY_PERSISTED), listeners, now);
            assert OutsideNow() == Apply(o1, Dispatch(HealthUnhealthy), listeners, now);
            ApplyAllTwo(o0, LogLine(SERVER_HEALTH_ISSUE, UNHEALTHY_PERSISTED), Dispatch(HealthUnhealthy), listeners, now);
          }
        } else if effective == Running {
          DispatchEvent(HealthOk);
          assert OutsideNow() == Apply(o0, Dispatch(HealthOk), listeners, now);
          assert [Dispatch(HealthOk)][1..] == [];
        }
      }
    }

    /** One cycle of _monitor_server on one reading of the containers. */
    method MonitorCycle(loc: MonitorLocals, cs: seq<Snapshot>, now: int) returns (next: MonitorLocals)
      requires Valid()
      modifies this`lastKnownStatus, this`currentSessionStart, this`log, this`stats, this`sessions, this`deliveries
      ensures Valid()
      ensures var c := MonitorStep(old(State()), loc, cs, now, healthGraceSeconds);
        && State() == c.state && next == c.locals
        && OutsideNow() == ApplyAll(old(OutsideNow()), c.effects, listeners, now)
    {
      ghost var o0 := OutsideNow();
      var h := Consolidate(cs);
      var running := AnyRunning(cs);

      var since := loc.unhealthySince;
      if h == Unhealthy {
        if since.None? {
          since := Some(now);
        }
      } else {
        since := None;
      }
      var effective := h;
      if h == Unhealthy && since.Some? && now - since.value < healthGraceSeconds {
        effective := Starting;
      }

      TakeRunEdge(running, now);
      ghost var o1 := OutsideNow();
      NotifyHealth(loc.prevHealth, effective, since, now);
      lastKnownStatus := Some(running);
      next := MonitorLocals(since, Some(effective));
      ApplyAllAppend(o0, RunEdge(old(State()), running, now).effects,
                     HealthEdge(loc.prevHealth, effective, since, now, healthGraceSeconds), listeners, now);
    }

    /** start_server: the guards, then the request; a started watcher is returned for WatcherPoll. */
    method StartServer(cs: seq<Snapshot>, commandOk: bool, now: int) returns (r: StartResult, watcher: Option<Watcher>)
      requires Valid()
      modifies this`startPending, this`startRequestedAt, this`deliveries
      ensures Valid()
      ensures var s := StartStep(old(State()), cs, commandOk, now, startTimeout);
        && r == s.result && watcher == s.watcher && State() == s.state
        && OutsideNow() == ApplyAll(old(OutsideNow()), s.effects, listeners, now)
    {
      ghost var o0 := OutsideNow();
      if startPending {
        return StartAlreadyPending, None;
      }
      var alreadyRunning := AnyRunning(cs);
      if alreadyRunning || currentSessionStart.Some? {
        return AlreadyRunning, None;
      }
      if !commandOk {
        return StartError, None;
      }
      startPending := true;
      startRequestedAt := Some(now);
      DispatchEvent(ServerStart);
      assert OutsideNow() == Apply(o0, Dispatch(ServerStart), listeners, now);
      assert [Dispatch(ServerStart)][1..] == [];
      watcher := Some(NewWatcher(now, startTimeout));
      r := StartingUp;
    }

    /** Ends the start watcher with a failure: the log line, then the event. */
    method FailStart(reason: string, now: int)
      requires Valid()
      modifies this`startPending, this`log, this`deliveries
      ensures Valid()
      ensures State() == old(State()).(startPending := false)
      ensures OutsideNow() == ApplyAll(old(OutsideNow()), [LogLine(START_FAILED, reason), Dispatch(ManualStartFailed)], listeners, now)
    {
      ghost var o0 := OutsideNow();
      startPending := false;
      LogEvent(START_FAILED, reason, now);
      ghost var o1 := OutsideNow();
      DispatchEvent(ManualStartFailed);
      assert o1 == Apply(o0, LogLine(START_FAILED, reason), listeners, now);
      assert OutsideNow() == Apply(o1, Dispatch(ManualStartFailed), listeners, now);
      ApplyAllTwo(o0, LogLine(START_FAILED, reason), Dispatch(ManualStartFailed), listeners, now);
    }

    /** The start watcher confirming a running server, or noting a duplicate when a session is already open. */
    method ConfirmStart(now: int) returns (outcome: Outcome)
      requires Valid()
      modifies this`startPending, this`currentSessionStart, this`log, this`stats, this`deliveries
      ensures Valid()
      ensures old(currentSessionStart).None? ==>
        && outcome == Confirmed
        && State() == old(State()).(startPending := false, currentSessionStart := Some(now))
        && OutsideNow() == ApplyAll(old(OutsideNow()),
             [LogLine(SERVER_START_CONFIRMED, MANUAL_START_CONFIRMED), StatsUpdate(StartAction), Dispatch(ManualStartConfirmed)],
             listeners, now)
      ensures old(currentSessionStart).Some? ==>
        && outcome == DuplicateStart
        && State() == old(State()).(startPending := false)
        && OutsideNow() == ApplyAll(old(OutsideNow()),
             [LogLine(SERVER_START, MANUAL_START_IGNORED_DUPLICATE), Dispatch(ManualStartDuplicate)], listeners, now)
    {
      ghost var o0 := OutsideNow();
      startPending := false;
      if currentSessionStart.None? {
        currentSessionStart := Some(now);
        LogEvent(SERVER_START_CONFIRMED, MANUAL_START_CONFIRMED, now);
        ghost var o1 := OutsideNow();
        UpdateStats(StartAction, now);
        ghost var o2 := OutsideNow();
        DispatchEvent(ManualStartConfirmed);
        assert o1 == Apply(o0, LogLine(SERVER_START_CONFIRMED, MANUAL_START_CONFIRMED), listeners, now);
        assert o2 == Apply(o1, StatsUpdate(StartAction), listeners, now);
        assert OutsideNow() == Apply(o2, Dispatch(ManualStartConfirmed), listeners, now);
        ApplyAllThree(o0, LogLine(SERVER_START_CONFIRMED, MANUAL_START_CONFIRMED), StatsUpdate(StartAction),
                      Dispatch(ManualStartConfirmed), listeners, now);
        outcome := Confirmed;
      } else {
        LogEvent(SERVER_START, MANUAL_START_IGNORED_DUPLICATE, now);
        ghost var o1 := OutsideNow();
        DispatchEvent(ManualStartDuplicate);
        assert o1 == Apply(o0, LogLine(SERVER_START, MANUAL_START_IGNORED_DUPLICATE), listeners, now);
        assert OutsideNow() == Apply(o1, Dispatch(ManualStartDuplicate), listeners, now);
        ApplyAllTwo(o0, LogLine(SERVER_START, MANUAL_START_IGNORED_DUPLICATE), Dispatch(ManualStartDuplicate), listeners, now);
        outcome := DuplicateStart;
      }
    }

    /** One turn of the start watcher's loop; `ready` is the readiness check of this poll. */
    method WatcherPoll(w: Watcher, cs: seq<Snapshot>, ready: bool, now: int) returns (outcome: Outcome, next: Watcher)
      requires Valid()
      modifies this`startPending, this`currentSessionStart, this`log, this`stats, this`deliveries
      ensures Valid()
      ensures var p := WatcherStep(old(State()), w, cs, ready, now);
        && outcome == p.outcome && next == p.watcher && State() == p.state
        && OutsideNow() == ApplyAll(old(OutsideNow()), p.effects, listeners, now)
    {
      next := w;
      if !(startPending && now < w.deadline) {
        if startPending {
          FailStart(MANUAL_START_TIMEOUT, now);
          return TimedOut, next;
        }
        return Finished, next;
      }

      var anyRunning := AnyRunning(cs);
      var unhealthy := AnyUnhealthy(cs);
      if unhealthy {
        if next.lastUnhealthySeen.None? {
          next := next.(lastUnhealthySeen := Some(now));
        }
      } else {
        next := next.(lastUnhealthySeen := None);
      }

      if anyRunning {
        if unhealthy || AnyStateStarting(cs) {
          return Deferred, next;
        }
        var sinceRequest := if startRequestedAt.Some? then now - startRequestedAt.value else 0;
        if sinceRequest < SETTLE_DELAY {
          return Deferred, next;
        }
        if !ready {
          return Deferred, next;
        }
        outcome := ConfirmStart(now);
        return outcome, next;
      }

      if AnyExited(cs) {
        FailStart(CONTAINER_EXITED_DURING_START, now);
        return FailedExited, next;
      }

      if |cs| == 0 && now >= w.earlyFailDeadline {
        FailStart(NO_CONTAINERS_AFTER_START, now);
        return FailedNoContainers, next;
      }
      return Deferred, next;
    }

    /** Logs the open session, if there is one, and closes it. */
    method CloseSession(startReason: string, stopReason: string, now: int)
      requires Valid()
      modifies this`currentSessionStart, this`sessions
      ensures Valid()
      ensures State() == old(State()).(currentSessionStart := None)
      ensures OutsideNow() == ApplyAll(old(OutsideNow()), ClosingEffects(old(currentSessionStart), now, startReason, stopReason), listeners, now)
    {
      ghost var o0 := OutsideNow();
      if currentSessionStart.Some? {
        var s := Session(currentSessionStart.value, now, startReason, stopReason);
        LogSession(s.start, s.end, s.startReason, s.stopReason);
        assert OutsideNow() == Apply(o0, SessionLogged(s), listeners, now);
        assert [SessionLogged(s)][1..] == [];
        currentSessionStart := None;
      }
    }

    /** stop_server: on success, the event first, then the session, the log line and the stats. */
    method StopServer(commandOk: bool, now: int) returns (r: StopResult)
      requires Valid()
      modifies this`currentSessionStart, this`log, this`stats, this`sessions, this`deliveries
      ensures Valid()
      ensures r == StopStep(old(State()), commandOk, now).0
      ensures State() == StopStep(old(State()), commandOk, now).1.state
      ensures OutsideNow() == ApplyAll(old(OutsideNow()), StopStep(old(State()), commandOk, now).1.effects, listeners, now)
    {
      if !commandOk {
        return StopError;
      }
      ghost var o0 := OutsideNow();
      ghost var closing := ClosingEffects(currentSessionStart, now, MANUAL_START, MANUAL_STOP);
      DispatchEvent(ServerStop);
      ghost var o1 := OutsideNow();
      assert o1 == Apply(o0, Dispatch(ServerStop), listeners, now);
      assert [Dispatch(ServerStop)][1..] == [];
      CloseSession(MANUAL_START, MANUAL_STOP, now);
      ghost var o2 := OutsideNow();
      LogEvent(SERVER_STOP, MANUAL_STOP, now);
      ghost var o3 := OutsideNow();
      UpdateStats(StopAction, now);
      assert o3 == Apply(o2, LogLine(SERVER_STOP, MANUAL_STOP), listeners, now);
      assert OutsideNow() == Apply(o3, StatsUpdate(StopAction), listeners, now);
      ApplyAllTwo(o2, LogLine(SERVER_STOP, MANUAL_STOP), StatsUpdate(StopAction), listeners, now);
      ApplyAllAppend(o0, [Dispatch(ServerStop)], closing, listeners, now);
      ApplyAllAppend(o0, [Dispatch(ServerStop)] + closing, [LogLine(SERVER_STOP, MANUAL_STOP), StatsUpdate(StopAction)], listeners, now);
      r := StopOk;
    }
  }
}
