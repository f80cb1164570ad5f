/**
 * The decisions MinecraftServerManager (minecraft.py) takes, as transitions
 * over its state record. Containers, the outcome of the docker command, the
 * readiness check and the clock are parameters; what the manager does to the
 * outside world (log lines, stats updates, saved sessions, events for the
 * listeners) is returned as a list of effects, in the order the source
 * performs them. Every effect of one step happens at that step's `now`.
 */
module ManagerLogic {
  import opened Wrappers
  import opened Health
  import opened UptimeLog

  // ---------------------------------------------------------------------------
  // Events and listeners
  // ---------------------------------------------------------------------------

  /** The "type" of the events the manager dispatches. */
  datatype EventKind =
    | ServerStart
    | ServerStop
    | HealthUnhealthy
    | HealthOk
    | ManualStartConfirmed
    | ManualStartDuplicate
    | ManualStartFailed

  function KindName(k: EventKind): string {
    match k
    case ServerStart => "server_start"
    case ServerStop => "server_stop"
    case HealthUnhealthy => "health_unhealthy"
    case HealthOk => "health_ok"
    case ManualStartConfirmed => "manual_start_confirmed"
    case ManualStartDuplicate => "manual_start_duplicate"
    case ManualStartFailed => "manual_start_failed"
  }

  /** Receivers can tell the kinds apart by name. */
  lemma KindNameInjective(a: EventKind, b: EventKind)
    ensures KindName(a) == KindName(b) ==> a == b
  {
    if KindName(a) == KindName(b) {
      assert KindName(a)[..8] == KindName(b)[..8];
      assert |KindName(a)| == |KindName(b)|;
      assert KindName(a)[|KindName(a)| - 4..] == KindName(b)[|KindName(b)| - 4..];
    }
  }

  /** A listener, compared by identity; values that are not callable are never registered. */
  datatype Callback = Callback(id: nat, isCallable: bool)

  /** register_event_listener: a callable not yet present goes at the end. */
  function Registered(ls: seq<Callback>, cb: Callback): seq<Callback> {
    if !cb.isCallable || cb in ls then ls else ls + [cb]
  }

  /** Python's list.remove: the first occurrence goes. */
  function RemoveFirst<T(==)>(s: seq<T>, x: T): seq<T> {
    if s == [] then []
    else if s[0] == x then s[1..]
    else [s[0]] + RemoveFirst(s[1..], x)
  }

  /** unregister_event_listener: a listener present is removed; an absent one changes nothing. */
  function Unregistered(ls: seq<Callback>, cb: Callback): seq<Callback> {
    if cb in ls then RemoveFirst(ls, cb) else ls
  }

  /** The registry never holds a listener twice, and registering again changes nothing. */
  lemma RegisteredNoDup(ls: seq<Callback>, cb: Callback)
    requires NoDup(ls)
    ensures NoDup(Registered(ls, cb))
    ensures Registered(Registered(ls, cb), cb) == Registered(ls, cb)
    ensures cb.isCallable ==> cb in Registered(ls, cb)
  {
  }

  /** Removing the first occurrence takes out exactly that element; everything before and after keeps its order. */
  lemma {:induction false} RemoveFirstSplits<T>(s: seq<T>, x: T)
    requires x in s
    ensures RemoveFirst(s, x) == s[..IndexOf(s, x)] + s[IndexOf(s, x) + 1..]
  {
    var i := IndexOf(s, x);
    if s[0] == x {
      IndexOfUnique(s, x, 0);
      assert s[..0] == [];
    } else {
      var t := s[1..];
      assert x in t by { assert s[i] == t[i - 1]; }
      var j := IndexOf(t, x);
      assert s[..j + 1] == [s[0]] + t[..j];
      IndexOfUnique(s, x, j + 1);
      RemoveFirstSplits(t, x);
      assert s[j + 2..] == t[j + 1..];
    }
  }

  /** Removing the first occurrence takes one copy of x out of the multiset. */
  lemma RemoveFirstMultiset<T>(s: seq<T>, x: T)
    requires x in s
    ensures multiset(RemoveFirst(s, x)) == multiset(s) - multiset{x}
  {
    RemoveFirstSplits(s, x);
    var i := IndexOf(s, x);
    assert s == s[..i] + [x] + s[i + 1..];
  }

  /** Without duplicates, the removed element is gone and the rest stays duplicate-free. */
  lemma RemoveFirstNoDup<T>(s: seq<T>, x: T)
    requires NoDup(s) && x in s
    ensures NoDup(RemoveFirst(s, x)) && x !in RemoveFirst(s, x)
  {
    RemoveFirstSplits(s, x);
    var i := IndexOf(s, x);
    var r := s[..i] + s[i + 1..];
    assert |r| == |s| - 1;
    forall k | 0 <= k < |r|
      ensures r[k] == s[if k < i then k else k + 1] && r[k] != x
    {
      if k < i {
        assert r[k] == s[..i][k];
      } else {
        assert r[k] == s[i + 1..][k - i];
      }
    }
  }

  /** Unregistering undoes registering a listener that was not there. */
  lemma {:induction false} UnregisterUndoesRegister(ls: seq<Callback>, cb: Callback)
    requires cb !in ls && cb.isCallable
    ensures Unregistered(Registered(ls, cb), cb) == ls
  {
    RemoveFirstOfAppend(ls, cb);
  }

  lemma {:induction false} RemoveFirstOfAppend<T>(s: seq<T>, x: T)
    requires x !in s
    ensures RemoveFirst(s + [x], x) == s
  {
    if s == [] {
      assert [] + [x] == [x];
    } else {
      assert (s + [x])[1..] == s[1..] + [x];
      RemoveFirstOfAppend(s[1..], x);
      assert [s[0]] + s[1..] == s;
    }
  }

  /** Unregistering keeps the registry duplicate-free. */
  lemma UnregisteredNoDup(ls: seq<Callback>, cb: Callback)
    requires NoDup(ls)
    ensures NoDup(Unregistered(ls, cb)) && cb !in Unregistered(ls, cb)
  {
    if cb in ls {
      RemoveFirstNoDup(ls, cb);
    }
  }

  /** What happens to the outside world, in order. */
  datatype Effect =
    | LogLine(event: string, reason: string)
    | StatsUpdate(action: StatAction)
    | SessionLogged(session: Session)
    | Dispatch(kind: EventKind)

  // ---------------------------------------------------------------------------
  // Manager state
  // ---------------------------------------------------------------------------

  datatype ManagerState = ManagerState(
    lastKnownStatus: Option<bool>,
    currentSessionStart: Option<int>,
    startPending: bool,
    startRequestedAt: Option<int>)

  const INITIAL: ManagerState := ManagerState(None, None, false, None)

  /** A state change with the effects that go with it. */
  datatype Step = Step(state: ManagerState, effects: seq<Effect>)

  // ---------------------------------------------------------------------------
  // One monitor cycle
  // ---------------------------------------------------------------------------

  /** The locals _monitor_server carries from one cycle to the next. */
  datatype MonitorLocals = MonitorLocals(unhealthySince: Option<int>, prevHealth: Option<Health>)

  const MONITOR_START: MonitorLocals := MonitorLocals(None, None)

  /** unhealthy_since: set on the first unhealthy cycle, kept while unhealthy, cleared otherwise. */
  function TrackUnhealthy(since: Option<int>, h: Health, now: int): Option<int> {
    if h == Unhealthy then (if since.None? then Some(now) else since) else None
  }

  /** The grace window: an unhealthy reading younger than the grace period counts as starting. */
  function EffectiveHealth(h: Health, since: Option<int>, now: int, grace: int): Health {
    if h == Unhealthy && since.Some? && now - since.value < grace then Starting else h
  }

  /** Closing the open session, if there is one, logs it with the given reasons. */
  function ClosingEffects(start: Option<int>, now: int, startReason: string, stopReason: string): seq<Effect> {
    if start.Some? then [SessionLogged(Session(start.value, now, startReason, stopReason))] else []
  }

  /** The running/stopped edge, taken only when the previous status is known and differs. */
  function RunEdge(st: ManagerState, running: bool, now: int): Step {
    if st.lastKnownStatus.None? || st.lastKnownStatus.value == running then Step(st, [])
    else if running then
      var session := if st.currentSessionStart.None? then Some(now) else st.currentSessionStart;
      Step(st.(currentSessionStart := session),
           [LogLine(SERVER_START, AUTO_DETECTED), StatsUpdate(StartAction), Dispatch(ServerStart)])
    else
      Step(st.(currentSessionStart := None),
           ClosingEffects(st.currentSessionStart, now, AUTO_DETECTED, AUTO_DETECTED) + [LogLine(SERVER_STOP, AUTO_DETECTED), StatsUpdate(StopAction), Dispatch(ServerStop)])
  }

  /** Health notifications, sent only when the effective health changes. */
  function HealthEdge(prev: Option<Health>, eff: Health, since: Option<int>, now: int, grace: int): seq<Effect> {
    if prev == Some(eff) then []
    else if eff == Unhealthy then
      if since.None? || now - since.value >= grace
      then [LogLine(SERVER_HEALTH_ISSUE, UNHEALTHY_PERSISTED), Dispatch(HealthUnhealthy)]
      else []
    else if eff == Running then [Dispatch(HealthOk)]
    else []
  }

  datatype Cycle = Cycle(state: ManagerState, locals: MonitorLocals, effects: seq<Effect>)

  /** The body of the _monitor_server loop for one reading of the containers. */
  function MonitorStep(st: ManagerState, loc: MonitorLocals, cs: seq<Snapshot>, now: int, grace: int): Cycle {
    var h := Consolidate(cs);
    var running := AnyRunning(cs);
    var since := TrackUnhealthy(loc.unhealthySince, h, now);
    var eff := EffectiveHealth(h, since, now, grace);
    var edge := RunEdge(st, running, now);
    Cycle(edge.state.(lastKnownStatus := Some(running)),
          MonitorLocals(since, Some(eff)),
          edge.effects + HealthEdge(loc.prevHealth, eff, since, now, grace))
  }

  /** The monitor sends health_unhealthy exactly when the effective health turns unhealthy, and health_ok exactly when it turns running. */
  lemma MonitorHealthEvents(st: ManagerState, loc: MonitorLocals, cs: seq<Snapshot>, now: int, grace: int)
    ensures var c := MonitorStep(st, loc, cs, now, grace); var eff := c.locals.prevHealth.value;
      && c.locals.prevHealth.Some?
      && (Dispatch(HealthUnhealthy) in c.effects <==> eff == Unhealthy && loc.prevHealth != Some(Unhealthy))
      && (Dispatch(HealthOk) in c.effects <==> eff == Running && loc.prevHealth != Some(Running))
  {
    var c := MonitorStep(st, loc, cs, now, grace);
    var edge := RunEdge(st, AnyRunning(cs), now);
    assert Dispatch(HealthUnhealthy) !in edge.effects && Dispatch(HealthOk) !in edge.effects;
  }

  /** While an unhealthy reading is younger than the grace period, it is reported as starting and nothing is sent about it. */
  lemma GraceWindowSilent(st: ManagerState, loc: MonitorLocals, cs: seq<Snapshot>, now: int, grace: int)
    requires Consolidate(cs) == Unhealthy
    requires loc.unhealthySince.Some? ==> now - loc.unhealthySince.value < grace
    requires grace > 0
    ensures var c := MonitorStep(st, loc, cs, now, grace);
      && c.locals.unhealthySince == (if loc.unhealthySince.Some? then loc.unhealthySince else Some(now))
      && c.locals.prevHealth == Some(Starting)
      && Dispatch(HealthUnhealthy) !in c.effects && Dispatch(HealthOk) !in c.effects
  {
    MonitorHealthEvents(st, loc, cs, now, grace);
  }

  /** The running/stopped edge fires only when the last known status is known and differs. */
  lemma NoRunEdge(st: ManagerState, loc: MonitorLocals, cs: seq<Snapshot>, now: int, grace: int)
    requires st.lastKnownStatus.None? || st.lastKnownStatus == Some(AnyRunning(cs))
    ensures var c := MonitorStep(st, loc, cs, now, grace);
      && c.state == st.(lastKnownStatus := Some(AnyRunning(cs)))
      && (forall e :: e in c.effects ==> (e.LogLine? ==> e.event == SERVER_HEALTH_ISSUE))
      && (forall e :: e in c.effects ==> !e.StatsUpdate? && !e.SessionLogged?)
  {
  }

  /**
   * A stopped-to-running edge opens a session only when none is open, but it
   * always logs SERVER_START and counts a start.
   */
  lemma ToRunningEdge(st: ManagerState, loc: MonitorLocals, cs: seq<Snapshot>, now: int, grace: int)
    requires st.lastKnownStatus == Some(false) && AnyRunning(cs)
    ensures var c := MonitorStep(st, loc, cs, now, grace);
      && c.state.currentSessionStart == (if st.currentSessionStart.None? then Some(now) else st.currentSessionStart)
      && c.state.lastKnownStatus == Some(true)
      && c.state.startPending == st.startPending && c.state.startRequestedAt == st.startRequestedAt
      && c.effects[..3] == [LogLine(SERVER_START, AUTO_DETECTED), StatsUpdate(StartAction), Dispatch(ServerStart)]
      && forall e :: e in c.effects ==> !e.SessionLogged?
  {
  }

  /** A running-to-stopped edge records the open session, if any, and closes it. */
  lemma ToStoppedEdge(st: ManagerState, loc: MonitorLocals, cs: seq<Snapshot>, now: int, grace: int)
    requires st.lastKnownStatus == Some(true) && !AnyRunning(cs)
    ensures var c := MonitorStep(st, loc, cs, now, grace);
      && c.state.currentSessionStart.None?
      && c.state.lastKnownStatus == Some(false)
      && (SessionLogged(Session(st.currentSessionStart.value, now, AUTO_DETECTED, AUTO_DETECTED)) in c.effects <== st.currentSessionStart.Some?)
      && (st.currentSessionStart.None? ==> forall e :: e in c.effects ==> !e.SessionLogged?)
      && StatsUpdate(StopAction) in c.effects && Dispatch(ServerStop) in c.effects
      && StatsUpdate(StartAction) !in c.effects
  {
    var logged := if st.currentSessionStart.Some?
      then [SessionLogged(Session(st.currentSessionStart.value, now, AUTO_DETECTED, AUTO_DETECTED))]
      else [];
    var c := MonitorStep(st, loc, cs, now, grace);
    assert c.effects[|logged| + 1] == StatsUpdate(StopAction);
    assert c.effects[|logged| + 2] == Dispatch(ServerStop);
  }

  // ---------------------------------------------------------------------------
  // A run of monitor cycles
  // ---------------------------------------------------------------------------

  datatype Tick = Tick(cs: seq<Snapshot>, now: int)

  /** Cycles one after the other; the effects add up in order. */
  function MonitorRun(st: ManagerState, loc: MonitorLocals, ticks: seq<Tick>, grace: int): Cycle
    decreases |ticks|
  {
    if ticks == [] then Cycle(st, loc, [])
    else
      var c := MonitorStep(st, loc, ticks[0].cs, ticks[0].now, grace);
      var rest := MonitorRun(c.state, c.locals, ticks[1..], grace);
      Cycle(rest.state, rest.locals, c.effects + rest.effects)
  }

  /** The number of times e occurs in es. */
  function Count(es: seq<Effect>, e: Effect): nat {
    if es == [] then 0 else (if es[0] == e then 1 else 0) + Count(es[1..], e)
  }

  lemma {:induction false} CountAppend(a: seq<Effect>, b: seq<Effect>, e: Effect)
    ensures Count(a + b, e) == Count(a, e) + Count(b, e)
  {
    if a != [] {
      assert (a + b)[1..] == a[1..] + b;
      CountAppend(a[1..], b, e);
    } else {
      assert a + b == b;
    }
  }

  lemma {:induction false} CountAbsent(es: seq<Effect>, e: Effect)
    requires e !in es
    ensures Count(es, e) == 0
  {
    if es != [] {
      CountAbsent(es[1..], e);
    }
  }

  predicate UnhealthyTicks(ticks: seq<Tick>) {
    forall i :: 0 <= i < |ticks| ==> Consolidate(ticks[i].cs) == Unhealthy
  }

  /** The tick times never go back, and none is before from. */
  predicate NonDecreasing(ticks: seq<Tick>, from: int) {
    && (forall i :: 0 <= i < |ticks| ==> from <= ticks[i].now)
    && (forall i, j :: 0 <= i <= j < |ticks| ==> ticks[i].now <= ticks[j].now)
  }

  /** Monitor locals in which an unhealthy period older than the grace period has already been reported. */
  predicate Reported(loc: MonitorLocals, from: int, grace: int) {
    loc.prevHealth == Some(Unhealthy) && loc.unhealthySince.Some? && from - loc.unhealthySince.value >= grace
  }

  /** Within an unhealthy period, unhealthy_since stays at the time of its first cycle. */
  predicate SinceBefore(loc: MonitorLocals, from: int) {
    loc.unhealthySince.Some? ==> loc.unhealthySince.value <= from
  }

  /**
   * However long the containers stay unhealthy, the monitor sends
   * health_unhealthy at most once; none at all when the period was already
   * reported.
   */
  lemma {:induction false} UnhealthyReportedOnce(st: ManagerState, loc: MonitorLocals, ticks: seq<Tick>, from: int, grace: int)
    requires UnhealthyTicks(ticks) && NonDecreasing(ticks, from)
    requires SinceBefore(loc, from)
    requires loc.prevHealth == Some(Unhealthy) ==> Reported(loc, from, grace)
    ensures Count(MonitorRun(st, loc, ticks, grace).effects, Dispatch(HealthUnhealthy)) <= (if Reported(loc, from, grace) then 0 else 1)
    decreases |ticks|
  {
    if ticks != [] {
      var t := ticks[0];
      var c := MonitorStep(st, loc, t.cs, t.now, grace);
      var rest := ticks[1..];
      assert UnhealthyTicks(rest) by {
        forall i | 0 <= i < |rest| ensures Consolidate(rest[i].cs) == Unhealthy {
          assert rest[i] == ticks[i + 1];
        }
      }
      assert NonDecreasing(rest, t.now) by {
        assert forall i :: 0 <= i < |rest| ==> rest[i] == ticks[i + 1];
      }
      assert Consolidate(t.cs) == Unhealthy;
      UnhealthyStepCount(st, loc, t.cs, t.now, from, grace);
      UnhealthyReportedOnce(c.state, c.locals, rest, t.now, grace);
      CountAppend(c.effects, MonitorRun(c.state, c.locals, rest, grace).effects, Dispatch(HealthUnhealthy));
    }
  }

  /** One unhealthy cycle: what it sends and the locals it leaves for the next. */
  lemma UnhealthyStepCount(st: ManagerState, loc: MonitorLocals, cs: seq<Snapshot>, now: int, from: int, grace: int)
    requires Consolidate(cs) == Unhealthy && from <= now
    requires SinceBefore(loc, from)
    requires loc.prevHealth == Some(Unhealthy) ==> Reported(loc, from, grace)
    ensures var c := MonitorStep(st, loc, cs, now, grace);
      && SinceBefore(c.locals, now)
      && (c.locals.prevHealth == Some(Unhealthy) ==> Reported(c.locals, now, grace))
      && Count(c.effects, Dispatch(HealthUnhealthy)) == (if Reported(c.locals, now, grace) && !Reported(loc, from, grace) then 1 else 0)
  {
    var c := MonitorStep(st, loc, cs, now, grace);
    var edge := RunEdge(st, AnyRunning(cs), now);
    var health := HealthEdge(loc.prevHealth, c.locals.prevHealth.value, c.locals.unhealthySince, now, grace);
    CountAppend(edge.effects, health, Dispatch(HealthUnhealthy));
    assert Dispatch(HealthUnhealthy) !in edge.effects;
    CountAbsent(edge.effects, Dispatch(HealthUnhealthy));
    if health != [] && health[0].LogLine? {
      assert health == [LogLine(SERVER_HEALTH_ISSUE, UNHEALTHY_PERSISTED), Dispatch(HealthUnhealthy)];
      assert health[1..] == [Dispatch(HealthUnhealthy)];
      assert health[1..][1..] == [];
      assert Count(health[1..], Dispatch(HealthUnhealthy)) == 1 + Count(health[1..][1..], Dispatch(HealthUnhealthy));
    } else {
      CountAbsent(health, Dispatch(HealthUnhealthy));
    }
  }

  /** unhealthy_since during an unhealthy period is the time of its first cycle. */
  lemma {:induction false} UnhealthySinceIsFirst(st: ManagerState, loc: MonitorLocals, ticks: seq<Tick>, grace: int)
    requires UnhealthyTicks(ticks) && ticks != [] && loc.unhealthySince.None?
    ensures MonitorRun(st, loc, ticks, grace).locals.unhealthySince == Some(ticks[0].now)
    decreases |ticks|
  {
    var c := MonitorStep(st, loc, ticks[0].cs, ticks[0].now, grace);
    KeepsSince(c.state, c.locals, ticks[1..], grace);
  }

  lemma {:induction false} KeepsSince(st: ManagerState, loc: MonitorLocals, ticks: seq<Tick>, grace: int)
    requires UnhealthyTicks(ticks) && loc.unhealthySince.Some?
    ensures MonitorRun(st, loc, ticks, grace).locals.unhealthySince == loc.unhealthySince
    decreases |ticks|
  {
    if ticks != [] {
      var c := MonitorStep(st, loc, ticks[0].cs, ticks[0].now, grace);
      assert UnhealthyTicks(ticks[1..]) by {
        forall i | 0 <= i < |ticks[1..]| ensures Consolidate(ticks[1..][i].cs) == Unhealthy {
          assert ticks[1..][i] == ticks[i + 1];
        }
      }
      KeepsSince(c.state, c.locals, ticks[1..], grace);
    }
  }

  // ---------------------------------------------------------------------------
  // start_server
  // ---------------------------------------------------------------------------

  /** The seconds the start watcher waits before it reads "no containers" as a failure. */
  const EARLY_FAIL_WINDOW: int := 10

  /** The seconds after the request before the watcher may confirm. */
  const SETTLE_DELAY: int := 5

  /** The deadlines of one start watcher, and the last time it saw an unhealthy container. */
  datatype Watcher = Watcher(deadline: int, earlyFailDeadline: int, lastUnhealthySeen: Option<int>)

  function NewWatcher(now: int, timeout: int): Watcher {
    Watcher(now + timeout, now + EARLY_FAIL_WINDOW, None)
  }

  /** The "status" field start_server returns. */
  datatype StartResult = StartAlreadyPending | AlreadyRunning | StartError | StartingUp

  datatype Start = Start(result: StartResult, state: ManagerState, watcher: Option<Watcher>, effects: seq<Effect>)

  /** start_server, given the containers, whether `docker compose up -d` succeeded and the time. */
  function StartStep(st: ManagerState, cs: seq<Snapshot>, commandOk: bool, now: int, timeout: int): Start {
    if st.startPending then Start(StartAlreadyPending, st, None, [])
    else if AnyRunning(cs) || st.currentSessionStart.Some? then Start(AlreadyRunning, st, None, [])
    else if !commandOk then Start(StartError, st, None, [])
    else Start(StartingUp, st.(startPending := true, startRequestedAt := Some(now)), Some(NewWatcher(now, timeout)), [Dispatch(ServerStart)])
  }

  /** The guards of start_server, in order; only a successful command changes the state. */
  lemma StartGuards(st: ManagerState, cs: seq<Snapshot>, commandOk: bool, now: int, timeout: int)
    ensures var s := StartStep(st, cs, commandOk, now, timeout);
      && (st.startPending ==> s.result == StartAlreadyPending)
      && (!st.startPending && (AnyRunning(cs) || st.currentSessionStart.Some?) ==> s.result == AlreadyRunning)
      && (s.result == StartError <==> !st.startPending && !AnyRunning(cs) && st.currentSessionStart.None? && !commandOk)
      && (s.result != StartingUp ==> s.state == st && s.watcher.None? && s.effects == [])
      && (s.result == StartingUp ==>
            && s.state == st.(startPending := true, startRequestedAt := Some(now))
            && s.watcher == Some(Watcher(now + timeout, now + EARLY_FAIL_WINDOW, None))
            && s.effects == [Dispatch(ServerStart)])
      && (s.result == StartError ==> !s.state.startPending)
  {
  }

  // ---------------------------------------------------------------------------
  // One poll of the start watcher
  // ---------------------------------------------------------------------------

  datatype Outcome =
    | Deferred              // poll again later
    | Confirmed             // started, session opened
    | DuplicateStart        // started, but a session was already open
    | FailedExited          // a container exited or died
    | FailedNoContainers    // no containers after the early-fail window
    | TimedOut              // still pending at the deadline
    | Finished              // no longer pending: the watcher has returned

  predicate Terminal(o: Outcome) {
    !o.Deferred? && !o.Finished?
  }

  datatype Poll = Poll(outcome: Outcome, state: ManagerState, watcher: Watcher, effects: seq<Effect>)

  /** Seconds since the start request; 0 when no request time is recorded. */
  function SinceRequest(st: ManagerState, now: int): int {
    if st.startRequestedAt.Some? then now - st.startRequestedAt.value else 0
  }

  /**
   * One turn of the _start_watcher loop, including its guard and the timeout
   * after it. `ready` is what _is_server_ready would answer in this poll.
   */
  function WatcherStep(st: ManagerState, w: Watcher, cs: seq<Snapshot>, ready: bool, now: int): Poll {
    if !(st.startPending && now < w.deadline) then
      if st.startPending
      then Poll(TimedOut, st.(startPending := false), w, [LogLine(START_FAILED, MANUAL_START_TIMEOUT), Dispatch(ManualStartFailed)])
      else Poll(Finished, st, w, [])
    else
      var seen := if AnyUnhealthy(cs) then (if w.lastUnhealthySeen.None? then Some(now) else w.lastUnhealthySeen) else None;
      var w' := w.(lastUnhealthySeen := seen);
      if AnyRunning(cs) then
        if AnyUnhealthy(cs) || AnyStateStarting(cs) || SinceRequest(st, now) < SETTLE_DELAY || !ready
        then Poll(Deferred, st, w', [])
        else if st.currentSessionStart.None?
        then Poll(Confirmed, st.(startPending := false, currentSessionStart := Some(now)), w',
                  [LogLine(SERVER_START_CONFIRMED, MANUAL_START_CONFIRMED), StatsUpdate(StartAction), Dispatch(ManualStartConfirmed)])
        else Poll(DuplicateStart, st.(startPending := false), w',
                  [LogLine(SERVER_START, MANUAL_START_IGNORED_DUPLICATE), Dispatch(ManualStartDuplicate)])
      else if AnyExited(cs)
      then Poll(FailedExited, st.(startPending := false), w', [LogLine(START_FAILED, CONTAINER_EXITED_DURING_START), Dispatch(ManualStartFailed)])
      else if |cs| == 0 && now >= w.earlyFailDeadline
      then Poll(FailedNoContainers, st.(startPending := false), w', [LogLine(START_FAILED, NO_CONTAINERS_AFTER_START), Dispatch(ManualStartFailed)])
      else Poll(Deferred, st, w', [])
  }

  /** The conditions under which one poll confirms the start, all in the same poll. */
  predicate ConfirmConditions(st: ManagerState, w: Watcher, cs: seq<Snapshot>, ready: bool, now: int) {
    && st.startPending && now < w.deadline
    && AnyRunning(cs) && !AnyUnhealthy(cs) && !AnyStateStarting(cs)
    && SinceRequest(st, now) >= SETTLE_DELAY && ready
  }

  /** A poll confirms (as a new session or a duplicate) exactly when all confirmation conditions hold. */
  lemma WatcherConfirmIff(st: ManagerState, w: Watcher, cs: seq<Snapshot>, ready: bool, now: int)
    ensures var p := WatcherStep(st, w, cs, ready, now);
      (p.outcome.Confirmed? || p.outcome.DuplicateStart?) <==> ConfirmConditions(st, w, cs, ready, now)
    ensures var p := WatcherStep(st, w, cs, ready, now);
      p.outcome.Confirmed? <==> ConfirmConditions(st, w, cs, ready, now) && st.currentSessionStart.None?
  {
  }

  /** Every terminal path clears start_pending; a deferred or finished poll leaves the state alone and has no effects. */
  lemma WatcherPending(st: ManagerState, w: Watcher, cs: seq<Snapshot>, ready: bool, now: int)
    ensures var p := WatcherStep(st, w, cs, ready, now);
      && (Terminal(p.outcome) ==> st.startPending && !p.state.startPending && |p.effects| >= 2)
      && (!Terminal(p.outcome) ==> p.state == st && p.effects == [])
      && (p.outcome.Finished? <==> !st.startPending)
      && p.state.startRequestedAt == st.startRequestedAt
      && p.state.lastKnownStatus == st.lastKnownStatus
  {
  }

  /** The failure checks are reached only when nothing is running. */
  lemma WatcherFailures(st: ManagerState, w: Watcher, cs: seq<Snapshot>, ready: bool, now: int)
    ensures var p := WatcherStep(st, w, cs, ready, now);
      && (p.outcome.FailedExited? ==> !AnyRunning(cs) && AnyExited(cs) && now < w.deadline)
      && (p.outcome.FailedNoContainers? ==> cs == [] && w.earlyFailDeadline <= now < w.deadline)
      && (p.outcome.TimedOut? <==> st.startPending && now >= w.deadline)
  {
  }

  /** A confirmation while a session is already open leaves the session and the stats alone. */
  lemma DuplicateKeepsSession(st: ManagerState, w: Watcher, cs: seq<Snapshot>, ready: bool, now: int)
    requires WatcherStep(st, w, cs, ready, now).outcome.DuplicateStart?
    ensures var p := WatcherStep(st, w, cs, ready, now);
      && p.state == st.(startPending := false)
      && forall e :: e in p.effects ==> !e.StatsUpdate? && !e.SessionLogged?
  {
  }

  /** Once a poll has ended the watch, every later poll finds nothing to do. */
  lemma AfterTerminalFinished(st: ManagerState, w: Watcher, cs: seq<Snapshot>, ready: bool, now: int,
                              cs': seq<Snapshot>, ready': bool, now': int)
    requires Terminal(WatcherStep(st, w, cs, ready, now).outcome)
    ensures var p := WatcherStep(st, w, cs, ready, now);
      WatcherStep(p.state, p.watcher, cs', ready', now') == Poll(Finished, p.state, p.watcher, [])
  {
  }

  /** The watcher's own defer test reads "starting" only in the state: a container whose health is "starting" does not hold back confirmation. */
  lemma HealthStartingDoesNotDefer(st: ManagerState, w: Watcher, now: int, c: Snapshot)
    requires st.startPending && now < w.deadline && st.currentSessionStart.None?
    requires st.startRequestedAt == Some(now - SETTLE_DELAY)
    requires IsRunning(c) && Text.Contains(c.health, "starting") && !IsUnhealthy(c) && !Text.Contains(c.state, "starting")
    ensures Consolidate([c]) == Starting
    ensures WatcherStep(st, w, [c], true, now).outcome == Confirmed
  {
    assert [c][0] == c;
    assert forall i :: 0 <= i < |[c]| ==> [c][i] == c;
  }

  /** A container reported as state "running", health "starting" is such a container. */
  lemma RunningWithHealthStarting()
    ensures var c := Snapshot("mc", "running", "starting");
      IsRunning(c) && Text.Contains(c.health, "starting") && !IsUnhealthy(c) && !Text.Contains(c.state, "starting")
  {
    Text.ContainsPrefix("starting", "starting");
    Text.NotContainsWithoutFirst("starting", "unhealthy");
    Text.NotContainsWithoutFirst("running", "starting");
  }

  // ---------------------------------------------------------------------------
  // stop_server
  // ---------------------------------------------------------------------------

  datatype StopResult = StopOk | StopError

  /** stop_server, given whether `docker compose down` succeeded. */
  function StopStep(st: ManagerState, commandOk: bool, now: int): (StopResult, Step) {
    if !commandOk then (StopError, Step(st, []))
    else
      (StopOk, Step(st.(currentSessionStart := None),
                    [Dispatch(ServerStop)] + ClosingEffects(st.currentSessionStart, now, MANUAL_START, MANUAL_STOP) + [LogLine(SERVER_STOP, MANUAL_STOP), StatsUpdate(StopAction)]))
  }

  /** A successful stop records the open session, closes it, and counts a stop; a failed one changes nothing. */
  lemma StopSession(st: ManagerState, commandOk: bool, now: int)
    ensures var (r, s) := StopStep(st, commandOk, now);
      && (r == StopOk <==> commandOk)
      && (!commandOk ==> s == Step(st, []))
      && (commandOk ==>
            && s.state == st.(currentSessionStart := None)
            && (st.currentSessionStart.Some? ==>
                  SessionLogged(Session(st.currentSessionStart.value, now, MANUAL_START, MANUAL_STOP)) in s.effects)
            && (st.currentSessionStart.None? ==> forall e :: e in s.effects ==> !e.SessionLogged?)
            && StatsUpdate(StopAction) in s.effects && StatsUpdate(StartAction) !in s.effects)
  {
    if commandOk {
      var (r, s) := StopStep(st, commandOk, now);
      var n := |s.effects|;
      assert s.effects[n - 1] == StatsUpdate(StopAction);
    }
  }

  // ---------------------------------------------------------------------------
  // A start counted twice
  // ---------------------------------------------------------------------------

  lemma CountThree(a: Effect, b: Effect, c: Effect, e: Effect)
    ensures Count([a, b, c], e) == (if a == e then 1 else 0) + (if b == e then 1 else 0) + (if c == e then 1 else 0)
  {
    assert [a, b, c][1..] == [b, c];
    assert [b, c][1..] == [c];
    assert [c][1..] == [];
    assert Count([c], e) == (if c == e then 1 else 0) + Count([], e);
    assert Count([b, c], e) == (if b == e then 1 else 0) + Count([c], e);
    assert Count([a, b, c], e) == (if a == e then 1 else 0) + Count([b, c], e);
  }

  /**
   * When the watcher confirms a manual start while the monitor still
   * remembers the server as stopped, the monitor's next cycle sees the
   * server running and takes the to-running edge too: the stats count two
   * starts, the log gets a second start line, and the one open session is
   * kept. The source does this as written.
   */
  lemma ConfirmThenEdgeCountsTwice(st: ManagerState, w: Watcher, cs: seq<Snapshot>, ready: bool, now: int,
                                   loc: MonitorLocals, later: int, grace: int)
    requires ConfirmConditions(st, w, cs, ready, now)
    requires st.currentSessionStart.None? && st.lastKnownStatus == Some(false)
    ensures var p := WatcherStep(st, w, cs, ready, now);
      var c := MonitorStep(p.state, loc, cs, later, grace);
      && Count(p.effects + c.effects, StatsUpdate(StartAction)) == 2
      && c.state.currentSessionStart == Some(now)
      && Count(p.effects + c.effects, Dispatch(ServerStart)) == 1
      && Count(p.effects + c.effects, Dispatch(ManualStartConfirmed)) == 1
  {
    var p := WatcherStep(st, w, cs, ready, now);
    var c := MonitorStep(p.state, loc, cs, later, grace);
    var edge := RunEdge(p.state, true, later).effects;
    var health := HealthEdge(loc.prevHealth, c.locals.prevHealth.value, c.locals.unhealthySince, later, grace);
    assert p.effects == [LogLine(SERVER_START_CONFIRMED, MANUAL_START_CONFIRMED), StatsUpdate(StartAction), Dispatch(ManualStartConfirmed)];
    assert edge == [LogLine(SERVER_START, AUTO_DETECTED), StatsUpdate(StartAction), Dispatch(ServerStart)];
    assert c.effects == edge + health;
    CountThree(p.effects[0], p.effects[1], p.effects[2], StatsUpdate(StartAction));
    CountThree(edge[0], edge[1], edge[2], StatsUpdate(StartAction));
    CountThree(p.effects[0], p.effects[1], p.effects[2], Dispatch(ServerStart));
    CountThree(edge[0], edge[1], edge[2], Dispatch(ServerStart));
    CountThree(p.effects[0], p.effects[1], p.effects[2], Dispatch(ManualStartConfirmed));
    CountThree(edge[0], edge[1], edge[2], Dispatch(ManualStartConfirmed));
    CountAppend(p.effects, c.effects, StatsUpdate(StartAction));
    CountAppend(edge, health, StatsUpdate(StartAction));
    CountAppend(p.effects, c.effects, Dispatch(ServerStart));
    CountAppend(edge, health, Dispatch(ServerStart));
    CountAppend(p.effects, c.effects, Dispatch(ManualStartConfirmed));
    CountAppend(edge, health, Dispatch(ManualStartConfirmed));
    forall e | e in health ensures e.LogLine? || e == Dispatch(HealthUnhealthy) || e == Dispatch(HealthOk) { }
    CountAbsent(health, StatsUpdate(StartAction));
    CountAbsent(health, Dispatch(ServerStart));
    CountAbsent(health, Dispatch(ManualStartConfirmed));
  }
}
