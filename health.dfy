/**
 * Container snapshots and the two ways minecraft.py turns a list of them into
 * one health value: the consolidated health of the monitor loop, which does
 * not depend on the order of the containers, and the status fold of
 * server_status, which does.
 *
 * A snapshot holds the Service, State and Health fields of one line of
 * `docker compose ps --format json`, with State and Health already lowercased.
 */
module Health {
  import opened Wrappers
  import opened Text

  datatype Snapshot = Snapshot(service: string, state: string, health: string)

  /** The four health values, worst last. The source spells them "stopped", "running", "starting", "unhealthy". */
  datatype Health = Stopped | Running | Starting | Unhealthy

  predicate IsUnhealthy(c: Snapshot) {
    Contains(c.health, "unhealthy")
  }

  predicate IsStarting(c: Snapshot) {
    Contains(c.health, "starting") || Contains(c.state, "starting")
  }

  predicate IsRunning(c: Snapshot) {
    c.state == "running"
  }

  /** A state the start watcher reads as a crashed container. */
  predicate IsExited(c: Snapshot) {
    Contains(c.state, "exited") || Contains(c.state, "dead")
  }

  /** any_running: some container's state is exactly "running". */
  predicate AnyRunning(cs: seq<Snapshot>) {
    exists i :: 0 <= i < |cs| && IsRunning(cs[i])
  }

  predicate AnyUnhealthy(cs: seq<Snapshot>) {
    exists i :: 0 <= i < |cs| && IsUnhealthy(cs[i])
  }

  predicate AnyStarting(cs: seq<Snapshot>) {
    exists i :: 0 <= i < |cs| && IsStarting(cs[i])
  }

  /** The start watcher looks for "starting" in the state field only. */
  predicate AnyStateStarting(cs: seq<Snapshot>) {
    exists i :: 0 <= i < |cs| && Contains(cs[i].state, "starting")
  }

  predicate AnyExited(cs: seq<Snapshot>) {
    exists i :: 0 <= i < |cs| && IsExited(cs[i])
  }

  /** The consolidated health computed at the top of every monitor cycle. */
  function Consolidate(cs: seq<Snapshot>): Health {
    if AnyUnhealthy(cs) then Unhealthy
    else if AnyStarting(cs) then Starting
    else if AnyRunning(cs) then Running
    else Stopped
  }

  function Severity(h: Health): nat {
    match h
    case Stopped => 0
    case Running => 1
    case Starting => 2
    case Unhealthy => 3
  }

  /** The worse of two health values. */
  function Worse(a: Health, b: Health): (r: Health)
    ensures (r == a || r == b) && Severity(r) >= Severity(a) && Severity(r) >= Severity(b)
  {
    if Severity(a) >= Severity(b) then a else b
  }

  /** The health one container would have on its own. */
  function Classify(c: Snapshot): Health {
    if IsUnhealthy(c) then Unhealthy
    else if IsStarting(c) then Starting
    else if IsRunning(c) then Running
    else Stopped
  }

  /** The worst per-container health, stopped for no containers. */
  function WorstOf(cs: seq<Snapshot>): Health {
    if cs == [] then Stopped else Worse(Classify(cs[0]), WorstOf(cs[1..]))
  }

  /** The consolidated health is the worst health of any one container. */
  lemma {:induction false} ConsolidateIsWorst(cs: seq<Snapshot>)
    ensures Consolidate(cs) == WorstOf(cs)
    decreases |cs|
  {
    if cs != [] {
      var rest := cs[1..];
      ConsolidateIsWorst(rest);
      assert forall i :: 0 <= i < |rest| ==> rest[i] == cs[i + 1];
      assert AnyUnhealthy(cs) <==> IsUnhealthy(cs[0]) || AnyUnhealthy(rest) by {
        if AnyUnhealthy(cs) && !IsUnhealthy(cs[0]) {
          var i :| 0 <= i < |cs| && IsUnhealthy(cs[i]);
          assert IsUnhealthy(rest[i - 1]);
        }
      }
      assert AnyStarting(cs) <==> IsStarting(cs[0]) || AnyStarting(rest) by {
        if AnyStarting(cs) && !IsStarting(cs[0]) {
          var i :| 0 <= i < |cs| && IsStarting(cs[i]);
          assert IsStarting(rest[i - 1]);
        }
      }
      assert AnyRunning(cs) <==> IsRunning(cs[0]) || AnyRunning(rest) by {
        if AnyRunning(cs) && !IsRunning(cs[0]) {
          var i :| 0 <= i < |cs| && IsRunning(cs[i]);
          assert IsRunning(rest[i - 1]);
        }
      }
    }
  }

  /** Splitting the containers into two groups: the whole is the worse of the parts. */
  lemma ConsolidateAppend(a: seq<Snapshot>, b: seq<Snapshot>)
    ensures Consolidate(a + b) == Worse(Consolidate(a), Consolidate(b))
  {
    var ab := a + b;
    assert forall i :: 0 <= i < |a| ==> ab[i] == a[i];
    assert forall i :: 0 <= i < |b| ==> ab[|a| + i] == b[i];
    assert AnyUnhealthy(ab) <==> AnyUnhealthy(a) || AnyUnhealthy(b) by {
      if AnyUnhealthy(ab) {
        var i :| 0 <= i < |ab| && IsUnhealthy(ab[i]);
        if i >= |a| { assert IsUnhealthy(b[i - |a|]); }
      }
    }
    assert AnyStarting(ab) <==> AnyStarting(a) || AnyStarting(b) by {
      if AnyStarting(ab) {
        var i :| 0 <= i < |ab| && IsStarting(ab[i]);
        if i >= |a| { assert IsStarting(b[i - |a|]); }
      }
    }
    assert AnyRunning(ab) <==> AnyRunning(a) || AnyRunning(b) by {
      if AnyRunning(ab) {
        var i :| 0 <= i < |ab| && IsRunning(ab[i]);
        if i >= |a| { assert IsRunning(b[i - |a|]); }
      }
    }
  }

  /** The order in which docker lists the containers does not matter to the monitor. */
  lemma ConsolidateOrderFree(a: seq<Snapshot>, b: seq<Snapshot>)
    ensures Consolidate(a + b) == Consolidate(b + a)
  {
    ConsolidateAppend(a, b);
    ConsolidateAppend(b, a);
  }

  // ---------------------------------------------------------------------------
  // server_status
  // ---------------------------------------------------------------------------

  /** server_status tests "running" as a substring of the state. */
  predicate StateRunning(c: Snapshot) {
    Contains(c.state, "running")
  }

  /**
   * One line of server_status: a starting container sets "starting"; a
   * running one sets "running" unless the status is already "starting", and
   * then "unhealthy" when its health says so; any other container leaves the
   * status as it was.
   */
  function StatusStep(status: Health, c: Snapshot): Health {
    if IsStarting(c) then Starting
    else if StateRunning(c) then
      var s := if status != Starting then Running else status;
      if IsUnhealthy(c) then Unhealthy else s
    else status
  }

  /** The status after reading all lines; None is a blank or unparsable line. */
  function StatusFold(lines: seq<Option<Snapshot>>): Health
    decreases |lines|
  {
    if lines == [] then Stopped
    else
      var status := StatusFold(lines[..|lines| - 1]);
      match lines[|lines| - 1]
      case None => status
      case Some(c) => StatusStep(status, c)
  }

  /** The decoded snapshots, in order. */
  function Parsed(lines: seq<Option<Snapshot>>): (cs: seq<Snapshot>)
    ensures |cs| <= |lines|
    decreases |lines|
  {
    if lines == [] then []
    else
      var cs := Parsed(lines[..|lines| - 1]);
      match lines[|lines| - 1]
      case None => cs
      case Some(c) => cs + [c]
  }

  /** A line server_status acts on. */
  predicate Relevant(o: Option<Snapshot>) {
    o.Some? && (IsStarting(o.value) || StateRunning(o.value))
  }

  predicate StartingLine(o: Option<Snapshot>) {
    o.Some? && IsStarting(o.value)
  }

  predicate UnhealthyRunningLine(o: Option<Snapshot>) {
    o.Some? && !IsStarting(o.value) && StateRunning(o.value) && IsUnhealthy(o.value)
  }

  predicate HealthyRunningLine(o: Option<Snapshot>) {
    o.Some? && !IsStarting(o.value) && StateRunning(o.value) && !IsUnhealthy(o.value)
  }

  /** The status is "stopped" exactly when no line is starting or running. */
  lemma {:induction false} StatusStoppedIff(lines: seq<Option<Snapshot>>)
    ensures StatusFold(lines) == Stopped <==> forall i :: 0 <= i < |lines| ==> !Relevant(lines[i])
    decreases |lines|
  {
    if lines != [] {
      var p := lines[..|lines| - 1];
      StatusStoppedIff(p);
      assert forall i :: 0 <= i < |p| ==> p[i] == lines[i];
    }
  }

  /** Line i is a running, unhealthy container and no later line is acted on. */
  predicate UnhealthyFrom(lines: seq<Option<Snapshot>>, i: int) {
    0 <= i < |lines| && UnhealthyRunningLine(lines[i]) && forall j :: i < j < |lines| ==> !Relevant(lines[j])
  }

  /** Line i is starting and every later line acted on is a healthy running container. */
  predicate StartingFrom(lines: seq<Option<Snapshot>>, i: int) {
    0 <= i < |lines| && StartingLine(lines[i])
      && forall j :: i < j < |lines| ==> !Relevant(lines[j]) || HealthyRunningLine(lines[j])
  }

  /** The status is "unhealthy" exactly when the last line acted on is a running, unhealthy, not starting container. */
  lemma {:induction false} StatusUnhealthyIff(lines: seq<Option<Snapshot>>)
    ensures StatusFold(lines) == Unhealthy <==> exists i :: UnhealthyFrom(lines, i)
    decreases |lines|
  {
    if lines != [] {
      var n := |lines| - 1;
      var p := lines[..n];
      StatusUnhealthyIff(p);
      assert forall i :: 0 <= i < |p| ==> p[i] == lines[i];
      if Relevant(lines[n]) {
        if UnhealthyRunningLine(lines[n]) {
          assert UnhealthyFrom(lines, n);
        } else {
          assert forall i :: !UnhealthyFrom(lines, i);
        }
      } else {
        if exists i :: UnhealthyFrom(lines, i) {
          var i :| UnhealthyFrom(lines, i);
          assert UnhealthyFrom(p, i);
        }
        if exists i :: UnhealthyFrom(p, i) {
          var i :| UnhealthyFrom(p, i);
          assert UnhealthyFrom(lines, i);
        }
      }
    }
  }

  /**
   * The status is "starting" exactly when some line is starting and every
   * line acted on after it is a healthy running container, which does not
   * override "starting".
   */
  lemma {:induction false} StatusStartingIff(lines: seq<Option<Snapshot>>)
    ensures StatusFold(lines) == Starting <==> exists i :: StartingFrom(lines, i)
    decreases |lines|
  {
    if lines != [] {
      var n := |lines| - 1;
      var p := lines[..n];
      StatusStartingIff(p);
      assert forall i :: 0 <= i < |p| ==> p[i] == lines[i];
      if StartingLine(lines[n]) {
        assert StartingFrom(lines, n);
      } else if UnhealthyRunningLine(lines[n]) {
        assert forall i :: !StartingFrom(lines, i);
      } else {
        if exists i :: StartingFrom(lines, i) {
          var i :| StartingFrom(lines, i);
          assert StartingFrom(p, i);
        }
        if exists i :: StartingFrom(p, i) {
          var i :| StartingFrom(p, i);
          assert StartingFrom(lines, i);
        }
      }
    }
  }

  /** What server_status returns: an error when docker fails, else the status and the decoded containers. */
  datatype StatusReport = StatusError | Report(status: Health, containers: seq<Snapshot>)

  /** server_status, reading the decoded lines of `docker compose ps` in order. */
  method ServerStatus(output: Option<seq<Option<Snapshot>>>) returns (r: StatusReport)
    ensures output.None? <==> r.StatusError?
    ensures output.Some? ==> r == Report(StatusFold(output.value), Parsed(output.value))
  {
    if output.None? {
      return StatusError;
    }
    var lines := output.value;
    var status := Stopped;
    var containers: seq<Snapshot> := [];
    for k := 0 to |lines|
      invariant status == StatusFold(lines[..k])
      invariant containers == Parsed(lines[..k])
    {
      assert lines[..k + 1][..k] == lines[..k];
      match lines[k]
      case None =>
      case Some(c) =>
        containers := containers + [c];
        if IsStarting(c) {
          status := Starting;
        } else if StateRunning(c) {
          if status != Starting {
            status := Running;
          }
          if IsUnhealthy(c) {
            status := Unhealthy;
          }
        }
    }
    assert lines[..|lines|] == lines;
    return Report(status, containers);
  }

  /** _is_server_ready: server_status reports "running". */
  predicate Ready(output: Option<seq<Option<Snapshot>>>) {
    output.Some? && StatusFold(output.value) == Running
  }

  /** Reading one more line is one more status step. */
  lemma StatusFoldSnoc(lines: seq<Option<Snapshot>>, c: Snapshot)
    ensures StatusFold(lines + [Some(c)]) == StatusStep(StatusFold(lines), c)
  {
    assert (lines + [Some(c)])[..|lines|] == lines;
  }

  /** A crashed-looking running container and a booting one, as docker may list them. */
  const SICK: Snapshot := Snapshot("mc", "running", "unhealthy")
  const BOOTING: Snapshot := Snapshot("proxy", "starting", "")

  lemma SickAndBooting()
    ensures !IsStarting(SICK) && StateRunning(SICK) && IsUnhealthy(SICK)
    ensures IsStarting(BOOTING)
  {
    ContainsPrefix("running", "running");
    ContainsPrefix("unhealthy", "unhealthy");
    ContainsPrefix("starting", "starting");
    NotContainsWithoutFirst("running", "starting");
    NotContainsWithoutFirst("unhealthy", "starting");
  }

  /** Two status steps from "stopped". */
  lemma StatusFoldPair(a: Snapshot, b: Snapshot)
    ensures StatusFold([Some(a), Some(b)]) == StatusStep(StatusStep(Stopped, a), b)
  {
    StatusFoldSnoc([], a);
    StatusFoldSnoc([Some(a)], b);
    assert [] + [Some(a)] == [Some(a)];
    assert [Some(a)] + [Some(b)] == [Some(a), Some(b)];
  }

  /** Two containers that are each unhealthy or not. */
  lemma ConsolidatePair(a: Snapshot, b: Snapshot)
    requires IsUnhealthy(a)
    ensures Consolidate([a, b]) == Consolidate([b, a]) == Unhealthy
  {
    assert IsUnhealthy([a, b][0]);
    assert IsUnhealthy([b, a][1]);
  }

  /**
   * server_status depends on the order of the lines: the same two containers
   * read "unhealthy" in one order and "starting" in the other, while the
   * monitor's consolidated health is "unhealthy" both ways.
   */
  lemma StatusOrderMatters()
    ensures StatusFold([Some(BOOTING), Some(SICK)]) == Unhealthy
    ensures StatusFold([Some(SICK), Some(BOOTING)]) == Starting
    ensures Consolidate([SICK, BOOTING]) == Consolidate([BOOTING, SICK]) == Unhealthy
  {
    SickAndBooting();
    StatusFoldPair(BOOTING, SICK);
    StatusFoldPair(SICK, BOOTING);
    ConsolidatePair(SICK, BOOTING);
  }
}
