/** The circuit breaker in front of the shared cache tier: closed until enough calls have failed in a
    row, then open for a growing time, then half-open for a probe. The clock is an argument. */
module Breaker {
  import opened Option

  datatype Options = Options(threshold: nat, initialCooldown: nat, maxCooldown: nat)

  datatype State = State(failures: nat, probing: bool, cooldown: nat, openUntil: int)

  datatype Admission = Closed | Probe | Refused

  function Start(o: Options, epoch: int): State {
    State(0, false, o.initialCooldown, epoch)
  }

  /** May a call at `now` touch the shared tier, and as what? */
  function Ask(o: Options, s: State, now: int): Admission {
    if s.failures < o.threshold then Closed
    else if now < s.openUntil || s.probing then Refused
    else Probe
  }

  function Asked(o: Options, s: State, now: int): State {
    if Ask(o, s, now).Probe? then s.(probing := true) else s
  }

  function Succeeded(o: Options, s: State): State {
    s.(failures := 0, probing := false, cooldown := o.initialCooldown)
  }

  function Least(a: nat, b: nat): nat {
    if b < a then b else a
  }

  function Failed(o: Options, s: State, now: int): State {
    var counted := s.(failures := s.failures + 1, probing := false);
    if counted.failures < o.threshold then counted
    else
      var cooldown := if s.failures < o.threshold then o.initialCooldown else Least(2 * s.cooldown, o.maxCooldown);
      counted.(cooldown := cooldown, openUntil := now + cooldown)
  }

  // ----- The object ------------------------------------------------------------

  class CircuitBreaker {
    const options: Options
    var consecutiveFailures: nat
    var probeInFlight: bool
    var cooldown: nat
    var openUntil: int

    ghost function Current(): State
      reads this
    {
      State(consecutiveFailures, probeInFlight, cooldown, openUntil)
    }

    constructor (options: Options, epoch: int)
      ensures this.options == options && Current() == Start(options, epoch)
    {
      this.options := options;
      consecutiveFailures, probeInFlight, cooldown, openUntil := 0, false, options.initialCooldown, epoch;
    }

    method AllowShared(now: int) returns (allowed: bool)
      modifies this
      ensures allowed == !Ask(options, old(Current()), now).Refused?
      ensures Current() == Asked(options, old(Current()), now)
    {
      if consecutiveFailures < options.threshold {
        return true;
      }
      if now < openUntil {
        return false;
      }
      if probeInFlight {
        return false;
      }
      probeInFlight := true;
      allowed := true;
    }

    method RecordSuccess()
      modifies this
      ensures Current() == Succeeded(options, old(Current()))
    {
      consecutiveFailures, probeInFlight, cooldown := 0, false, options.initialCooldown;
    }

    method RecordFailure(now: int)
      modifies this
      ensures Current() == Failed(options, old(Current()), now)
    {
      var wasHealthy := consecutiveFailures < options.threshold;
      consecutiveFailures, probeInFlight := consecutiveFailures + 1, false;
      if consecutiveFailures < options.threshold {
        return;
      }
      cooldown := if wasHealthy then options.initialCooldown else Least(cooldown * 2, options.maxCooldown);
      openUntil := now + cooldown;
    }
  }

  // ----- Back-off of one caller after another ------------------------------------

  /** A caller asks at `at`; if it is admitted, its call fails at `failsAt`. */
  datatype Attempt = Attempt(at: int, failsAt: int)

  /** Callers one after the other, every shared call failing. */
  predicate Sequential(attempts: seq<Attempt>) {
    && (forall i :: 0 <= i < |attempts| ==> attempts[i].at <= attempts[i].failsAt)
    && (forall i, j :: 0 <= i < j < |attempts| ==> attempts[i].failsAt <= attempts[j].at)
  }

  /** The breaker, and the attempts that reached the shared tier. */
  datatype Trail = Trail(state: State, calls: seq<Attempt>)

  function Fail(o: Options, epoch: int, attempts: seq<Attempt>): Trail {
    if attempts == [] then Trail(Start(o, epoch), [])
    else Next(o, Fail(o, epoch, attempts[..|attempts| - 1]), attempts[|attempts| - 1])
  }

  function Power2(i: nat): nat {
    if i == 0 then 1 else 2 * Power2(i - 1)
  }

  /** The i-th wait: the initial one, doubling up to the cap. */
  function Wait(o: Options, i: nat): nat {
    if i == 0 then o.initialCooldown else Least(o.initialCooldown * Power2(i), o.maxCooldown)
  }

  function Waits(o: Options, k: nat): nat {
    if k == 0 then 0 else Waits(o, k - 1) + Wait(o, k - 1)
  }

  lemma WaitDoubles(o: Options, i: nat)
    ensures Least(2 * Wait(o, i), o.maxCooldown) == Wait(o, i + 1)
  {
    assert o.initialCooldown * Power2(i + 1) == 2 * (o.initialCooldown * Power2(i));
  }

  /** After n failed calls the breaker's fields are exactly these. */
  predicate Backed(o: Options, t: Trail)
    requires o.threshold > 0
  {
    var n := |t.calls|;
    && t.state.failures == n && !t.state.probing
    && (n >= o.threshold ==>
          && t.state.cooldown == Wait(o, n - o.threshold)
          && t.state.openUntil == t.calls[n - 1].failsAt + t.state.cooldown)
  }

  /** The calls that went out were spaced by the waits. */
  predicate Spaced(o: Options, calls: seq<Attempt>)
    requires o.threshold > 0
  {
    && (forall i :: 0 <= i < |calls| ==> calls[i].at <= calls[i].failsAt)
    && (forall i {:trigger calls[i]} :: o.threshold <= i < |calls| ==>
          calls[i].at >= calls[i - 1].failsAt + Wait(o, i - o.threshold))
  }

  /** One more attempt, after everything before it has been recorded. */
  function Next(o: Options, t: Trail, last: Attempt): Trail {
    if Ask(o, t.state, last.at).Refused? then t
    else Trail(Failed(o, Asked(o, t.state, last.at), last.failsAt), t.calls + [last])
  }

  lemma NextBacked(o: Options, t: Trail, last: Attempt)
    requires o.threshold > 0 && Backed(o, t)
    ensures Backed(o, Next(o, t, last))
  {
    hide Wait;
    FirstWait(o);
    if |t.calls| >= o.threshold {
      WaitDoubles(o, |t.calls| - o.threshold);
    }
  }

  /** A call that is let through behind an open window comes after it. */
  lemma NextIsLate(o: Options, t: Trail, last: Attempt)
    requires o.threshold > 0 && Backed(o, t) && !Ask(o, t.state, last.at).Refused? && |t.calls| >= o.threshold
    ensures last.at >= t.calls[|t.calls| - 1].failsAt + Wait(o, |t.calls| - o.threshold)
  {
    hide Wait;
  }

  lemma NextSpaced(o: Options, t: Trail, last: Attempt)
    requires o.threshold > 0 && Backed(o, t) && Spaced(o, t.calls) && last.at <= last.failsAt
    ensures Spaced(o, Next(o, t, last).calls)
  {
    hide Wait, Backed, Ask;
    if !Ask(o, t.state, last.at).Refused? {
      var calls, n := t.calls + [last], |t.calls|;
      if n >= o.threshold {
        NextIsLate(o, t, last);
      }
      forall i {:trigger calls[i]} | o.threshold <= i < |calls|
        ensures calls[i].at >= calls[i - 1].failsAt + Wait(o, i - o.threshold)
      {
        assert i < n ==> calls[i] == t.calls[i];
      }
    }
  }

  lemma {:induction false} FailBacks(o: Options, epoch: int, attempts: seq<Attempt>)
    requires o.threshold > 0 && Sequential(attempts)
    ensures Backed(o, Fail(o, epoch, attempts)) && Spaced(o, Fail(o, epoch, attempts).calls)
  {
    hide Wait, Next, Spaced;
    if attempts == [] {
      NothingSpaced(o);
    } else {
      var before, last := Fail(o, epoch, attempts[..|attempts| - 1]), attempts[|attempts| - 1];
      FailBacks(o, epoch, attempts[..|attempts| - 1]);
      NextBacked(o, before, last);
      NextSpaced(o, before, last);
    }
  }

  lemma NothingSpaced(o: Options)
    requires o.threshold > 0
    ensures Spaced(o, [])
  {
  }

  lemma FirstWait(o: Options)
    ensures Wait(o, 0) == o.initialCooldown
  {
  }

  /** The bound itself: the k-th call after the breaker opened starts no earlier than the failure that
      opened it plus the first k waits. */
  lemma {:induction false} BackOffBound(o: Options, epoch: int, attempts: seq<Attempt>, k: nat)
    requires o.threshold > 0 && Sequential(attempts)
    requires k > 0 && o.threshold - 1 + k < |Fail(o, epoch, attempts).calls|
    ensures
      var calls := Fail(o, epoch, attempts).calls;
      calls[o.threshold - 1 + k].at >= calls[o.threshold - 1].failsAt + Waits(o, k)
    decreases k
  {
    hide Wait, Fail;
    FailBacks(o, epoch, attempts);
    if k > 1 {
      BackOffBound(o, epoch, attempts, k - 1);
    }
  }

  // ----- Any number of callers ------------------------------------------------------

  /** Calls in flight, each with how it was admitted. */
  datatype System = System(breaker: State, inFlight: map<nat, Admission>)

  datatype Event =
    | Call(caller: nat, now: int)
    | ReportSuccess(caller: nat)
    | ReportFailure(caller: nat, now: int)

  predicate Enabled(s: System, e: Event) {
    match e
    case Call(caller, _) => caller !in s.inFlight
    case ReportSuccess(caller) => caller in s.inFlight
    case ReportFailure(caller, _) => caller in s.inFlight
  }

  function Step(o: Options, s: System, e: Event): System {
    match e
    case Call(caller, now) =>
      var admission := Ask(o, s.breaker, now);
      System(Asked(o, s.breaker, now), if admission.Refused? then s.inFlight else s.inFlight[caller := admission])
    case ReportSuccess(caller) => System(Succeeded(o, s.breaker), s.inFlight - {caller})
    case ReportFailure(caller, now) => System(Failed(o, s.breaker, now), s.inFlight - {caller})
  }

  predicate IsProbe(o: Options, s: System, e: Event) {
    e.Call? && Ask(o, s.breaker, e.now).Probe?
  }

  /** A probe in flight belongs to a caller that has not reported yet. */
  predicate ProbeIsOwned(s: System) {
    s.breaker.probing ==> exists caller :: caller in s.inFlight && s.inFlight[caller].Probe?
  }

  lemma StepKeepsOwner(o: Options, s: System, e: Event)
    requires ProbeIsOwned(s) && Enabled(s, e)
    ensures ProbeIsOwned(Step(o, s, e))
  {
    if e.Call? && Step(o, s, e).breaker.probing {
      var t := Step(o, s, e);
      if s.breaker.probing {
        var caller :| caller in s.inFlight && s.inFlight[caller].Probe?;
        assert caller in t.inFlight && t.inFlight[caller].Probe?;
      } else {
        assert e.caller in t.inFlight && t.inFlight[e.caller].Probe?;
      }
    }
  }

  predicate IsRun(o: Options, s: System, events: seq<Event>)
    decreases |events|
  {
    events == [] || (Enabled(s, events[0]) && IsRun(o, Step(o, s, events[0]), events[1..]))
  }

  function After(o: Options, s: System, events: seq<Event>): System
    decreases |events|
  {
    if events == [] then s else After(o, Step(o, s, events[0]), events[1..])
  }

  lemma {:induction false} RunKeepsOwner(o: Options, s: System, events: seq<Event>)
    requires ProbeIsOwned(s) && IsRun(o, s, events)
    ensures ProbeIsOwned(After(o, s, events))
    decreases |events|
  {
    hide ProbeIsOwned, Step, Enabled;
    if events != [] {
      StepKeepsOwner(o, s, events[0]);
      RunKeepsOwner(o, Step(o, s, events[0]), events[1..]);
    }
  }

  /** A failure that sets a new window: the breaker is open until it ends. */
  predicate Opens(o: Options, s: System, e: Event) {
    e.ReportFailure? && s.breaker.failures + 1 >= o.threshold
  }

  /** No probe can be admitted now, nor before some failure opens a window. */
  predicate NeedsWindow(o: Options, s: System) {
    s.breaker.probing || s.breaker.failures < o.threshold
  }

  /** The last window opened along a run, if there is one (`i` is behind the end if not). */
  lemma {:induction false} LastWindow(o: Options, s: System, events: seq<Event>) returns (i: nat)
    requires o.threshold > 0
    ensures i <= |events|
    ensures i == |events| ==> NeedsWindow(o, s) ==> NeedsWindow(o, After(o, s, events))
    ensures i < |events| ==>
      && Opens(o, After(o, s, events[..i]), events[i])
      && After(o, s, events).breaker.openUntil == After(o, s, events[..i + 1]).breaker.openUntil
    ensures i == |events| ==> After(o, s, events).breaker.openUntil == s.breaker.openUntil
    decreases |events|
  {
    if events == [] {
      return 0;
    }
    var t := Step(o, s, events[0]);
    var j := LastWindow(o, t, events[1..]);
    hide Step;
    if j < |events| - 1 {
      i := j + 1;
      assert events[..i][1..] == events[1..][..j] && events[..i + 1][1..] == events[1..][..j + 1];
    } else if Opens(o, s, events[0]) {
      i := 0;
      assert events[..1][1..] == [];
    } else {
      i := |events|;
      QuietStep(o, s, events[0]);
    }
  }

  lemma QuietStep(o: Options, s: System, e: Event)
    requires o.threshold > 0 && !Opens(o, s, e)
    ensures Step(o, s, e).breaker.openUntil == s.breaker.openUntil
    ensures NeedsWindow(o, s) ==> NeedsWindow(o, Step(o, s, e))
  {
  }

  /** At most one probe per cooldown, under every interleaving: between two probes a failure opens a new
      window, and the second probe is not admitted before that window has ended. */
  lemma OneProbePerCooldown(o: Options, s: System, first: Event, between: seq<Event>, second: Event)
    requires o.threshold > 0
    requires IsProbe(o, s, first) && IsProbe(o, After(o, Step(o, s, first), between), second)
    ensures exists i ::
      && 0 <= i < |between| && Opens(o, After(o, Step(o, s, first), between[..i]), between[i])
      && var window := After(o, Step(o, s, first), between[..i + 1]).breaker;
         window.openUntil == between[i].now + window.cooldown && second.now >= window.openUntil
  {
    var t := Step(o, s, first);
    var i := LastWindow(o, t, between);
    WindowOf(o, t, between, i);
  }

  lemma {:induction false} WindowOf(o: Options, s: System, events: seq<Event>, i: nat)
    requires i < |events| && Opens(o, After(o, s, events[..i]), events[i])
    ensures
      var window := After(o, s, events[..i + 1]).breaker;
      window.openUntil == events[i].now + window.cooldown
  {
    hide Opens, Failed;
    assert events[..i + 1] == events[..i] + [events[i]];
    Joined(o, s, events[..i], [events[i]]);
    Unroll(o, After(o, s, events[..i]), [events[i]]);
    OpensWindow(o, After(o, s, events[..i]), events[i]);
  }

  lemma OpensWindow(o: Options, s: System, e: Event)
    requires Opens(o, s, e)
    ensures var window := Step(o, s, e).breaker; window.openUntil == e.now + window.cooldown
  {
  }

  /** With no threshold there are no windows to separate probes: a success alone lets the next one out. */
  lemma NoThresholdNoWindow(o: Options, s: System, caller: nat, next: nat, now: int)
    requires o.threshold == 0 && caller !in s.inFlight && !s.breaker.probing && now >= s.breaker.openUntil
    ensures IsProbe(o, s, Call(caller, now))
    ensures IsProbe(o, After(o, Step(o, s, Call(caller, now)), [ReportSuccess(caller)]), Call(next, now))
  {
    Unroll(o, Step(o, s, Call(caller, now)), [ReportSuccess(caller)]);
  }

  /** So the breaker cannot wedge: once every caller has reported, a call behind the window is admitted. */
  lemma NeverWedged(o: Options, s: System, now: int)
    requires ProbeIsOwned(s) && s.inFlight == map[] && now >= s.breaker.openUntil
    ensures !Ask(o, s.breaker, now).Refused?
  {
  }

  // ----- How many probes are out at a time ---------------------------------------------

  /** Nobody but `caller` is out probing. */
  predicate Sole(s: System, caller: nat) {
    forall other :: other in s.inFlight && s.inFlight[other].Probe? ==> other == caller
  }

  predicate Silent(events: seq<Event>, caller: nat) {
    forall e :: e in events && !e.Call? ==> e.caller != caller
  }

  /** Until it reports, no other probe goes out. */
  ghost predicate StaysSole(o: Options, s: System, caller: nat) {
    forall events :: IsRun(o, s, events) && Silent(events, caller) ==> Sole(After(o, s, events), caller)
  }

  /** A probe stays the only one until it reports exactly when no other call is out at its admission. */
  lemma SoleProbe(o: Options, s: System, caller: nat, now: int)
    requires Enabled(s, Call(caller, now)) && IsProbe(o, s, Call(caller, now))
    ensures StaysSole(o, Step(o, s, Call(caller, now)), caller) <==> s.inFlight == map[]
  {
    var t := Step(o, s, Call(caller, now));
    if s.inFlight == map[] {
      forall events | IsRun(o, t, events) && Silent(events, caller) ensures Sole(After(o, t, events), caller) {
        AloneStays(o, t, caller, events);
      }
    } else {
      var other :| other in s.inFlight;
      var next := FreshCaller(t.inFlight.Keys);
      AnotherMakesTwo(o, s, caller, now, other, next);
      assert !Sole(After(o, t, Overtaking(o, t, other, next, now)), caller);
    }
  }

  lemma {:induction false} AloneStays(o: Options, s: System, caller: nat, events: seq<Event>)
    requires s.inFlight == map[caller := Probe] && s.breaker.probing && s.breaker.failures >= o.threshold
    requires IsRun(o, s, events) && Silent(events, caller)
    ensures After(o, s, events) == s
    decreases |events|
  {
    if events != [] {
      assert events[0] in events;
      AloneStays(o, s, caller, events[1..]);
    }
  }

  lemma {:induction false} FreshCaller(taken: set<nat>) returns (n: nat)
    ensures n !in taken
    ensures forall m :: m in taken ==> m < n
  {
    if taken == {} {
      n := 0;
    } else {
      var m :| m in taken;
      n := FreshCaller(taken - {m});
      n := if m < n then n else m + 1;
      assert forall k :: k in taken ==> k == m || k in taken - {m};
    }
  }

  /** An older call fails while the probe is out; when the window that opens has passed, another call asks. */
  function Overtaking(o: Options, s: System, other: nat, next: nat, now: int): seq<Event> {
    [ReportFailure(other, now), Call(next, Failed(o, s.breaker, now).openUntil)]
  }

  /** With any other call out, the clock need not even run back for a second probe to join the first. */
  lemma AnotherMakesTwo(o: Options, s: System, caller: nat, now: int, other: nat, next: nat)
    requires Enabled(s, Call(caller, now)) && IsProbe(o, s, Call(caller, now))
    requires other in s.inFlight && next !in s.inFlight && next != caller
    ensures
      var t := Step(o, s, Call(caller, now));
      var events := Overtaking(o, t, other, next, now);
      && events[1].now >= now && IsRun(o, t, events) && Silent(events, caller)
      && {caller, next} <= After(o, t, events).inFlight.Keys
      && After(o, t, events).inFlight[caller] == After(o, t, events).inFlight[next] == Probe
  {
    var t := Step(o, s, Call(caller, now));
    var events := Overtaking(o, t, other, next, now);
    Unroll(o, t, events);
    Unroll(o, Step(o, t, events[0]), events[1..]);
  }

  /** `k` calls of caller 1, failing one after the other. */
  function Failures(k: nat): seq<Event> {
    if k == 0 then [] else [Call(1, 0), ReportFailure(1, 0)] + Failures(k - 1)
  }

  lemma {:induction false} FailuresOpen(o: Options, s: System, k: nat)
    requires s.inFlight == map[0 := Closed] && !s.breaker.probing && k > 0 && s.breaker.failures + k == o.threshold
    ensures IsRun(o, s, Failures(k)) && After(o, s, Failures(k)).inFlight == map[0 := Closed]
    ensures After(o, s, Failures(k)).breaker == State(o.threshold, false, o.initialCooldown, o.initialCooldown)
    decreases k
  {
    var t := Step(o, s, Call(1, 0));
    var u := Step(o, t, ReportFailure(1, 0));
    assert u.inFlight == map[0 := Closed];
    assert Failures(k)[1..] == [ReportFailure(1, 0)] + Failures(k - 1);
    assert ([ReportFailure(1, 0)] + Failures(k - 1))[1..] == Failures(k - 1);
    Unroll(o, s, Failures(k));
    Unroll(o, t, [ReportFailure(1, 0)] + Failures(k - 1));
    if k > 1 {
      hide Step;
      FailuresOpen(o, u, k - 1);
    }
  }

  /** For every breaker with a threshold there is a run with two probes out at the same time. */
  lemma TwoProbesAtOnce(o: Options, epoch: int)
    requires o.threshold > 0
    ensures exists run, a, b ::
      && IsRun(o, System(Start(o, epoch), map[]), run) && a != b
      && var out := After(o, System(Start(o, epoch), map[]), run).inFlight;
         a in out && b in out && out[a] == out[b] == Probe
  {
    var s := System(Start(o, epoch), map[]);
    var s1 := Step(o, s, Call(0, 0));
    Unroll(o, s, [Call(0, 0)]);
    FailuresOpen(o, s1, o.threshold);
    Joined(o, s, [Call(0, 0)], Failures(o.threshold));
    var first := [Call(0, 0)] + Failures(o.threshold);
    var s2 := After(o, s, first);
    var c := o.initialCooldown;
    AnotherMakesTwo(o, s2, 2, c, 0, 3);
    var s3 := Step(o, s2, Call(2, c));
    Unroll(o, s2, [Call(2, c)]);
    Joined(o, s, first, [Call(2, c)]);
    Joined(o, s, first + [Call(2, c)], Overtaking(o, s3, 0, 3, c));
    var run := first + [Call(2, c)] + Overtaking(o, s3, 0, 3, c);
    assert After(o, s, run).inFlight[2] == After(o, s, run).inFlight[3] == Probe;
  }

  lemma Unroll(o: Options, s: System, events: seq<Event>)
    requires events != []
    ensures IsRun(o, s, events) == (Enabled(s, events[0]) && IsRun(o, Step(o, s, events[0]), events[1..]))
    ensures After(o, s, events) == After(o, Step(o, s, events[0]), events[1..])
  {
  }

  lemma {:induction false} Joined(o: Options, s: System, first: seq<Event>, second: seq<Event>)
    ensures IsRun(o, s, first + second) == (IsRun(o, s, first) && IsRun(o, After(o, s, first), second))
    ensures After(o, s, first + second) == After(o, After(o, s, first), second)
    decreases |first|
  {
    hide Step, Enabled;
    if first == [] {
      assert first + second == second;
    } else {
      assert (first + second)[1..] == first[1..] + second;
      Joined(o, Step(o, s, first[0]), first[1..], second);
    }
  }

  // ----- When calls go out -----------------------------------------------------------------------

  /** Failures reported since the last success, on top of those there were. */
  function InARow(before: nat, events: seq<Event>): nat {
    if events == [] then before
    else
      var last, sofar := events[|events| - 1], InARow(before, events[..|events| - 1]);
      if last.ReportSuccess? then 0 else if last.ReportFailure? then sofar + 1 else sofar
  }

  lemma {:induction false} CountsInARow(o: Options, s: System, events: seq<Event>)
    ensures After(o, s, events).breaker.failures == InARow(s.breaker.failures, events)
    decreases |events|
  {
    hide Step;
    if events != [] {
      var n := |events| - 1;
      var t := After(o, s, events[..n]);
      assert events == events[..n] + [events[n]];
      CountsInARow(o, s, events[..n]);
      Joined(o, s, events[..n], [events[n]]);
      Unroll(o, t, [events[n]]);
      StepCounts(o, t, events[n]);
    }
  }

  lemma StepCounts(o: Options, s: System, e: Event)
    ensures
      Step(o, s, e).breaker.failures
        == if e.ReportSuccess? then 0 else s.breaker.failures + (if e.ReportFailure? then 1 else 0)
  {
  }

  /** The shared tier is asked without reserve exactly until as many calls as the threshold have failed in a
      row, whatever else is going on; from then on nobody is let through but a lone probe behind the window. */
  lemma ClosedUntilThreshold(o: Options, epoch: int, events: seq<Event>, now: int)
    ensures
      var b := After(o, System(Start(o, epoch), map[]), events).breaker;
      && (Ask(o, b, now).Closed? <==> InARow(0, events) < o.threshold)
      && (Ask(o, b, now).Probe? <==> InARow(0, events) >= o.threshold && now >= b.openUntil && !b.probing)
  {
    CountsInARow(o, System(Start(o, epoch), map[]), events);
  }

  /** One caller after the other, every call failing: a call goes out exactly while fewer than the threshold
      have failed, and after that once the wait since the last failure is over. */
  lemma GoesOutWhenDue(o: Options, epoch: int, attempts: seq<Attempt>, next: Attempt)
    requires o.threshold > 0 && Sequential(attempts)
    ensures
      var calls := Fail(o, epoch, attempts).calls;
      var n := |calls|;
      var due := n < o.threshold || next.at >= calls[n - 1].failsAt + Wait(o, n - o.threshold);
      Fail(o, epoch, attempts + [next]).calls == if due then calls + [next] else calls
  {
    hide Wait, Fail;
    FailBacks(o, epoch, attempts);
    FailNext(o, epoch, attempts, next);
  }

  lemma FailNext(o: Options, epoch: int, attempts: seq<Attempt>, next: Attempt)
    ensures Fail(o, epoch, attempts + [next]) == Next(o, Fail(o, epoch, attempts), next)
  {
    hide Next;
    var all := attempts + [next];
    assert all[..|all| - 1] == attempts;
  }
}
