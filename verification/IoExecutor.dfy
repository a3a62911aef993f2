/** The bounded thread pool: a mutex, a condition variable and looping workers, as a state machine
    with a program counter for every worker. A locked section is one step; notifying is another. */
module IoExecutor {
  import opened Option

  type Task = nat

  /** Where a worker is: about to take the lock, waiting on the condition variable with the lock
      released, running a task, or returned. */
  datatype Pc = AtLock | Blocked | Running(task: Task) | Exited

  /** What the mutex guards. */
  datatype Shared = Shared(queue: seq<Task>, limit: nat, stopping: bool)

  // ----- The locked sections ---------------------------------------------------

  predicate Accepts(m: Shared) {
    !m.stopping && |m.queue| < m.limit
  }

  function Posted(m: Shared, task: Task): Shared {
    if Accepts(m) then m.(queue := m.queue + [task]) else m
  }

  /** What a worker does with the lock: take the oldest task, return, or wait. */
  function Entered(m: Shared): (Shared, Pc) {
    if m.queue != [] then (m.(queue := m.queue[1..]), Running(m.queue[0]))
    else if m.stopping then (m, Exited)
    else (m, Blocked)
  }

  // ----- The system ------------------------------------------------------------

  /** `signals` counts posters that have queued a task and not yet notified; `broadcast` says that the
      stopping thread has not yet notified. The last three fields are history. */
  datatype State = State(
    shared: Shared,
    workers: seq<Pc>,
    signals: nat,
    broadcast: bool,
    accepted: seq<Task>,
    started: seq<Task>,
    finished: nat)

  datatype Event =
    | Post(task: Task)
    | NotifyOne(chosen: Option<nat>)
    | Stop
    | NotifyAll
    | Enter(worker: nat)
    | Done(worker: nat)
    | Spurious(worker: nat)

  function Start(threads: nat, queueLimit: nat): State {
    var count := if threads > 1 then threads else 1;
    var limit := if queueLimit > 1 then queueLimit else 1;
    State(Shared([], limit, false), seq(count, _ => AtLock), 0, false, [], [], 0)
  }

  predicate Worker(s: State, w: nat, pc: Pc) {
    w < |s.workers| && s.workers[w] == pc
  }

  predicate Enabled(s: State, e: Event) {
    match e
    case Post(_) => true
    case NotifyOne(None) => s.signals > 0 && forall w :: 0 <= w < |s.workers| ==> !s.workers[w].Blocked?
    case NotifyOne(Some(w)) => s.signals > 0 && Worker(s, w, Blocked)
    case Stop => true
    case NotifyAll => s.broadcast
    case Enter(w) => Worker(s, w, AtLock)
    case Done(w) => w < |s.workers| && s.workers[w].Running?
    case Spurious(w) => Worker(s, w, Blocked)
  }

  function Woken(pc: Pc): Pc {
    if pc.Blocked? then AtLock else pc
  }

  function Step(s: State, e: Event): State
    requires Enabled(s, e)
  {
    match e
    case Post(task) =>
      if Accepts(s.shared) then
        s.(shared := Posted(s.shared, task), signals := s.signals + 1, accepted := s.accepted + [task])
      else s
    case NotifyOne(None) => s.(signals := s.signals - 1)
    case NotifyOne(Some(w)) => s.(signals := s.signals - 1, workers := s.workers[w := AtLock])
    case Stop => if s.shared.stopping then s else s.(shared := s.shared.(stopping := true), broadcast := true)
    case NotifyAll =>
      s.(broadcast := false, workers := seq(|s.workers|, w requires 0 <= w < |s.workers| => Woken(s.workers[w])))
    case Enter(w) =>
      var (m, pc) := Entered(s.shared);
      s.(shared := m, workers := s.workers[w := pc],
         started := if pc.Running? then s.started + [pc.task] else s.started)
    case Done(w) => s.(workers := s.workers[w := AtLock], finished := s.finished + 1)
    case Spurious(w) => s.(workers := s.workers[w := AtLock])
  }

  /** The pool's own steps: everything but a caller posting or stopping. */
  predicate Internal(e: Event) {
    !e.Post? && !e.Stop?
  }

  // ----- Sums over the workers ---------------------------------------------------

  function Weigh(ws: seq<Pc>, weight: Pc -> nat): nat {
    if ws == [] then 0 else weight(ws[0]) + Weigh(ws[1..], weight)
  }

  lemma {:induction false} WeighUpdate(ws: seq<Pc>, weight: Pc -> nat, w: nat, pc: Pc)
    requires w < |ws|
    ensures Weigh(ws[w := pc], weight) + weight(ws[w]) == Weigh(ws, weight) + weight(pc)
  {
    if w == 0 {
      assert ws[w := pc][1..] == ws[1..];
    } else {
      WeighUpdate(ws[1..], weight, w - 1, pc);
      assert ws[w := pc][1..] == ws[1..][w - 1 := pc];
    }
  }

  lemma {:induction false} WeighWoken(ws: seq<Pc>, woken: seq<Pc>, weight: Pc -> nat)
    requires |ws| == |woken| && forall w :: 0 <= w < |ws| ==> woken[w] == Woken(ws[w])
    requires weight(AtLock) <= weight(Blocked)
    ensures Weigh(woken, weight) <= Weigh(ws, weight)
  {
    if ws != [] {
      WeighWoken(ws[1..], woken[1..], weight);
    }
  }

  lemma {:induction false} WeighSame(ws: seq<Pc>, woken: seq<Pc>, weight: Pc -> nat)
    requires |ws| == |woken| && forall w :: 0 <= w < |ws| ==> woken[w] == Woken(ws[w])
    requires weight(AtLock) == weight(Blocked)
    ensures Weigh(woken, weight) == Weigh(ws, weight)
  {
    if ws != [] {
      WeighSame(ws[1..], woken[1..], weight);
    }
  }

  lemma {:induction false} WeighPositive(ws: seq<Pc>, weight: Pc -> nat)
    requires Weigh(ws, weight) > 0
    ensures exists w :: 0 <= w < |ws| && weight(ws[w]) > 0
  {
    if weight(ws[0]) == 0 {
      WeighPositive(ws[1..], weight);
      var w :| 0 <= w < |ws[1..]| && weight(ws[1..][w]) > 0;
      assert weight(ws[w + 1]) > 0;
    }
  }

  lemma {:induction false} WeighAtLeast(ws: seq<Pc>, weight: Pc -> nat, w: nat)
    requires w < |ws|
    ensures weight(ws[w]) <= Weigh(ws, weight)
  {
    if w > 0 {
      WeighAtLeast(ws[1..], weight, w - 1);
    }
  }

  function AtLockWeight(pc: Pc): nat {
    if pc.AtLock? then 1 else 0
  }

  function RunningWeight(pc: Pc): nat {
    if pc.Running? then 1 else 0
  }

  // ----- What every run keeps ------------------------------------------------------

  /** While any worker waits, there is a worker on its way or a notification under way for every
      queued task: no wakeup is lost. */
  ghost predicate NoLostWakeup(s: State) {
    (exists w :: Worker(s, w, Blocked)) ==> |s.shared.queue| <= s.signals + Weigh(s.workers, AtLockWeight)
  }

  /** Each accepted task is queued or has been started, in the order of acceptance, once. */
  predicate InOrder(s: State) {
    && s.accepted == s.started + s.shared.queue
    && |s.started| == s.finished + Weigh(s.workers, RunningWeight)
  }

  predicate Stopping(s: State) {
    && (s.broadcast ==> s.shared.stopping)
    && (s.shared.stopping && !s.broadcast ==> forall w :: 0 <= w < |s.workers| ==> !s.workers[w].Blocked?)
    && (forall w :: 0 <= w < |s.workers| && s.workers[w].Exited? ==> s.shared.stopping && s.shared.queue == [])
  }

  ghost predicate Inv(s: State) {
    && |s.workers| > 0 && |s.shared.queue| <= s.shared.limit
    && NoLostWakeup(s) && InOrder(s) && Stopping(s)
  }

  lemma StepNoLostWakeup(s: State, e: Event)
    requires Inv(s) && Enabled(s, e)
    ensures NoLostWakeup(Step(s, e))
  {
    hide Weigh, InOrder;
    var t := Step(s, e);
    if e.NotifyAll? {
      assert forall w :: 0 <= w < |t.workers| ==> !t.workers[w].Blocked?;
    } else if exists w :: Worker(t, w, Blocked) {
      var b :| Worker(t, b, Blocked);
      match e
      case NotifyOne(Some(w)) => WeighUpdate(s.workers, AtLockWeight, w, AtLock); assert Worker(s, w, Blocked);
      case Enter(w) =>
        WeighUpdate(s.workers, AtLockWeight, w, Entered(s.shared).1);
        assert b != w ==> Worker(s, b, Blocked);
      case Done(w) => WeighUpdate(s.workers, AtLockWeight, w, AtLock); assert Worker(s, b, Blocked);
      case Spurious(w) => WeighUpdate(s.workers, AtLockWeight, w, AtLock); assert Worker(s, w, Blocked);
      case Post(_) => assert Worker(s, b, Blocked);
      case Stop => assert Worker(s, b, Blocked);
      case _ =>
    }
  }

  lemma StepInOrder(s: State, e: Event)
    requires Inv(s) && Enabled(s, e)
    ensures InOrder(Step(s, e))
  {
    hide Weigh, NoLostWakeup;
    var t := Step(s, e);
    match e
    case Post(task) =>
    case NotifyOne(Some(w)) => WeighUpdate(s.workers, RunningWeight, w, AtLock);
    case NotifyAll => WeighSame(s.workers, t.workers, RunningWeight);
    case Enter(w) =>
      WeighUpdate(s.workers, RunningWeight, w, Entered(s.shared).1);
    case Done(w) => WeighUpdate(s.workers, RunningWeight, w, AtLock);
    case Spurious(w) => WeighUpdate(s.workers, RunningWeight, w, AtLock);
    case _ =>
  }

  lemma StepKeeps(s: State, e: Event)
    requires Inv(s) && Enabled(s, e)
    ensures Inv(Step(s, e))
  {
    hide Weigh, NoLostWakeup, InOrder;
    StepNoLostWakeup(s, e);
    StepInOrder(s, e);
  }

  // ----- Runs ------------------------------------------------------------------------

  /** A run: each event happens in the state the ones before it led to. */
  predicate IsRun(s: State, events: seq<Event>)
    decreases |events|
  {
    events == [] || (Enabled(s, events[0]) && IsRun(Step(s, events[0]), events[1..]))
  }

  function After(s: State, events: seq<Event>): State
    requires IsRun(s, events)
    decreases |events|
  {
    if events == [] then s else After(Step(s, events[0]), events[1..])
  }

  lemma {:induction false} RunKeeps(s: State, events: seq<Event>)
    requires Inv(s) && IsRun(s, events)
    ensures Inv(After(s, events))
    decreases |events|
  {
    hide Inv, Enabled, Step;
    if events != [] {
      StepKeeps(s, events[0]);
      RunKeeps(Step(s, events[0]), events[1..]);
    }
  }

  lemma StartHolds(threads: nat, queueLimit: nat)
    ensures Inv(Start(threads, queueLimit))
  {
    NoneRuns(Start(threads, queueLimit).workers);
  }

  lemma {:induction false} NoneRuns(ws: seq<Pc>)
    requires forall w :: 0 <= w < |ws| ==> !ws[w].Running?
    ensures Weigh(ws, RunningWeight) == 0
  {
    if ws != [] {
      NoneRuns(ws[1..]);
    }
  }

  /** Every reachable state: the queue is bounded, tasks start in order and at most once, and a queued
      task always has someone coming for it. */
  lemma Reachable(threads: nat, queueLimit: nat, events: seq<Event>)
    requires IsRun(Start(threads, queueLimit), events)
    ensures
      var s := After(Start(threads, queueLimit), events);
      && |s.shared.queue| <= (if queueLimit > 1 then queueLimit else 1)
      && s.accepted == s.started + s.shared.queue
      && (s.shared.queue != [] ==>
            s.signals > 0 || exists w :: 0 <= w < |s.workers| && (s.workers[w].AtLock? || s.workers[w].Running?))
  {
    hide Weigh, IsRun;
    StartHolds(threads, queueLimit);
    RunKeeps(Start(threads, queueLimit), events);
    LimitStays(Start(threads, queueLimit), events);
    var s := After(Start(threads, queueLimit), events);
    hide After;
    if s.shared.queue != [] {
      SomeoneComes(s);
    }
  }

  lemma SomeoneComes(s: State)
    requires Inv(s) && s.shared.queue != []
    ensures s.signals > 0 || exists w :: 0 <= w < |s.workers| && (s.workers[w].AtLock? || s.workers[w].Running?)
  {
    if exists w :: Worker(s, w, Blocked) {
      if s.signals == 0 {
        WeighPositive(s.workers, AtLockWeight);
      }
    } else {
      assert !s.workers[0].Exited? && !Worker(s, 0, Blocked);
    }
  }

  lemma {:induction false} LimitStays(s: State, events: seq<Event>)
    requires IsRun(s, events)
    ensures After(s, events).shared.limit == s.shared.limit && |After(s, events).workers| == |s.workers|
    decreases |events|
  {
    if events != [] {
      LimitStays(Step(s, events[0]), events[1..]);
    }
  }

  /** Once stopping, nothing more is accepted, ever. */
  lemma {:induction false} NothingAfterStop(s: State, events: seq<Event>)
    requires IsRun(s, events) && s.shared.stopping
    ensures After(s, events).shared.stopping && After(s, events).accepted == s.accepted
    decreases |events|
  {
    if events != [] {
      NothingAfterStop(Step(s, events[0]), events[1..]);
    }
  }

  /** What a run has started stays started, in the same order. */
  lemma {:induction false} StartedGrows(s: State, events: seq<Event>)
    requires IsRun(s, events)
    ensures s.started <= After(s, events).started && s.accepted <= After(s, events).accepted
    decreases |events|
  {
    if events != [] {
      StartedGrows(Step(s, events[0]), events[1..]);
    }
  }

  // ----- Stopping drains -----------------------------------------------------------------

  predicate AllExited(s: State) {
    forall w :: 0 <= w < |s.workers| ==> s.workers[w].Exited?
  }

  /** When every worker has returned, everything accepted has been run to its end. */
  lemma ExitedIsDrained(s: State)
    requires Inv(s) && AllExited(s)
    ensures s.shared.queue == [] && s.started == s.accepted && s.finished == |s.accepted|
  {
    NoneRuns(s.workers);
    assert s.workers[0].Exited?;
  }

  function PcWeight(pc: Pc): nat {
    match pc
    case Running(_) => 2
    case Blocked => 2
    case AtLock => 1
    case Exited => 0
  }

  /** How much is left to do once the pool is stopping. */
  function Left(s: State): nat {
    3 * |s.shared.queue| + 2 * s.signals + (if s.broadcast then 1 else 0) + Weigh(s.workers, PcWeight)
  }

  /** While stopping, every step of the pool brings the end nearer, whichever it is. */
  lemma StoppingProgresses(s: State, e: Event)
    requires Inv(s) && Enabled(s, e) && s.shared.stopping && Internal(e)
    ensures Left(Step(s, e)) < Left(s)
  {
    hide Weigh, NoLostWakeup, InOrder;
    var t := Step(s, e);
    match e
    case NotifyOne(Some(w)) => WeighUpdate(s.workers, PcWeight, w, AtLock);
    case NotifyOne(None) =>
    case NotifyAll => WeighWoken(s.workers, t.workers, PcWeight);
    case Enter(w) => WeighUpdate(s.workers, PcWeight, w, Entered(s.shared).1);
    case Done(w) => WeighUpdate(s.workers, PcWeight, w, AtLock);
    case Spurious(w) => WeighUpdate(s.workers, PcWeight, w, AtLock);
  }

  /** And until every worker has returned there is such a step: the pool cannot deadlock. */
  lemma StoppingIsLive(s: State) returns (e: Event)
    requires Inv(s) && s.shared.stopping && !AllExited(s)
    ensures Enabled(s, e) && Internal(e)
  {
    var w :| 0 <= w < |s.workers| && !s.workers[w].Exited?;
    e := match s.workers[w]
      case AtLock => Enter(w)
      case Running(_) => Done(w)
      case Blocked => NotifyAll;
  }

  /** So every run of the pool's own steps from a stopping state is finite, and one that cannot go on
      has joined every worker with every accepted task run. */
  lemma {:induction false} StopDrains(s: State, events: seq<Event>)
    requires Inv(s) && s.shared.stopping && IsRun(s, events) && forall e :: e in events ==> Internal(e)
    ensures |events| + Left(After(s, events)) <= Left(s)
    ensures
      var end := After(s, events);
      (forall e :: Internal(e) ==> !Enabled(end, e)) ==>
        AllExited(end) && end.started == s.accepted && end.finished == |s.accepted|
    decreases |events|
  {
    hide Weigh, Left;
    NothingAfterStop(s, events);
    RunKeeps(s, events);
    if events != [] {
      assert events[0] in events;
      StoppingProgresses(s, events[0]);
      StepKeeps(s, events[0]);
      StopDrains(Step(s, events[0]), events[1..]);
    }
    EndIsDrained(After(s, events));
  }

  lemma EndIsDrained(s: State)
    requires Inv(s) && s.shared.stopping
    ensures (forall e :: Internal(e) ==> !Enabled(s, e)) ==>
            AllExited(s) && s.started == s.accepted && s.finished == |s.accepted|
  {
    hide Weigh;
    if !AllExited(s) {
      var e := StoppingIsLive(s);
    } else {
      ExitedIsDrained(s);
    }
  }

  // ----- Working ------------------------------------------------------------------------------

  /** What a pool that was given these numbers takes: a task while nobody has stopped it and fewer wait than
      it may hold, and nothing else; and it has its workers throughout. */
  lemma PostIsTaken(threads: nat, queueLimit: nat, events: seq<Event>, task: Task)
    requires IsRun(Start(threads, queueLimit), events)
    ensures
      var s := After(Start(threads, queueLimit), events);
      var taken := Stop !in events && |s.accepted| - |s.started| < if queueLimit > 1 then queueLimit else 1;
      && Step(s, Post(task)).accepted == s.accepted + (if taken then [task] else [])
      && |s.workers| == if threads > 1 then threads else 1
  {
    hide IsRun, After, Inv;
    StartHolds(threads, queueLimit);
    RunKeeps(Start(threads, queueLimit), events);
    LimitStays(Start(threads, queueLimit), events);
    StopsByStop(Start(threads, queueLimit), events);
    Waiting(After(Start(threads, queueLimit), events));
  }

  lemma Waiting(s: State)
    requires Inv(s)
    ensures |s.accepted| - |s.started| == |s.shared.queue|
  {
    hide Weigh;
  }

  lemma {:induction false} StopsByStop(s: State, events: seq<Event>)
    requires IsRun(s, events)
    ensures After(s, events).shared.stopping <==> s.shared.stopping || Stop in events
    decreases |events|
  {
    if events != [] {
      StopsByStop(Step(s, events[0]), events[1..]);
      assert events == [events[0]] + events[1..];
    }
  }

  function BusyWeight(pc: Pc): nat {
    match pc
    case Running(_) => 2
    case AtLock => 1
    case Blocked => 0
    case Exited => 0
  }

  /** How much there is to do for a pool that is not stopping. */
  function Work(s: State): nat {
    2 * |s.shared.queue| + 2 * s.signals + Weigh(s.workers, BusyWeight)
  }

  /** Each step of the pool does some of it; a wakeup for no reason costs one step more. */
  lemma WorkProgresses(s: State, e: Event)
    requires Inv(s) && Enabled(s, e) && !s.shared.stopping && Internal(e)
    ensures Work(Step(s, e)) + 1 <= Work(s) + if e.Spurious? then 2 else 0
  {
    hide Weigh, NoLostWakeup, InOrder;
    match e
    case NotifyOne(Some(w)) => WeighUpdate(s.workers, BusyWeight, w, AtLock);
    case NotifyOne(None) =>
    case Enter(w) => WeighUpdate(s.workers, BusyWeight, w, Entered(s.shared).1);
    case Done(w) => WeighUpdate(s.workers, BusyWeight, w, AtLock);
    case Spurious(w) => WeighUpdate(s.workers, BusyWeight, w, AtLock);
  }

  function SpuriousIn(events: seq<Event>): nat {
    if events == [] then 0 else (if events[0].Spurious? then 1 else 0) + SpuriousIn(events[1..])
  }

  /** Left to itself, a pool that is not stopping comes to rest, whatever order its workers run in, and it
      rests with every accepted task run to its end: no task waits for a wakeup that does not come. */
  lemma {:induction false} WorkIsDone(s: State, events: seq<Event>)
    requires Inv(s) && !s.shared.stopping && IsRun(s, events) && forall e :: e in events ==> Internal(e)
    ensures |events| + Work(After(s, events)) <= Work(s) + 2 * SpuriousIn(events)
    ensures
      var end := After(s, events);
      (forall e :: Internal(e) && !e.Spurious? ==> !Enabled(end, e)) ==>
        end.shared.queue == [] && end.started == end.accepted == s.accepted && end.finished == |s.accepted|
    decreases |events|
  {
    hide Weigh, Work, Inv, Enabled;
    RunKeeps(s, events);
    StopsByStop(s, events);
    assert !Internal(Stop);
    if events != [] {
      assert events[0] in events;
      WorkProgresses(s, events[0]);
      StepKeeps(s, events[0]);
      WorkIsDone(Step(s, events[0]), events[1..]);
    }
    RestIsDrained(After(s, events));
  }

  lemma RestIsDrained(s: State)
    requires Inv(s) && !s.shared.stopping
    ensures (forall e :: Internal(e) && !e.Spurious? ==> !Enabled(s, e)) ==>
            s.shared.queue == [] && s.started == s.accepted && s.finished == |s.accepted|
  {
    hide Weigh;
    if forall e :: Internal(e) && !e.Spurious? ==> !Enabled(s, e) {
      forall w | 0 <= w < |s.workers| ensures s.workers[w].Blocked? {
        assert !Enabled(s, Enter(w)) && !Enabled(s, Done(w));
      }
      assert !Enabled(s, NotifyOne(Some(0)));
      assert Worker(s, 0, Blocked);
      NoneAtLock(s.workers);
      NoneRuns(s.workers);
    }
  }

  lemma {:induction false} NoneAtLock(ws: seq<Pc>)
    requires forall w :: 0 <= w < |ws| ==> !ws[w].AtLock?
    ensures Weigh(ws, AtLockWeight) == 0
  {
    if ws != [] {
      NoneAtLock(ws[1..]);
    }
  }

  // ----- The guarded object -----------------------------------------------------------------

  /** The pool's fields; each method is one locked section. */
  class Pool {
    var queue: seq<Task>
    var stopping: bool
    const queueLimit: nat
    var rejected: nat

    ghost function Current(): Shared
      reads this
    {
      Shared(queue, queueLimit, stopping)
    }

    constructor (threads: nat, limit: nat)
      ensures Current() == Start(threads, limit).shared && rejected == 0
    {
      queue, stopping, rejected := [], false, 0;
      queueLimit := if limit > 1 then limit else 1;
    }

    method Post(task: Task) returns (accepted: bool)
      modifies this
      ensures accepted == Accepts(old(Current())) && Current() == Posted(old(Current()), task)
      ensures rejected == old(rejected) + if accepted then 0 else 1
    {
      if stopping || |queue| >= queueLimit {
        rejected := rejected + 1;
        return false;
      }
      queue := queue + [task];
      accepted := true;
    }

    /** True for the call that has to notify and join. */
    method Stop() returns (first: bool)
      modifies this
      ensures first == !old(stopping) && Current() == old(Current()).(stopping := true) && rejected == old(rejected)
    {
      if stopping {
        return false;
      }
      stopping := true;
      first := true;
    }

    /** A worker's section: the wait's predicate, and what follows when it holds. */
    method Take() returns (next: Pc)
      modifies this
      ensures (Current(), next) == Entered(old(Current())) && rejected == old(rejected)
    {
      if !(stopping || queue != []) {
        return Blocked;
      }
      if queue == [] {
        return Exited;
      }
      next := Running(queue[0]);
      queue := queue[1..];
    }
  }
}
