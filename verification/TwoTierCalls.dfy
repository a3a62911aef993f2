/** Runs of the two-tier cache object are runs of the system of FallbackCache.dfy, so its bound holds of
    what the object's own `get` answers, in terms of the calls made on it. */
module TwoTierCalls {
  import opened Option
  import opened FallbackCache
  import B = Breaker
  import C = ClockCache
  import H = CacheHistory

  /** A call on the object: when its parts happen, and what the shared tier does if it is asked. */
  datatype Call =
    | GetCall(key: Key, clock: Clock, answer: Reply<Option<Value>>)
    | SetCall(key: Key, value: Option<Value>, ttl: int, clock: Clock, done: Reply<()>)
    | DelCall(key: Key, clock: Clock, gone: Reply<bool>)

  /** What the methods make of the tiers. */
  function Called(shape: H.Shape, o: B.Options, cap: int, t: Tiers, call: Call): (u: Tiers)
    requires |t.local| == shape.Count()
    ensures |u.local| == shape.Count()
  {
    match call
    case GetCall(key, clock, answer) => Got(shape, o, cap, t, key, clock, answer).1
    case SetCall(key, value, ttl, clock, done) => Stored(shape, o, cap, t, key, value, ttl, clock, done)
    case DelCall(key, clock, gone) => Deleted(shape, o, t, key, clock, gone)
  }

  function AllCalled(shape: H.Shape, o: B.Options, cap: int, epoch: int, calls: seq<Call>): (t: Tiers)
    ensures |t.local| == shape.Count()
  {
    if calls == [] then Tiers(B.Start(o, epoch), H.Empty(shape))
    else Called(shape, o, cap, AllCalled(shape, o, cap, epoch, calls[..|calls| - 1]), calls[|calls| - 1])
  }

  /** The parts of a call follow each other, and what is read is copied within `latency`. */
  predicate Timed(call: Call, now: int, latency: nat) {
    && now <= call.clock.ticks <= call.clock.askedAt <= call.clock.filledAt
    && call.clock.filledAt - call.clock.askedAt <= latency
  }

  /** When the last call is over. */
  function EndOf(calls: seq<Call>, now: int): int {
    if calls == [] then now else calls[|calls| - 1].clock.filledAt
  }

  /** One call after the other. */
  predicate AllTimed(calls: seq<Call>, now: int, latency: nat) {
    calls == []
    || (AllTimed(calls[..|calls| - 1], now, latency)
        && Timed(calls[|calls| - 1], EndOf(calls[..|calls| - 1], now), latency))
  }

  /** A read that goes to the shared tier and finds something there. */
  predicate Copies(shape: H.Shape, o: B.Options, t: Tiers, call: Call)
    requires |t.local| == shape.Count()
  {
    && call.GetCall? && C.Read(t.local[shape.ShardOf(call.key)], call.key, call.clock.ticks).None?
    && !B.Ask(o, t.breaker, call.clock.askedAt).Refused? && call.answer.Replies? && call.answer.value.Some?
  }

  /** What a call makes true: what it found in the shared tier, or what it put. */
  function FactsOf(shape: H.Shape, o: B.Options, t: Tiers, call: Call): seq<Fact>
    requires |t.local| == shape.Count()
  {
    if Copies(shape, o, t, call) then [Fact(call.key, call.answer.value.value, call.clock.askedAt)]
    else if call.SetCall? && call.value.Some? then [Fact(call.key, call.value.value, call.clock.ticks)]
    else []
  }

  /** The call as steps of the system. */
  function Steps(shape: H.Shape, o: B.Options, t: Tiers, call: Call): seq<Event>
    requires |t.local| == shape.Count() && call.clock.ticks <= call.clock.askedAt <= call.clock.filledAt
  {
    match call
    case GetCall(key, clock, answer) =>
      [Local(H.Lookup(key, clock.ticks))] + ([Local(H.Reclaim(key, clock.ticks))]
        + if Copies(shape, o, t, call) then CopySteps(key, answer.value.value, clock) else [])
    case SetCall(key, value, ttl, clock, _) => [Put(key, value, ttl)] + []
    case DelCall(key, clock, _) => [Local(H.Delete(key))] + []
  }

  function CopySteps(key: Key, value: Value, clock: Clock): seq<Event>
    requires clock.ticks <= clock.askedAt <= clock.filledAt
  {
    [Tick(clock.askedAt - clock.ticks)] + ([Tier(map[key := value])] + ([ReadShared(0, key)]
      + ([Tick(clock.filledAt - clock.askedAt)] + ([Fill(0)] + []))))
  }

  /** The system is where the object is: nothing half done, the same local tier. */
  predicate Matches(shape: H.Shape, t: Tiers, s: State) {
    t.local == H.Run(shape, s.local) && s.fetches == map[]
  }

  lemma Prepend(s: State, e: Event, t: State, rest: seq<Event>, cap: int, latency: nat)
    requires Enabled(s, e, latency) && Step(s, e, cap) == t && IsRun(t, rest, cap, latency)
    ensures IsRun(s, [e] + rest, cap, latency) && After(s, [e] + rest, cap) == After(t, rest, cap)
  {
    hide Enabled, Step;
    assert ([e] + rest)[1..] == rest;
  }

  lemma Nowhere(s: State, cap: int, latency: nat)
    ensures IsRun(s, [], cap, latency) && After(s, [], cap) == s
  {
  }

  lemma RunsOn(shape: H.Shape, history: seq<H.Op>, op: H.Op)
    ensures H.Run(shape, history + [op]) == H.Step(shape, H.Run(shape, history), op)
  {
    hide H.Step;
    assert (history + [op])[..|history|] == history;
  }

  lemma CopyRuns(s: State, key: Key, value: Value, clock: Clock, cap: int, latency: nat) returns (t: State)
    requires s.now == clock.ticks <= clock.askedAt <= clock.filledAt && clock.filledAt - clock.askedAt <= latency
    requires s.fetches == map[]
    ensures IsRun(s, CopySteps(key, value, clock), cap, latency) && After(s, CopySteps(key, value, clock), cap) == t
    ensures t.fetches == map[] && t.now == clock.filledAt && t.facts == s.facts + [Fact(key, value, clock.askedAt)]
    ensures t.local == s.local + [H.Store(key, Some(value), cap, clock.filledAt)]
  {
    hide IsRun, After;
    var s1 := s.(now := clock.askedAt);
    var s2 := s1.(shared := map[key := value]);
    var s3 := s2.(fetches := map[0 := Fetch(key, value, clock.askedAt)],
                  facts := s.facts + [Fact(key, value, clock.askedAt)]);
    var s4 := s3.(now := clock.filledAt);
    t := s4.(local := s.local + [H.Store(key, Some(value), cap, clock.filledAt)], fetches := map[]);
    Nowhere(t, cap, latency);
    assert s4.fetches - {0} == map[];
    Prepend(s4, Fill(0), t, [], cap, latency);
    Prepend(s3, Tick(clock.filledAt - clock.askedAt), s4, [Fill(0)] + [], cap, latency);
    var rest := [Tick(clock.filledAt - clock.askedAt)] + ([Fill(0)] + []);
    Prepend(s2, ReadShared(0, key), s3, rest, cap, latency);
    Prepend(s1, Tier(map[key := value]), s2, [ReadShared(0, key)] + rest, cap, latency);
    Prepend(s, Tick(clock.askedAt - clock.ticks), s1, [Tier(map[key := value])] + ([ReadShared(0, key)] + rest), cap,
            latency);
  }

  /** A call refines its steps: the same local tier afterwards, and the facts the call stands for. */
  lemma CallRefines(shape: H.Shape, o: B.Options, cap: int, t: Tiers, s: State, call: Call, latency: nat)
    requires Matches(shape, t, s) && s.now == call.clock.ticks && Timed(call, s.now, latency)
    ensures IsRun(s, Steps(shape, o, t, call), cap, latency)
    ensures
      var u := After(s, Steps(shape, o, t, call), cap);
      && Matches(shape, Called(shape, o, cap, t, call), u) && u.now <= call.clock.filledAt
      && u.facts == s.facts + FactsOf(shape, o, t, call)
  {
    hide IsRun, After, H.Run, H.Step, Reported, C.Read, B.Ask;
    match call
    case GetCall(key, clock, answer) => GetRefines(shape, o, cap, t, s, key, clock, answer, latency);
    case SetCall(key, value, ttl, clock, _) =>
      var op := H.Store(key, value, LocalTtl(cap, ttl), clock.ticks);
      var u := s.(local := s.local + [op], facts := s.facts + FactsOf(shape, o, t, call));
      RunsOn(shape, s.local, op);
      Nowhere(u, cap, latency);
      Prepend(s, Put(key, value, ttl), u, [], cap, latency);
    case DelCall(key, clock, _) =>
      var u := s.(local := s.local + [H.Delete(key)]);
      RunsOn(shape, s.local, H.Delete(key));
      Nowhere(u, cap, latency);
      Prepend(s, Local(H.Delete(key)), u, [], cap, latency);
  }

  lemma GetRefines(shape: H.Shape, o: B.Options, cap: int, t: Tiers, s: State, key: Key, clock: Clock,
                   answer: Reply<Option<Value>>, latency: nat)
    requires Matches(shape, t, s) && s.now == clock.ticks && Timed(GetCall(key, clock, answer), s.now, latency)
    ensures
      var call := GetCall(key, clock, answer);
      && IsRun(s, Steps(shape, o, t, call), cap, latency)
      && var u := After(s, Steps(shape, o, t, call), cap);
         && Matches(shape, Got(shape, o, cap, t, key, clock, answer).1, u) && u.now <= clock.filledAt
         && u.facts == s.facts + FactsOf(shape, o, t, call)
  {
    hide IsRun, After, H.Run, H.Step, Reported, C.Read, B.Ask, CopySteps;
    var call := GetCall(key, clock, answer);
    var look, reclaim := H.Lookup(key, clock.ticks), H.Reclaim(key, clock.ticks);
    var s1 := s.(local := s.local + [look]);
    var s2 := s1.(local := s1.local + [reclaim]);
    RunsOn(shape, s.local, look);
    RunsOn(shape, s1.local, reclaim);
    var rest: seq<Event> := [];
    if Copies(shape, o, t, call) {
      rest := CopySteps(key, answer.value.value, clock);
      var u := CopyRuns(s2, key, answer.value.value, clock, cap, latency);
      RunsOn(shape, s2.local, H.Store(key, answer.value, cap, clock.filledAt));
    } else {
      Nowhere(s2, cap, latency);
      assert s.facts + [] == s.facts;
    }
    Prepend(s1, Local(reclaim), s2, rest, cap, latency);
    Prepend(s, Local(look), s1, [Local(reclaim)] + rest, cap, latency);
  }

  lemma {:induction false} Joined(s: State, first: seq<Event>, second: seq<Event>, cap: int, latency: nat)
    requires IsRun(s, first, cap, latency) && IsRun(After(s, first, cap), second, cap, latency)
    ensures IsRun(s, first + second, cap, latency)
            && After(s, first + second, cap) == After(After(s, first, cap), second, cap)
    decreases |first|
  {
    hide Step, Enabled;
    if first == [] {
      assert first + second == second;
    } else {
      assert (first + second)[1..] == first[1..] + second;
      Joined(Step(s, first[0], cap), first[1..], second, cap, latency);
    }
  }

  /** The fact is a call's: the shared tier answered it to a read then, or the call put it. */
  predicate Source(call: Call, f: Fact) {
    || (call.GetCall? && f == Fact(call.key, f.value, call.clock.askedAt) && call.answer == Replies(Some(f.value)))
    || (call.SetCall? && f == Fact(call.key, f.value, call.clock.ticks) && call.value == Some(f.value))
  }

  predicate FromCalls(calls: seq<Call>, f: Fact) {
    exists i :: 0 <= i < |calls| && Source(calls[i], f)
  }

  lemma FactsAreFromCalls(shape: H.Shape, o: B.Options, t: Tiers, calls: seq<Call>, call: Call, f: Fact)
    requires |t.local| == shape.Count() && (f in FactsOf(shape, o, t, call) || FromCalls(calls, f))
    ensures FromCalls(calls + [call], f)
  {
    var all := calls + [call];
    if f in FactsOf(shape, o, t, call) {
      assert Source(all[|calls|], f);
    } else {
      var i :| 0 <= i < |calls| && Source(calls[i], f);
      assert Source(all[i], f);
    }
  }

  /** A run that matches the calls so far is continued by one more call. */
  lemma CallFollows(shape: H.Shape, o: B.Options, cap: int, t: Tiers, now: int, first: seq<Event>, call: Call,
                    latency: nat)
    returns (events: seq<Event>)
    requires IsRun(Start(now, map[]), first, cap, latency)
    requires
      var s := After(Start(now, map[]), first, cap);
      Matches(shape, t, s) && Timed(call, s.now, latency)
    ensures IsRun(Start(now, map[]), events, cap, latency)
    ensures
      var s, u := After(Start(now, map[]), first, cap), After(Start(now, map[]), events, cap);
      && Matches(shape, Called(shape, o, cap, t, call), u) && u.now <= call.clock.filledAt
      && u.facts == s.facts + FactsOf(shape, o, t, call)
  {
    hide IsRun, After, H.Run, Called, FactsOf, Steps;
    var start := Start(now, map[]);
    var s := After(start, first, cap);
    var u := Waits(s, call, cap, latency);
    MatchesLater(shape, t, s, call.clock.ticks);
    hide Timed;
    CallRefines(shape, o, cap, t, u, call, latency);
    var wait, steps := [Tick(call.clock.ticks - s.now)], Steps(shape, o, t, call);
    Joined(start, first, wait, cap, latency);
    Joined(start, first + wait, steps, cap, latency);
    events := first + wait + steps;
  }

  lemma TimedEarlier(call: Call, now: int, end: int, latency: nat)
    requires Timed(call, now, latency) && end <= now
    ensures Timed(call, end, latency)
  {
  }

  /** Refinement over any sequence of calls: some run of the system ends with the object's local tier, and
      every fact on the way is one of the calls'. */
  lemma {:induction false} CallsRefine(shape: H.Shape, o: B.Options, cap: int, epoch: int, now: int,
                                       calls: seq<Call>, latency: nat)
    returns (events: seq<Event>)
    requires AllTimed(calls, now, latency)
    ensures IsRun(Start(now, map[]), events, cap, latency)
    ensures
      var s := After(Start(now, map[]), events, cap);
      && Matches(shape, AllCalled(shape, o, cap, epoch, calls), s) && s.now <= EndOf(calls, now)
      && forall f :: f in s.facts ==> FromCalls(calls, f)
    decreases |calls|
  {
    hide IsRun, After, H.Run, Called, Matches, FactsOf, FromCalls, Timed;
    var start := Start(now, map[]);
    if calls == [] {
      events := [];
      Nowhere(start, cap, latency);
      StartMatches(shape, o, epoch, now);
    } else {
      var before, call := calls[..|calls| - 1], calls[|calls| - 1];
      var first := CallsRefine(shape, o, cap, epoch, now, before, latency);
      TimedEarlier(call, EndOf(before, now), After(start, first, cap).now, latency);
      var t := AllCalled(shape, o, cap, epoch, before);
      events := CallFollows(shape, o, cap, t, now, first, call, latency);
      assert calls == before + [call];
      forall f | f in After(start, events, cap).facts ensures FromCalls(calls, f) {
        FactsAreFromCalls(shape, o, t, before, call, f);
      }
    }
  }

  lemma StartMatches(shape: H.Shape, o: B.Options, epoch: int, now: int)
    ensures Matches(shape, Tiers(B.Start(o, epoch), H.Empty(shape)), Start(now, map[]))
  {
  }

  lemma MatchesLater(shape: H.Shape, t: Tiers, s: State, now: int)
    requires Matches(shape, t, s)
    ensures Matches(shape, t, s.(now := now))
  {
  }

  /** Time passes until the call. */
  lemma Waits(s: State, call: Call, cap: int, latency: nat) returns (u: State)
    requires Timed(call, s.now, latency)
    ensures u == s.(now := call.clock.ticks) && s.now <= call.clock.ticks && Timed(call, u.now, latency)
    ensures
      var wait := [Tick(call.clock.ticks - s.now)];
      IsRun(s, wait, cap, latency) && After(s, wait, cap) == u
  {
    u := s.(now := call.clock.ticks);
    Nowhere(u, cap, latency);
    Prepend(s, Tick(call.clock.ticks - s.now), u, [], cap, latency);
    assert [Tick(call.clock.ticks - s.now)] + [] == [Tick(call.clock.ticks - s.now)];
  }

  /** Bounded staleness of the object: after any calls, what `Get` answers is what some call put, or what
      the shared tier answered to some call, less than the cap and the copying latency ago. */
  lemma GetIsRecent(shape: H.Shape, o: B.Options, cap: int, epoch: int, now: int, calls: seq<Call>, key: Key,
                    clock: Clock, answer: Reply<Option<Value>>, latency: nat) returns (i: nat, f: Fact)
    requires cap >= 1 && AllTimed(calls + [GetCall(key, clock, answer)], now, latency)
    requires Got(shape, o, cap, AllCalled(shape, o, cap, epoch, calls), key, clock, answer).0.Some?
    ensures i <= |calls| && Source((calls + [GetCall(key, clock, answer)])[i], f)
    ensures f.key == key && Some(f.value) == Got(shape, o, cap, AllCalled(shape, o, cap, epoch, calls), key, clock,
                                                 answer).0
    ensures f.at > clock.ticks - 1000 * cap - latency
  {
    var t, call := AllCalled(shape, o, cap, epoch, calls), GetCall(key, clock, answer);
    var all := calls + [call];
    assert all[..|all| - 1] == calls && all[|calls|] == call;
    var hit := C.Read(t.local[shape.ShardOf(key)], key, clock.ticks);
    if hit.None? {
      i, f := |calls|, Fact(key, answer.value.value, clock.askedAt);
    } else {
      hide Timed, AllCalled, Got;
      f := HitIsRecent(shape, o, cap, epoch, now, calls, call, latency);
      i :| 0 <= i < |calls| && Source(calls[i], f);
    }
  }

  lemma HitIsRecent(shape: H.Shape, o: B.Options, cap: int, epoch: int, now: int, calls: seq<Call>, call: Call,
                    latency: nat)
    returns (f: Fact)
    requires cap >= 1 && AllTimed(calls, now, latency)
    requires Timed(call, EndOf(calls, now), latency)
    requires C.Read(AllCalled(shape, o, cap, epoch, calls).local[shape.ShardOf(call.key)], call.key,
                    call.clock.ticks).Some?
    ensures FromCalls(calls, f) && f.key == call.key && f.at > call.clock.ticks - 1000 * cap - latency
    ensures Some(f.value) == C.Read(AllCalled(shape, o, cap, epoch, calls).local[shape.ShardOf(call.key)], call.key,
                                    call.clock.ticks)
  {
    var events := CallsRefine(shape, o, cap, epoch, now, calls, latency);
    var start := Start(now, map[]);
    var s := After(start, events, cap);
    assert Timed(call, s.now, latency);
    hide IsRun, After, Timed, AllTimed, AllCalled, FromCalls, C.Read;
    var u := Waits(s, call, cap, latency);
    Joined(start, events, [Tick(call.clock.ticks - s.now)], cap, latency);
    RunKeeps(start, events + [Tick(call.clock.ticks - s.now)], cap, latency);
    LocalHitIsRecent(shape, u, call.key, cap, latency);
    var value := LocalRead(shape, u, call.key).value;
    var k :| 0 <= k < |u.facts| && u.facts[k].key == call.key && u.facts[k].value == value
             && u.facts[k].at >= u.now - 1000 * cap - latency + 1;
    f := u.facts[k];
  }
}
