/** The two-tier cache: a local memory cache in front of a shared tier that other instances change at
    any time. How old can a value be that `get` returns? Times are milliseconds. */
module FallbackCache {
  import opened Option
  import B = Breaker
  import C = ClockCache
  import H = CacheHistory
  import M = MemoryCache

  type Key = C.Key
  type Value = C.Value

  /** "Never expires" becomes "expires at the cap". */
  function LocalTtl(cap: int, requested: int): int {
    if requested == 0 then cap else if cap < requested then cap else requested
  }

  // ----- The system ------------------------------------------------------------

  /** At this moment the shared tier held the value under the key, or this process set it. */
  datatype Fact = Fact(key: Key, value: Value, at: int)

  /** A value read from the shared tier and not yet copied into the local one. */
  datatype Fetch = Fetch(key: Key, value: Value, at: int)

  /** `local` is the run of the local cache's locked sections so far; `facts` is history. */
  datatype State = State(
    now: int,
    local: seq<H.Op>,
    shared: map<Key, Value>,
    fetches: map<nat, Fetch>,
    facts: seq<Fact>)

  /** Steps of this process's threads and of everything else, in any order. `Tier` is whatever changes
      the shared tier: other instances, expiry, or this process's own writes reaching it. */
  datatype Event =
    | Tick(elapsed: nat)
    | Tier(shared: map<Key, Value>)
    | Local(op: H.Op)
    | Put(key: Key, value: Option<Value>, ttl: int)
    | ReadShared(caller: nat, key: Key)
    | Fill(caller: nat)

  /** A local step stores nothing by itself; a fill copies what its caller read, and the copy follows
      the read within `latency`. */
  predicate Enabled(s: State, e: Event, latency: nat) {
    match e
    case Local(op) => !op.Store?
    case ReadShared(caller, key) => caller !in s.fetches && key in s.shared
    case Fill(caller) => caller in s.fetches && s.now - s.fetches[caller].at <= latency
    case _ => true
  }

  function Step(s: State, e: Event, cap: int): State {
    match e
    case Tick(elapsed) => s.(now := s.now + elapsed)
    case Tier(shared) => s.(shared := shared)
    case Local(op) => s.(local := s.local + [op])
    case Put(key, value, ttl) =>
      s.(local := s.local + [H.Store(key, value, LocalTtl(cap, ttl), s.now)],
         facts := if value.Some? then s.facts + [Fact(key, value.value, s.now)] else s.facts)
    case ReadShared(caller, key) =>
      if key in s.shared then
        s.(fetches := s.fetches[caller := Fetch(key, s.shared[key], s.now)],
           facts := s.facts + [Fact(key, s.shared[key], s.now)])
      else s
    case Fill(caller) =>
      if caller in s.fetches then
        var f := s.fetches[caller];
        s.(local := s.local + [H.Store(f.key, Some(f.value), cap, s.now)], fetches := s.fetches - {caller})
      else s
  }

  function Start(now: int, shared: map<Key, Value>): State {
    State(now, [], shared, map[], [])
  }

  predicate IsRun(s: State, events: seq<Event>, cap: int, latency: nat)
    decreases |events|
  {
    events == [] || (Enabled(s, events[0], latency) && IsRun(Step(s, events[0], cap), events[1..], cap, latency))
  }

  function After(s: State, events: seq<Event>, cap: int): State
    decreases |events|
  {
    if events == [] then s else After(Step(s, events[0], cap), events[1..], cap)
  }

  /** What the local tier answers now. */
  function LocalRead(shape: H.Shape, s: State, key: Key): Option<Value> {
    C.Read(H.Run(shape, s.local)[shape.ShardOf(key)], key, s.now)
  }

  // ----- Where every local copy comes from -----------------------------------------

  predicate Backed(facts: seq<Fact>, key: Key, value: Value, since: int) {
    exists i :: 0 <= i < |facts| && facts[i].key == key && facts[i].value == value && facts[i].at >= since
  }

  /** A store put into the local run: bounded in its life, and true not long before it was made. */
  predicate Sourced(facts: seq<Fact>, op: H.Op, cap: int, latency: nat) {
    op.Store? && op.value.Some? ==>
        op.ttl != 0 && op.ttl <= cap && Backed(facts, op.key, op.value.value, op.ticks - latency)
  }

  predicate Inv(s: State, cap: int, latency: nat) {
    && (forall i :: 0 <= i < |s.local| ==> Sourced(s.facts, s.local[i], cap, latency))
    && (forall c :: c in s.fetches ==>
        s.fetches[c].at <= s.now && Backed(s.facts, s.fetches[c].key, s.fetches[c].value, s.fetches[c].at))
    && (forall i :: 0 <= i < |s.facts| ==> s.facts[i].at <= s.now)
  }

  lemma StillSourced(facts: seq<Fact>, more: seq<Fact>, op: H.Op, cap: int, latency: nat)
    requires Sourced(facts, op, cap, latency)
    ensures Sourced(facts + more, op, cap, latency)
  {
    if op.Store? && op.value.Some? {
      StillBacked(facts, more, op.key, op.value.value, op.ticks - latency);
    }
  }

  lemma StillBacked(facts: seq<Fact>, more: seq<Fact>, key: Key, value: Value, since: int)
    requires Backed(facts, key, value, since)
    ensures Backed(facts + more, key, value, since)
  {
    var i :| 0 <= i < |facts| && facts[i].key == key && facts[i].value == value && facts[i].at >= since;
    assert (facts + more)[i] == facts[i];
  }

  lemma NewlyBacked(facts: seq<Fact>, key: Key, value: Value, at: int, since: int)
    requires since <= at
    ensures Backed(facts + [Fact(key, value, at)], key, value, since)
  {
    assert (facts + [Fact(key, value, at)])[|facts|] == Fact(key, value, at);
  }

  lemma MoreFacts(s: State, more: seq<Fact>, cap: int, latency: nat)
    requires Inv(s, cap, latency) && forall i :: 0 <= i < |more| ==> more[i].at <= s.now
    ensures Inv(s.(facts := s.facts + more), cap, latency)
  {
    hide Sourced, Backed;
    forall i | 0 <= i < |s.local| ensures Sourced(s.facts + more, s.local[i], cap, latency) {
      StillSourced(s.facts, more, s.local[i], cap, latency);
    }
    forall c | c in s.fetches ensures Backed(s.facts + more, s.fetches[c].key, s.fetches[c].value, s.fetches[c].at) {
      StillBacked(s.facts, more, s.fetches[c].key, s.fetches[c].value, s.fetches[c].at);
    }
  }

  lemma StepKeeps(s: State, e: Event, cap: int, latency: nat)
    requires cap >= 1 && Inv(s, cap, latency) && Enabled(s, e, latency)
    ensures Inv(Step(s, e, cap), cap, latency)
  {
    match e
    case Put(key, value, ttl) =>
      if value.Some? {
        MoreFacts(s, [Fact(key, value.value, s.now)], cap, latency);
        NewlyBacked(s.facts, key, value.value, s.now, s.now - latency);
      }
      hide Backed;
    case ReadShared(caller, key) =>
      MoreFacts(s, [Fact(key, s.shared[key], s.now)], cap, latency);
      NewlyBacked(s.facts, key, s.shared[key], s.now, s.now);
      hide Backed, Sourced;
    case Fill(caller) =>
      var f := s.fetches[caller];
      var i :| 0 <= i < |s.facts| && s.facts[i].key == f.key && s.facts[i].value == f.value && s.facts[i].at >= f.at;
      assert Backed(s.facts, f.key, f.value, s.now - latency);
      hide Backed;
    case _ =>
      hide Backed;
  }

  lemma {:induction false} RunKeeps(s: State, events: seq<Event>, cap: int, latency: nat)
    requires cap >= 1 && Inv(s, cap, latency) && IsRun(s, events, cap, latency)
    ensures Inv(After(s, events, cap), cap, latency)
    decreases |events|
  {
    hide Inv, Enabled, Step;
    if events != [] {
      StepKeeps(s, events[0], cap, latency);
      RunKeeps(Step(s, events[0], cap), events[1..], cap, latency);
    }
  }

  // ----- The facts are facts ----------------------------------------------------------

  /** Some step of the run made this fact true: the shared tier was read and held it, or this process
      put it. */
  predicate Happened(s: State, events: seq<Event>, cap: int, f: Fact) {
    exists i :: 0 <= i < |events| && MadeTrue(After(s, events[..i], cap), events[i], f)
  }

  predicate MadeTrue(s: State, e: Event, f: Fact) {
    && f.at == s.now
    && ((e.ReadShared? && e.key == f.key && f.key in s.shared && s.shared[f.key] == f.value)
        || (e.Put? && e.key == f.key && e.value == Some(f.value)))
  }

  lemma {:induction false} FactsHappened(s: State, events: seq<Event>, cap: int, f: Fact)
    requires f in After(s, events, cap).facts
    ensures f in s.facts || Happened(s, events, cap, f)
    decreases |events|
  {
    hide MadeTrue;
    if events != [] {
      var t := Step(s, events[0], cap);
      FactsHappened(t, events[1..], cap, f);
      if f in t.facts {
        if f !in s.facts {
          assert MadeTrue(s, events[0], f) by { NewFact(s, events[0], cap, f); }
          assert events[..0] == [];
        }
      } else {
        var i :| 0 <= i < |events[1..]| && MadeTrue(After(t, events[1..][..i], cap), events[1..][i], f);
        assert events[..i + 1][0] == events[0] && events[..i + 1][1..] == events[1..][..i];
        assert MadeTrue(After(s, events[..i + 1], cap), events[i + 1], f);
      }
    }
  }

  lemma NewFact(s: State, e: Event, cap: int, f: Fact)
    requires f in Step(s, e, cap).facts && f !in s.facts
    ensures MadeTrue(s, e, f)
  {
  }

  // ----- Bounded staleness ---------------------------------------------------------------

  /** A local hit was true less than the cap, and the time a shared read takes to be copied, ago. */
  lemma LocalHitIsRecent(shape: H.Shape, s: State, key: Key, cap: int, latency: nat)
    requires Inv(s, cap, latency) && LocalRead(shape, s, key).Some?
    ensures Backed(s.facts, key, LocalRead(shape, s, key).value, s.now - 1000 * cap - latency + 1)
  {
    var i := H.LastWrite(shape, s.local, key);
    H.ReadsLastWrite(shape, s.local, key, s.now);
    var op := s.local[i];
    assert Sourced(s.facts, op, cap, latency);
    var k :| 0 <= k < |s.facts| && s.facts[k].key == op.key && s.facts[k].value == op.value.value
        && s.facts[k].at >= op.ticks - latency;
    assert op.key == key;
  }

  /** How `get` comes by an answer now: a hit in the local tier, or its own read of the shared tier at
      the moment it copies it. */
  predicate Answers(shape: H.Shape, s: State, key: Key, value: Value, latency: nat) {
    || LocalRead(shape, s, key) == Some(value)
    || exists caller :: caller in s.fetches && s.fetches[caller].key == key && s.fetches[caller].value == value
                        && Enabled(s, Fill(caller), latency)
  }

  lemma AnswerIsRecent(shape: H.Shape, s: State, key: Key, value: Value, cap: int, latency: nat)
    requires cap >= 1 && Inv(s, cap, latency) && Answers(shape, s, key, value, latency)
    ensures Backed(s.facts, key, value, s.now - 1000 * cap - latency + 1)
  {
    if LocalRead(shape, s, key) == Some(value) {
      LocalHitIsRecent(shape, s, key, cap, latency);
    } else {
      var caller :| caller in s.fetches && s.fetches[caller].key == key && s.fetches[caller].value == value
                    && Enabled(s, Fill(caller), latency);
      var i :| 0 <= i < |s.facts| && s.facts[i].key == key && s.facts[i].value == value
          && s.facts[i].at >= s.fetches[caller].at;
    }
  }

  /** The bound over every run: what `get` answers was, at some step less than the cap plus the latency
      ago, the shared tier's value for its key or put there by this process. */
  lemma BoundedStaleness(shape: H.Shape, now: int, shared: map<Key, Value>, events: seq<Event>, key: Key,
                         value: Value, cap: int, latency: nat)
    returns (f: Fact)
    requires cap >= 1 && IsRun(Start(now, shared), events, cap, latency)
    requires Answers(shape, After(Start(now, shared), events, cap), key, value, latency)
    ensures f.key == key && f.value == value && Happened(Start(now, shared), events, cap, f)
    ensures
      var end := After(Start(now, shared), events, cap).now;
      end - 1000 * cap - latency < f.at <= end
  {
    var start := Start(now, shared);
    var s := After(start, events, cap);
    RunKeeps(start, events, cap, latency);
    AnswerIsRecent(shape, s, key, value, cap, latency);
    hide IsRun, After, Happened, Answers;
    var i :| 0 <= i < |s.facts| && s.facts[i].key == key && s.facts[i].value == value
             && s.facts[i].at >= s.now - 1000 * cap - latency + 1;
    f := s.facts[i];
    FactsHappened(start, events, cap, f);
  }

  // ----- The bound is exact -----------------------------------------------------------------

  /** Another instance drops the value right behind a slow read; the copy outlives it by the latency and
      the whole cap. */
  function SlowRead(cap: int, latency: nat, key: Key): seq<Event>
    requires cap >= 1
  {
    [ReadShared(0, key), Tier(map[]), Tick(latency), Fill(0), Tick(1000 * cap - 1)]
  }

  lemma SlowReadRuns(cap: int, latency: nat, key: Key, value: Value)
    requires cap >= 1
    ensures
      var start := Start(0, map[key := value]);
      var s := After(start, SlowRead(cap, latency, key), cap);
      && IsRun(start, SlowRead(cap, latency, key), cap, latency)
      && s == State(1000 * cap - 1 + latency, [H.Store(key, Some(value), cap, latency)], map[], map[],
                    [Fact(key, value, 0)])
  {
    var e := SlowRead(cap, latency, key);
    var s0 := Start(0, map[key := value]);
    var s1 := State(0, [], map[key := value], map[0 := Fetch(key, value, 0)], [Fact(key, value, 0)]);
    var s2 := s1.(shared := map[]);
    var s3 := s2.(now := latency);
    var s4 := State(latency, [H.Store(key, Some(value), cap, latency)], map[], map[], [Fact(key, value, 0)]);
    assert Step(s0, e[0], cap) == s1;
    assert Step(s3, e[3], cap) == s4;
    Unroll(s0, e, cap, latency);
    Unroll(s1, e[1..], cap, latency);
    Unroll(s2, e[2..], cap, latency);
    Unroll(s3, e[3..], cap, latency);
    Unroll(s4, e[4..], cap, latency);
    assert e[1..][1..] == e[2..] && e[2..][1..] == e[3..] && e[3..][1..] == e[4..] && e[4..][1..] == [];
  }

  lemma Unroll(s: State, events: seq<Event>, cap: int, latency: nat)
    requires events != []
    ensures IsRun(s, events, cap, latency) == (Enabled(s, events[0], latency)
                                               && IsRun(Step(s, events[0], cap), events[1..], cap, latency))
    ensures After(s, events, cap) == After(Step(s, events[0], cap), events[1..], cap)
  {
  }

  /** The only time the value was true is the cap and the latency back, less a millisecond. So the
      promise "not older than the cap" holds of all runs exactly when copying takes no time. */
  lemma BoundIsReached(shape: H.Shape, cap: int, latency: nat, key: Key, value: Value)
    requires cap >= 1 && C.Cost(key, value) <= shape.Budget()
    ensures
      var s := After(Start(0, map[key := value]), SlowRead(cap, latency, key), cap);
      && IsRun(Start(0, map[key := value]), SlowRead(cap, latency, key), cap, latency)
      && LocalRead(shape, s, key) == Some(value)
      && s.facts == [Fact(key, value, s.now - (1000 * cap + latency - 1))]
      && (Backed(s.facts, key, value, s.now - 1000 * cap + 1) <==> latency == 0)
  {
    SlowReadRuns(cap, latency, key, value);
    var s := After(Start(0, map[key := value]), SlowRead(cap, latency, key), cap);
    FreshlyStored(shape, key, value, cap, latency, s.now);
    assert s.facts[0] == Fact(key, value, 0);
  }

  lemma FreshlyStored(shape: H.Shape, key: Key, value: Value, ttl: int, ticks: int, now: int)
    requires C.Cost(key, value) <= shape.Budget() && ttl != 0 && now < ticks + 1000 * ttl
    ensures C.Read(H.Run(shape, [H.Store(key, Some(value), ttl, ticks)])[shape.ShardOf(key)], key, now) == Some(value)
  {
    var op := H.Store(key, Some(value), ttl, ticks);
    var i := shape.ShardOf(key);
    assert [op][..0] == [];
    var entry := C.NewEntry(key, value, ttl, ticks);
    assert H.Run(shape, [op]) == H.Step(shape, H.Empty(shape), op);
    assert C.Remove([], key) == [];
    assert [entry] + [] == [entry];
    assert C.TotalBytes([entry]) == entry.bytes;
    assert C.Set([], shape.Budget(), key, Some(value), ttl, ticks) == [entry];
  }

  /** With a cap of zero a local copy would never expire at all, which is why the configuration
      refuses it. */
  lemma CapOfZeroNeverExpires(ticks: int, requested: int)
    requires requested >= 0
    ensures C.ExpiryFrom(LocalTtl(0, requested), ticks) == C.NEVER
  {
  }

  // ----- The object ----------------------------------------------------------------------------

  /** The breaker's fields and the local tier's contents. */
  datatype Tiers = Tiers(breaker: B.State, local: H.Cache)

  /** What the shared tier does when it is called: it throws, or it answers. */
  datatype Reply<T> = Throws | Replies(value: T)

  /** When things happen inside one call: asking the breaker, reporting to it, writing locally. */
  datatype Clock = Clock(ticks: int, askedAt: int, reportedAt: int, filledAt: int)

  /** What the breaker has seen once a shared call is over, if one was let through. */
  function Reported<T>(o: B.Options, b: B.State, clock: Clock, reply: Reply<T>): B.State {
    if B.Ask(o, b, clock.askedAt).Refused? then b
    else if reply.Throws? then B.Failed(o, B.Asked(o, b, clock.askedAt), clock.reportedAt)
    else B.Succeeded(o, B.Asked(o, b, clock.askedAt))
  }

  /** Both phases of a local read. */
  function Looked(shape: H.Shape, local: H.Cache, key: Key, ticks: int): (r: H.Cache)
    requires |local| == shape.Count()
    ensures |r| == |local|
  {
    H.Step(shape, H.Step(shape, local, H.Lookup(key, ticks)), H.Reclaim(key, ticks))
  }

  /** The local tier alone answers while the breaker refuses; a shared answer is copied for the cap. */
  function Got(shape: H.Shape, o: B.Options, cap: int, t: Tiers, key: Key, clock: Clock, reply: Reply<Option<Value>>)
    : (Option<Value>, Tiers)
    requires |t.local| == shape.Count()
  {
    var local := Looked(shape, t.local, key, clock.ticks);
    var hit := C.Read(t.local[shape.ShardOf(key)], key, clock.ticks);
    if hit.Some? then (hit, t.(local := local)) else Fetched(shape, o, cap, t.(local := local), key, clock, reply)
  }

  function Fetched(shape: H.Shape, o: B.Options, cap: int, t: Tiers, key: Key, clock: Clock,
                   reply: Reply<Option<Value>>)
    : (Option<Value>, Tiers)
    requires |t.local| == shape.Count()
  {
    var after := t.(breaker := Reported(o, t.breaker, clock, reply));
    if B.Ask(o, t.breaker, clock.askedAt).Refused? || reply.Throws? || reply.value.None? then (None, after)
    else (reply.value, after.(local := H.Step(shape, t.local, H.Store(key, reply.value, cap, clock.filledAt))))
  }

  /** The local tier first and unconditionally, for at most the cap; then the shared one. */
  function Stored(shape: H.Shape, o: B.Options, cap: int, t: Tiers, key: Key, value: Option<Value>, ttl: int,
                  clock: Clock, reply: Reply<()>): Tiers
  {
    Tiers(Reported(o, t.breaker, clock, reply),
          H.Step(shape, t.local, H.Store(key, value, LocalTtl(cap, ttl), clock.ticks)))
  }

  function Deleted(shape: H.Shape, o: B.Options, t: Tiers, key: Key, clock: Clock, reply: Reply<bool>): Tiers {
    Tiers(Reported(o, t.breaker, clock, reply), H.Step(shape, t.local, H.Delete(key)))
  }

  class TwoTierCache {
    const local: M.MemoryCache
    const breaker: B.CircuitBreaker
    const localTtlCap: int

    ghost predicate Valid()
      reads this, local, local.shards, local.Footprint(), breaker
    {
      local.Valid() && breaker !in local.Footprint()
    }

    ghost function Current(): (t: Tiers)
      requires Valid()
      reads this, local, local.shards, local.Footprint(), breaker
      ensures |t.local| == local.Shape().Count()
    {
      Tiers(breaker.Current(), local.View())
    }

    constructor (local: M.MemoryCache, options: B.Options, localTtlCap: int, epoch: int)
      requires local.Valid()
      ensures Valid() && this.local == local && this.localTtlCap == localTtlCap && fresh(breaker)
      ensures Current() == Tiers(B.Start(options, epoch), local.View()) && breaker.options == options
    {
      hide M.MemoryCache.Valid, M.MemoryCache.View;
      ghost var footprint := local.Footprint();
      var b := new B.CircuitBreaker(options, epoch);
      assert b !in footprint && local.Footprint() == footprint;
      this.local, this.localTtlCap, this.breaker := local, localTtlCap, b;
    }

    /** One shared call, if the breaker lets it through. */
    method Report<T>(clock: Clock, reply: Reply<T>) returns (allowed: bool)
      requires Valid()
      modifies breaker
      ensures Valid() && local.Footprint() == old(local.Footprint())
      ensures Current() == Tiers(Reported(breaker.options, old(breaker.Current()), clock, reply), old(local.View()))
      ensures allowed == !B.Ask(breaker.options, old(breaker.Current()), clock.askedAt).Refused?
    {
      hide Valid, M.MemoryCache.View, M.MemoryCache.Footprint, B.Ask;
      allowed := AskBreaker(clock.askedAt);
      if allowed {
        TellBreaker(clock.reportedAt, reply.Throws?);
      }
    }

    method AskBreaker(now: int) returns (allowed: bool)
      requires Valid()
      modifies breaker
      ensures Valid() && local.Footprint() == old(local.Footprint())
      ensures Current() == Tiers(B.Asked(breaker.options, old(breaker.Current()), now), old(local.View()))
      ensures allowed == !B.Ask(breaker.options, old(breaker.Current()), now).Refused?
    {
      hide M.MemoryCache.Valid, M.MemoryCache.View, B.Ask, B.Asked;
      allowed := breaker.AllowShared(now);
    }

    method TellBreaker(now: int, failed: bool)
      requires Valid()
      modifies breaker
      ensures Valid() && local.Footprint() == old(local.Footprint())
      ensures
        var b := old(breaker.Current());
        Current() == Tiers(if failed then B.Failed(breaker.options, b, now) else B.Succeeded(breaker.options, b),
                           old(local.View()))
    {
      hide M.MemoryCache.Valid, M.MemoryCache.View, B.Failed, B.Succeeded;
      if failed {
        breaker.RecordFailure(now);
      } else {
        breaker.RecordSuccess();
      }
    }

    method ReadLocal(key: Key, ticks: int) returns (value: Option<Value>)
      requires Valid()
      modifies local.Footprint()
      ensures Valid() && fresh(local.Footprint() - old(local.Footprint()))
      ensures Current() == Tiers(old(breaker.Current()), Looked(local.Shape(), old(local.View()), key, ticks))
      ensures value == C.Read(old(local.View())[local.Shape().ShardOf(key)], key, ticks)
    {
      hide M.MemoryCache.Valid, M.MemoryCache.View, M.MemoryCache.Footprint, H.Step, C.Read;
      value := local.Get(key, ticks);
    }

    method WriteLocal(key: Key, value: Option<Value>, ttl: int, ticks: int)
      requires Valid()
      modifies local.Footprint()
      ensures Valid() && fresh(local.Footprint() - old(local.Footprint()))
      ensures Current() == Tiers(old(breaker.Current()),
                                 H.Step(local.Shape(), old(local.View()), H.Store(key, value, ttl, ticks)))
    {
      hide M.MemoryCache.Valid, M.MemoryCache.View, M.MemoryCache.Footprint, H.Step;
      local.Set(key, value, ttl, ticks);
    }

    /** The same, of both tiers together. */
    method ReadLocalFirst(key: Key, ticks: int) returns (value: Option<Value>)
      requires Valid()
      modifies local.Footprint()
      ensures Valid() && fresh(local.Footprint() - old(local.Footprint()))
      ensures Current() == old(Current()).(local := Looked(local.Shape(), old(Current()).local, key, ticks))
      ensures value == C.Read(old(Current()).local[local.Shape().ShardOf(key)], key, ticks)
    {
      hide Valid, M.MemoryCache.Valid, M.MemoryCache.View, M.MemoryCache.Footprint, Looked, C.Read;
      value := ReadLocal(key, ticks);
    }

    method Get(key: Key, clock: Clock, reply: Reply<Option<Value>>) returns (value: Option<Value>)
      requires Valid()
      modifies breaker, local.Footprint()
      ensures Valid() && fresh(local.Footprint() - old(local.Footprint()))
      ensures (value, Current()) == Got(local.Shape(), breaker.options, localTtlCap, old(Current()), key, clock, reply)
    {
      hide Valid, M.MemoryCache.Valid, M.MemoryCache.View, Looked, C.Read, Fetched, Current;
      value := ReadLocalFirst(key, clock.ticks);
      if value.None? {
        value := Fetch(key, clock, reply);
      }
    }

    /** The shared tier's part of a read; what it answers is copied for the cap. */
    method Fetch(key: Key, clock: Clock, reply: Reply<Option<Value>>) returns (value: Option<Value>)
      requires Valid()
      modifies breaker, local.Footprint()
      ensures Valid() && fresh(local.Footprint() - old(local.Footprint()))
      ensures (value, Current()) == Fetched(local.Shape(), breaker.options, localTtlCap, old(Current()), key, clock,
                                            reply)
    {
      hide Valid, M.MemoryCache.Valid, M.MemoryCache.View, H.Step, B.Ask, Reported;
      value := None;
      var allowed := Report(clock, reply);
      if allowed && reply.Replies? {
        value := reply.value;
        if value.Some? {
          WriteLocal(key, value, localTtlCap, clock.filledAt);
        }
      }
    }

    /** The local tier is written first and unconditionally, for at most the cap. */
    method Set(key: Key, value: Option<Value>, ttl: int, clock: Clock, reply: Reply<()>)
      requires Valid()
      modifies breaker, local.Footprint()
      ensures Valid() && fresh(local.Footprint() - old(local.Footprint()))
      ensures Current() == Stored(local.Shape(), breaker.options, localTtlCap, old(Current()), key, value, ttl,
                                  clock, reply)
    {
      hide Valid, M.MemoryCache.Valid, M.MemoryCache.View, H.Step, B.Ask, Reported;
      WriteLocal(key, value, LocalTtl(localTtlCap, ttl), clock.ticks);
      var _ := Report(clock, reply);
    }

    /** A shared copy outlives its deletion when the shared tier cannot be reached. */
    method Del(key: Key, clock: Clock, reply: Reply<bool>) returns (present: bool)
      requires Valid()
      modifies breaker, local.Footprint()
      ensures Valid() && fresh(local.Footprint() - old(local.Footprint()))
      ensures Current() == Deleted(local.Shape(), breaker.options, old(Current()), key, clock, reply)
      ensures present == (HasKey(old(local.View())[local.Shape().ShardOf(key)], key)
                          || (!B.Ask(breaker.options, old(breaker.Current()), clock.askedAt).Refused?
                              && reply == Replies(true)))
    {
      hide Valid, M.MemoryCache.Valid, M.MemoryCache.View, H.Step, B.Ask, Reported;
      present := DeleteLocal(key);
      var allowed := Report(clock, reply);
      present := present || (allowed && reply == Replies(true));
    }

    method DeleteLocal(key: Key) returns (present: bool)
      requires Valid()
      modifies local.Footprint()
      ensures Valid() && fresh(local.Footprint() - old(local.Footprint()))
      ensures Current() == Tiers(old(breaker.Current()), H.Step(local.Shape(), old(local.View()), H.Delete(key)))
      ensures present == HasKey(old(local.View())[local.Shape().ShardOf(key)], key)
    {
      hide M.MemoryCache.Valid, M.MemoryCache.View, M.MemoryCache.Footprint, H.Step;
      present := local.Del(key);
    }
  }

  predicate HasKey(view: seq<C.Entry>, key: Key) {
    exists e :: e in view && e.key == key
  }
}
