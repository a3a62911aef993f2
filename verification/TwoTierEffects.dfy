/** What the two-tier cache does for its callers: what was set is found, what the shared tier answers is
    found again without asking, what was deleted is gone, and the breaker decides who asks. */
module TwoTierEffects {
  import opened Option
  import opened FallbackCache
  import B = Breaker
  import C = ClockCache
  import H = CacheHistory
  import S = SecondChance

  /** What the local tier answers. */
  function Here(shape: H.Shape, local: H.Cache, key: Key, at: int): Option<Value>
    requires |local| == shape.Count()
  {
    C.Read(local[shape.ShardOf(key)], key, at)
  }

  /** The local tier as it always is: no key twice in a shard. */
  predicate Tidy(shape: H.Shape, local: H.Cache) {
    |local| == shape.Count() && forall i :: 0 <= i < |local| ==> C.UniqueKeys(local[i])
  }

  /** There is room for the value beside everything else in its shard. */
  predicate Room(shape: H.Shape, local: H.Cache, key: Key, value: Value)
    requires |local| == shape.Count()
  {
    C.Cost(key, value) + C.TotalBytes(C.Remove(local[shape.ShardOf(key)], key)) <= shape.Budget()
  }

  /** Whether a call may go to the shared tier. */
  predicate Asks(o: B.Options, t: Tiers, clock: Clock) {
    !B.Ask(o, t.breaker, clock.askedAt).Refused?
  }

  /** The failures in a row behind a call: as before when it was not let through, none when it was answered. */
  function Counted(t: Tiers, asked: bool, failed: bool): nat {
    if !asked then t.breaker.failures else if failed then t.breaker.failures + 1 else 0
  }

  lemma SetKeepsUnique(view: seq<C.Entry>, budget: nat, key: Key, value: Option<Value>, ttl: int, ticks: int)
    requires C.UniqueKeys(view)
    ensures C.UniqueKeys(C.Set(view, budget, key, value, ttl, ticks))
  {
    hide C.Shrink, C.Find;
    C.RemoveKeeps(view, key, _ => true);
    if value.Some? && C.Cost(key, value.value) <= budget {
      var e, left := C.NewEntry(key, value.value, ttl, ticks), C.Remove(view, key);
      S.FreeInFront(e, left);
      C.ShrinkKeeps([e] + left, budget, _ => true);
    }
  }

  /** One local store, seen by reads. */
  lemma StoreSeen(shape: H.Shape, local: H.Cache, key: Key, value: Option<Value>, ttl: int, ticks: int, other: Key,
                  at: int)
    requires Tidy(shape, local) && (value.Some? ==> Room(shape, local, key, value.value))
    ensures
      var after := H.Step(shape, local, H.Store(key, value, ttl, ticks));
      var until := if ttl == 0 then C.NEVER else ticks + 1000 * ttl;
      && Tidy(shape, after)
      && Here(shape, after, other, at)
           == if other != key then Here(shape, local, other, at)
              else if value.Some? && at < until then value else None
  {
    hide C.Read, C.Set, C.UniqueKeys;
    var i := shape.ShardOf(key);
    SetKeepsUnique(local[i], shape.Budget(), key, value, ttl, ticks);
    if value.Some? {
      S.RoomIsAMap(local[i], shape.Budget(), key, value.value, ttl, ticks, other, at);
    } else {
      S.RemoveReads(local[i], key, other, at);
      SetNone(local[i], shape.Budget(), key, ttl, ticks);
    }
  }

  lemma SetNone(view: seq<C.Entry>, budget: nat, key: Key, ttl: int, ticks: int)
    ensures C.Set(view, budget, key, None, ttl, ticks) == C.Remove(view, key)
  {
  }

  /** A local read answers nobody differently afterwards, and makes no room scarcer. */
  lemma LookSeen(shape: H.Shape, local: H.Cache, key: Key, ticks: int, other: Key, at: int)
    requires Tidy(shape, local) && at >= ticks
    ensures
      var after := Looked(shape, local, key, ticks);
      Tidy(shape, after) && Here(shape, after, other, at) == Here(shape, local, other, at)
  {
    hide C.Read, C.UniqueKeys, C.Touch, C.DropExpired;
    var i := shape.ShardOf(key);
    var touched := C.Touch(local[i], key, ticks);
    S.TouchedUnique(local[i], key, ticks);
    S.TouchFlags(local[i], key, ticks, other, at);
    DropUnique(touched, key, ticks);
    S.DropReads(touched, key, ticks, other, at);
    LookedIs(shape, local, key, ticks);
  }

  lemma DropUnique(view: seq<C.Entry>, key: Key, ticks: int)
    requires C.UniqueKeys(view)
    ensures C.UniqueKeys(C.DropExpired(view, key, ticks))
  {
    hide C.Find;
  }

  lemma LookedIs(shape: H.Shape, local: H.Cache, key: Key, ticks: int)
    requires |local| == shape.Count()
    ensures
      var i := shape.ShardOf(key);
      Looked(shape, local, key, ticks) == local[i := C.DropExpired(C.Touch(local[i], key, ticks), key, ticks)]
  {
    hide C.Touch, C.DropExpired;
  }

  lemma MissKeepsRoom(shape: H.Shape, local: H.Cache, key: Key, ticks: int, value: Value)
    requires Tidy(shape, local) && Here(shape, local, key, ticks) == None
    ensures Room(shape, Looked(shape, local, key, ticks), key, value) <==> Room(shape, local, key, value)
  {
    hide C.TotalBytes, C.Read;
    var i := shape.ShardOf(key);
    LookedIs(shape, local, key, ticks);
    MissRemoves(local[i], key, ticks);
  }

  lemma MissRemoves(view: seq<C.Entry>, key: Key, ticks: int)
    requires C.UniqueKeys(view) && C.Read(view, key, ticks) == None
    ensures C.Remove(C.DropExpired(C.Touch(view, key, ticks), key, ticks), key) == C.Remove(view, key)
  {
    hide C.Find;
    C.RemoveKeeps(view, key, _ => true);
    S.HasIs(C.Remove(view, key), key);
  }

  // ----- get ---------------------------------------------------------------------------------------

  /** A local hit answers without the shared tier: whatever that would say, and with the breaker as it was. */
  lemma LocalHitAnswers(shape: H.Shape, o: B.Options, cap: int, t: Tiers, key: Key, clock: Clock,
                        reply: Reply<Option<Value>>)
    requires Tidy(shape, t.local) && Here(shape, t.local, key, clock.ticks).Some?
    ensures
      var (answer, u) := Got(shape, o, cap, t, key, clock, reply);
      answer == Here(shape, t.local, key, clock.ticks) && u.breaker == t.breaker
  {
    hide C.Read, Looked;
  }

  /** A local miss is answered by the shared tier when the breaker lets the call through, and by nothing
      otherwise; the breaker learns how the call went. */
  lemma MissAsksShared(shape: H.Shape, o: B.Options, cap: int, t: Tiers, key: Key, clock: Clock,
                       reply: Reply<Option<Value>>)
    requires Tidy(shape, t.local) && Here(shape, t.local, key, clock.ticks) == None
    ensures
      var (answer, u) := Got(shape, o, cap, t, key, clock, reply);
      && answer == (if Asks(o, t, clock) && reply.Replies? then reply.value else None)
      && (!Asks(o, t, clock) ==> u.breaker == t.breaker)
      && u.breaker.failures == Counted(t, Asks(o, t, clock), reply.Throws?)
  {
    hide C.Read, Looked, H.Step;
  }

  /** What the shared tier answered is found again without asking it, until the cap has passed. */
  lemma FoundAgain(shape: H.Shape, o: B.Options, cap: int, t: Tiers, key: Key, clock: Clock, value: Value,
                   later: Clock, again: Reply<Option<Value>>)
    requires Tidy(shape, t.local) && Here(shape, t.local, key, clock.ticks) == None && Asks(o, t, clock)
    requires Room(shape, t.local, key, value) && cap >= 1 && later.ticks < clock.filledAt + 1000 * cap
    ensures
      var (answer, u) := Got(shape, o, cap, t, key, clock, Replies(Some(value)));
      answer == Some(value) && |u.local| == shape.Count() && Got(shape, o, cap, u, key, later, again).0 == Some(value)
  {
    hide C.Read, Looked, H.Step, Room;
    MissKeepsRoom(shape, t.local, key, clock.ticks, value);
    LookSeen(shape, t.local, key, clock.ticks, key, clock.ticks);
    StoreSeen(shape, Looked(shape, t.local, key, clock.ticks), key, Some(value), cap, clock.filledAt, key, later.ticks);
  }

  // ----- set and del ---------------------------------------------------------------------------------

  function Smaller(a: int, b: int): int {
    if a < b then a else b
  }

  /** What was set is found in the local tier, whatever became of the shared one, for as long as asked and
      never longer than the cap; no other key's answer changes. Setting nothing takes the key away. */
  lemma SetIsFound(shape: H.Shape, o: B.Options, cap: int, t: Tiers, key: Key, value: Option<Value>, ttl: int,
                   clock: Clock, reply: Reply<()>, other: Key, at: int)
    requires Tidy(shape, t.local) && (value.Some? ==> Room(shape, t.local, key, value.value))
    requires cap >= 1 && ttl >= 0
    ensures
      var u := Stored(shape, o, cap, t, key, value, ttl, clock, reply);
      var life := 1000 * if ttl == 0 then cap else Smaller(cap, ttl);
      && Tidy(shape, u.local)
      && Here(shape, u.local, other, at)
           == if other != key then Here(shape, t.local, other, at)
              else if value.Some? && at < clock.ticks + life then value else None
    ensures
      var u := Stored(shape, o, cap, t, key, value, ttl, clock, reply);
      u.breaker.failures == Counted(t, Asks(o, t, clock), reply.Throws?)
  {
    hide C.Read, H.Step, Room;
    StoreSeen(shape, t.local, key, value, LocalTtl(cap, ttl), clock.ticks, other, at);
  }

  /** What was deleted is not in the local tier, whatever became of the shared one. */
  lemma DeleteIsGone(shape: H.Shape, o: B.Options, t: Tiers, key: Key, clock: Clock, reply: Reply<bool>, other: Key,
                     at: int)
    requires Tidy(shape, t.local)
    ensures
      var u := Deleted(shape, o, t, key, clock, reply);
      && Tidy(shape, u.local)
      && Here(shape, u.local, other, at) == (if other == key then None else Here(shape, t.local, other, at))
      && u.breaker.failures == Counted(t, Asks(o, t, clock), reply.Throws?)
  {
    hide C.Read;
    var i := shape.ShardOf(key);
    C.RemoveKeeps(t.local[i], key, _ => true);
    S.RemoveReads(t.local[i], key, other, at);
  }
}
