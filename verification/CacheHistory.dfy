/** Whole runs of the sharded cache. Every locked section of every operation is one step, so
    the runs here are the interleavings of any number of callers. */
module CacheHistory {
  import opened Bits
  import opened Option
  import opened ClockCache

  /** An even share, rounded down. */
  function Share(total: nat, count: nat): nat
    requires count > 0
  {
    total / count
  }

  /** The key hash is left open. There are 2^bits shards; the lowest bits of a key's hash pick
      its shard, and the shards share the budget evenly. */
  datatype Shape = Shape(hash: Key -> nat, bits: nat, maxBytes: nat) {
    function Count(): nat {
      Pow2(bits)
    }

    function ShardOf(key: Key): (i: nat)
      ensures i < Count()
    {
      LowBitsFit(hash(key), bits);
      LowBits(hash(key), bits)
    }

    function Budget(): nat {
      Share(maxBytes, Count())
    }
  }

  datatype Op =
    | Store(key: Key, value: Option<Value>, ttl: int, ticks: int)
    | Lookup(key: Key, ticks: int)
    | Reclaim(key: Key, ticks: int)
    | Delete(key: Key)
    | EvictShard(shard: nat, limit: nat, ticks: int)
    | ClearShard(shard: nat)

  type Cache = seq<seq<Entry>>

  function Empty(shape: Shape): Cache {
    seq(shape.Count(), _ => [])
  }

  function ShardStep(shape: Shape, view: seq<Entry>, op: Op): seq<Entry>
  {
    match op
    case Store(key, value, ttl, ticks) => Set(view, shape.Budget(), key, value, ttl, ticks)
    case Lookup(key, ticks) => Touch(view, key, ticks)
    case Reclaim(key, ticks) => DropExpired(view, key, ticks)
    case Delete(key) => Remove(view, key)
    case EvictShard(_, limit, ticks) => Evict(view, limit, ticks)
    case ClearShard(_) => []
  }

  function Target(shape: Shape, op: Op): nat
  {
    match op
    case Store(key, _, _, _) => shape.ShardOf(key)
    case Lookup(key, _) => shape.ShardOf(key)
    case Reclaim(key, _) => shape.ShardOf(key)
    case Delete(key) => shape.ShardOf(key)
    case EvictShard(i, _, _) => i
    case ClearShard(i) => i
  }

  function Step(shape: Shape, cache: Cache, op: Op): (after: Cache)
    ensures |after| == |cache|
  {
    var i := Target(shape, op);
    if i < |cache| then cache[i := ShardStep(shape, cache[i], op)] else cache
  }

  /** Shards 0 to n-1 evicted one after the other. */
  function EvictSteps(shape: Shape, cache: Cache, n: nat, limit: nat, ticks: int): (after: Cache)
    ensures |after| == |cache|
  {
    if n == 0 then cache
    else Step(shape, EvictSteps(shape, cache, n - 1, limit, ticks), EvictShard(n - 1, limit, ticks))
  }

  function EvictAll(shape: Shape, cache: Cache, budgetBytes: nat, ticks: int): Cache {
    EvictSteps(shape, cache, shape.Count(), Share(budgetBytes, shape.Count()), ticks)
  }

  function ClearSteps(shape: Shape, cache: Cache, n: nat): (after: Cache)
    ensures |after| == |cache|
  {
    if n == 0 then cache else Step(shape, ClearSteps(shape, cache, n - 1), ClearShard(n - 1))
  }

  function Run(shape: Shape, history: seq<Op>): (cache: Cache)
    ensures |cache| == shape.Count()
  {
    if history == [] then Empty(shape)
    else Step(shape, Run(shape, history[..|history| - 1]), history[|history| - 1])
  }

  /** The steps that decide what a read of `key` may answer. */
  predicate Affects(shape: Shape, op: Op, key: Key)
  {
    match op
    case Store(k, _, _, _) => k == key
    case Delete(k) => k == key
    case ClearShard(i) => i == shape.ShardOf(key)
    case _ => false
  }

  /** The last step of the history that affects `key`, or -1. */
  function LastWrite(shape: Shape, history: seq<Op>, key: Key): (i: int)
    ensures -1 <= i < |history|
    ensures i >= 0 ==> Affects(shape, history[i], key)
    ensures forall j :: i < j < |history| ==> !Affects(shape, history[j], key)
  {
    var n := |history| - 1;
    if history == [] then -1
    else if Affects(shape, history[n], key) then n
    else LastWrite(shape, history[..n], key)
  }

  /** The entry is exactly what the last step affecting its key stored. */
  predicate Stored(shape: Shape, history: seq<Op>, e: Entry)
  {
    var i := LastWrite(shape, history, e.key);
    && i >= 0 && history[i].Store? && history[i].value.Some?
    && e.(accessed := false) == NewEntry(e.key, history[i].value.value, history[i].ttl, history[i].ticks)
  }

  /** What every entry of shard i satisfies: it belongs there, and it was really stored. */
  ghost function Genuine(shape: Shape, history: seq<Op>, i: nat): Entry -> bool
  {
    (e: Entry) => shape.ShardOf(e.key) == i && Stored(shape, history, e)
  }

  ghost predicate ShardInvariant(shape: Shape, history: seq<Op>, view: seq<Entry>, i: nat)
  {
    UniqueKeys(view) && TotalBytes(view) <= shape.Budget() && Every(view, Genuine(shape, history, i))
  }

  ghost predicate Invariant(shape: Shape, history: seq<Op>, cache: Cache)
  {
    |cache| == shape.Count() && forall i :: 0 <= i < |cache| ==> ShardInvariant(shape, history, cache[i], i)
  }

  /** A step that does not affect an entry's key leaves the entry's record of being stored alone. */
  lemma StillGenuine(shape: Shape, history: seq<Op>, op: Op, view: seq<Entry>, i: nat)
    requires Every(view, Genuine(shape, history, i))
    requires forall k :: 0 <= k < |view| ==> !Affects(shape, op, view[k].key)
    ensures Every(view, Genuine(shape, history + [op], i))
  {
    forall k | 0 <= k < |view| ensures Genuine(shape, history + [op], i)(view[k].(accessed := false)) {
      assert Genuine(shape, history, i)(view[k].(accessed := false));
      assert (history + [op])[..|history|] == history;
    }
  }

  lemma RemoveThenGenuine(shape: Shape, history: seq<Op>, op: Op, view: seq<Entry>, i: nat)
    requires UniqueKeys(view) && Every(view, Genuine(shape, history, i))
    requires op.Store? || op.Delete?
    ensures Every(Remove(view, op.key), Genuine(shape, history + [op], i))
  {
    RemoveKeeps(view, op.key, Genuine(shape, history, i));
    StillGenuine(shape, history, op, Remove(view, op.key), i);
  }

  lemma StoreKeeps(shape: Shape, history: seq<Op>, op: Op, view: seq<Entry>)
    requires op.Store? && ShardInvariant(shape, history, view, shape.ShardOf(op.key))
    ensures ShardInvariant(shape, history + [op], ShardStep(shape, view, op), shape.ShardOf(op.key))
  {
    var i := shape.ShardOf(op.key);
    var p := Genuine(shape, history + [op], i);
    RemoveThenGenuine(shape, history, op, view, i);
    assert op.value.Some? ==> p(NewEntry(op.key, op.value.value, op.ttl, op.ticks));
    SetKeeps(view, shape.Budget(), op.key, op.value, op.ttl, op.ticks, p);
  }

  lemma EvictKeeps(view: seq<Entry>, limit: nat, ticks: int, p: Entry -> bool)
    requires UniqueKeys(view) && Every(view, p)
    ensures UniqueKeys(Evict(view, limit, ticks)) && Every(Evict(view, limit, ticks), p)
  {
    PurgeKeeps(view, ticks, p);
    ShrinkKeeps(Purge(view, ticks), limit, p);
  }

  lemma TargetKeeps(shape: Shape, history: seq<Op>, op: Op, view: seq<Entry>)
    requires ShardInvariant(shape, history, view, Target(shape, op))
    ensures ShardInvariant(shape, history + [op], ShardStep(shape, view, op), Target(shape, op))
  {
    var i := Target(shape, op);
    var p := Genuine(shape, history + [op], i);
    match op {
      case Store(_, _, _, _) =>
        StoreKeeps(shape, history, op, view);
      case Lookup(key, ticks) =>
        StillGenuine(shape, history, op, view, i);
        TouchKeeps(view, key, ticks, p);
      case Reclaim(key, ticks) =>
        StillGenuine(shape, history, op, view, i);
        RemoveKeeps(view, key, p);
      case Delete(key) =>
        RemoveThenGenuine(shape, history, op, view, i);
        RemoveKeeps(view, key, Genuine(shape, history, i));
      case EvictShard(_, limit, ticks) =>
        StillGenuine(shape, history, op, view, i);
        EvictKeeps(view, limit, ticks, p);
        EvictTotal(view, limit, ticks);
      case ClearShard(_) =>
    }
  }

  lemma TouchKeeps(view: seq<Entry>, key: Key, ticks: int, p: Entry -> bool)
    requires UniqueKeys(view) && Every(view, p)
    ensures UniqueKeys(Touch(view, key, ticks)) && Every(Touch(view, key, ticks), p)
    ensures TotalBytes(Touch(view, key, ticks)) == TotalBytes(view)
  {
    var i := Find(view, key);
    if i < |view| && view[i].expiresAt > ticks {
      var after := view[i := view[i].(accessed := true)];
      TotalWithout(view, i);
      TotalWithout(after, i);
      assert Without(after, i) == Without(view, i);
    }
  }

  lemma {:induction false} PurgeTotal(view: seq<Entry>, ticks: int)
    ensures TotalBytes(Purge(view, ticks)) <= TotalBytes(view)
  {
    if view != [] {
      PurgeTotal(view[1..], ticks);
      TotalConcat(if view[0].expiresAt > ticks then [view[0]] else [], Purge(view[1..], ticks));
    }
  }

  lemma {:induction false} ShrinkTotal(view: seq<Entry>, limit: nat)
    ensures TotalBytes(Shrink(view, limit)) <= TotalBytes(view)
    decreases |view|
  {
    if view != [] && TotalBytes(view) > limit {
      EvictOneLength(view);
      ShrinkTotal(EvictOne(view), limit);
      EvictOneTotal(view);
    }
  }

  lemma EvictOneTotal(view: seq<Entry>)
    requires view != []
    ensures TotalBytes(EvictOne(view)) <= TotalBytes(view)
  {
    if AllFlagged(view) {
      EvictsTailWhenAllFlagged(view);
      TotalCleared(view[..|view| - 1]);
      TotalWithout(view, |view| - 1);
      assert Without(view, |view| - 1) == view[..|view| - 1];
    } else {
      var j := LastUnflagged(view);
      EvictsLastUnflagged(view, j);
      TotalConcat(Cleared(view[j + 1..]), view[..j]);
      TotalCleared(view[j + 1..]);
      TotalWithout(view, j);
      TotalConcat(view[..j], view[j + 1..]);
    }
  }

  lemma EvictTotal(view: seq<Entry>, limit: nat, ticks: int)
    ensures TotalBytes(Evict(view, limit, ticks)) <= TotalBytes(view)
    ensures TotalBytes(Evict(view, limit, ticks)) <= limit
  {
    PurgeTotal(view, ticks);
    ShrinkTotal(Purge(view, ticks), limit);
    ShrinkWithin(Purge(view, ticks), limit);
  }

  lemma {:induction false} ShrinkWithin(view: seq<Entry>, limit: nat)
    ensures TotalBytes(Shrink(view, limit)) <= limit
    decreases |view|
  {
    if view != [] && TotalBytes(view) > limit {
      EvictOneLength(view);
      ShrinkWithin(EvictOne(view), limit);
    }
  }

  lemma OtherShardKeeps(shape: Shape, history: seq<Op>, op: Op, view: seq<Entry>, i: nat)
    requires ShardInvariant(shape, history, view, i) && i != Target(shape, op)
    ensures ShardInvariant(shape, history + [op], view, i)
  {
    assert forall k :: 0 <= k < |view| ==> Genuine(shape, history, i)(view[k].(accessed := false));
    StillGenuine(shape, history, op, view, i);
  }

  lemma StepKeeps(shape: Shape, history: seq<Op>, cache: Cache, op: Op)
    requires Invariant(shape, history, cache)
    ensures Invariant(shape, history + [op], Step(shape, cache, op))
  {
    var target := Target(shape, op);
    forall i | 0 <= i < |cache| ensures ShardInvariant(shape, history + [op], Step(shape, cache, op)[i], i) {
      if i == target {
        TargetKeeps(shape, history, op, cache[i]);
      } else {
        OtherShardKeeps(shape, history, op, cache[i], i);
      }
    }
  }

  lemma {:induction false} RunKeeps(shape: Shape, history: seq<Op>)
    ensures Invariant(shape, history, Run(shape, history))
    decreases |history|
  {
    if history != [] {
      var n := |history| - 1;
      RunKeeps(shape, history[..n]);
      StepKeeps(shape, history[..n], Run(shape, history[..n]), history[n]);
      assert history[..n] + [history[n]] == history;
    }
  }

  // ----- The two promises ----------------------------------------------------

  function CacheBytes(cache: Cache): nat {
    if cache == [] then 0 else TotalBytes(cache[0]) + CacheBytes(cache[1..])
  }

  lemma {:induction false} CacheBytesBound(cache: Cache, budget: nat)
    requires forall i :: 0 <= i < |cache| ==> TotalBytes(cache[i]) <= budget
    ensures CacheBytes(cache) <= |cache| * budget
  {
    if cache != [] {
      var n := |cache[1..]|;
      CacheBytesBound(cache[1..], budget);
      assert (n + 1) * budget == n * budget + budget;
    }
  }

  lemma EvenShares(total: nat, count: nat)
    requires count > 0
    ensures count * Share(total, count) <= total
  {
  }

  /** At every moment of every run the cache as a whole is within what it was configured to hold,
      and every key is held, if at all, once and in its own shard. */
  lemma AlwaysWithinBudget(shape: Shape, history: seq<Op>)
    ensures var cache := Run(shape, history);
      && CacheBytes(cache) <= shape.maxBytes
      && (forall i :: 0 <= i < |cache| ==> UniqueKeys(cache[i]) && TotalBytes(cache[i]) <= shape.Budget())
      && forall i, k :: 0 <= i < |cache| && 0 <= k < |cache[i]| ==> shape.ShardOf(cache[i][k].key) == i
  {
    var cache := Run(shape, history);
    RunKeeps(shape, history);
    CacheBytesBound(cache, shape.Budget());
    EvenShares(shape.maxBytes, shape.Count());
    forall i, k | 0 <= i < |cache| && 0 <= k < |cache[i]| ensures shape.ShardOf(cache[i][k].key) == i {
      assert Genuine(shape, history, i)(cache[i][k].(accessed := false));
    }
  }

  /** A read answers v only when the last store, delete or clear affecting the key was a store of
      v whose time to live was zero or has not run out. */
  lemma ReadsLastWrite(shape: Shape, history: seq<Op>, key: Key, ticks: int)
    requires Read(Run(shape, history)[shape.ShardOf(key)], key, ticks).Some?
    ensures var i := LastWrite(shape, history, key);
      && i >= 0 && history[i].Store?
      && history[i].value == Read(Run(shape, history)[shape.ShardOf(key)], key, ticks)
      && (history[i].ttl == 0 || ticks < history[i].ticks + 1000 * history[i].ttl)
  {
    var s := shape.ShardOf(key);
    var view := Run(shape, history)[s];
    RunKeeps(shape, history);
    var k := Find(view, key);
    assert Genuine(shape, history, s)(view[k].(accessed := false));
  }
}
