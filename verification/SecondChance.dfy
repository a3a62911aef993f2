/** What a read earns: an entry that was hit outlasts every entry that was not, until the clock's hand has
    passed over it once. */
module SecondChance {
  import opened Option
  import opened ClockCache
  import opened CacheHistory
  import T = Text

  // ----- Flags -------------------------------------------------------------------------------

  predicate Has(view: seq<Entry>, key: Key) {
    Find(view, key) < |view|
  }

  /** Whether a key's entry has been hit since the hand last passed it. */
  predicate Flag(view: seq<Entry>, key: Key) {
    Has(view, key) && view[Find(view, key)].accessed
  }

  predicate Free(view: seq<Entry>, key: Key) {
    Has(view, key) && !view[Find(view, key)].accessed
  }

  lemma FindIs(view: seq<Entry>, i: nat)
    requires UniqueKeys(view) && i < |view|
    ensures Find(view, view[i].key) == i
  {
    hide Find;
    var k := Find(view, view[i].key);
    assert k <= i;
  }

  lemma HasIs(view: seq<Entry>, key: Key)
    ensures Has(view, key) <==> exists i :: 0 <= i < |view| && view[i].key == key
  {
    hide Find;
    if Has(view, key) {
      assert view[Find(view, key)].key == key;
    }
  }

  /** A hit raises its own flag and no other, and changes no answer; a miss changes nothing at all. */
  lemma TouchFlags(view: seq<Entry>, key: Key, ticks: int, other: Key, at: int)
    requires UniqueKeys(view)
    ensures
      var after := Touch(view, key, ticks);
      && (Flag(after, other) <==> Flag(view, other) || (other == key && Read(view, key, ticks).Some?))
      && (Free(after, other) <==> Free(view, other) && !(other == key && Read(view, key, ticks).Some?))
      && Read(after, other, at) == Read(view, other, at)
      && (Read(view, key, ticks) == None ==> after == view)
  {
    var after := Touch(view, key, ticks);
    SameKeysFind(view, after, other);
    hide Find;
  }

  lemma {:induction false} SameKeysFind(view: seq<Entry>, after: seq<Entry>, key: Key)
    requires |after| == |view| && forall i :: 0 <= i < |view| ==> after[i].key == view[i].key
    ensures Find(after, key) == Find(view, key)
  {
    if view != [] {
      SameKeysFind(view[1..], after[1..], key);
    }
  }

  // ----- Who goes ------------------------------------------------------------------------------

  /** The last entry that is not flagged, or -1. */
  function LastFree(view: seq<Entry>): (j: int)
    ensures -1 <= j < |view|
    ensures j >= 0 ==> !view[j].accessed
    ensures forall k :: j < k < |view| ==> view[k].accessed
  {
    if view == [] then -1
    else if !view[|view| - 1].accessed then |view| - 1
    else LastFree(view[..|view| - 1])
  }

  /** The last unflagged entry, and the tail when there is none. */
  function Victim(view: seq<Entry>): (j: nat)
    requires view != []
    ensures j < |view|
  {
    if LastFree(view) >= 0 then LastFree(view) else |view| - 1
  }

  lemma ReadAt(view: seq<Entry>, i: nat, at: int)
    requires UniqueKeys(view) && i < |view|
    ensures Read(view, view[i].key, at) == if view[i].expiresAt > at then Some(view[i].value) else None
  {
    hide Find;
    FindIs(view, i);
  }

  lemma ReadNone(view: seq<Entry>, key: Key, at: int)
    requires !Has(view, key)
    ensures Read(view, key, at) == None
  {
    hide Find;
  }

  /** Where everything is after a turn that takes `gone`. */
  predicate Moved(view: seq<Entry>, after: seq<Entry>, n: nat, m: nat) {
    && |view| == n + 1 + m && |after| == n + m
    && (forall i :: 0 <= i < m ==> after[i] == view[n + 1 + i].(accessed := false))
    && (forall i :: 0 <= i < n ==> after[m + i] == view[i])
  }

  lemma TurnMoves(front: seq<Entry>, gone: Entry, behind: seq<Entry>)
    ensures Moved(front + [gone] + behind, Cleared(behind) + front, |front|, |behind|)
  {
  }

  lemma Rearranged(front: seq<Entry>, gone: Entry, behind: seq<Entry>, key: Key, at: int)
    requires UniqueKeys(front + [gone] + behind)
    ensures UniqueKeys(Cleared(behind) + front)
    ensures Read(Cleared(behind) + front, key, at)
         == if key == gone.key then None else Read(front + [gone] + behind, key, at)
  {
    hide Moved, Read, Find, UniqueKeys;
    TurnMoves(front, gone, behind);
    assert (front + [gone] + behind)[|front|] == gone;
    MovedReads(front + [gone] + behind, Cleared(behind) + front, |front|, |behind|, key, at);
  }

  lemma MovedReads(view: seq<Entry>, after: seq<Entry>, n: nat, m: nat, key: Key, at: int)
    requires UniqueKeys(view) && Moved(view, after, n, m)
    ensures UniqueKeys(after)
    ensures Read(after, key, at) == if key == view[n].key then None else Read(view, key, at)
  {
    hide Find, UniqueKeys, Read;
    RearrangedUnique(view, after, n, m);
    HasIs(view, key);
    HasIs(after, key);
    if Has(after, key) {
      var i :| 0 <= i < |after| && after[i].key == key;
      var k := if i < m then n + 1 + i else i - m;
      assert view[k].key == key && k != n;
      ReadAt(after, i, at);
      ReadAt(view, k, at);
      DifferentKeys(view, k, n);
    } else {
      ReadNone(after, key, at);
      if Has(view, key) {
        var k :| 0 <= k < |view| && view[k].key == key;
        if k != n {
          OthersStay(view, after, n, m, k);
        }
      } else {
        ReadNone(view, key, at);
      }
    }
  }

  lemma OthersStay(view: seq<Entry>, after: seq<Entry>, n: nat, m: nat, k: nat)
    requires Moved(view, after, n, m) && k < |view| && k != n
    ensures Has(after, view[k].key)
  {
    hide Find;
    HasIs(after, view[k].key);
    var i := if k < n then m + k else k - n - 1;
    assert after[i].key == view[k].key;
  }

  lemma DifferentKeys(view: seq<Entry>, i: nat, j: nat)
    requires UniqueKeys(view) && i < |view| && j < |view| && i != j
    ensures view[i].key != view[j].key
  {
  }

  lemma RearrangedUnique(view: seq<Entry>, after: seq<Entry>, n: nat, m: nat)
    requires UniqueKeys(view) && Moved(view, after, n, m)
    ensures UniqueKeys(after)
  {
    forall i, j | 0 <= i < j < |after| ensures after[i].key != after[j].key {
      var a, b := if i < m then n + 1 + i else i - m, if j < m then n + 1 + j else j - m;
      assert after[i].key == view[a].key && after[j].key == view[b].key;
      assert a != b;
    }
  }

  /** One turn of the clock takes that entry and no other. */
  lemma EvictsVictim(view: seq<Entry>, key: Key, at: int)
    requires UniqueKeys(view) && view != []
    ensures UniqueKeys(EvictOne(view))
    ensures Read(EvictOne(view), key, at) == if key == view[Victim(view)].key then None else Read(view, key, at)
  {
    hide Find, UniqueKeys, EvictOne;
    var j := Victim(view);
    var front, behind := view[..j], view[j + 1..];
    assert view == front + [view[j]] + behind;
    Rearranged(front, view[j], behind, key, at);
    if LastFree(view) >= 0 {
      EvictsLastUnflagged(view, j);
    } else {
      EvictsTailWhenAllFlagged(view);
      assert behind == [] && Cleared(behind) + front == front;
      ClearedReads(front, key, at);
    }
  }

  lemma ClearedReads(view: seq<Entry>, key: Key, at: int)
    ensures Read(Cleared(view), key, at) == Read(view, key, at) && (UniqueKeys(view) ==> UniqueKeys(Cleared(view)))
  {
    SameKeysFind(view, Cleared(view), key);
    hide Find;
  }

  /** The second chance: an entry that is hit is not the one that goes next while another is unflagged. */
  lemma HitIsSpared(view: seq<Entry>, key: Key, ticks: int, at: int, other: Key)
    requires UniqueKeys(view) && Read(view, key, ticks).Some? && Free(view, other) && other != key
    ensures Read(EvictOne(Touch(view, key, ticks)), key, at) == Read(view, key, at)
  {
    var after := Touch(view, key, ticks);
    TouchFlags(view, key, ticks, other, at);
    TouchFlags(view, key, ticks, key, at);
    TouchedUnique(view, key, ticks);
    hide Find, Touch, EvictOne;
    EvictsVictim(after, key, at);
    FlaggedIsNoVictim(after, key, other);
  }

  lemma TouchedUnique(view: seq<Entry>, key: Key, ticks: int)
    requires UniqueKeys(view)
    ensures UniqueKeys(Touch(view, key, ticks)) && |Touch(view, key, ticks)| == |view|
  {
  }

  lemma FlaggedIsNoVictim(view: seq<Entry>, key: Key, other: Key)
    requires UniqueKeys(view) && Flag(view, key) && Free(view, other)
    ensures view[Victim(view)].key != key && LastFree(view) >= 0
  {
    hide Find;
    FindIs(view, Victim(view));
  }

  // ----- Over any number of evictions --------------------------------------------------------------

  /** The entries that the hand has spared, then those it has not come to yet. What is still unflagged among
      these goes before anything that was spared or is flagged. */
  lemma {:induction false} SparedOutlast(spared: seq<Entry>, ahead: seq<Entry>, limit: nat, a: Key, b: Key, at: int)
    requires UniqueKeys(spared + ahead) && Free(ahead, b) && (Has(spared, a) || Flag(ahead, a))
    requires Has(Shrink(spared + ahead, limit), b)
    ensures Read(Shrink(spared + ahead, limit), a, at) == Read(spared + ahead, a, at)
    decreases |spared| + |ahead|
  {
    var view := spared + ahead;
    if TotalBytes(view) > limit {
      hide Find, Read, TotalBytes, UniqueKeys, EvictOne, Shrink;
      FreeIs(ahead, b);
      var j := LastFree(ahead);
      var front, gone, behind := ahead[..j], ahead[j], ahead[j + 1..];
      var next := Cleared(behind) + spared;
      assert ahead == front + [gone] + behind;
      HandPasses(spared, front, gone, behind, a, at);
      EvictOneLength(view);
      ShrinkStep(view, limit);
      Survives(next + front, limit, b);
      T.Associative(Cleared(behind), spared, front);
      StillFree(spared, front, gone, behind, b);
      StillSpared(spared, front, gone, behind, a);
      SparedOutlast(next, front, limit, a, b, at);
    } else {
      ShrinkStays(view, limit);
    }
  }

  lemma HandPasses(spared: seq<Entry>, front: seq<Entry>, gone: Entry, behind: seq<Entry>, key: Key, at: int)
    requires UniqueKeys(spared + (front + [gone] + behind)) && !gone.accessed && AllFlagged(behind)
    ensures
      var view, after := spared + (front + [gone] + behind), Cleared(behind) + spared + front;
      && EvictOne(view) == after && UniqueKeys(after)
      && Read(after, key, at) == if key == gone.key then None else Read(view, key, at)
  {
    hide Find, Read, UniqueKeys, EvictOne;
    var view := spared + (front + [gone] + behind);
    var k := |spared| + |front|;
    assert view == (spared + front) + [gone] + behind;
    assert view[k] == gone && view[k + 1..] == behind && view[..k] == spared + front;
    EvictsLastUnflagged(view, k);
    Rearranged(spared + front, gone, behind, key, at);
    T.Associative(Cleared(behind), spared, front);
  }

  lemma ShrinkStep(view: seq<Entry>, limit: nat)
    requires view != [] && TotalBytes(view) > limit
    ensures Shrink(view, limit) == Shrink(EvictOne(view), limit)
  {
    hide EvictOne, TotalBytes;
  }

  lemma ShrinkStays(view: seq<Entry>, limit: nat)
    requires TotalBytes(view) <= limit
    ensures Shrink(view, limit) == view
  {
  }

  /** Nothing comes into a view that shrinks. */
  lemma {:induction false} Survives(view: seq<Entry>, limit: nat, key: Key)
    requires UniqueKeys(view) && Has(Shrink(view, limit), key)
    ensures Has(view, key)
  {
    hide Find, TotalBytes;
    var p := (e: Entry) => exists i :: 0 <= i < |view| && view[i].key == e.key;
    ShrinkKeeps(view, limit, p);
    HasIs(Shrink(view, limit), key);
    var i :| 0 <= i < |Shrink(view, limit)| && Shrink(view, limit)[i].key == key;
    assert p(Shrink(view, limit)[i].(accessed := false));
    HasIs(view, key);
  }

  lemma FreeIs(view: seq<Entry>, key: Key)
    requires Free(view, key)
    ensures LastFree(view) >= 0
  {
    hide Find;
  }

  lemma StillFree(spared: seq<Entry>, front: seq<Entry>, gone: Entry, behind: seq<Entry>, b: Key)
    requires UniqueKeys(spared + (front + [gone] + behind)) && Free(front + [gone] + behind, b)
    requires AllFlagged(behind) && Has(Cleared(behind) + spared + front, b)
    ensures Free(front, b)
  {
    hide Find;
    var ahead, next := front + [gone] + behind, Cleared(behind) + spared + front;
    var n, i := |front|, Find(ahead, b);
    assert i <= n by { assert forall k :: n < k < |ahead| ==> ahead[k] == behind[k - n - 1]; }
    assert (spared + ahead)[|spared| + i] == ahead[i];
    if i == n {
      HasIs(next, b);
      var k :| 0 <= k < |next| && next[k].key == b;
      OnlyOnce(spared, front, gone, behind, k);
    } else {
      assert front[i] == ahead[i];
      assert forall k :: 0 <= k < i ==> front[k] == ahead[k];
      FindFirst(front, b, i);
    }
  }

  lemma FindFirst(view: seq<Entry>, key: Key, i: nat)
    requires i < |view| && view[i].key == key && forall k :: 0 <= k < i ==> view[k].key != key
    ensures Find(view, key) == i
  {
    hide Find;
  }

  lemma OnlyOnce(spared: seq<Entry>, front: seq<Entry>, gone: Entry, behind: seq<Entry>, k: nat)
    requires UniqueKeys(spared + (front + [gone] + behind)) && k < |Cleared(behind) + spared + front|
    ensures (Cleared(behind) + spared + front)[k].key != gone.key
  {
    var view, next := spared + (front + [gone] + behind), Cleared(behind) + spared + front;
    var m, s, n := |behind|, |spared|, |front|;
    var i := if k < m then s + n + 1 + k else k - m;
    assert view[i].key == next[k].key && view[s + n] == gone;
  }

  lemma StillSpared(spared: seq<Entry>, front: seq<Entry>, gone: Entry, behind: seq<Entry>, a: Key)
    requires Has(spared, a) || Flag(front + [gone] + behind, a)
    requires !gone.accessed
    ensures Has(Cleared(behind) + spared, a) || Flag(front, a)
    ensures UniqueKeys(spared + (front + [gone] + behind)) ==> a != gone.key
  {
    hide Find;
    var ahead, next := front + [gone] + behind, Cleared(behind) + spared;
    HasIs(next, a);
    if Has(spared, a) {
      var i := Find(spared, a);
      assert next[|behind| + i] == spared[i];
      assert (spared + ahead)[i] == spared[i] && (spared + ahead)[|spared| + |front|] == gone;
    } else {
      var n, i := |front|, Find(ahead, a);
      assert ahead[n] == gone;
      assert (spared + ahead)[|spared| + i] == ahead[i] && (spared + ahead)[|spared| + n] == gone;
      if i < n {
        assert forall k :: 0 <= k <= i ==> front[k] == ahead[k];
        FindFirst(front, a, i);
      } else {
        assert next[i - n - 1].key == behind[i - n - 1].key == a;
      }
    }
  }

  /** However much is evicted at once, an entry that was hit stays as long as one that was not does. */
  lemma HitOutlasts(view: seq<Entry>, limit: nat, a: Key, b: Key, at: int)
    requires UniqueKeys(view) && Flag(view, a) && Free(view, b) && Has(Shrink(view, limit), b)
    ensures Read(Shrink(view, limit), a, at) == Read(view, a, at)
  {
    hide Find, Shrink;
    assert [] + view == view;
    SparedOutlast([], view, limit, a, b, at);
  }

  // ----- Over runs of the cache ----------------------------------------------------------------------

  /** A step that neither evicts from the key's shard nor stores or drops the key. */
  predicate Quiet(shape: Shape, op: Op, key: Key) {
    || Target(shape, op) != shape.ShardOf(key) || op.Lookup?
    || ((op.Reclaim? || op.Delete?) && op.key != key)
  }

  function ViewOf(shape: Shape, history: seq<Op>, key: Key): seq<Entry> {
    Run(shape, history)[shape.ShardOf(key)]
  }

  lemma RunStep(shape: Shape, history: seq<Op>, op: Op, key: Key)
    ensures
      var view := ViewOf(shape, history, key);
      ViewOf(shape, history + [op], key)
        == if Target(shape, op) == shape.ShardOf(key) then ShardStep(shape, view, op) else view
  {
    hide ShardStep;
    assert (history + [op])[..|history|] == history;
  }

  lemma ViewUnique(shape: Shape, history: seq<Op>, key: Key)
    ensures UniqueKeys(ViewOf(shape, history, key))
  {
    hide UniqueKeys, Run;
    AlwaysWithinBudget(shape, history);
  }

  /** Taking one entry out leaves every other key's entry as it was. */
  lemma WithoutOther(view: seq<Entry>, gone: nat, key: Key, at: int)
    requires UniqueKeys(view) && gone < |view| && view[gone].key != key
    ensures
      var after := Without(view, gone);
      (Flag(after, key) <==> Flag(view, key)) && (Free(after, key) <==> Free(view, key))
      && Read(after, key, at) == Read(view, key, at) && UniqueKeys(after)
  {
    hide Find;
    var after := Without(view, gone);
    assert forall i :: 0 <= i < |after| ==> after[i] == view[if i < gone then i else i + 1];
    assert UniqueKeys(after);
    HasIs(view, key);
    HasIs(after, key);
    if Has(view, key) {
      var i := Find(view, key);
      FindIs(after, if i < gone then i else i - 1);
    }
  }

  lemma QuietKeeps(shape: Shape, view: seq<Entry>, op: Op, key: Key, at: int)
    requires UniqueKeys(view) && Quiet(shape, op, key) && Target(shape, op) == shape.ShardOf(key)
    ensures
      var after := ShardStep(shape, view, op);
      (Flag(view, key) ==> Flag(after, key)) && Read(after, key, at) == Read(view, key, at)
  {
    hide Find, Flag, Free, Read;
    if op.Lookup? {
      TouchFlags(view, op.key, op.ticks, key, at);
    } else {
      var i := Find(view, op.key);
      if i < |view| {
        WithoutOther(view, i, key, at);
      }
    }
  }

  /** A hit's flag stays up through every quiet step. */
  lemma {:induction false} FlagStays(shape: Shape, history: seq<Op>, quiet: seq<Op>, key: Key, at: int)
    requires Flag(ViewOf(shape, history, key), key) && forall op :: op in quiet ==> Quiet(shape, op, key)
    ensures
      var view := ViewOf(shape, history + quiet, key);
      Flag(view, key) && Read(view, key, at) == Read(ViewOf(shape, history, key), key, at)
    decreases |quiet|
  {
    hide Flag, Read, Quiet, Run, ShardStep;
    if quiet == [] {
      assert history + quiet == history;
    } else {
      var n := |quiet| - 1;
      var before, op := history + quiet[..n], quiet[n];
      assert op in quiet && before + [op] == history + quiet;
      FlagStays(shape, history, quiet[..n], key, at);
      ViewUnique(shape, before, key);
      RunStep(shape, before, op, key);
      if Target(shape, op) == shape.ShardOf(key) {
        QuietKeeps(shape, ViewOf(shape, before, key), op, key, at);
      }
    }
  }

  lemma HitRaises(shape: Shape, history: seq<Op>, key: Key, ticks: int, at: int)
    requires Read(ViewOf(shape, history, key), key, ticks).Some?
    ensures
      var view := ViewOf(shape, history + [Lookup(key, ticks)], key);
      Flag(view, key) && Read(view, key, at) == Read(ViewOf(shape, history, key), key, at)
  {
    hide Flag, Read, Run, ShardStep;
    ViewUnique(shape, history, key);
    RunStep(shape, history, Lookup(key, ticks), key);
    TouchIs(shape, ViewOf(shape, history, key), key, ticks);
    TouchFlags(ViewOf(shape, history, key), key, ticks, key, at);
  }

  lemma TouchIs(shape: Shape, view: seq<Entry>, key: Key, ticks: int)
    ensures ShardStep(shape, view, Lookup(key, ticks)) == Touch(view, key, ticks)
  {
  }

  /** A key that was hit, in any run, and has not been dropped or stored since: when a store of another key
      evicts from its shard, however much, it is not among what goes while anything not hit stays, what was
      just stored included. */
  lemma HitOutlastsStore(shape: Shape, history: seq<Op>, ticks: int, quiet: seq<Op>, op: Op, key: Key, other: Key,
                         at: int)
    requires Read(ViewOf(shape, history, key), key, ticks).Some?
    requires forall q :: q in quiet ==> Quiet(shape, q, key)
    requires op.Store? && op.key != key && other != key && other != op.key
    requires Target(shape, op) == shape.ShardOf(key)
    ensures
      var before := history + [Lookup(key, ticks)] + quiet;
      var view, after := ViewOf(shape, before, key), ViewOf(shape, before + [op], key);
      var outlasted := (Free(view, other) && Has(after, other)) || Has(after, op.key);
      outlasted ==> Read(after, key, at) == Read(ViewOf(shape, history, key), key, at)
  {
    hide Flag, Free, Has, Read, Quiet, Run, ShardStep;
    var hit := history + [Lookup(key, ticks)];
    HitRaises(shape, history, key, ticks, at);
    FlagStays(shape, hit, quiet, key, at);
    ViewUnique(shape, hit + quiet, key);
    RunStep(shape, hit + quiet, op, key);
    StoreSpares(shape, ViewOf(shape, hit + quiet, key), op, key, other, at);
  }

  lemma StoreSpares(shape: Shape, view: seq<Entry>, op: Op, key: Key, other: Key, at: int)
    requires UniqueKeys(view) && Flag(view, key) && op.Store? && op.key != key && other != op.key
    ensures
      var after := ShardStep(shape, view, op);
      && (Free(view, other) && Has(after, other) ==> Read(after, key, at) == Read(view, key, at))
      && (Has(after, op.key) ==> Read(after, key, at) == Read(view, key, at))
  {
    hide Find, Shrink, Read, Flag, Free, Has;
    var left, i := Remove(view, op.key), Find(view, op.key);
    if i < |view| {
      WithoutOther(view, i, key, at);
      WithoutOther(view, i, other, at);
    }
    RemoveKeeps(view, op.key, _ => true);
    if op.value.Some? && Cost(op.key, op.value.value) <= shape.Budget() {
      var e := NewEntry(op.key, op.value.value, op.ttl, op.ticks);
      InFront(e, left, key, at);
      InFront(e, left, other, at);
      FreeInFront(e, left);
      if Free(left, other) && Has(Shrink([e] + left, shape.Budget()), other) {
        HitOutlasts([e] + left, shape.Budget(), key, other, at);
      }
      if Has(Shrink([e] + left, shape.Budget()), op.key) {
        HitOutlasts([e] + left, shape.Budget(), key, op.key, at);
      }
    } else {
      NotThere(left, op.key);
    }
  }

  lemma NotThere(view: seq<Entry>, key: Key)
    requires forall i :: 0 <= i < |view| ==> view[i].key != key
    ensures !Has(view, key)
  {
    hide Find;
  }

  lemma FreeInFront(e: Entry, view: seq<Entry>)
    requires !e.accessed && UniqueKeys(view) && forall i :: 0 <= i < |view| ==> view[i].key != e.key
    ensures Free([e] + view, e.key) && UniqueKeys([e] + view)
  {
  }

  lemma InFront(e: Entry, view: seq<Entry>, key: Key, at: int)
    requires e.key != key
    ensures
      var more := [e] + view;
      && (Flag(more, key) <==> Flag(view, key)) && (Free(more, key) <==> Free(view, key))
      && Read(more, key, at) == Read(view, key, at)
  {
    assert ([e] + view)[1..] == view;
  }

  /** The same of an eviction that the watchdog asks for, of what has not expired. */
  lemma HitOutlastsEvict(shape: Shape, history: seq<Op>, ticks: int, quiet: seq<Op>, limit: nat, now: int, key: Key,
                         other: Key, at: int)
    requires Read(ViewOf(shape, history, key), key, ticks).Some?
    requires Read(ViewOf(shape, history, key), key, now).Some?
    requires forall q :: q in quiet ==> Quiet(shape, q, key)
    ensures
      var before := history + [Lookup(key, ticks)] + quiet;
      var op := EvictShard(shape.ShardOf(key), limit, now);
      var view, after := ViewOf(shape, before, key), ViewOf(shape, before + [op], key);
      var outlasted := Free(view, other) && Has(after, other);
      outlasted ==> Read(after, key, at) == Read(ViewOf(shape, history, key), key, at)
  {
    hide Flag, Free, Has, Read, Quiet, Run, ShardStep;
    var hit := history + [Lookup(key, ticks)];
    HitRaises(shape, history, key, ticks, at);
    HitRaises(shape, history, key, ticks, now);
    FlagStays(shape, hit, quiet, key, at);
    FlagStays(shape, hit, quiet, key, now);
    ViewUnique(shape, hit + quiet, key);
    RunStep(shape, hit + quiet, EvictShard(shape.ShardOf(key), limit, now), key);
    if Free(ViewOf(shape, hit + quiet, key), other) {
      EvictSpares(shape, ViewOf(shape, hit + quiet, key), limit, now, key, other, at);
    }
  }

  lemma EvictSpares(shape: Shape, view: seq<Entry>, limit: nat, now: int, key: Key, other: Key, at: int)
    requires UniqueKeys(view) && Flag(view, key) && Free(view, other) && Read(view, key, now).Some?
    ensures
      var after := ShardStep(shape, view, EvictShard(shape.ShardOf(key), limit, now));
      Has(after, other) ==> Read(after, key, at) == Read(view, key, at)
  {
    hide Find, Shrink, Read, Flag, Free, Has, Purge;
    var left := Purge(view, now);
    PurgeUnique(view, now);
    PurgeReads(view, now, key, at);
    PurgeReads(view, now, other, now);
    if Has(Shrink(left, limit), other) {
      Survives(left, limit, other);
      HitOutlasts(left, limit, key, other, at);
    }
  }

  /** Purging drops what has expired and nothing else. */
  lemma PurgeReads(view: seq<Entry>, now: int, key: Key, at: int)
    requires UniqueKeys(view)
    ensures
      var after := Purge(view, now);
      && (at >= now ==> Read(after, key, at) == Read(view, key, at))
      && (Read(view, key, now).Some? ==>
            (Flag(after, key) <==> Flag(view, key)) && Read(after, key, at) == Read(view, key, at))
      && (Has(after, key) ==> (Flag(after, key) <==> Flag(view, key)) && (Free(after, key) <==> Free(view, key)))
  {
    hide Find, Purge;
    PurgeUnique(view, now);
    PurgeMembers(view, now);
    var after := Purge(view, now);
    HasIs(view, key);
    HasIs(after, key);
    if Has(view, key) {
      var e := view[Find(view, key)];
      if e.expiresAt > now {
        assert e in after;
        var k :| 0 <= k < |after| && after[k] == e;
        FindIs(after, k);
      } else {
        Expired(view, after, now, key);
      }
    } else {
      forall i | 0 <= i < |after| ensures after[i].key != key {
        assert after[i] in view;
      }
    }
  }

  lemma Expired(view: seq<Entry>, after: seq<Entry>, now: int, key: Key)
    requires UniqueKeys(view) && Has(view, key) && view[Find(view, key)].expiresAt <= now
    requires forall e :: e in after ==> e in view && e.expiresAt > now
    ensures !Has(after, key)
  {
    hide Find;
    HasIs(after, key);
    if Has(after, key) {
      var i :| 0 <= i < |after| && after[i].key == key;
      assert after[i] in after && after[i] in view;
      var k :| 0 <= k < |view| && view[k] == after[i];
      FindIs(view, k);
    }
  }

  // ----- While everything fits ---------------------------------------------------------------------

  /** A shard with room for what is stored is a map: the key answers what was stored while that is current,
      and every other key as before. */
  lemma RoomIsAMap(view: seq<Entry>, budget: nat, key: Key, value: Value, ttl: int, ticks: int, other: Key, at: int)
    requires UniqueKeys(view) && Cost(key, value) + TotalBytes(Remove(view, key)) <= budget
    ensures
      var after := Set(view, budget, key, Some(value), ttl, ticks);
      Read(after, other, at)
        == if other != key then Read(view, other, at)
           else if at < (if ttl == 0 then NEVER else ticks + 1000 * ttl) then Some(value) else None
  {
    hide Find;
    var e, left, i := NewEntry(key, value, ttl, ticks), Remove(view, key), Find(view, key);
    var more := [e] + left;
    assert more[1..] == left;
    RemoveKeeps(view, key, _ => true);
    FreeInFront(e, left);
    ShrinkStays(more, budget);
    if other == key {
      ReadAt(more, 0, at);
    } else {
      InFront(e, left, other, at);
      if i < |view| {
        WithoutOther(view, i, other, at);
      }
    }
  }

  /** A deletion takes its key and nothing else. */
  lemma RemoveReads(view: seq<Entry>, key: Key, other: Key, at: int)
    requires UniqueKeys(view)
    ensures Read(Remove(view, key), other, at) == if other == key then None else Read(view, other, at)
  {
    hide Find;
    RemoveKeeps(view, key, _ => true);
    var i := Find(view, key);
    if other == key {
      NotThere(Remove(view, key), key);
      ReadNone(Remove(view, key), key, at);
    } else if i < |view| {
      WithoutOther(view, i, other, at);
    }
  }

  /** What is read under the exclusive lock takes away no answer that is still to come. */
  lemma DropReads(view: seq<Entry>, key: Key, ticks: int, other: Key, at: int)
    requires UniqueKeys(view) && at >= ticks
    ensures Read(DropExpired(view, key, ticks), other, at) == Read(view, other, at)
  {
    hide Find;
    var i := Find(view, key);
    if i < |view| && view[i].expiresAt <= ticks {
      RemoveReads(view, key, other, at);
    }
  }

  /** Shrinking gives up nothing that fits, and no more than it must: it stops at the first view within the
      limit, and every earlier one was over it. */
  lemma {:induction false} ShrinkIsLeast(view: seq<Entry>, limit: nat) returns (turns: nat)
    ensures Shrink(view, limit) == Turns(view, turns)
    ensures forall k :: 0 <= k < turns ==> TotalBytes(Turns(view, k)) > limit
    ensures turns <= |view| && |Shrink(view, limit)| == |view| - turns
    decreases |view|
  {
    hide TotalBytes, EvictOne, Shrink;
    if view == [] || TotalBytes(view) <= limit {
      turns := 0;
      ShrinkEnds(view, limit);
    } else {
      EvictOneLength(view);
      ShrinkStep(view, limit);
      var more := ShrinkIsLeast(EvictOne(view), limit);
      turns := more + 1;
      forall k | 0 <= k < turns ensures TotalBytes(Turns(view, k)) > limit {
        if k > 0 {
          assert Turns(view, k) == Turns(EvictOne(view), k - 1);
        }
      }
    }
  }

  lemma ShrinkEnds(view: seq<Entry>, limit: nat)
    requires view == [] || TotalBytes(view) <= limit
    ensures Shrink(view, limit) == view
  {
  }

  /** The clock after some turns. */
  function Turns(view: seq<Entry>, k: nat): seq<Entry>
    decreases k
  {
    if k == 0 then view else Turns(EvictOne(view), k - 1)
  }
}
