/** What a cache shard and the sharded cache hold, as values: the CLOCK second-chance order,
    byte budgets and expiry. MemoryCache.dfy shows that the linked, in-place form computes
    exactly these functions; this file shows what they guarantee. */
module ClockCache {
  import opened Option

  type Key = string
  type Value = string

  /** One cached value. A shard lists its entries head first; the tail is evicted next. */
  datatype Entry = Entry(key: Key, value: Value, bytes: nat, expiresAt: int, accessed: bool)

  const ENTRY_OVERHEAD_BYTES: nat := 128
  const NEVER: int := 0x7FFF_FFFF_FFFF_FFFF

  function ExpiryFrom(ttl: int, ticks: int): int {
    if ttl == 0 then NEVER else ticks + 1000 * ttl
  }

  function Cost(key: Key, value: Value): nat {
    |key| + |value| + ENTRY_OVERHEAD_BYTES
  }

  function TotalBytes(view: seq<Entry>): nat {
    if view == [] then 0 else view[0].bytes + TotalBytes(view[1..])
  }

  predicate UniqueKeys(view: seq<Entry>) {
    forall i, j :: 0 <= i < j < |view| ==> view[i].key != view[j].key
  }

  /** The index of the entry for `key`, or the length when there is none. */
  function Find(view: seq<Entry>, key: Key): (i: nat)
    ensures i <= |view|
    ensures i < |view| ==> view[i].key == key
    ensures forall k :: 0 <= k < i ==> view[k].key != key
  {
    if view == [] || view[0].key == key then 0 else 1 + Find(view[1..], key)
  }

  function Without<T>(s: seq<T>, i: nat): (r: seq<T>)
    requires i < |s|
    ensures |r| == |s| - 1
  {
    s[..i] + s[i + 1..]
  }

  // ----- Operations on one shard ---------------------------------------------

  function Remove(view: seq<Entry>, key: Key): seq<Entry> {
    var i := Find(view, key);
    if i < |view| then Without(view, i) else view
  }

  function Rotated<T>(s: seq<T>): (r: seq<T>)
    requires s != []
    ensures |r| == |s|
  {
    [s[|s| - 1]] + s[..|s| - 1]
  }

  /** The tail spared: to the front, its flag spent. */
  function Turned(view: seq<Entry>): (r: seq<Entry>)
    requires view != []
    ensures |r| == |view|
  {
    [view[|view| - 1].(accessed := false)] + view[..|view| - 1]
  }

  /** The eviction loop: a flagged tail is spared once, losing its flag and going to the front. */
  function ClockPass(view: seq<Entry>, reprieves: nat): seq<Entry>
    decreases reprieves
  {
    if view == [] then view
    else if reprieves > 0 && view[|view| - 1].accessed then ClockPass(Turned(view), reprieves - 1)
    else view[..|view| - 1]
  }

  lemma ClockSpares(view: seq<Entry>, reprieves: nat)
    requires view != [] && reprieves > 0 && view[|view| - 1].accessed
    ensures ClockPass(view, reprieves) == ClockPass(Turned(view), reprieves - 1)
  {
  }

  lemma ClockTakes(view: seq<Entry>, reprieves: nat)
    requires view != [] ==> !(reprieves > 0 && view[|view| - 1].accessed)
    ensures ClockPass(view, reprieves) == if view == [] then view else Without(view, |view| - 1)
  {
  }

  function EvictOne(view: seq<Entry>): seq<Entry> {
    ClockPass(view, |view|)
  }

  /** Evicts until the shard fits in `limit`. */
  function Shrink(view: seq<Entry>, limit: nat): seq<Entry>
    decreases |view|
  {
    if view == [] || TotalBytes(view) <= limit then view
    else
      EvictOneLength(view);
      Shrink(EvictOne(view), limit)
  }

  function Purge(view: seq<Entry>, ticks: int): seq<Entry> {
    if view == [] then []
    else (if view[0].expiresAt > ticks then [view[0]] else []) + Purge(view[1..], ticks)
  }

  function Insert(view: seq<Entry>, budget: nat, entry: Entry): seq<Entry> {
    if entry.bytes > budget then Remove(view, entry.key)
    else Shrink([entry] + Remove(view, entry.key), budget)
  }

  function NewEntry(key: Key, value: Value, ttl: int, ticks: int): Entry {
    Entry(key, value, Cost(key, value), ExpiryFrom(ttl, ticks), false)
  }

  /** A null value deletes. */
  function Set(view: seq<Entry>, budget: nat, key: Key, value: Option<Value>, ttl: int, ticks: int): seq<Entry> {
    match value
    case None => Remove(view, key)
    case Some(v) => Insert(view, budget, NewEntry(key, v, ttl, ticks))
  }

  /** What a read at `ticks` answers. */
  function Read(view: seq<Entry>, key: Key, ticks: int): Option<Value> {
    var i := Find(view, key);
    if i < |view| && view[i].expiresAt > ticks then Some(view[i].value) else None
  }

  /** The first half of a read, under the shared lock: a hit flags its entry. */
  function Touch(view: seq<Entry>, key: Key, ticks: int): seq<Entry> {
    var i := Find(view, key);
    if i < |view| && view[i].expiresAt > ticks then view[i := view[i].(accessed := true)] else view
  }

  /** The second half, under the exclusive lock and with the tick of the first. */
  function DropExpired(view: seq<Entry>, key: Key, ticks: int): seq<Entry> {
    var i := Find(view, key);
    if i < |view| && view[i].expiresAt <= ticks then Without(view, i) else view
  }

  function Evict(view: seq<Entry>, limit: nat, ticks: int): seq<Entry> {
    Shrink(Purge(view, ticks), limit)
  }

  // ----- The CLOCK rule in closed form ---------------------------------------

  function Cleared(view: seq<Entry>): (r: seq<Entry>)
    ensures |r| == |view|
    ensures forall i :: 0 <= i < |view| ==> r[i] == view[i].(accessed := false)
  {
    seq(|view|, i requires 0 <= i < |view| => view[i].(accessed := false))
  }

  predicate AllFlagged(view: seq<Entry>) {
    forall i :: 0 <= i < |view| ==> view[i].accessed
  }

  lemma {:induction false} EvictOneLength(view: seq<Entry>)
    requires view != []
    ensures |EvictOne(view)| == |view| - 1
  {
    ClockPassLength(view, |view|);
  }

  lemma {:induction false} ClockPassLength(view: seq<Entry>, reprieves: nat)
    requires view != []
    ensures |ClockPass(view, reprieves)| == |view| - 1
    decreases reprieves
  {
    if reprieves > 0 && view[|view| - 1].accessed {
      ClockPassLength(Turned(view), reprieves - 1);
    }
  }

  lemma ClearedLast(view: seq<Entry>)
    requires view != []
    ensures Cleared(view) == Cleared(view[..|view| - 1]) + [view[|view| - 1].(accessed := false)]
  {
  }

  /** m flagged entries at the tail take m turns and end up at the front, in order, unflagged. */
  lemma {:induction false} Reprieve(rest: seq<Entry>, flagged: seq<Entry>, reprieves: nat)
    requires AllFlagged(flagged) && |flagged| <= reprieves
    ensures ClockPass(rest + flagged, reprieves) == ClockPass(Cleared(flagged) + rest, reprieves - |flagged|)
    decreases |flagged|
  {
    if flagged == [] {
      assert rest + flagged == rest == Cleared(flagged) + rest;
    } else {
      var n := |flagged| - 1;
      var front, last, view := flagged[..n], flagged[n].(accessed := false), rest + flagged;
      assert view[..|view| - 1] == rest + front && view[|view| - 1] == flagged[n];
      assert [last] + (rest + front) == ([last] + rest) + front;
      Reprieve([last] + rest, front, reprieves - 1);
      ClearedLast(flagged);
      assert Cleared(front) + ([last] + rest) == (Cleared(front) + [last]) + rest;
    }
  }

  /** The last unflagged entry is the one evicted; those behind it are spared to the front. */
  lemma EvictsLastUnflagged(view: seq<Entry>, j: nat)
    requires j < |view| && !view[j].accessed && AllFlagged(view[j + 1..])
    ensures EvictOne(view) == Cleared(view[j + 1..]) + view[..j]
  {
    var rest, flagged := view[..j + 1], view[j + 1..];
    assert view == rest + flagged;
    Reprieve(rest, flagged, |view|);
    var turned := Cleared(flagged) + rest;
    assert turned[|turned| - 1] == view[j];
    assert turned[..|turned| - 1] == Cleared(flagged) + view[..j];
  }

  /** When every entry is flagged a full turn clears them all and the old tail still goes. */
  lemma EvictsTailWhenAllFlagged(view: seq<Entry>)
    requires view != [] && AllFlagged(view)
    ensures EvictOne(view) == Cleared(view[..|view| - 1])
  {
    assert [] + view == view && Cleared(view) + [] == Cleared(view);
    Reprieve([], view, |view|);
    ClearedLast(view);
  }

  lemma {:induction false} LastUnflagged(view: seq<Entry>) returns (j: nat)
    requires !AllFlagged(view)
    ensures j < |view| && !view[j].accessed && AllFlagged(view[j + 1..])
  {
    var n := |view| - 1;
    if !view[n].accessed {
      j := n;
    } else {
      j := LastUnflagged(view[..n]);
      assert view[j + 1..] == view[..n][j + 1..] + [view[n]];
    }
  }

  // ----- What the operations keep --------------------------------------------

  lemma {:induction false} TotalConcat(a: seq<Entry>, b: seq<Entry>)
    ensures TotalBytes(a + b) == TotalBytes(a) + TotalBytes(b)
    decreases |a|
  {
    if a == [] {
      assert a + b == b;
    } else {
      assert (a + b)[1..] == a[1..] + b;
      TotalConcat(a[1..], b);
    }
  }

  lemma TotalWithout(view: seq<Entry>, i: nat)
    requires i < |view|
    ensures TotalBytes(view) == TotalBytes(Without(view, i)) + view[i].bytes
  {
    var front, back := view[..i], view[i..];
    assert front + back == view && back[1..] == view[i + 1..];
    assert TotalBytes(back) == view[i].bytes + TotalBytes(view[i + 1..]);
    hide TotalBytes;
    TotalConcat(front, back);
    TotalConcat(front, view[i + 1..]);
  }

  lemma {:induction false} TotalCleared(view: seq<Entry>)
    ensures TotalBytes(Cleared(view)) == TotalBytes(view)
  {
    if view != [] {
      assert Cleared(view)[1..] == Cleared(view[1..]);
      TotalCleared(view[1..]);
    }
  }

  /** A property of entries that does not look at the accessed flag holds of a whole view. */
  ghost predicate Every(view: seq<Entry>, p: Entry -> bool) {
    forall i :: 0 <= i < |view| ==> p(view[i].(accessed := false))
  }

  /** Keys stay distinct and every entry is an old one: what all the removals have in common. */
  lemma {:induction false} ClockPassKeeps(view: seq<Entry>, reprieves: nat, p: Entry -> bool)
    requires UniqueKeys(view) && Every(view, p)
    ensures UniqueKeys(ClockPass(view, reprieves)) && Every(ClockPass(view, reprieves), p)
    decreases reprieves
  {
    if view != [] && reprieves > 0 && view[|view| - 1].accessed {
      ClockPassKeeps(Turned(view), reprieves - 1, p);
    }
  }

  lemma {:induction false} ShrinkKeeps(view: seq<Entry>, limit: nat, p: Entry -> bool)
    requires UniqueKeys(view) && Every(view, p)
    ensures UniqueKeys(Shrink(view, limit)) && Every(Shrink(view, limit), p)
    ensures TotalBytes(Shrink(view, limit)) <= limit
    decreases |view|
  {
    if view != [] && TotalBytes(view) > limit {
      EvictOneLength(view);
      ClockPassKeeps(view, |view|, p);
      ShrinkKeeps(EvictOne(view), limit, p);
    }
  }

  lemma {:induction false} PurgeMembers(view: seq<Entry>, ticks: int)
    ensures forall e :: e in Purge(view, ticks) <==> e in view && e.expiresAt > ticks
  {
    if view != [] {
      PurgeMembers(view[1..], ticks);
      assert view == [view[0]] + view[1..];
    }
  }

  lemma {:induction false} PurgeUnique(view: seq<Entry>, ticks: int)
    requires UniqueKeys(view)
    ensures UniqueKeys(Purge(view, ticks))
  {
    if view != [] {
      PurgeUnique(view[1..], ticks);
      PurgeMembers(view[1..], ticks);
      var rest := Purge(view[1..], ticks);
      forall i | 0 <= i < |rest| ensures rest[i].key != view[0].key {
        assert rest[i] in view[1..];
      }
    }
  }

  lemma PurgeKeeps(view: seq<Entry>, ticks: int, p: Entry -> bool)
    requires UniqueKeys(view) && Every(view, p)
    ensures UniqueKeys(Purge(view, ticks)) && Every(Purge(view, ticks), p)
  {
    PurgeUnique(view, ticks);
    PurgeMembers(view, ticks);
    var after := Purge(view, ticks);
    forall i | 0 <= i < |after| ensures p(after[i].(accessed := false)) {
      assert after[i] in view;
    }
  }

  lemma RemoveKeeps(view: seq<Entry>, key: Key, p: Entry -> bool)
    requires UniqueKeys(view) && Every(view, p)
    ensures UniqueKeys(Remove(view, key)) && Every(Remove(view, key), p)
    ensures TotalBytes(Remove(view, key)) <= TotalBytes(view)
    ensures forall i :: 0 <= i < |Remove(view, key)| ==> Remove(view, key)[i].key != key
  {
    var i := Find(view, key);
    if i < |view| {
      TotalWithout(view, i);
    }
  }

  /** A set leaves the shard within its budget, whatever was refused, replaced or evicted. */
  lemma SetKeeps(view: seq<Entry>, budget: nat, key: Key, value: Option<Value>, ttl: int, ticks: int, p: Entry -> bool)
    requires UniqueKeys(view) && Every(Remove(view, key), p) && TotalBytes(view) <= budget
    requires value.Some? ==> p(NewEntry(key, value.value, ttl, ticks))
    ensures var after := Set(view, budget, key, value, ttl, ticks);
      UniqueKeys(after) && Every(after, p) && TotalBytes(after) <= budget
  {
    RemoveKeeps(view, key, _ => true);
    if value.Some? && Cost(key, value.value) <= budget {
      ShrinkKeeps([NewEntry(key, value.value, ttl, ticks)] + Remove(view, key), budget, p);
    }
  }

  /** An oversized value is refused, and leaves no older value under its key behind. */
  lemma OversizedLeavesNothing(view: seq<Entry>, budget: nat, key: Key, value: Value, ttl: int, ticks: int, at: int)
    requires UniqueKeys(view) && Cost(key, value) > budget
    ensures Read(Set(view, budget, key, Some(value), ttl, ticks), key, at) == None
  {
    RemoveKeeps(view, key, _ => true);
  }

  /** The second phase of a read drops nothing but an entry already expired at the tick of its
      first phase, so a value stored between the two locks and still current survives it. */
  lemma DropExpiredIsSafe(view: seq<Entry>, key: Key, ticks: int, e: Entry)
    requires e in view && e.expiresAt > ticks
    ensures e in DropExpired(view, key, ticks)
  {
    var i := Find(view, key);
    if i < |view| && view[i].expiresAt <= ticks {
      assert view == view[..i] + [view[i]] + view[i + 1..];
    }
  }

  // ----- Does a freshly stored value survive its own set? --------------------

  function FlaggedBytes(view: seq<Entry>): nat {
    if view == [] then 0 else (if view[0].accessed then view[0].bytes else 0) + FlaggedBytes(view[1..])
  }

  lemma {:induction false} FlaggedConcat(a: seq<Entry>, b: seq<Entry>)
    ensures FlaggedBytes(a + b) == FlaggedBytes(a) + FlaggedBytes(b)
    decreases |a|
  {
    if a == [] {
      assert a + b == b;
    } else {
      assert (a + b)[1..] == a[1..] + b;
      FlaggedConcat(a[1..], b);
    }
  }

  lemma {:induction false} FlaggedAtMostTotal(view: seq<Entry>)
    ensures FlaggedBytes(view) <= TotalBytes(view)
    ensures AllFlagged(view) ==> FlaggedBytes(view) == TotalBytes(view)
  {
    if view != [] {
      FlaggedAtMostTotal(view[1..]);
    }
  }

  /** Evicting past a fresh entry e: everything unflagged behind it goes first, then e itself;
      what was flagged behind it has by then been spared and stands before it. */
  lemma {:induction false} FreshUnderPressure(before: seq<Entry>, e: Entry, behind: seq<Entry>, limit: nat)
    requires UniqueKeys(before + [e] + behind) && !e.accessed
    ensures (e in Shrink(before + [e] + behind, limit))
       <==> TotalBytes(before) + e.bytes + FlaggedBytes(behind) <= limit
    decreases |behind|
  {
    var view := before + [e] + behind;
    TotalConcat(before + [e], behind);
    TotalConcat(before, [e]);
    FlaggedAtMostTotal(behind);
    if TotalBytes(view) <= limit {
      assert view[|before|] == e;
    } else if AllFlagged(behind) {
      assert view[|before| + 1..] == behind && view[..|before|] == before;
      EvictsLastUnflagged(view, |before|);
      FreshGone(before, e, behind, limit);
    } else {
      var j := LastUnflagged(behind);
      EvictsBehindFresh(before, e, behind, j);
      FreshUnderPressure(Cleared(behind[j + 1..]) + before, e, behind[..j], limit);
      SparedAccounts(before, behind, j);
    }
  }

  lemma EvictsBehindFresh(before: seq<Entry>, e: Entry, behind: seq<Entry>, j: nat)
    requires UniqueKeys(before + [e] + behind)
    requires j < |behind| && !behind[j].accessed && AllFlagged(behind[j + 1..])
    ensures EvictOne(before + [e] + behind) == Cleared(behind[j + 1..]) + before + [e] + behind[..j]
    ensures UniqueKeys(Cleared(behind[j + 1..]) + before + [e] + behind[..j])
  {
    var view, at := before + [e] + behind, |before| + 1 + j;
    assert view[at] == behind[j];
    assert view[at + 1..] == behind[j + 1..] && view[..at] == before + [e] + behind[..j];
    EvictsLastUnflagged(view, at);
    assert Cleared(view[at + 1..]) + view[..at] == Cleared(behind[j + 1..]) + before + [e] + behind[..j];
    ClockPassKeeps(view, |view|, _ => true);
  }

  lemma FreshGone(before: seq<Entry>, e: Entry, behind: seq<Entry>, limit: nat)
    requires UniqueKeys(before + [e] + behind)
    ensures e !in Shrink(Cleared(behind) + before, limit)
  {
    var rest := Cleared(behind) + before;
    var others := (x: Entry) => x.key != e.key;
    var view := before + [e] + behind;
    assert view[|before|] == e;
    assert forall i :: 0 <= i < |before| ==> before[i] == view[i];
    assert forall i :: 0 <= i < |behind| ==> behind[i] == view[|before| + 1 + i];
    ShrinkKeeps(rest, limit, others);
    var after := Shrink(rest, limit);
    assert forall i :: 0 <= i < |after| ==> others(after[i].(accessed := false));
  }

  lemma SparedAccounts(before: seq<Entry>, behind: seq<Entry>, j: nat)
    requires j < |behind| && !behind[j].accessed && AllFlagged(behind[j + 1..])
    ensures TotalBytes(Cleared(behind[j + 1..]) + before) + FlaggedBytes(behind[..j])
         == TotalBytes(before) + FlaggedBytes(behind)
  {
    assert behind == behind[..j] + ([behind[j]] + behind[j + 1..]);
    FlaggedConcat(behind[..j], [behind[j]] + behind[j + 1..]);
    FlaggedAtMostTotal(behind[j + 1..]);
    TotalConcat(Cleared(behind[j + 1..]), before);
    TotalCleared(behind[j + 1..]);
  }

  /** A freshly stored value survives its own set exactly when it fits beside the flagged bytes
      of the other entries: each of those is spared in front of it before it is looked at. */
  lemma FreshSurvives(view: seq<Entry>, budget: nat, key: Key, value: Value, ttl: int, ticks: int)
    requires UniqueKeys(view) && Cost(key, value) <= budget
    ensures (NewEntry(key, value, ttl, ticks) in Set(view, budget, key, Some(value), ttl, ticks))
       <==> Cost(key, value) + FlaggedBytes(Remove(view, key)) <= budget
  {
    var e, others := NewEntry(key, value, ttl, ticks), Remove(view, key);
    RemoveKeeps(view, key, _ => true);
    assert [] + [e] + others == [e] + others;
    FreshUnderPressure([], e, others, budget);
  }

  /** The case in point: one flagged neighbour fills the shard, and the value just stored goes. */
  lemma FreshEvictedAtOnce()
    ensures var hot := Entry("a", "", 129, NEVER, true);
      Set([hot], 200, "b", Some(""), 0, 0) == [hot.(accessed := false)]
  {
    var hot := Entry("a", "", 129, NEVER, true);
    var fresh_ := NewEntry("b", "", 0, 0);
    var view := [fresh_, hot];
    assert Find([hot], "b") == 1;
    assert [fresh_] + [hot] == view;
    assert |"b"| == 1 && fresh_.bytes == 129;
    assert view[1..] == [hot] && [hot][1..] == [];
    assert TotalBytes([hot]) == 129;
    assert TotalBytes(view) == 258;
    EvictsLastUnflagged(view, 0);
    var spared := hot.(accessed := false);
    assert EvictOne(view) == [spared] && [spared][1..] == [];
    assert TotalBytes([spared]) == 129;
    assert Shrink([spared], 200) == [spared];
    EvictOneLength(view);
    assert Remove([hot], "b") == [hot];
  }
}
