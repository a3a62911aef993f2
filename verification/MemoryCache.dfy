/** The in-memory cache as it is built: per shard a hash map over intrusively linked nodes,
    changed in place. Every method is proved to compute the function of ClockCache.dfy that
    names it, on the list the links spell out. */
module MemoryCache {
  import opened Bits
  import opened Option
  import opened ClockCache
  import opened CacheHistory

  class Node {
    var key: Key
    var value: Value
    var bytes: nat
    var expiresAt: int
    var accessed: bool
    var prev: Node?
    var next: Node?

    constructor (entry: Entry)
      ensures AsEntry() == entry
    {
      key, value, bytes, expiresAt, accessed :=
        entry.key, entry.value, entry.bytes, entry.expiresAt, entry.accessed;
      prev, next := null, null;
    }

    function AsEntry(): Entry
      reads `key, `value, `bytes, `expiresAt, `accessed
    {
      Entry(key, value, bytes, expiresAt, accessed)
    }
  }

  /** What the listed nodes hold. Links are no part of it. */
  ghost function Contents(nodes: seq<Node>): (view: seq<Entry>)
    reads nodes`key, nodes`value, nodes`bytes, nodes`expiresAt, nodes`accessed
    ensures |view| == |nodes|
    ensures forall i :: 0 <= i < |nodes| ==> view[i] == nodes[i].AsEntry()
  {
    if nodes == [] then [] else [nodes[0].AsEntry()] + Contents(nodes[1..])
  }

  lemma ContentsConcat(a: seq<Node>, b: seq<Node>)
    ensures Contents(a + b) == Contents(a) + Contents(b)
  {
    hide *;
  }

  lemma ContentsWithout(nodes: seq<Node>, i: nat)
    requires i < |nodes|
    ensures Contents(Without(nodes, i)) == Without(Contents(nodes), i)
  {
    hide Contents, Node.AsEntry;
    ContentsConcat(nodes[..i], nodes[i + 1..]);
    assert Contents(nodes[..i]) == Contents(nodes)[..i];
    assert Contents(nodes[i + 1..]) == Contents(nodes)[i + 1..];
  }

  lemma ContentsFirst(node: Node, nodes: seq<Node>)
    ensures Contents([node] + nodes) == [node.AsEntry()] + Contents(nodes)
  {
    hide Contents;
  }

  ghost predicate Within(part: seq<Node>, all: seq<Node>) {
    forall i :: 0 <= i < |part| ==> part[i] in all
  }

  ghost predicate Distinct(nodes: seq<Node>) {
    forall i, j :: 0 <= i < j < |nodes| ==> nodes[i] != nodes[j]
  }

  lemma WithoutAt(nodes: seq<Node>, i: nat)
    requires i < |nodes| && Distinct(nodes)
    ensures forall k :: 0 <= k < |nodes| - 1 ==> Without(nodes, i)[k] == nodes[if k < i then k else k + 1]
    ensures Distinct(Without(nodes, i))
  {
  }

  lemma NotInRest(nodes: seq<Node>, i: nat)
    requires i < |nodes| && Distinct(nodes)
    ensures nodes[i] !in Without(nodes, i)
  {
  }

  lemma RestWithin(nodes: seq<Node>, i: nat)
    requires i < |nodes|
    ensures Within(Without(nodes, i), nodes)
  {
  }

  lemma RotatedWithin(nodes: seq<Node>)
    requires nodes != []
    ensures Within(Rotated(nodes), nodes)
  {
  }

  lemma RotatedParts<T>(s: seq<T>)
    requires s != []
    ensures [s[|s| - 1]] + Without(s, |s| - 1) == Rotated(s)
  {
  }

  lemma TurnedParts(view: seq<Entry>)
    requires view != []
    ensures var n := |view| - 1; var cleared := view[n := view[n].(accessed := false)];
      [cleared[n]] + Without(cleared, n) == Turned(view)
  {
  }

  class Shard {
    const budget: nat
    var map_: map<Key, Node>
    var head: Node?
    var tail: Node?
    var bytes: nat

    /** The nodes in list order. */
    ghost var nodes: seq<Node>

    /** The links spell out `nodes`: acyclic, both directions agreeing, ends where they should be. */
    ghost predicate Linked()
      reads `head, `tail, `nodes, nodes`prev, nodes`next
    {
      && Distinct(nodes)
      && head == (if nodes == [] then null else nodes[0])
      && tail == (if nodes == [] then null else nodes[|nodes| - 1])
      && (forall i {:trigger nodes[i].prev} :: 0 <= i < |nodes| ==>
          nodes[i].prev == (if i == 0 then null else nodes[i - 1]))
      && (forall i {:trigger nodes[i].next} :: 0 <= i < |nodes| ==>
          nodes[i].next == (if i == |nodes| - 1 then null else nodes[i + 1]))
    }

    /** What the shard holds, head first. */
    ghost function View(): seq<Entry>
      reads `nodes, nodes`key, nodes`value, nodes`bytes, nodes`expiresAt, nodes`accessed
    {
      Contents(nodes)
    }

    ghost predicate Valid()
      reads this, nodes
    {
      Linked() && Indexed(map_, nodes, View()) && bytes == TotalBytes(View())
    }

    constructor (budget: nat)
      ensures Valid() && nodes == [] && this.budget == budget
    {
      this.budget := budget;
      map_, head, tail, bytes := map[], null, null, 0;
      nodes := [];
    }

    method Unlink(node: Node, ghost i: nat)
      requires Linked() && i < |nodes| && nodes[i] == node
      modifies `head, `tail, `nodes, nodes`prev, nodes`next
      ensures Linked() && nodes == Without(old(nodes), i)
      ensures node.prev == null && node.next == null
    {
      hide Without;
      ghost var was := nodes;
      WithoutAt(nodes, i);
      var prev, next := node.prev, node.next;
      assert prev == if i == 0 then null else was[i - 1];
      assert next == if i == |was| - 1 then null else was[i + 1];
      if prev != null {
        prev.next := next;
      }
      if next != null {
        next.prev := prev;
      }
      if head == node {
        head := next;
      }
      if tail == node {
        tail := prev;
      }
      node.prev := null;
      node.next := null;
      nodes := Without(nodes, i);
    }

    method PushFront(node: Node)
      requires Linked() && node !in nodes
      modifies `head, `tail, `nodes, nodes`prev, node`prev, node`next
      ensures Linked() && nodes == [node] + old(nodes)
    {
      node.prev := null;
      node.next := head;
      if head != null {
        head.prev := node;
      }
      head := node;
      if tail == null {
        tail := node;
      }
      nodes := [node] + nodes;
    }

    /** The entries on the list are those of its nodes, the new one first. */
    method AddFront(node: Node)
      requires Linked() && node !in nodes
      modifies `head, `tail, `nodes, nodes`prev, node`prev, node`next
      ensures Linked() && nodes == [node] + old(nodes)
      ensures View() == old(Contents([node] + nodes))
    {
      hide Linked, Contents;
      ghost var target := [node] + nodes;
      ghost var held := Contents(target);
      PushFront(node);
      assert Contents(target) == held;
    }

    lemma Ends()
      requires Linked()
      ensures Distinct(nodes)
      ensures tail == null <==> nodes == []
      ensures nodes != [] ==> tail == nodes[|nodes| - 1]
    {
    }

    method MoveToFront(node: Node, ghost i: nat)
      requires Linked() && i < |nodes| && nodes[i] == node
      modifies `head, `tail, `nodes, nodes`prev, nodes`next
      ensures Linked() && nodes == [node] + Without(old(nodes), i)
      ensures View() == [old(View())[i]] + Without(old(View()), i)
    {
      hide Linked, Contents, Without, Distinct, Within;
      Ends();
      ghost var target := [node] + Without(nodes, i);
      ghost var held := Contents(target);
      ContentsWithout(nodes, i);
      ContentsFirst(node, Without(nodes, i));
      Unlink(node, i);
      assert Contents(target) == held;
      assert node !in nodes by { NotInRest(old(nodes), i); }
      RestWithin(old(nodes), i);
      PushFront(node);
      assert Contents(target) == held;
    }

    method SetFlag(node: Node, flag: bool, ghost i: nat)
      requires Linked() && i < |nodes| && nodes[i] == node
      modifies node`accessed
      ensures View() == old(View())[i := old(View())[i].(accessed := flag)]
    {
      node.accessed := flag;
      hide Contents;
    }

    method RemoveLocked(node: Node, ghost i: nat)
      requires Valid() && i < |nodes| && nodes[i] == node
      modifies this, nodes
      ensures Valid() && View() == Without(old(View()), i) && nodes == Without(old(nodes), i)
      ensures map_ == old(map_) - {old(node.key)}
    {
      hide Linked, Contents, Indexed, UniqueKeys, TotalBytes, Find, Without, Turned, Rotated;
      var key := node.key;
      TotalWithout(View(), i);
      IndexedWithout(map_, nodes, View(), i);
      ContentsWithout(nodes, i);
      ghost var target := Without(nodes, i);
      ghost var held := Contents(target);
      bytes := bytes - node.bytes;
      map_ := map_ - {key};
      Unlink(node, i);
      assert Contents(target) == held;
    }

    /** Spares the tail once: its flag is spent and it goes to the front. */
    method SpareTail()
      requires Linked() && nodes != []
      modifies `head, `tail, `nodes, nodes`prev, nodes`next, nodes`accessed
      ensures Linked() && View() == Turned(old(View())) && nodes == Rotated(old(nodes))
    {
      hide Linked, Contents, Without, Turned, Rotated;
      ghost var n := |nodes| - 1;
      Ends();
      RotatedParts(nodes);
      TurnedParts(View());
      SetFlag(tail, false, n);
      MoveToFront(tail, n);
    }

    method SpareLocked()
      requires Valid() && nodes != []
      modifies this, nodes
      ensures Valid() && View() == Turned(old(View())) && nodes == Rotated(old(nodes))
    {
      hide Linked, Contents, Indexed, TotalBytes, Turned, Rotated, Find;
      IndexedTurned(map_, nodes, View());
      TurnedTotal(View());
      SpareTail();
    }

    /** One turn of the hand: the tail is spared or taken. */
    method TurnLocked(reprieves: nat) returns (taken: bool)
      requires Valid() && nodes != []
      modifies this, nodes
      ensures Valid() && Within(nodes, old(nodes))
      ensures taken ==> View() == ClockPass(old(View()), reprieves)
      ensures !taken ==>
              reprieves > 0 && nodes != [] && ClockPass(View(), reprieves - 1) == ClockPass(old(View()), reprieves)
    {
      hide Linked, Contents, Indexed, TotalBytes, Turned, UniqueKeys, ClockPass, Without, Find;
      Ends();
      ghost var view := View();
      assert view[|nodes| - 1] == tail.AsEntry();
      if reprieves > 0 && tail.accessed {
        ClockSpares(view, reprieves);
        RotatedWithin(nodes);
        SpareLocked();
        return false;
      }
      ClockTakes(view, reprieves);
      RestWithin(nodes, |nodes| - 1);
      RemoveLocked(tail, |nodes| - 1);
      return true;
    }

    lemma Sizes()
      requires Valid()
      ensures |map_| == |View()| == |nodes|
      ensures tail == null <==> nodes == []
    {
      hide Contents, TotalBytes, Find;
      IndexSize(map_, nodes, View());
    }

    method EvictOneLocked() returns (evicted: bool)
      requires Valid()
      modifies this, nodes
      ensures Valid() && View() == EvictOne(old(View())) && evicted == (old(View()) != [])
      ensures Within(nodes, old(nodes))
    {
      hide Valid, View, ClockPass;
      Sizes();
      WithinItself(nodes);
      var reprieves := |map_|;
      while tail != null
        invariant Valid() && Within(nodes, old(nodes)) && 0 <= reprieves
        invariant |View()| == |nodes| && (tail == null <==> nodes == []) && (nodes == [] <==> old(nodes) == [])
        invariant ClockPass(View(), reprieves) == EvictOne(old(View()))
        decreases reprieves
      {
        ghost var before := nodes;
        evicted := TurnLocked(reprieves);
        WithinWithin(nodes, before, old(nodes));
        Sizes();
        if evicted {
          return;
        }
        reprieves := reprieves - 1;
      }
      ClockTakes(View(), reprieves);
      return false;
    }

    /** Evicts until what is held fits in `limit`. */
    method ShrinkLocked(limit: nat) returns (removed: nat)
      requires Valid()
      modifies this, nodes
      ensures Valid() && View() == Shrink(old(View()), limit)
      ensures removed == |old(nodes)| - |nodes| && Within(nodes, old(nodes))
    {
      hide Linked, Contents, Indexed, TotalBytes, Find;
      removed := 0;
      while bytes > limit
        invariant Valid() && Within(nodes, old(nodes))
        invariant Shrink(View(), limit) == Shrink(old(View()), limit)
        invariant removed == |old(nodes)| - |nodes|
        decreases |nodes|
      {
        ghost var view, before := View(), nodes;
        if view != [] {
          EvictOneLength(view);
        }
        var evicted := EvictOneLocked();
        WithinWithin(nodes, before, old(nodes));
        if !evicted {
          break;
        }
        removed := removed + 1;
      }
    }

    /** The map's order is not the list's, so the expired entries are met in any order. */
    method PurgeExpiredLocked(ticks: int) returns (removed: nat)
      requires Valid()
      modifies this, nodes
      ensures Valid() && View() == Purge(old(View()), ticks)
      ensures removed == |old(nodes)| - |nodes| && Within(nodes, old(nodes))
    {
      hide Linked, Contents, Indexed, TotalBytes, Find, Purge, ExpiredIn, UniqueKeys, Without;
      removed := 0;
      var pending := map_.Keys;
      IndexedKeys(map_, nodes, View(), ticks);
      WithinItself(nodes);
      while pending != {}
        invariant Valid() && Within(nodes, old(nodes))
        invariant pending <= map_.Keys && ExpiredIn(View(), ticks, pending)
        invariant Purge(View(), ticks) == Purge(old(View()), ticks)
        invariant removed == |old(nodes)| - |nodes|
        decreases pending
      {
        var key :| key in pending;
        var node := map_[key];
        ghost var i, before := Find(View(), key), nodes;
        IndexedFinds(map_, nodes, View(), key);
        ExpiredExcept(View(), ticks, pending, i);
        pending := pending - {key};
        if node.expiresAt > ticks {
          continue;
        }
        PurgeWithout(View(), i, ticks);
        RemoveLocked(node, i);
        RestWithin(before, i);
        WithinWithin(nodes, before, old(nodes));
        removed := removed + 1;
      }
      PurgeNothing(View(), ticks);
    }

    /** Expired entries first: they cost nothing to give up. */
    method EvictLocked(limit: nat, ticks: int) returns (removed: nat)
      requires Valid()
      modifies this, nodes
      ensures Valid() && View() == Evict(old(View()), limit, ticks) && Within(nodes, old(nodes))
      ensures removed == |old(View())| - |View()|
    {
      hide Linked, Contents, Indexed, TotalBytes, Purge, Shrink;
      var purged := PurgeExpiredLocked(ticks);
      ghost var between := nodes;
      var shrunk := ShrinkLocked(limit);
      WithinWithin(nodes, between, old(nodes));
      removed := purged + shrunk;
    }

    // ----- The two phases of a read ------------------------------------------

    /** Under the shared lock: a hit flags its entry; `found` tells an expired entry from none. */
    method Lookup(key: Key, ticks: int) returns (found: bool, value: Option<Value>)
      requires Valid()
      modifies this, nodes
      ensures Valid() && nodes == old(nodes)
      ensures View() == Touch(old(View()), key, ticks) && value == Read(old(View()), key, ticks)
      ensures found == (Find(old(View()), key) < |old(View())|)
    {
      hide Linked, Contents, Indexed, TotalBytes, Find, UniqueKeys;
      IndexedFinds(map_, nodes, View(), key);
      if key !in map_ {
        return false, None;
      }
      var node := map_[key];
      ghost var i := Find(View(), key);
      if node.expiresAt > ticks {
        IndexedFlag(map_, nodes, View(), i);
        SetFlag(node, true, i);
        return true, Some(node.value);
      }
      return true, None;
    }

    /** Under the exclusive lock: the key is looked up again and dropped only if it had expired
        when the first phase looked. */
    method Reclaim(key: Key, ticks: int)
      requires Valid()
      modifies this, nodes
      ensures Valid() && View() == DropExpired(old(View()), key, ticks) && Within(nodes, old(nodes))
    {
      hide Linked, Contents, Indexed, TotalBytes, Find, UniqueKeys;
      IndexedFinds(map_, nodes, View(), key);
      if key in map_ && map_[key].expiresAt <= ticks {
        ghost var i := Find(View(), key);
        RestWithin(nodes, i);
        RemoveLocked(map_[key], i);
      }
    }

    method Get(key: Key, ticks: int) returns (value: Option<Value>)
      requires Valid()
      modifies this, nodes
      ensures Valid() && Within(nodes, old(nodes))
      ensures View() == DropExpired(Touch(old(View()), key, ticks), key, ticks)
      ensures value == Read(old(View()), key, ticks)
    {
      hide Linked, Contents, Indexed, TotalBytes, Find, UniqueKeys, Touch, DropExpired, Read;
      SecondPhase(View(), key, ticks);
      WithinItself(nodes);
      var found;
      found, value := Lookup(key, ticks);
      if found && value == None {
        Reclaim(key, ticks);
      }
    }

    method Delete(key: Key) returns (present: bool)
      requires Valid()
      modifies this, nodes
      ensures Valid() && View() == Remove(old(View()), key) && Within(nodes, old(nodes))
      ensures present == (Find(old(View()), key) < |old(View())|)
    {
      hide Linked, Contents, Indexed, TotalBytes, Find, UniqueKeys;
      IndexedFinds(map_, nodes, View(), key);
      if key !in map_ {
        return false;
      }
      ghost var i := Find(View(), key);
      RestWithin(nodes, i);
      RemoveLocked(map_[key], i);
      return true;
    }

    // ----- Storing -----------------------------------------------------------

    method Overwrite(node: Node, entry: Entry, ghost i: nat)
      requires Linked() && i < |nodes| && nodes[i] == node && node.key == entry.key
      modifies node`value, node`bytes, node`expiresAt, node`accessed
      ensures View() == old(View())[i := entry]
    {
      hide Contents;
      node.value := entry.value;
      node.bytes := entry.bytes;
      node.expiresAt := entry.expiresAt;
      node.accessed := entry.accessed;
    }

    method ReplaceLocked(node: Node, entry: Entry, ghost i: nat)
      requires Valid() && i < |nodes| && nodes[i] == node && node.key == entry.key
      modifies this, nodes
      ensures Valid() && View() == [entry] + Without(old(View()), i)
      ensures nodes == [node] + Without(old(nodes), i)
    {
      hide Linked, Contents, Indexed, UniqueKeys, TotalBytes, Find, Without;
      ReplacedTotal(View(), i, entry);
      IndexedReplaced(map_, nodes, View(), i, entry);
      bytes := bytes - node.bytes + entry.bytes;
      Overwrite(node, entry, i);
      MoveToFront(node, i);
    }

    method InsertLocked(entry: Entry)
      requires Valid() && entry.key !in map_
      modifies this, nodes
      ensures Valid() && View() == [entry] + old(View())
      ensures fresh(nodes[0]) && nodes == [nodes[0]] + old(nodes)
    {
      hide Linked, Contents, Indexed, UniqueKeys, TotalBytes, Find;
      var node := new Node(entry);
      IndexedFinds(map_, nodes, View(), entry.key);
      IndexedWith(map_, nodes, View(), entry, node);
      TotalConcat([entry], View());
      TotalOne(entry);
      ContentsFirst(node, nodes);
      ghost var index := map_[entry.key := node];
      ghost var total := TotalBytes([entry] + View());
      AddFront(node);
      assert Indexed(index, nodes, View()) && TotalBytes(View()) == total;
      map_ := map_[entry.key := node];
      bytes := bytes + entry.bytes;
    }

    method Store(key: Key, value: Option<Value>, ttl: int, ticks: int)
      requires Valid()
      modifies this, nodes
      ensures Valid() && View() == Set(old(View()), budget, key, value, ttl, ticks)
      ensures forall i :: 0 <= i < |nodes| ==> nodes[i] in old(nodes) || fresh(nodes[i])
    {
      hide Linked, Contents, Indexed, UniqueKeys, TotalBytes, Find, Without, Shrink;
      if value == None {
        var _ := Delete(key);
        return;
      }
      var entry := NewEntry(key, value.value, ttl, ticks);
      if entry.bytes > budget {
        var _ := Delete(key);
        return;
      }
      IndexedFinds(map_, nodes, View(), key);
      ghost var before := nodes;
      if key in map_ {
        ghost var i := Find(View(), key);
        RestWithin(nodes, i);
        ReplaceLocked(map_[key], entry, i);
      } else {
        InsertLocked(entry);
      }
      var _ := ShrinkLocked(budget);
    }

    method Clear()
      requires Valid()
      modifies this
      ensures Valid() && nodes == [] && View() == []
    {
      map_, head, tail, bytes := map[], null, null, 0;
      nodes := [];
    }
  }

  lemma TotalOne(entry: Entry)
    ensures TotalBytes([entry]) == entry.bytes
  {
  }

  lemma ReplacedTotal(view: seq<Entry>, i: nat, entry: Entry)
    requires i < |view|
    ensures TotalBytes(view) >= view[i].bytes
    ensures TotalBytes([entry] + Without(view, i)) == TotalBytes(view) - view[i].bytes + entry.bytes
    ensures Without(view[i := entry], i) == Without(view, i)
  {
    TotalWithout(view, i);
    TotalConcat([entry], Without(view, i));
    TotalOne(entry);
  }

  lemma WithinItself(nodes: seq<Node>)
    ensures Within(nodes, nodes)
  {
  }

  lemma WithinWithin(a: seq<Node>, b: seq<Node>, c: seq<Node>)
    requires Within(a, b) && Within(b, c)
    ensures Within(a, c)
  {
  }

  lemma {:induction false} PurgeConcat(a: seq<Entry>, b: seq<Entry>, ticks: int)
    ensures Purge(a + b, ticks) == Purge(a, ticks) + Purge(b, ticks)
    decreases |a|
  {
    if a == [] {
      assert a + b == b;
    } else {
      assert (a + b)[1..] == a[1..] + b;
      PurgeConcat(a[1..], b, ticks);
    }
  }

  lemma PurgeWithout(view: seq<Entry>, i: nat, ticks: int)
    requires i < |view| && view[i].expiresAt <= ticks
    ensures Purge(Without(view, i), ticks) == Purge(view, ticks)
  {
    assert view == view[..i] + ([view[i]] + view[i + 1..]);
    PurgeConcat(view[..i], [view[i]] + view[i + 1..], ticks);
    PurgeConcat([view[i]], view[i + 1..], ticks);
    PurgeConcat(view[..i], view[i + 1..], ticks);
    assert Purge([view[i]], ticks) == [];
  }

  /** No expired entry is left outside `pending`. */
  ghost predicate ExpiredIn(view: seq<Entry>, ticks: int, pending: set<Key>) {
    forall i :: 0 <= i < |view| && view[i].expiresAt <= ticks ==> view[i].key in pending
  }

  lemma ExpiredExcept(view: seq<Entry>, ticks: int, pending: set<Key>, i: nat)
    requires UniqueKeys(view) && i < |view| && ExpiredIn(view, ticks, pending)
    ensures view[i].expiresAt > ticks ==> ExpiredIn(view, ticks, pending - {view[i].key})
    ensures ExpiredIn(Without(view, i), ticks, pending - {view[i].key})
  {
    var rest := Without(view, i);
    forall k | 0 <= k < |rest| && rest[k].expiresAt <= ticks ensures rest[k].key in pending - {view[i].key} {
      assert rest[k] == view[if k < i then k else k + 1];
    }
  }

  lemma {:induction false} PurgeNothing(view: seq<Entry>, ticks: int)
    requires ExpiredIn(view, ticks, {})
    ensures Purge(view, ticks) == view
  {
    if view != [] {
      assert view[0].expiresAt > ticks;
      assert forall i :: 0 <= i < |view[1..]| ==> view[1..][i] == view[i + 1];
      PurgeNothing(view[1..], ticks);
    }
  }

  // ----- The map as an index of the list -------------------------------------

  /** The map finds `key` exactly where the list has it. */
  ghost predicate FoundAt(index: map<Key, Node>, nodes: seq<Node>, view: seq<Entry>, key: Key)
    requires |nodes| == |view|
  {
    && (key in index <==> Find(view, key) < |view|)
    && (key in index ==> index[key] == nodes[Find(view, key)])
  }

  /** The map holds exactly the listed nodes, each under its own key. */
  ghost predicate Indexed(index: map<Key, Node>, nodes: seq<Node>, view: seq<Entry>) {
    |nodes| == |view| && UniqueKeys(view) && forall key :: FoundAt(index, nodes, view, key)
  }

  lemma FindIs(view: seq<Entry>, key: Key, j: nat)
    requires j <= |view| && (j < |view| ==> view[j].key == key)
    requires forall k :: 0 <= k < j ==> view[k].key != key
    ensures Find(view, key) == j
  {
    hide Find;
  }

  lemma FindWithout(view: seq<Entry>, i: nat, key: Key)
    requires UniqueKeys(view) && i < |view|
    ensures Find(view, view[i].key) == i
    ensures Find(Without(view, i), key) ==
      if key == view[i].key then |view| - 1
      else if Find(view, key) < i then Find(view, key) else Find(view, key) - 1
  {
    hide Find;
    FindIs(view, view[i].key, i);
    var j := Find(view, key);
    assert forall k :: 0 <= k < |view| - 1 ==> Without(view, i)[k] == view[if k < i then k else k + 1];
    FindIs(Without(view, i), key, if key == view[i].key then |view| - 1 else if j < i then j else j - 1);
  }

  lemma UniqueWithout(view: seq<Entry>, i: nat)
    requires UniqueKeys(view) && i < |view|
    ensures UniqueKeys(Without(view, i))
  {
  }

  lemma IndexedWithout(index: map<Key, Node>, nodes: seq<Node>, view: seq<Entry>, i: nat)
    requires Indexed(index, nodes, view) && i < |view|
    ensures Indexed(index - {view[i].key}, Without(nodes, i), Without(view, i))
  {
    hide Find, UniqueKeys;
    UniqueWithout(view, i);
    forall key ensures FoundAt(index - {view[i].key}, Without(nodes, i), Without(view, i), key) {
      assert FoundAt(index, nodes, view, key);
      FindWithout(view, i, key);
    }
  }

  lemma UniqueWith(view: seq<Entry>, e: Entry)
    requires UniqueKeys(view) && Find(view, e.key) == |view|
    ensures UniqueKeys([e] + view)
  {
  }

  lemma FindWith(view: seq<Entry>, e: Entry, key: Key)
    ensures Find([e] + view, key) == if key == e.key then 0 else 1 + Find(view, key)
  {
    assert ([e] + view)[1..] == view;
  }

  lemma IndexedWith(index: map<Key, Node>, nodes: seq<Node>, view: seq<Entry>, e: Entry, node: Node)
    requires Indexed(index, nodes, view) && Find(view, e.key) == |view|
    ensures Indexed(index[e.key := node], [node] + nodes, [e] + view)
  {
    hide Find, UniqueKeys;
    UniqueWith(view, e);
    var index', nodes', view' := index[e.key := node], [node] + nodes, [e] + view;
    forall key ensures FoundAt(index', nodes', view', key) {
      assert FoundAt(index, nodes, view, key);
      FindWith(view, e, key);
    }
  }

  lemma IndexedFinds(index: map<Key, Node>, nodes: seq<Node>, view: seq<Entry>, key: Key)
    requires Indexed(index, nodes, view)
    ensures |nodes| == |view| && UniqueKeys(view)
    ensures key in index <==> Find(view, key) < |view|
    ensures key in index ==> nodes[Find(view, key)] == index[key]
  {
    hide Find, UniqueKeys;
    assert FoundAt(index, nodes, view, key);
  }

  /** An entry written over one with the same key, and put in front. */
  lemma IndexedReplaced(index: map<Key, Node>, nodes: seq<Node>, view: seq<Entry>, i: nat, entry: Entry)
    requires Indexed(index, nodes, view) && i < |view| && view[i].key == entry.key
    ensures Indexed(index, [nodes[i]] + Without(nodes, i), [entry] + Without(view, i))
  {
    hide Find, UniqueKeys, Without, FoundAt;
    FindWithout(view, i, entry.key);
    IndexedFinds(index, nodes, view, entry.key);
    IndexedWithout(index, nodes, view, i);
    IndexedWith(index - {entry.key}, Without(nodes, i), Without(view, i), entry, nodes[i]);
    IndexedFinds(index, nodes, view, entry.key);
    assert (index - {entry.key})[entry.key := nodes[i]] == index;
  }

  /** Moving the tail to the front with its flag cleared changes no key and no node. */
  lemma IndexedTurned(index: map<Key, Node>, nodes: seq<Node>, view: seq<Entry>)
    requires Indexed(index, nodes, view) && view != []
    ensures Indexed(index, Rotated(nodes), Turned(view))
  {
    hide Find, UniqueKeys, FoundAt;
    var n := |view| - 1;
    IndexedReplaced(index, nodes, view, n, view[n].(accessed := false));
    assert Without(nodes, n) == nodes[..n] && Without(view, n) == view[..n];
  }

  lemma IndexedFlag(index: map<Key, Node>, nodes: seq<Node>, view: seq<Entry>, i: nat)
    requires Indexed(index, nodes, view) && i < |view|
    ensures var flagged := view[i := view[i].(accessed := true)];
      Indexed(index, nodes, flagged) && TotalBytes(flagged) == TotalBytes(view)
  {
    var flagged := view[i := view[i].(accessed := true)];
    TotalWithout(view, i);
    TotalWithout(flagged, i);
    assert Without(flagged, i) == Without(view, i);
    hide TotalBytes, Find;
    forall key ensures FoundAt(index, nodes, flagged, key) {
      assert FoundAt(index, nodes, view, key);
      FindSame(view, flagged, key);
    }
  }

  lemma IndexedKeys(index: map<Key, Node>, nodes: seq<Node>, view: seq<Entry>, ticks: int)
    requires Indexed(index, nodes, view)
    ensures ExpiredIn(view, ticks, index.Keys)
  {
    hide Find;
    forall i | 0 <= i < |view| ensures view[i].key in index {
      assert FoundAt(index, nodes, view, view[i].key);
    }
  }

  lemma IndexSize(index: map<Key, Node>, nodes: seq<Node>, view: seq<Entry>)
    requires Indexed(index, nodes, view)
    ensures |index| == |view|
  {
    hide Find, UniqueKeys;
    forall key | key in index.Keys ensures key in Keys(view) {
      assert FoundAt(index, nodes, view, key);
      assert view[Find(view, key)].key in Keys(view);
    }
    forall i | 0 <= i < |view| ensures view[i].key in index {
      assert FoundAt(index, nodes, view, view[i].key);
    }
    assert index.Keys == Keys(view);
    KeysCount(view);
    assert |index| == |index.Keys|;
  }

  lemma TurnedTotal(view: seq<Entry>)
    requires view != []
    ensures TotalBytes(Turned(view)) == TotalBytes(view)
  {
    var n := |view| - 1;
    TotalWithout(view, n);
    assert Without(view, n) == view[..n];
    TotalConcat([view[n].(accessed := false)], view[..n]);
  }

  ghost function Keys(view: seq<Entry>): set<Key> {
    set i | 0 <= i < |view| :: view[i].key
  }

  lemma {:induction false} KeysCount(view: seq<Entry>)
    requires UniqueKeys(view)
    ensures |Keys(view)| == |view|
  {
    if view != [] {
      var rest := view[1..];
      KeysCount(rest);
      assert Keys(view) == Keys(rest) + {view[0].key} by {
        assert forall i :: 0 < i < |view| ==> view[i] == rest[i - 1];
      }
      assert view[0].key !in Keys(rest);
    }
  }

  // ----- The shards together -------------------------------------------------

  const MIN_SHARD_BUDGET_BYTES: nat := 1024 * 1024

  method FloorPowerOfTwo(value: nat) returns (result: nat, n: nat)
    requires value >= 1
    ensures result == Pow2(n) && result <= value < 2 * result
  {
    result, n := 1, 0;
    while result * 2 <= value
      invariant result == Pow2(n) && result <= value
    {
      result, n := result * 2, n + 1;
    }
  }

  /** As many shards as asked for, 8 by default and 64 at most, but none below the smallest budget. */
  function WantedShards(maxBytes: nat, requested: nat): nat {
    var asked := if requested == 0 then 8 else requested;
    var affordable := maxBytes / MIN_SHARD_BUDGET_BYTES;
    Least(Least(asked, 64), if affordable > 1 then affordable else 1)
  }

  function Least(a: nat, b: nat): nat {
    if b < a then b else a
  }

  method ShardCount(maxBytes: nat, requested: nat) returns (count: nat, n: nat)
    ensures count == Pow2(n) && count <= 64
    ensures count <= WantedShards(maxBytes, requested) < 2 * count
  {
    count := if requested == 0 then 8 else requested;
    count := if count > 64 then 64 else count;
    var affordable := if maxBytes / MIN_SHARD_BUDGET_BYTES > 1 then maxBytes / MIN_SHARD_BUDGET_BYTES else 1;
    count := if affordable < count then affordable else count;
    count, n := FloorPowerOfTwo(count);
  }

  /** A hit is not expired and a miss is not there: the second phase acts only between the two. */
  lemma SecondPhase(view: seq<Entry>, key: Key, ticks: int)
    ensures Find(view, key) == |view| || Read(view, key, ticks).Some? ==>
      DropExpired(Touch(view, key, ticks), key, ticks) == Touch(view, key, ticks)
  {
    var touched := Touch(view, key, ticks);
    FindSame(view, touched, key);
  }

  lemma {:induction false} FindSame(a: seq<Entry>, b: seq<Entry>, key: Key)
    requires |a| == |b| && forall i :: 0 <= i < |a| ==> a[i].key == b[i].key
    ensures Find(a, key) == Find(b, key)
  {
    if a != [] {
      FindSame(a[1..], b[1..], key);
    }
  }

  lemma FindSome(view: seq<Entry>, key: Key)
    ensures Find(view, key) < |view| <==> exists e :: e in view && e.key == key
  {
    if Find(view, key) < |view| {
      assert view[Find(view, key)] in view;
    }
  }

  function Entries(cache: seq<seq<Entry>>): nat {
    if cache == [] then 0 else |cache[0]| + Entries(cache[1..])
  }

  lemma StepEntries(shape: Shape, cache: seq<seq<Entry>>, op: Op)
    requires Target(shape, op) < |cache|
    ensures var i := Target(shape, op);
      Entries(Step(shape, cache, op)) == Entries(cache) - |cache[i]| + |Step(shape, cache, op)[i]|
  {
    EntriesUpdated(cache, Target(shape, op), ShardStep(shape, cache[Target(shape, op)], op));
  }

  lemma {:induction false} EntriesUpdated(cache: seq<seq<Entry>>, i: nat, view: seq<Entry>)
    requires i < |cache|
    ensures Entries(cache[i := view]) == Entries(cache) - |cache[i]| + |view|
  {
    if i > 0 {
      assert cache[i := view][1..] == cache[1..][i - 1 := view];
      EntriesUpdated(cache[1..], i - 1, view);
    } else {
      assert cache[i := view][1..] == cache[1..];
    }
  }

  method MakeShards(count: nat, budget: nat) returns (made: seq<Shard>)
    ensures |made| == count
    ensures forall i :: 0 <= i < count ==>
      fresh(made[i]) && made[i].Valid() && made[i].nodes == [] && made[i].budget == budget
    ensures forall i, j :: 0 <= i < j < count ==> made[i] != made[j]
  {
    made := [];
    while |made| < count
      invariant |made| <= count
      invariant forall i :: 0 <= i < |made| ==>
        fresh(made[i]) && made[i].Valid() && made[i].nodes == [] && made[i].budget == budget
      invariant forall i, j :: 0 <= i < j < |made| ==> made[i] != made[j]
    {
      var shard := new Shard(budget);
      made := made + [shard];
    }
  }

  class MemoryCache {
    const hash: Key -> nat
    const shards: seq<Shard>
    const maxBytes: nat
    const bits: nat

    function Shape(): Shape {
      CacheHistory.Shape(hash, bits, maxBytes)
    }

    ghost function Footprint(): set<object>
      reads shards
    {
      (set i | 0 <= i < |shards| :: shards[i] as object)
        + (set i, k | 0 <= i < |shards| && 0 <= k < |shards[i].nodes| :: shards[i].nodes[k] as object)
    }

    /** No two shards share a node. */
    ghost predicate Apart()
      reads shards
    {
      && (forall i, j :: 0 <= i < j < |shards| ==> shards[i] != shards[j])
      && (forall i, j, k :: 0 <= i < |shards| && 0 <= j < |shards| && i != j && 0 <= k < |shards[i].nodes| ==>
            shards[i].nodes[k] !in shards[j].nodes)
    }

    ghost predicate Valid()
      reads this, shards, Footprint()
    {
      && |shards| == Pow2(bits)
      && Apart()
      && forall i :: 0 <= i < |shards| ==> shards[i].Valid() && shards[i].budget == Shape().Budget()
    }

    ghost function View(): (cache: seq<seq<Entry>>)
      reads this, shards, Footprint()
      ensures |cache| == |shards|
      ensures forall i :: 0 <= i < |shards| ==> cache[i] == shards[i].View()
    {
      seq(|shards|, i requires 0 <= i < |shards| reads this, shards, Footprint() => shards[i].View())
    }

    constructor (maxBytes: nat, requested: nat, hash: Key -> nat)
      ensures Valid() && fresh(Footprint()) && this.maxBytes == maxBytes && this.hash == hash
      ensures |shards| <= WantedShards(maxBytes, requested) < 2 * |shards|
      ensures |shards| <= 64 && forall i :: 0 <= i < |shards| ==> shards[i].nodes == []
    {
      hide Shard.Valid, Contents, UniqueKeys, Distinct, TotalBytes, Find, Pow2, Share, WantedShards;
      var count, n := ShardCount(maxBytes, requested);
      var made := MakeShards(count, Share(maxBytes, count));
      this.hash, this.maxBytes, this.bits, this.shards := hash, maxBytes, n, made;
    }

    lemma StartsEmpty()
      requires Valid() && forall i :: 0 <= i < |shards| ==> shards[i].nodes == []
      ensures View() == Empty(Shape())
    {
    }

    /** Only shard i and nodes of its own have changed. */
    twostate predicate OnlyShard(i: nat)
      requires i < |shards|
      reads this, shards, Footprint()
    {
      && (forall j :: 0 <= j < |shards| && j != i ==> unchanged(shards[j]))
      && (forall j, k :: 0 <= j < |shards| && j != i && 0 <= k < |shards[j].nodes| ==>
            unchanged(shards[j].nodes[k]))
      && (forall k :: 0 <= k < |shards[i].nodes| ==>
            shards[i].nodes[k] in old(shards[i].nodes) || fresh(shards[i].nodes[k]))
    }

    twostate lemma OthersKept(i: nat)
      requires old(Valid()) && i < |shards| && OnlyShard(i)
      ensures forall j :: 0 <= j < |shards| && j != i ==>
        shards[j].Valid() == old(shards[j].Valid()) && shards[j].View() == old(shards[j].View())
    {
      hide Shard.Valid, Shard.View, Contents;
      forall j | 0 <= j < |shards| && j != i
        ensures shards[j].Valid() == old(shards[j].Valid()) && shards[j].View() == old(shards[j].View())
      {
        var nodes := old(shards[j].nodes);
        assert shards[j].nodes == nodes;
        assert forall k :: 0 <= k < |nodes| ==> unchanged(nodes[k]);
      }
    }

    twostate lemma StillApart(i: nat)
      requires old(Apart()) && i < |shards| && OnlyShard(i)
      ensures Apart() && fresh(Footprint() - old(Footprint()))
    {
    }

    /** A call that stays within shard i leaves the cache sound and every other shard as it was. */
    twostate lemma ShardUpdated(i: nat)
      requires old(Valid()) && i < |shards| && OnlyShard(i) && shards[i].Valid()
      ensures Valid() && fresh(Footprint() - old(Footprint()))
      ensures View() == old(View())[i := shards[i].View()]
    {
      hide Shard.Valid, Shard.View, Contents;
      ghost var others := old(View())[i := shards[i].View()];
      OthersKept(i);
      StillApart(i);
      hide Apart, OnlyShard, Footprint;
      assert View() == others;
    }

    twostate lemma FootprintShrinks(i: nat)
      requires i < |shards| && OnlyShard(i)
      requires forall k :: 0 <= k < |shards[i].nodes| ==> shards[i].nodes[k] in old(shards[i].nodes)
      ensures Footprint() <= old(Footprint())
    {
      forall j, k | 0 <= j < |shards| && 0 <= k < |shards[j].nodes|
        ensures shards[j].nodes[k] in old(Footprint())
      {
        if j != i {
          assert shards[j].nodes == old(shards[j].nodes);
        }
      }
    }

    method Set(key: Key, value: Option<Value>, ttl: int, ticks: int)
      requires Valid()
      modifies Footprint()
      ensures Valid() && fresh(Footprint() - old(Footprint()))
      ensures View() == Step(Shape(), old(View()), Op.Store(key, value, ttl, ticks))
    {
      hide Shard.Valid, Shard.View, Contents, ClockCache.Set;
      var i := ShardIndex(key);
      shards[i].Store(key, value, ttl, ticks);
      ShardUpdated(i);
    }

    /** Both phases in turn. Where other callers come between them, the two steps of
        CacheHistory stand apart. */
    method Get(key: Key, ticks: int) returns (value: Option<Value>)
      requires Valid()
      modifies Footprint()
      ensures Valid() && fresh(Footprint() - old(Footprint()))
      ensures View() == Step(Shape(), Step(Shape(), old(View()), Op.Lookup(key, ticks)), Op.Reclaim(key, ticks))
      ensures value == Read(old(View())[ShardIndex(key)], key, ticks)
    {
      hide Shard.Valid, Shard.View, Contents, Touch, DropExpired, Read;
      var i := ShardIndex(key);
      value := shards[i].Get(key, ticks);
      ShardUpdated(i);
    }

    method Del(key: Key) returns (present: bool)
      requires Valid()
      modifies Footprint()
      ensures Valid() && fresh(Footprint() - old(Footprint()))
      ensures View() == Step(Shape(), old(View()), Op.Delete(key))
      ensures present == exists e :: e in old(View())[ShardIndex(key)] && e.key == key
    {
      hide Shard.Valid, Shard.View, Contents, Without, Find;
      var i := ShardIndex(key);
      FindSome(shards[i].View(), key);
      present := shards[i].Delete(key);
      ShardUpdated(i);
    }

    method EvictShardLocked(i: nat, limit: nat, ticks: int) returns (removed: nat)
      requires Valid() && i < |shards|
      modifies Footprint()
      ensures Valid() && Footprint() <= old(Footprint())
      ensures View() == Step(Shape(), old(View()), EvictShard(i, limit, ticks))
      ensures removed == |old(View())[i]| - |View()[i]|
    {
      hide Shard.Valid, Shard.View, Contents, ClockCache.Evict;
      removed := shards[i].EvictLocked(limit, ticks);
      ShardUpdated(i);
      FootprintShrinks(i);
    }

    method EvictEach(perShard: nat, ticks: int) returns (removed: nat)
      requires Valid()
      modifies Footprint()
      ensures Valid() && Footprint() <= old(Footprint())
      ensures View() == EvictSteps(Shape(), old(View()), |shards|, perShard, ticks)
      ensures removed == Entries(old(View())) - Entries(View())
    {
      hide Valid, Footprint, Step, Pow2;
      removed := 0;
      for i := 0 to |shards|
        invariant Valid() && Footprint() <= old(Footprint())
        invariant View() == EvictSteps(Shape(), old(View()), i, perShard, ticks)
        invariant removed == Entries(old(View())) - Entries(View())
      {
        ghost var before := View();
        var gone := EvictShardLocked(i, perShard, ticks);
        StepEntries(Shape(), before, EvictShard(i, perShard, ticks));
        removed := removed + gone;
      }
    }

    method Evict(budgetBytes: nat, ticks: int) returns (removed: nat)
      requires Valid()
      modifies Footprint()
      ensures Valid() && Footprint() <= old(Footprint())
      ensures View() == EvictAll(Shape(), old(View()), budgetBytes, ticks)
      ensures removed == Entries(old(View())) - Entries(View())
    {
      assert |shards| == Shape().Count();
      hide Valid, Footprint, Step, Pow2, EvictSteps, Entries, Share;
      removed := EvictEach(Share(budgetBytes, |shards|), ticks);
    }

    method ClearShardLocked(i: nat)
      requires Valid() && i < |shards|
      modifies Footprint()
      ensures Valid() && Footprint() <= old(Footprint())
      ensures View() == Step(Shape(), old(View()), ClearShard(i))
    {
      hide Shard.Valid, Shard.View, Contents;
      shards[i].Clear();
      ShardUpdated(i);
      FootprintShrinks(i);
    }

    method Clear()
      requires Valid()
      modifies Footprint()
      ensures Valid() && Footprint() <= old(Footprint())
      ensures View() == ClearSteps(Shape(), old(View()), |shards|)
    {
      hide Valid, Footprint, Step, Pow2;
      for i := 0 to |shards|
        invariant Valid() && Footprint() <= old(Footprint())
        invariant View() == ClearSteps(Shape(), old(View()), i)
      {
        ClearShardLocked(i);
      }
    }

    function ShardIndex(key: Key): (i: nat)
      requires Valid()
      reads this, shards, Footprint()
      ensures i < |shards|
    {
      Shape().ShardOf(key)
    }
  }
}
