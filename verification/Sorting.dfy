/** Sorting by a strict total order. A sorted arrangement is unique, so what a library sort
    produces is settled by the order alone. */
module Sorting {
  ghost predicate TotalOrder<T(!new)>(less: (T, T) -> bool) {
    && (forall a, b :: less(a, b) || a == b || less(b, a))
    && (forall a :: !less(a, a))
    && (forall a, b, c :: less(a, b) && less(b, c) ==> less(a, c))
  }

  ghost predicate Sorted<T>(less: (T, T) -> bool, s: seq<T>) {
    forall i, j :: 0 <= i < j < |s| ==> !less(s[j], s[i])
  }

  function Insert<T>(less: (T, T) -> bool, x: T, s: seq<T>): seq<T> {
    if s == [] || less(x, s[0]) then [x] + s else [s[0]] + Insert(less, x, s[1..])
  }

  function Sort<T>(less: (T, T) -> bool, s: seq<T>): seq<T> {
    if s == [] then [] else Insert(less, s[0], Sort(less, s[1..]))
  }

  lemma {:induction false} InsertPermutes<T>(less: (T, T) -> bool, x: T, s: seq<T>)
    ensures multiset(Insert(less, x, s)) == multiset{x} + multiset(s)
  {
    if s != [] && !less(x, s[0]) {
      InsertPermutes(less, x, s[1..]);
      assert s == [s[0]] + s[1..];
    }
  }

  lemma {:induction false} InsertSorts<T(!new)>(less: (T, T) -> bool, x: T, s: seq<T>)
    requires TotalOrder(less) && Sorted(less, s)
    ensures Sorted(less, Insert(less, x, s))
  {
    if s != [] && !less(x, s[0]) {
      var rest := Insert(less, x, s[1..]);
      InsertSorts(less, x, s[1..]);
      InsertPermutes(less, x, s[1..]);
      forall j | 0 <= j < |rest| ensures !less(rest[j], s[0]) {
        assert rest[j] in multiset(rest);
        assert rest[j] == x || rest[j] in s[1..];
      }
    }
  }

  lemma {:induction false} SortSorts<T(!new)>(less: (T, T) -> bool, s: seq<T>)
    requires TotalOrder(less)
    ensures Sorted(less, Sort(less, s)) && multiset(Sort(less, s)) == multiset(s)
  {
    if s != [] {
      SortSorts(less, s[1..]);
      InsertSorts(less, s[0], Sort(less, s[1..]));
      InsertPermutes(less, s[0], Sort(less, s[1..]));
      assert s == [s[0]] + s[1..];
    }
  }

  lemma TailBag<T>(s: seq<T>)
    requires s != []
    ensures s == [s[0]] + s[1..] && multiset(s[1..]) == multiset(s) - multiset{s[0]}
  {
    assert s == [s[0]] + s[1..];
  }

  lemma TailSorted<T(!new)>(less: (T, T) -> bool, s: seq<T>)
    requires s != [] && Sorted(less, s)
    ensures Sorted(less, s[1..])
  {
  }

  lemma SameFirst<T(!new)>(less: (T, T) -> bool, a: seq<T>, b: seq<T>)
    requires TotalOrder(less) && Sorted(less, a) && Sorted(less, b) && multiset(a) == multiset(b) && a != [] && b != []
    ensures a[0] == b[0]
  {
    assert a[0] in multiset(b) && b[0] in multiset(a);
  }

  /** Two sorted arrangements of the same elements are the same arrangement. */
  lemma {:induction false} SortedUnique<T(!new)>(less: (T, T) -> bool, a: seq<T>, b: seq<T>)
    requires TotalOrder(less) && Sorted(less, a) && Sorted(less, b) && multiset(a) == multiset(b)
    ensures a == b
    decreases |a|
  {
    if a == [] || b == [] {
      assert |a| == |multiset(a)| && |b| == |multiset(b)|;
    } else {
      SameFirst(less, a, b);
      TailBag(a);
      TailBag(b);
      hide *;
      TailSorted(less, a);
      TailSorted(less, b);
      SortedUnique(less, a[1..], b[1..]);
    }
  }

  lemma SortOfSorted<T(!new)>(less: (T, T) -> bool, s: seq<T>)
    requires TotalOrder(less) && Sorted(less, s)
    ensures Sort(less, s) == s
  {
    SortSorts(less, s);
    SortedUnique(less, Sort(less, s), s);
  }

  lemma SortOfPermuted<T(!new)>(less: (T, T) -> bool, a: seq<T>, b: seq<T>)
    requires TotalOrder(less) && multiset(a) == multiset(b)
    ensures Sort(less, a) == Sort(less, b)
  {
    SortSorts(less, a);
    SortSorts(less, b);
    SortedUnique(less, Sort(less, a), Sort(less, b));
  }

  function Map<A, B>(f: A -> B, s: seq<A>): (r: seq<B>)
    ensures |r| == |s|
    ensures forall i :: 0 <= i < |s| ==> r[i] == f(s[i])
  {
    seq(|s|, i requires 0 <= i < |s| => f(s[i]))
  }

  lemma MapConcat<A, B>(f: A -> B, s: seq<A>, t: seq<A>)
    ensures Map(f, s + t) == Map(f, s) + Map(f, t)
  {
  }

  /** Taking one element out, or mapping first and taking its image out: the same. */
  lemma MapWithout<A, B>(f: A -> B, t: seq<A>, k: nat)
    requires k < |t|
    ensures multiset(t) == multiset{t[k]} + multiset(t[..k] + t[k + 1..])
    ensures multiset(Map(f, t)) == multiset{f(t[k])} + multiset(Map(f, t[..k] + t[k + 1..]))
  {
    hide Map;
    var front, back := t[..k], t[k + 1..];
    assert t == front + ([t[k]] + back);
    MapConcat(f, front, back);
    MapConcat(f, [t[k]], back);
    MapConcat(f, front, [t[k]] + back);
    assert Map(f, [t[k]]) == [f(t[k])];
  }

  /** Mapping the same elements in another order gives the same results in another order. */
  lemma {:induction false} MapPermuted<A, B>(f: A -> B, s: seq<A>, t: seq<A>)
    requires multiset(s) == multiset(t)
    ensures multiset(Map(f, s)) == multiset(Map(f, t))
    decreases |s|
  {
    hide Map;
    assert |s| == |multiset(s)| && |t| == |multiset(t)|;
    if s != [] {
      assert s[0] in multiset(t);
      var k :| 0 <= k < |t| && t[k] == s[0];
      MapWithout(f, s, 0);
      MapWithout(f, t, k);
      var rest := t[..k] + t[k + 1..];
      assert s[..0] + s[1..] == s[1..];
      TailBag(s);
      MapPermuted(f, s[1..], rest);
    }
  }
}
