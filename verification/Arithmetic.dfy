/** Products, one law at a time. */
module Arithmetic {
  lemma Regroup(a: int, b: int, c: int)
    ensures a * (b * c) == a * b * c
  {
  }

  lemma Spread(a: int, b: int, c: int)
    ensures a * (b + c) == a * b + a * c && (b + c) * a == b * a + c * a
  {
  }

  lemma Swap(a: int, b: int)
    ensures a * b == b * a
  {
  }

  lemma AtLeastOnce(a: nat, n: nat)
    requires n >= 1
    ensures a <= a * n
  {
    Spread(a, 1, n - 1);
  }

  lemma DivideTwice(value: nat, a: nat, b: nat)
    requires a > 0 && b > 0
    ensures value / a / b == value / (a * b)
  {
    var q, r := value / a, value % a;
    var p, t := q / b, q % b;
    Distribute(a, b, p, t);
    BelowProduct(a, b, t, r);
    DivideUnique(value, a * b, p, a * t + r);
  }

  lemma Distribute(a: int, b: int, p: int, t: int)
    ensures a * (b * p + t) == a * b * p + a * t
  {
  }

  lemma BelowProduct(a: nat, b: nat, t: nat, r: nat)
    requires t < b && r < a
    ensures 0 <= a * t + r < a * b && a * b > 0
  {
    var n := b - t;
    AtLeastOnce(a, n);
    Spread(a, t, n);
  }

  lemma DivideUnique(value: int, d: int, q: int, r: int)
    requires d > 0 && 0 <= r < d && value == d * q + r
    ensures value / d == q
  {
    var m := value / d - q;
    assert d * m == r - value % d;
    assert m >= 1 ==> d * m >= d;
    assert m <= -1 ==> d * m <= -d;
  }
}
