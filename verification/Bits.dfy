/** Machine words as natural numbers: exclusive or, shifts and masks by constant amounts.
    A W-bit word is a number below Pow2(W); the lemmas show no operation used here leaves it. */
module Bits {
  import opened Arithmetic

  function Pow2(w: nat): (p: nat)
    ensures p >= 1
  {
    if w == 0 then 1 else 2 * Pow2(w - 1)
  }

  lemma {:induction false} Pow2Adds(a: nat, b: nat)
    ensures Pow2(a + b) == Pow2(a) * Pow2(b)
  {
    if a > 0 {
      Pow2Adds(a - 1, b);
      Regroup(2, Pow2(a - 1), Pow2(b));
    }
  }

  lemma Pow2OfByte()
    ensures Pow2(7) == 0x80 && Pow2(8) == 0x100
  {
    assert Pow2(4) == 16;
  }

  predicate Odd(v: nat) {
    v % 2 == 1
  }

  function Xor(a: nat, b: nat): nat
    decreases a + b
  {
    if a == 0 && b == 0 then 0
    else (if Odd(a) != Odd(b) then 1 else 0) + 2 * Xor(a / 2, b / 2)
  }

  /** `v >> n`. */
  function ShiftRight(v: nat, n: nat): nat
    decreases n
  {
    if n == 0 then v else ShiftRight(v / 2, n - 1)
  }

  /** The lowest n bits of v. */
  function LowBits(v: nat, n: nat): nat
    decreases n
  {
    if n == 0 then 0 else v % 2 + 2 * LowBits(v / 2, n - 1)
  }

  lemma XorParts(a: nat, b: nat)
    ensures Xor(a, b) / 2 == Xor(a / 2, b / 2)
    ensures Odd(Xor(a, b)) <==> Odd(a) != Odd(b)
  {
  }

  lemma {:induction false} XorZero(a: nat)
    ensures Xor(a, 0) == a && Xor(0, a) == a
  {
    if a > 0 {
      XorZero(a / 2);
    }
  }

  lemma {:induction false} XorIsZero(a: nat, b: nat)
    ensures Xor(a, b) == 0 <==> a == b
    decreases a + b
  {
    if a != 0 || b != 0 {
      XorIsZero(a / 2, b / 2);
    }
  }

  lemma {:induction false} XorCommutes(a: nat, b: nat)
    ensures Xor(a, b) == Xor(b, a)
    decreases a + b
  {
    if a != 0 || b != 0 {
      XorCommutes(a / 2, b / 2);
    }
  }

  lemma {:induction false} XorAssociates(a: nat, b: nat, c: nat)
    ensures Xor(Xor(a, b), c) == Xor(a, Xor(b, c))
    decreases a + b + c
  {
    if a != 0 || b != 0 || c != 0 {
      XorParts(a, b);
      XorParts(b, c);
      XorAssociates(a / 2, b / 2, c / 2);
    }
  }

  lemma XorSwap(a: nat, b: nat, c: nat, d: nat)
    ensures Xor(Xor(a, b), Xor(c, d)) == Xor(Xor(a, c), Xor(b, d))
  {
    XorAssociates(a, b, Xor(c, d));
    XorAssociates(b, c, d);
    XorCommutes(b, c);
    XorAssociates(c, b, d);
    XorAssociates(a, c, Xor(b, d));
  }

  lemma {:induction false} XorFits(a: nat, b: nat, w: nat)
    requires a < Pow2(w) && b < Pow2(w)
    ensures Xor(a, b) < Pow2(w)
    decreases w
  {
    if w > 0 {
      XorFits(a / 2, b / 2, w - 1);
    }
  }

  lemma {:induction false} XorShiftRight(a: nat, b: nat, n: nat)
    ensures ShiftRight(Xor(a, b), n) == Xor(ShiftRight(a, n), ShiftRight(b, n))
    decreases n
  {
    if n > 0 {
      XorParts(a, b);
      XorShiftRight(a / 2, b / 2, n - 1);
    }
  }

  /** What `& 0xFF` and `>> 8` are as arithmetic. */
  lemma ByteParts(v: nat)
    ensures ShiftRight(v, 8) == v / 256
    ensures LowBits(v, 8) == v % 256
  {
    FourParts(v);
    FourParts(v / 16);
    assert ShiftRight(v, 8) == ShiftRight(v / 2 / 2 / 2 / 2, 4);
    assert LowBits(v / 2 / 2 / 2, 5) == v / 2 / 2 / 2 % 2 + 2 * LowBits(v / 2 / 2 / 2 / 2, 4);
    assert LowBits(v / 2, 7) == v / 2 % 2 + 2 * LowBits(v / 2 / 2, 6);
    assert LowBits(v / 2 / 2, 6) == v / 2 / 2 % 2 + 2 * LowBits(v / 2 / 2 / 2, 5);
  }

  lemma FourParts(v: nat)
    ensures v / 2 / 2 / 2 / 2 == v / 16
    ensures ShiftRight(v, 4) == v / 16
    ensures LowBits(v, 4) == v % 16
  {
    assert ShiftRight(v, 4) == ShiftRight(v / 2 / 2, 2);
    assert LowBits(v, 4) == v % 2 + 2 * LowBits(v / 2, 3);
    assert LowBits(v / 2, 3) == v / 2 % 2 + 2 * LowBits(v / 2 / 2, 2);
  }

  /** Masking with 2^n - 1 lands below 2^n. */
  lemma {:induction false} LowBitsFit(v: nat, n: nat)
    ensures LowBits(v, n) < Pow2(n)
    decreases n
  {
    if n > 0 {
      LowBitsFit(v / 2, n - 1);
    }
  }
}
