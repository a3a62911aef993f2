/** The table-driven reflected CRCs, and the bit-at-a-time definition they have to equal
    (section 8 of RFC 1952 gives it for CRC-32). The word width only shows in the
    polynomial and the start value, so one model serves the 32- and the 64-bit form. */
module Crc {
  import opened Bits

  type byte = b: nat | b < 256

  const CRC32_POLYNOMIAL: nat := 0xEDB8_8320
  const CRC32C_POLYNOMIAL: nat := 0x82F6_3B78
  const CRC64_NVME_POLYNOMIAL: nat := 0x9A6C_9329_AC4B_C9B5

  // ----- The definition: one message bit at a time ---------------------------

  /** One step of the register: the message bit meets the lowest state bit. */
  function FeedBit(poly: nat, state: nat, bit: bool): nat {
    Xor(state / 2, if Odd(state) != bit then poly else 0)
  }

  function FeedBits(poly: nat, state: nat, bits: seq<bool>): nat
    decreases |bits|
  {
    if bits == [] then state else FeedBits(poly, FeedBit(poly, state, bits[0]), bits[1..])
  }

  /** The lowest n bits of a byte in transmission order, least significant first. */
  function BitsOf(b: nat, n: nat): seq<bool>
    decreases n
  {
    if n == 0 then [] else [Odd(b)] + BitsOf(b / 2, n - 1)
  }

  function MessageBits(data: seq<byte>): seq<bool> {
    if data == [] then [] else BitsOf(data[0], 8) + MessageBits(data[1..])
  }

  /** The CRC register after a whole message. */
  function Register(poly: nat, state: nat, data: seq<byte>): nat {
    FeedBits(poly, state, MessageBits(data))
  }

  lemma {:induction false} FeedBitsConcat(poly: nat, state: nat, a: seq<bool>, b: seq<bool>)
    ensures FeedBits(poly, state, a + b) == FeedBits(poly, FeedBits(poly, state, a), b)
    decreases |a|
  {
    if a == [] {
      assert a + b == b;
    } else {
      assert (a + b)[0] == a[0] && (a + b)[1..] == a[1..] + b;
      FeedBitsConcat(poly, FeedBit(poly, state, a[0]), a[1..], b);
    }
  }

  lemma {:induction false} MessageBitsConcat(a: seq<byte>, b: seq<byte>)
    ensures MessageBits(a + b) == MessageBits(a) + MessageBits(b)
    decreases |a|
  {
    if a == [] {
      assert a + b == b;
    } else {
      assert (a + b)[0] == a[0] && (a + b)[1..] == a[1..] + b;
      MessageBitsConcat(a[1..], b);
    }
  }

  /** How a stream is cut into `update` calls cannot change the result. */
  lemma SplitIndependent(poly: nat, state: nat, a: seq<byte>, b: seq<byte>)
    ensures Register(poly, state, a + b) == Register(poly, Register(poly, state, a), b)
  {
    MessageBitsConcat(a, b);
    FeedBitsConcat(poly, state, MessageBits(a), MessageBits(b));
  }

  /** A W-bit polynomial keeps a W-bit register: no step is truncated by the word. */
  lemma {:induction false} FeedBitsFits(poly: nat, state: nat, bits: seq<bool>, w: nat)
    requires poly < Pow2(w) && state < Pow2(w)
    ensures FeedBits(poly, state, bits) < Pow2(w)
    decreases |bits|
  {
    if bits != [] {
      XorFits(state / 2, if Odd(state) != bits[0] then poly else 0, w);
      FeedBitsFits(poly, FeedBit(poly, state, bits[0]), bits[1..], w);
    }
  }

  // ----- The table form ------------------------------------------------------

  /** The register with no message bit coming in. */
  function Shift1(poly: nat, v: nat): nat {
    Xor(v / 2, if Odd(v) then poly else 0)
  }

  function Shift(poly: nat, v: nat, n: nat): nat
    decreases n
  {
    if n == 0 then v else Shift(poly, Shift1(poly, v), n - 1)
  }

  lemma {:induction false} ShiftLast(poly: nat, v: nat, n: nat)
    ensures Shift(poly, v, n + 1) == Shift1(poly, Shift(poly, v, n))
    decreases n
  {
    if n > 0 {
      ShiftLast(poly, Shift1(poly, v), n - 1);
    }
  }

  lemma Shift1Linear(poly: nat, a: nat, b: nat)
    ensures Shift1(poly, Xor(a, b)) == Xor(Shift1(poly, a), Shift1(poly, b))
  {
    var p := if Odd(a) then poly else 0;
    var q := if Odd(b) then poly else 0;
    XorParts(a, b);
    XorSwap(a / 2, b / 2, p, q);
    XorZero(poly);
    XorIsZero(poly, poly);
    XorIsZero(0, 0);
  }

  /** Shifting is linear over exclusive or, however far it goes. */
  lemma {:induction false} ShiftLinear(poly: nat, a: nat, b: nat, n: nat)
    ensures Shift(poly, Xor(a, b), n) == Xor(Shift(poly, a, n), Shift(poly, b, n))
    decreases n
  {
    if n > 0 {
      Shift1Linear(poly, a, b);
      ShiftLinear(poly, Shift1(poly, a), Shift1(poly, b), n - 1);
    }
  }

  /** Only the n bits shifted out meet the polynomial; the others just travel. */
  lemma {:induction false} ShiftSplits(poly: nat, v: nat, n: nat)
    ensures Shift(poly, v, n) == Xor(Shift(poly, LowBits(v, n), n), ShiftRight(v, n))
    decreases n
  {
    hide Shift, Xor, LowBits, ShiftRight, Odd;
    if n == 0 {
      NothingShifted(poly, v);
      XorZero(v);
    } else {
      var c, low := if Odd(v) then poly else 0, LowBits(v, n);
      SplitOnce(poly, v, n);
      ShiftLinear(poly, v / 2, c, n - 1);
      ShiftLinear(poly, low / 2, c, n - 1);
      ShiftSplits(poly, v / 2, n - 1);
      var x, y, z := Shift(poly, low / 2, n - 1), ShiftRight(v, n), Shift(poly, c, n - 1);
      XorAssociates(x, y, z);
      XorCommutes(y, z);
      XorAssociates(x, z, y);
    }
  }

  lemma NothingShifted(poly: nat, v: nat)
    ensures Shift(poly, LowBits(v, 0), 0) == 0 && ShiftRight(v, 0) == v && Shift(poly, v, 0) == v && Xor(0, v) == v
  {
    XorZero(v);
  }

  lemma SplitOnce(poly: nat, v: nat, n: nat)
    requires n > 0
    ensures
      var c, low := if Odd(v) then poly else 0, LowBits(v, n);
      && Shift(poly, v, n) == Shift(poly, Xor(v / 2, c), n - 1)
      && low / 2 == LowBits(v / 2, n - 1) && Shift(poly, low, n) == Shift(poly, Xor(low / 2, c), n - 1)
      && ShiftRight(v, n) == ShiftRight(v / 2, n - 1)
  {
    hide Xor;
    assert Odd(LowBits(v, n)) == Odd(v) && LowBits(v, n) / 2 == LowBits(v / 2, n - 1);
  }

  /** Folding n message bits in at once and then shifting is feeding them one by one. */
  lemma {:induction false} ShiftIsFeed(poly: nat, state: nat, b: nat, n: nat)
    ensures Shift(poly, Xor(state, b), n) == Xor(FeedBits(poly, state, BitsOf(b, n)), ShiftRight(b, n))
    decreases n
  {
    if n > 0 {
      var next := FeedBit(poly, state, Odd(b));
      var c := if Odd(state) != Odd(b) then poly else 0;
      XorParts(state, b);
      XorAssociates(state / 2, b / 2, c);
      XorCommutes(b / 2, c);
      XorAssociates(state / 2, c, b / 2);
      assert Shift1(poly, Xor(state, b)) == Xor(next, b / 2);
      ShiftIsFeed(poly, next, b / 2, n - 1);
      assert BitsOf(b, n)[0] == Odd(b) && BitsOf(b, n)[1..] == BitsOf(b / 2, n - 1);
    }
  }

  /** The expression of the inner loop, with `entry` standing for the table lookup. */
  lemma TableStep(poly: nat, state: nat, b: byte, entry: nat)
    requires entry == TableEntry(poly, Xor(state, b) % 256)
    ensures Xor(entry, state / 256) == FeedBits(poly, state, BitsOf(b, 8))
  {
    var v := Xor(state, b);
    ShiftSplits(poly, v, 8);
    XorShiftRight(state, b, 8);
    ByteParts(v);
    ByteParts(state);
    ByteParts(b);
    XorZero(state / 256);
    ShiftIsFeed(poly, state, b, 8);
    XorZero(FeedBits(poly, state, BitsOf(b, 8)));
  }

  /** What the table holds at index i. */
  function TableEntry(poly: nat, i: nat): nat {
    Shift(poly, i, 8)
  }

  method BuildEntry(poly: nat, i: nat) returns (value: nat)
    ensures value == TableEntry(poly, i)
  {
    value := i;
    for bit := 0 to 8
      invariant value == Shift(poly, i, bit)
    {
      ShiftLast(poly, i, bit);
      value := Xor(value / 2, if value % 2 != 0 then poly else 0);
    }
  }

  /** An entry is what the register holds after the byte's eight bits, from zero. */
  lemma EntryIsFeed(poly: nat, b: byte)
    ensures TableEntry(poly, b) == FeedBits(poly, 0, BitsOf(b, 8))
  {
    hide FeedBits, BitsOf, TableEntry;
    XorZero(b);
    TableStep(poly, 0, b, TableEntry(poly, b));
    XorZero(TableEntry(poly, b));
  }

  method BuildTable(poly: nat) returns (table: array<nat>)
    ensures fresh(table) && table.Length == 256
    ensures forall i :: 0 <= i < 256 ==> table[i] == TableEntry(poly, i)
    ensures forall i :: 0 <= i < 256 ==> table[i] == FeedBits(poly, 0, BitsOf(i, 8))
  {
    hide FeedBits, BitsOf, TableEntry;
    table := new nat[256];
    for i := 0 to 256
      invariant forall k :: 0 <= k < i ==> table[k] == TableEntry(poly, k) == FeedBits(poly, 0, BitsOf(k, 8))
    {
      EntryIsFeed(poly, i);
      var value := BuildEntry(poly, i);
      table[i] := value;
    }
  }

  lemma RegisterStarts(poly: nat, start: nat)
    ensures Register(poly, start, []) == start
  {
  }

  /** One more byte of a message is eight more bits. */
  lemma RegisterStep(poly: nat, start: nat, data: seq<byte>, i: nat)
    requires i < |data|
    ensures Register(poly, start, data[..i + 1]) == FeedBits(poly, Register(poly, start, data[..i]), BitsOf(data[i], 8))
  {
    assert data[..i + 1] == data[..i] + [data[i]];
    SplitIndependent(poly, start, data[..i], [data[i]]);
    assert MessageBits([data[i]]) == BitsOf(data[i], 8) + [];
    assert BitsOf(data[i], 8) + [] == BitsOf(data[i], 8);
  }

  /** Runs the register over `data` a byte at a time, one lookup each. */
  method Update(poly: nat, start: nat, data: seq<byte>) returns (state: nat)
    ensures state == Register(poly, start, data)
  {
    hide Register, TableEntry, Xor, FeedBits, BitsOf;
    var table := BuildTable(poly);
    state := start;
    RegisterStarts(poly, start);
    for i := 0 to |data|
      invariant state == Register(poly, start, data[..i])
      invariant forall k :: 0 <= k < 256 ==> table[k] == TableEntry(poly, k)
    {
      TableStep(poly, state, data[i], table[Xor(state, data[i]) % 256]);
      RegisterStep(poly, start, data, i);
      state := Xor(table[Xor(state, data[i]) % 256], state / 256);
    }
    assert data[..|data|] == data;
  }
}
