/** The record encoding: LEB128 numbers and length-prefixed strings. Everything written reads back,
    whatever is written behind it. */
module Codec {
  import opened Option
  import opened Text
  import opened Arithmetic
  import opened Bits

  const WORD: nat := 0x1_0000_0000_0000_0000

  /** What a read answers, and what is left; None is the exception. */
  type Read<T> = Option<(T, string)>

  // ----- Writing -----------------------------------------------------------------

  /** Seven bits a byte, the high bit set while more follow. */
  function Varint(value: nat): (s: string)
    ensures s != ""
  {
    if value >= 0x80 then [(value % 0x80 + 0x80) as char] + Varint(value / 0x80) else [value as char]
  }

  function Str(value: string): string {
    Varint(|value|) + value
  }

  function U8(value: nat): string
    requires value < 256
  {
    [value as char]
  }

  function Bool(value: bool): string {
    U8(if value then 1 else 0)
  }

  // ----- Reading -----------------------------------------------------------------

  function ReadU8(s: string): Read<nat> {
    if s == "" then None else Some((s[0] as int, s[1..]))
  }

  /** The groups from `shift` on, added to what has been read; a 64-bit word keeps no more than fits. */
  function ReadGroups(s: string, shift: nat, value: nat): (r: Read<nat>)
    ensures r.Some? ==> |r.value.1| < |s|
  {
    if s == "" || shift > 63 then None
    else
      var next := value + s[0] as int % 0x80 * Pow2(shift) % WORD;
      if s[0] as int / 0x80 % 2 == 0 then Some((next, s[1..])) else ReadGroups(s[1..], shift + 7, next)
  }

  function ReadVarint(s: string): (r: Read<nat>)
    ensures r.Some? ==> |r.value.1| < |s|
  {
    ReadGroups(s, 0, 0)
  }

  function ReadStr(s: string): (r: Read<string>)
    ensures r.Some? ==> |r.value.1| < |s|
  {
    match ReadVarint(s)
    case None => None
    case Some((length, rest)) => if length > |rest| then None else Some((rest[..length], rest[length..]))
  }

  function ReadBool(s: string): Read<bool> {
    match ReadU8(s)
    case None => None
    case Some((value, rest)) => Some((value != 0, rest))
  }

  /** Base 128, least significant group first, the high bit set on all groups but the last, and no group
      more than it takes. */
  function Power128(k: nat): (p: nat)
    ensures p > 0
  {
    if k == 0 then 1 else 128 * Power128(k - 1)
  }

  lemma {:induction false} VarintIsLeb128(value: nat, i: nat)
    requires i < |Varint(value)|
    ensures
      var s := Varint(value);
      s[i] as int == value / Power128(i) % 128 + if i + 1 < |s| then 128 else 0
  {
    if i > 0 {
      assert Varint(value)[i] == Varint(value / 128)[i - 1];
      VarintIsLeb128(value / 128, i - 1);
      DivideTwice(value, 128, Power128(i - 1));
    }
  }

  lemma {:induction false} VarintIsShort(value: nat)
    ensures value < Power128(|Varint(value)|)
    ensures |Varint(value)| > 1 ==> value >= Power128(|Varint(value)| - 1)
  {
    if value >= 128 {
      VarintIsShort(value / 128);
    }
  }

  // ----- Self-delimiting round trips ------------------------------------------------

  lemma {:induction false} Pow2Grows(a: nat, b: nat)
    requires Pow2(a) < Pow2(b)
    ensures a < b
  {
    if a >= b {
      Pow2Adds(b, a - b);
      AtLeastOnce(Pow2(b), Pow2(a - b));
    }
  }

  lemma WordIs()
    ensures Pow2(64) == WORD && Pow2(7) == 0x80
  {
    Pow2OfByte();
    hide Pow2;
    Pow2Adds(8, 8);
    Pow2Adds(16, 16);
    Pow2Adds(32, 32);
  }

  /** One group of a longer number: what is left is a seventh further up, and still fits. */
  lemma GroupStep(value: nat, shift: nat)
    requires value >= 0x80 && value * Pow2(shift) < WORD
    ensures shift + 7 <= 63
    ensures value % 0x80 * Pow2(shift) < WORD && value / 0x80 * Pow2(shift + 7) < WORD
    ensures value % 0x80 * Pow2(shift) + value / 0x80 * Pow2(shift + 7) == value * Pow2(shift)
  {
    hide Pow2;
    WordIs();
    Pow2Adds(7, shift);
    SplitProduct(value / 0x80, value % 0x80, Pow2(shift));
    assert value == value / 0x80 * 0x80 + value % 0x80;
    Pow2Grows(shift + 7, 64);
  }

  lemma SplitProduct(q: nat, r: nat, p: nat)
    requires q >= 1
    ensures (q * 0x80 + r) * p == q * (0x80 * p) + r * p
    ensures r * p >= 0 && q * (0x80 * p) >= 0x80 * p
  {
    Regroup(q, 0x80, p);
    Spread(p, q * 0x80, r);
    AtLeastOnce(0x80 * p, q);
    Swap(0x80 * p, q);
  }

  lemma LastGroup(value: nat, shift: nat)
    requires value * Pow2(shift) < WORD && value > 0
    ensures shift <= 63
  {
    AtLeastOnce(Pow2(shift), value);
    WordIs();
    Pow2Grows(shift, 64);
  }

  lemma {:induction false} GroupsRead(value: nat, rest: string, shift: nat, sofar: nat)
    requires value * Pow2(shift) < WORD && (value > 0 || shift == 0)
    ensures ReadGroups(Varint(value) + rest, shift, sofar) == Some((sofar + value * Pow2(shift), rest))
    decreases value
  {
    hide Pow2, Varint, ReadGroups;
    VarintBegins(value, rest);
    if value >= 0x80 {
      GroupStep(value, shift);
      OneGroup(Varint(value) + rest, shift, sofar, value % 0x80, true);
      GroupsRead(value / 0x80, rest, shift + 7, sofar + value % 0x80 * Pow2(shift));
    } else {
      if value > 0 {
        LastGroup(value, shift);
      }
      OneGroup(Varint(value) + rest, shift, sofar, value, false);
    }
  }

  /** One byte of a number: seven bits, and whether more follow. */
  lemma OneGroup(s: string, shift: nat, sofar: nat, low: nat, more: bool)
    requires s != "" && shift <= 63 && low < 0x80 && s[0] as int == low + (if more then 0x80 else 0)
    requires low * Pow2(shift) < WORD
    ensures
      var next := sofar + low * Pow2(shift);
      ReadGroups(s, shift, sofar) == if more then ReadGroups(s[1..], shift + 7, next) else Some((next, s[1..]))
  {
    hide Pow2;
    assert s[0] as int % 0x80 == low && s[0] as int / 0x80 == if more then 1 else 0;
  }

  lemma VarintBegins(value: nat, rest: string)
    ensures
      var s := Varint(value) + rest;
      && s != ""
      && (value >= 0x80 ==> s[0] as int == value % 0x80 + 0x80 && s[1..] == Varint(value / 0x80) + rest)
      && (value < 0x80 ==> s[0] as int == value && s[1..] == rest)
  {
  }

  /** Every 64-bit number reads back, and nothing behind it is touched. */
  lemma VarintReads(value: nat, rest: string)
    requires value < WORD
    ensures ReadVarint(Varint(value) + rest) == Some((value, rest))
  {
    assert Pow2(0) == 1;
    GroupsRead(value, rest, 0, 0);
  }

  lemma StrReads(value: string, rest: string)
    requires |value| < WORD
    ensures ReadStr(Str(value) + rest) == Some((value, rest))
  {
    hide Varint, ReadVarint;
    Associative(Varint(|value|), value, rest);
    VarintReads(|value|, value + rest);
    assert (value + rest)[..|value|] == value && (value + rest)[|value|..] == rest;
  }

  lemma BoolReads(value: bool, rest: string)
    ensures ReadBool(Bool(value) + rest) == Some((value, rest))
  {
    assert (Bool(value) + rest)[1..] == rest;
  }

  lemma U8Reads(value: nat, rest: string)
    requires value < 256
    ensures ReadU8(U8(value) + rest) == Some((value, rest))
  {
    assert (U8(value) + rest)[1..] == rest;
  }

  /** The longest encoding takes ten bytes; an eleventh group is refused before it can wrap. */
  lemma {:induction false} TooManyGroups(s: string, shift: nat, value: nat)
    requires forall i :: 0 <= i < |s| && i <= (63 - shift) / 7 ==> s[i] as int / 0x80 % 2 == 1
    requires |s| > (63 - shift) / 7 || shift > 63
    ensures ReadGroups(s, shift, value) == None
  {
    if s != "" && shift <= 63 {
      TooManyGroups(s[1..], shift + 7, value + s[0] as int % 0x80 * Pow2(shift) % WORD);
    }
  }

  // ----- The writer and the reader ----------------------------------------------------

  class Writer {
    var out: string

    constructor ()
      ensures out == ""
    {
      out := "";
    }

    method WriteU8(value: nat)
      requires value < 256
      modifies this
      ensures out == old(out) + U8(value)
    {
      out := out + [value as char];
    }

    method WriteVarint(value: nat)
      requires value < WORD
      modifies this
      ensures out == old(out) + Varint(value)
    {
      var left := value;
      while left >= 0x80
        invariant out + Varint(left) == old(out) + Varint(value)
        decreases left
      {
        Associative(out, [(left % 0x80 + 0x80) as char], Varint(left / 0x80));
        out := out + [(left % 0x80 + 0x80) as char];
        left := left / 0x80;
      }
      out := out + [left as char];
    }

    method WriteString(value: string)
      requires |value| < WORD
      modifies this
      ensures out == old(out) + Str(value)
    {
      WriteVarint(|value|);
      Associative(old(out), Varint(|value|), value);
      out := out + value;
    }

    method WriteBool(value: bool)
      modifies this
      ensures out == old(out) + Bool(value)
    {
      WriteU8(if value then 1 else 0);
    }
  }

  class Reader {
    const text: string
    var offset: nat

    ghost predicate Valid()
      reads this
    {
      offset <= |text|
    }

    ghost function Rest(): string
      requires Valid()
      reads this
    {
      text[offset..]
    }

    constructor (text: string)
      ensures Valid() && this.text == text && offset == 0
    {
      this.text, offset := text, 0;
    }

    method NextU8() returns (value: Option<nat>)
      requires Valid()
      modifies this
      ensures Valid() && Agrees(ReadU8(old(Rest())), value)
    {
      if offset + 1 > |text| {
        return None;
      }
      value := Some(text[offset] as int);
      offset := offset + 1;
      assert old(Rest())[1..] == Rest();
    }

    /** The value read and the text left are the function's; or both failed. */
    ghost predicate Agrees<T>(spec: Read<T>, value: Option<T>)
      requires Valid()
      reads this
    {
      match spec
      case None => value == None
      case Some((v, rest)) => value == Some(v) && Rest() == rest
    }

    method NextVarint() returns (value: Option<nat>)
      requires Valid()
      modifies this
      ensures Valid() && Agrees(ReadVarint(old(Rest())), value)
    {
      var sofar: nat, shift: nat := 0, 0;
      while true
        invariant Valid() && ReadGroups(Rest(), shift, sofar) == ReadVarint(old(Rest()))
        decreases |text| - offset
      {
        if offset + 1 > |text| {
          return None;
        }
        var byte := text[offset] as int;
        assert Rest()[1..] == text[offset + 1..];
        offset := offset + 1;
        if shift > 63 {
          return None;
        }
        sofar := sofar + byte % 0x80 * Pow2(shift) % WORD;
        if byte / 0x80 % 2 == 0 {
          break;
        }
        shift := shift + 7;
      }
      value := Some(sofar);
    }

    method NextString() returns (value: Option<string>)
      requires Valid()
      modifies this
      ensures Valid() && Agrees(ReadStr(old(Rest())), value)
    {
      hide ReadVarint;
      var length := NextVarint();
      if length == None || length.value > |text| - offset {
        return None;
      }
      assert Rest()[..length.value] == text[offset..offset + length.value];
      assert Rest()[length.value..] == text[offset + length.value..];
      value := Some(text[offset..offset + length.value]);
      offset := offset + length.value;
    }

    method NextBool() returns (value: Option<bool>)
      requires Valid()
      modifies this
      ensures Valid() && Agrees(ReadBool(old(Rest())), value)
    {
      var byte := NextU8();
      value := if byte == None then None else Some(byte.value != 0);
    }
  }
}
