/** Byte strings as the C++ side handles them: searching, case, order and decimal numbers. */
module Text {
  import opened Option

  /** A std::string: every character is one byte. */
  predicate Octets(s: string) {
    forall i :: 0 <= i < |s| ==> s[i] as int < 256
  }

  type Bytes = s: string | Octets(s)

  lemma Associative<T>(a: seq<T>, b: seq<T>, c: seq<T>)
    ensures a + (b + c) == a + b + c
  {
  }

  // ----- Searching -----------------------------------------------------------

  /** The index of the first c, or the length when there is none. */
  function IndexOf(s: string, c: char): (i: nat)
    ensures i <= |s|
    ensures i < |s| ==> s[i] == c
    ensures forall k :: 0 <= k < i ==> s[k] != c
  {
    if s == "" || s[0] == c then 0 else 1 + IndexOf(s[1..], c)
  }

  lemma IndexOfIs(s: string, c: char, i: nat)
    requires i <= |s| && (i < |s| ==> s[i] == c)
    requires forall k :: 0 <= k < i ==> s[k] != c
    ensures IndexOf(s, c) == i
  {
    hide IndexOf;
  }

  /** A text without c, then c: that is where c is found. */
  lemma IndexOfAfter(a: string, c: char, rest: string)
    requires c !in a
    ensures IndexOf(a, c) == |a|
    ensures IndexOf(a + [c] + rest, c) == |a|
    ensures (a + [c] + rest)[..|a|] == a && (a + [c] + rest)[|a| + 1..] == rest
  {
    IndexOfIs(a, c, |a|);
    IndexOfIs(a + [c] + rest, c, |a|);
  }

  /** A c behind a text is found where the text has one of its own, or else where it is. */
  lemma {:induction false} IndexOfBehind(a: string, c: char, tail: string)
    requires tail != "" && tail[0] == c
    ensures IndexOf(a + tail, c) == IndexOf(a, c)
  {
    if a == "" {
      assert a + tail == tail;
    } else {
      IndexOfBehind(a[1..], c, tail);
      assert (a + tail)[1..] == a[1..] + tail;
    }
  }

  lemma Inside<T>(a: seq<T>, tail: seq<T>, k: nat)
    requires k <= |a|
    ensures (a + tail)[..k] == a[..k] && (a + tail)[k..] == a[k..] + tail
  {
  }

  lemma Behind<T>(a: seq<T>, first: T, tail: seq<T>)
    ensures ([first] + tail)[0] == first
    ensures (a + ([first] + tail))[|a| + 1..] == tail && (a + ([first] + tail))[..|a|] == a
  {
  }

  /** Where `literal` first occurs. */
  function FindText(s: string, literal: string): (at: Option<nat>)
    ensures at.Some? ==> at.value + |literal| <= |s|
  {
    if literal <= s then Some(0)
    else if s == "" then None
    else match FindText(s[1..], literal)
      case None => None
      case Some(k) => Some(k + 1)
  }

  // ----- Case ----------------------------------------------------------------

  function LowerChar(c: char): char {
    if 'A' <= c <= 'Z' then (c as int + 32) as char else c
  }

  function UpperChar(c: char): char {
    if 'a' <= c <= 'z' then (c as int - 32) as char else c
  }

  function ToLower(s: string): (r: string)
    ensures |r| == |s|
    ensures forall i :: 0 <= i < |s| ==> r[i] == LowerChar(s[i])
  {
    seq(|s|, i requires 0 <= i < |s| => LowerChar(s[i]))
  }

  function ToUpper(s: string): (r: string)
    ensures |r| == |s|
    ensures forall i :: 0 <= i < |s| ==> r[i] == UpperChar(s[i])
  {
    seq(|s|, i requires 0 <= i < |s| => UpperChar(s[i]))
  }

  // ----- Order: unsigned bytes, lexicographic ---------------------------------

  predicate Less(a: string, b: string) {
    b != "" && (a == "" || a[0] < b[0] || (a[0] == b[0] && Less(a[1..], b[1..])))
  }

  lemma {:induction false} LessTotal(a: string, b: string)
    ensures Less(a, b) || a == b || Less(b, a)
    ensures !(Less(a, b) && Less(b, a)) && !Less(a, a)
    decreases |a| + |b|
  {
    if a != "" && b != "" && a[0] == b[0] {
      LessTotal(a[1..], b[1..]);
      assert a == [a[0]] + a[1..] && b == [b[0]] + b[1..];
    }
    if a != "" {
      LessIrreflexive(a);
    }
  }

  lemma {:induction false} LessIrreflexive(a: string)
    ensures !Less(a, a)
  {
    if a != "" {
      LessIrreflexive(a[1..]);
    }
  }

  lemma {:induction false} LessTransitive(a: string, b: string, c: string)
    requires Less(a, b) && Less(b, c)
    ensures Less(a, c)
    decreases |a|
  {
    if a != "" && a[0] == b[0] == c[0] {
      LessTransitive(a[1..], b[1..], c[1..]);
    }
  }

  /** Two strings that agree up to a position and differ there compare as they do there. */
  lemma {:induction false} LessAt(a: string, b: string, i: nat)
    requires i < |a| && i < |b| && a[..i] == b[..i] && a[i] < b[i]
    ensures Less(a, b)
    decreases i
  {
    if i > 0 {
      assert a[0] == a[..i][0] == b[0];
      assert a[1..][..i - 1] == a[..i][1..] == b[1..][..i - 1];
      LessAt(a[1..], b[1..], i - 1);
    }
  }

  // ----- Decimal numbers -----------------------------------------------------

  predicate IsDigit(c: char) {
    '0' <= c <= '9'
  }

  function DigitValue(c: char): nat
    requires IsDigit(c)
  {
    c as int - '0' as int
  }

  function DigitChar(d: nat): (c: char)
    requires d < 10
    ensures IsDigit(c) && DigitValue(c) == d
  {
    ('0' as int + d) as char
  }

  /** std::to_string of a number that is not negative. */
  function Decimal(n: nat): (s: string)
    ensures s != "" && forall i :: 0 <= i < |s| ==> IsDigit(s[i])
  {
    (if n < 10 then "" else Decimal(n / 10)) + [DigitChar(n % 10)]
  }

  function DigitsValue(s: string): nat
    requires forall i :: 0 <= i < |s| ==> IsDigit(s[i])
  {
    if s == "" then 0 else 10 * DigitsValue(s[..|s| - 1]) + DigitValue(s[|s| - 1])
  }

  lemma {:induction false} DecimalValue(n: nat)
    ensures DigitsValue(Decimal(n)) == n
  {
    var s := Decimal(n);
    if n >= 10 {
      DecimalValue(n / 10);
      assert s[..|s| - 1] == Decimal(n / 10);
    } else {
      assert s == [DigitChar(n)] && s[..0] == "";
    }
  }

  /** The run of digits a string starts with. */
  function LeadingDigits(s: string): (d: string)
    ensures forall i :: 0 <= i < |d| ==> IsDigit(d[i])
  {
    if s != "" && IsDigit(s[0]) then [s[0]] + LeadingDigits(s[1..]) else ""
  }

  lemma {:induction false} AllLeading(s: string)
    requires forall i :: 0 <= i < |s| ==> IsDigit(s[i])
    ensures LeadingDigits(s) == s
  {
    if s != "" {
      AllLeading(s[1..]);
      assert s == [s[0]] + s[1..];
    }
  }

  predicate IsSpace(c: char) {
    c == ' ' || 9 <= c as int <= 13
  }

  function SkipSpace(s: string): string {
    if s != "" && IsSpace(s[0]) then SkipSpace(s[1..]) else s
  }

  /** std::stoll: spaces, a sign, digits, and whatever follows ignored; None is an exception. */
  function Stoll(text: string): Option<int> {
    var s := SkipSpace(text);
    var signed := s != "" && (s[0] == '-' || s[0] == '+');
    var digits := LeadingDigits(if signed then s[1..] else s);
    var value := DigitsValue(digits) * (if signed && s[0] == '-' then -1 else 1);
    if digits == "" || !(-0x8000_0000_0000_0000 <= value < 0x8000_0000_0000_0000) then None
    else Some(value)
  }

  /** What to_string writes, stoll reads back. */
  lemma StollOfDecimal(n: nat)
    requires n < 0x8000_0000_0000_0000
    ensures Stoll(Decimal(n)) == Some(n)
  {
    var s := Decimal(n);
    assert IsDigit(s[0]);
    NoSpaceBefore(s);
    AllLeading(s);
    DecimalValue(n);
    hide Decimal, DigitsValue, LeadingDigits, SkipSpace, DigitValue;
  }

  lemma NoSpaceBefore(s: string)
    requires s != "" && IsDigit(s[0])
    ensures SkipSpace(s) == s && s[0] != '-' && s[0] != '+'
  {
  }
}
