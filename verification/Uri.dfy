/** Percent-encoding and query strings to the rules SigV4 uses. */
module Uri {
  import opened Option
  import opened Text

  // ----- Percent-encoding ----------------------------------------------------

  const HEX_DIGITS := "0123456789ABCDEF"

  predicate Unreserved(c: char) {
    || 'A' <= c <= 'Z' || 'a' <= c <= 'z' || '0' <= c <= '9'
    || c == '-' || c == '_' || c == '.' || c == '~'
  }

  function HexValue(c: char): int {
    if '0' <= c <= '9' then c as int - '0' as int
    else if 'a' <= c <= 'f' then c as int - 'a' as int + 10
    else if 'A' <= c <= 'F' then c as int - 'A' as int + 10
    else -1
  }

  function EncodeChar(c: char, encodeSlash: bool): string
    requires c as int < 256
  {
    if Unreserved(c) || (c == '/' && !encodeSlash) then [c]
    else ['%', HEX_DIGITS[c as int / 16], HEX_DIGITS[c as int % 16]]
  }

  function Encode(s: Bytes, encodeSlash: bool): string {
    if s == "" then "" else EncodeChar(s[0], encodeSlash) + Encode(s[1..], encodeSlash)
  }

  /** A '%' that two hex digits do not follow stands for itself. */
  function Decode(s: Bytes): (r: Bytes)
    ensures |r| <= |s|
  {
    if s == "" then ""
    else if s[0] != '%' || |s| < 3 || HexValue(s[1]) < 0 || HexValue(s[2]) < 0 then [s[0]] + Decode(s[1..])
    else [(16 * HexValue(s[1]) + HexValue(s[2])) as char] + Decode(s[3..])
  }

  /** What encoding produces: nothing that has a meaning in a query string. */
  predicate Inert(s: string) {
    forall i :: 0 <= i < |s| ==> Unreserved(s[i]) || s[i] == '%'
  }

  lemma InertChar(c: char)
    requires c as int < 256
    ensures Inert(EncodeChar(c, true)) && Octets(EncodeChar(c, true))
  {
  }

  lemma {:induction false} EncodedIsInert(s: Bytes)
    ensures Inert(Encode(s, true)) && Octets(Encode(s, true))
  {
    if s != "" {
      EncodedIsInert(s[1..]);
      InertChar(s[0]);
      var head, tail := EncodeChar(s[0], true), Encode(s[1..], true);
      assert Encode(s, true) == head + tail;
      hide Unreserved, Encode, EncodeChar;
    }
  }

  lemma DecodesFirst(c: char, tail: Bytes, encodeSlash: bool)
    requires c as int < 256
    ensures Octets(EncodeChar(c, encodeSlash) + tail)
    ensures Decode(EncodeChar(c, encodeSlash) + tail) == [c] + Decode(tail)
  {
    HexRoundTrip(c);
    var head := EncodeChar(c, encodeSlash);
    var all: Bytes := head + tail;
    assert all[|head|..] == tail;
    hide HexValue, Octets;
    if |head| == 1 {
      assert all[0] == c && c != '%';
    } else {
      assert all[0] == '%' && all[1] == HEX_DIGITS[c as int / 16] && all[2] == HEX_DIGITS[c as int % 16];
      assert 16 * (c as int / 16) + c as int % 16 == c as int;
    }
  }

  lemma {:induction false} DecodeInvertsEncode(s: Bytes, encodeSlash: bool)
    ensures Octets(Encode(s, encodeSlash)) && Decode(Encode(s, encodeSlash)) == s
  {
    if s != "" {
      DecodeInvertsEncode(s[1..], encodeSlash);
      DecodesFirst(s[0], Encode(s[1..], encodeSlash), encodeSlash);
      assert s == [s[0]] + s[1..];
    } else {
      EncodeNothing(encodeSlash);
    }
  }

  lemma HexRoundTrip(c: char)
    requires c as int < 256
    ensures HexValue(HEX_DIGITS[c as int / 16]) == c as int / 16
    ensures HexValue(HEX_DIGITS[c as int % 16]) == c as int % 16
  {
    HexDigitValue(c as int / 16);
    HexDigitValue(c as int % 16);
  }

  lemma HexDigitValue(d: nat)
    requires d < 16
    ensures HexValue(HEX_DIGITS[d]) == d
  {
  }

  /** Text that needs no encoding is its own encoding, and decodes to itself. */
  lemma {:induction false} PlainEncode(s: Bytes)
    requires forall i :: 0 <= i < |s| ==> Unreserved(s[i])
    ensures Encode(s, true) == s && Decode(s) == s
  {
    if s != "" {
      PlainEncode(s[1..]);
    }
  }

  const LOWER_DIGITS := "0123456789abcdef"

  /** An escape is read in either case. */
  lemma EscapeReads(high: nat, low: nat, a: char, b: char, tail: Bytes)
    requires high < 16 && low < 16
    requires a == HEX_DIGITS[high] || a == LOWER_DIGITS[high]
    requires b == HEX_DIGITS[low] || b == LOWER_DIGITS[low]
    ensures Octets(['%', a, b] + tail)
    ensures Decode(['%', a, b] + tail) == [(16 * high + low) as char] + Decode(tail)
  {
    HexEitherCase(high);
    HexEitherCase(low);
    var s: string := ['%', a, b] + tail;
    assert Octets(s) && s[3..] == tail;
    hide HexValue;
  }

  lemma HexEitherCase(d: nat)
    requires d < 16
    ensures HexValue(HEX_DIGITS[d]) == d && HexValue(LOWER_DIGITS[d]) == d
    ensures HEX_DIGITS[d] as int < 256 && LOWER_DIGITS[d] as int < 256
  {
  }

  predicate Unescaped(s: string) {
    forall i :: 0 <= i < |s| ==> !Escape(s[i..])
  }

  lemma UnescapedSplit(s: string)
    requires s != ""
    ensures Unescaped(s) <==> !Escape(s) && Unescaped(s[1..])
  {
    hide Escape;
    assert s[0..] == s;
    assert forall i :: 0 <= i < |s| - 1 ==> s[1..][i..] == s[i + 1..];
    if !Escape(s) && Unescaped(s[1..]) {
      forall i | 0 <= i < |s| ensures !Escape(s[i..]) {
        if i > 0 {
          assert s[1..][i - 1..] == s[i..];
        }
      }
    }
  }

  /** Text is its own decoding exactly when no escape is in it. */
  lemma {:induction false} DecodeIsItself(s: Bytes)
    ensures Decode(s) == s <==> Unescaped(s)
  {
    if s != "" {
      UnescapedSplit(s);
      hide Unescaped, HexValue;
      if Escape(s) {
        assert |Decode(s)| <= |s| - 2;
      } else {
        DecodeIsItself(s[1..]);
        assert Decode(s) == [s[0]] + Decode(s[1..]) && s == [s[0]] + s[1..];
        assert Decode(s)[1..] == Decode(s[1..]);
      }
    }
  }

  lemma EncodeFirst(s: Bytes, i: nat, encodeSlash: bool, out: string)
    requires i < |s|
    ensures out + Encode(s[i..], encodeSlash) == out + EncodeChar(s[i], encodeSlash) + Encode(s[i + 1..], encodeSlash)
  {
    assert s[i..][1..] == s[i + 1..];
    assert Encode(s[i..], encodeSlash) == EncodeChar(s[i], encodeSlash) + Encode(s[i + 1..], encodeSlash);
  }

  method UriEncode(s: Bytes, encodeSlash: bool) returns (out: string)
    ensures out == Encode(s, encodeSlash)
  {
    hide Encode;
    out := "";
    for i := 0 to |s|
      invariant out + Encode(s[i..], encodeSlash) == Encode(s, encodeSlash)
    {
      var c := s[i];
      EncodeFirst(s, i, encodeSlash, out);
      ghost var before := out;
      if Unreserved(c) || (c == '/' && !encodeSlash) {
        out := out + [c];
      } else {
        out := out + ['%'];
        out := out + [HEX_DIGITS[c as int / 16]];
        out := out + [HEX_DIGITS[c as int % 16]];
      }
      assert out == before + EncodeChar(c, encodeSlash);
    }
    assert Encode("", encodeSlash) == "" by {
      EncodeNothing(encodeSlash);
    }
  }

  lemma EncodeNothing(encodeSlash: bool)
    ensures Encode("", encodeSlash) == "" && Decode("") == ""
  {
  }

  /** Whether the text at hand starts with an escape. */
  predicate Escape(s: string) {
    |s| >= 3 && s[0] == '%' && HexValue(s[1]) >= 0 && HexValue(s[2]) >= 0
  }

  lemma DecodeFirst(s: Bytes, i: nat, out: string)
    requires i < |s|
    ensures !Escape(s[i..]) ==> out + Decode(s[i..]) == out + [s[i]] + Decode(s[i + 1..])
    ensures Escape(s[i..]) ==> 16 * HexValue(s[i + 1]) + HexValue(s[i + 2]) < 256
    ensures Escape(s[i..]) ==>
      out + Decode(s[i..]) == out + [(16 * HexValue(s[i + 1]) + HexValue(s[i + 2])) as char] + Decode(s[i + 3..])
  {
    var at := s[i..];
    assert at[1..] == s[i + 1..];
    if Escape(at) {
      assert at[3..] == s[i + 3..];
      var c := (16 * HexValue(at[1]) + HexValue(at[2])) as char;
      assert Decode(at) == [c] + Decode(s[i + 3..]);
    } else {
      assert Decode(at) == [at[0]] + Decode(s[i + 1..]);
    }
  }

  method UriDecode(s: Bytes) returns (out: string)
    ensures out == Decode(s)
  {
    hide Decode, HexValue;
    out := "";
    var i := 0;
    while i < |s|
      invariant i <= |s| && out + Decode(s[i..]) == Decode(s)
    {
      DecodeFirst(s, i, out);
      if s[i] != '%' || i + 2 >= |s| {
        out := out + [s[i]];
        i := i + 1;
        continue;
      }
      var hi, lo := HexValue(s[i + 1]), HexValue(s[i + 2]);
      if hi < 0 || lo < 0 {
        out := out + [s[i]];
        i := i + 1;
        continue;
      }
      out := out + [(16 * hi + lo) as char];
      i := i + 3;
    }
    assert s[i..] == "";
    EncodeNothing(true);
  }
}
