/** References in XML text: the parser resolves exactly those the grammar has, to what they stand for. */
module XmlReferences {
  import opened Option
  import opened Text
  import opened Xml
  import opened XmlGrammar

  const LAST_CODE: nat := 0x10_FFFF

  function Base(hex: bool): nat {
    if hex then 16 else 10
  }

  lemma DigitIsWorth(c: char, hex: bool)
    ensures RefDigit(c, hex) == if Worth(c, Base(hex)) < Base(hex) then Worth(c, Base(hex)) else -1
    ensures Worth(c, Base(hex)) < Base(hex) ==> c != ';' && c != '#'
    ensures !hex && Worth(c, 10) < 10 ==> c != 'x' && c != 'X'
  {
  }

  lemma {:induction false} NumberGrows(s: string, base: nat, i: nat)
    requires i <= |s| && base >= 1
    ensures Number(s[..i], base) <= Number(s, base)
    decreases |s|
  {
    if i < |s| {
      var front := s[..|s| - 1];
      NumberGrows(front, base, i);
      assert front[..i] == s[..i];
      assert base * Number(front, base) >= Number(front, base) by {
        Product(base, Number(front, base));
      }
    } else {
      assert s[..i] == s;
    }
  }

  lemma Product(a: nat, b: nat)
    requires a >= 1
    ensures a * b >= b
  {
    assert a * b == (a - 1) * b + b;
  }

  lemma NumberStep(s: string, base: nat, i: nat)
    requires i < |s|
    ensures Number(s[..i + 1], base) == base * Number(s[..i], base) + Worth(s[i], base)
  {
    assert s[..i + 1][..i] == s[..i];
  }

  predicate Digits(s: string, base: nat) {
    forall i :: 0 <= i < |s| ==> Worth(s[i], base) < base
  }

  /** The loop over the digits computes the number and gives up when it grows too large. */
  lemma {:induction false} CodeRuns(s: string, hex: bool, i: nat)
    requires i <= |s| && Digits(s[..i], Base(hex)) && Number(s[..i], Base(hex)) <= LAST_CODE
    ensures
      var n := Number(s, Base(hex));
      RefCode(s[i..], hex, Number(s[..i], Base(hex)))
        == if Digits(s, Base(hex)) && n <= LAST_CODE then Some(n) else None
    decreases |s| - i
  {
    hide Number, Worth, RefDigit;
    var base := Base(hex);
    if i == |s| {
      assert s[..i] == s && s[i..] == "";
    } else {
      DigitIsWorth(s[i], hex);
      assert s[i..][1..] == s[i + 1..] && s[i..][0] == s[i];
      if RefDigit(s[i], hex) >= 0 {
        NumberStep(s, base, i);
        NumberGrows(s, base, i + 1);
        var next := Number(s[..i + 1], base);
        assert Number(s[..i], base) * base == base * Number(s[..i], base);
        if next <= LAST_CODE {
          CodeRuns(s, hex, i + 1);
        }
      }
    }
  }

  lemma CodeIsNumber(s: string, hex: bool)
    ensures RefCode(s, hex, 0) == if Digits(s, Base(hex)) && Number(s, Base(hex)) <= LAST_CODE
                                  then Some(Number(s, Base(hex))) else None
  {
    assert s[..0] == "" && s[0..] == s && Number("", Base(hex)) == 0;
    hide Number, RefCode;
    CodeRuns(s, hex, 0);
  }

  /** The bytes written for a code point are its UTF-8 form and no others are. */
  lemma Utf8IsItsForm(code: nat, s: string)
    requires code <= LAST_CODE
    ensures s == Utf8(code) <==> Utf8Of(s, code)
  {
    FormIsWritten(code);
    if Utf8Of(s, code) {
      FormIsOne(code, s);
    }
  }

  lemma FormIsOne(code: nat, s: string)
    requires Utf8Of(s, code)
    ensures code <= LAST_CODE && s == Utf8(code)
  {
    if |s| == 1 {
      assert s == [s[0]];
    } else if |s| == 2 {
      assert s == [s[0], s[1]];
    } else if |s| == 3 {
      ThreeBytes(code, s);
    } else {
      FourBytes(code, s);
    }
  }

  lemma ThreeBytes(code: nat, s: string)
    requires |s| == 3 && Utf8Of(s, code)
    ensures s == Utf8(code)
  {
    assert s == [s[0], s[1], s[2]];
    ThreeDigits(s[0] as int - 0xE0, s[1] as int - 0x80, s[2] as int - 0x80);
  }

  lemma FourBytes(code: nat, s: string)
    requires |s| == 4 && Utf8Of(s, code)
    ensures code <= LAST_CODE && s == Utf8(code)
  {
    assert s == [s[0], s[1], s[2], s[3]];
    FourDigits(s[0] as int - 0xF0, s[1] as int - 0x80, s[2] as int - 0x80, s[3] as int - 0x80);
  }

  lemma ThreeDigits(a: nat, b: nat, c: nat)
    requires b < 64 && c < 64
    ensures var n := 4096 * a + 64 * b + c; n / 4096 == a && n / 64 % 64 == b && n % 64 == c
  {
    var n := 4096 * a + 64 * b + c;
    assert n / 64 == 64 * a + b;
  }

  lemma FourDigits(a: nat, b: nat, c: nat, d: nat)
    requires b < 64 && c < 64 && d < 64
    ensures
      var n := 262144 * a + 4096 * b + 64 * c + d;
      n / 262144 == a && n / 4096 % 64 == b && n / 64 % 64 == c && n % 64 == d
  {
    var n := 262144 * a + 4096 * b + 64 * c + d;
    ThreeDigits(64 * a + b, c, d);
    assert n == 4096 * (64 * a + b) + 64 * c + d;
  }

  lemma FormIsWritten(code: nat)
    requires code <= LAST_CODE
    ensures Utf8Of(Utf8(code), code)
  {
    assert code == 64 * (code / 64) + code % 64;
    assert code / 64 == 64 * (code / 4096) + code / 64 % 64 by {
      assert code / 4096 == code / 64 / 64;
    }
    assert code / 4096 == 64 * (code / 262144) + code / 4096 % 64 by {
      assert code / 262144 == code / 4096 / 64;
    }
  }

  lemma NumeralIs(s: string, base: nat)
    ensures Numeral(s, base) <==> s != "" && Digits(s, base)
  {
  }

  lemma NamedReferences(name: string)
    requires name in {"lt", "gt", "amp", "quot", "apos"}
    ensures name[0] != '#' && ';' !in name && |name| <= 4
  {
  }

  /** A reference is resolved exactly when it stands for something, and to that. */
  lemma ReferenceIsResolved(name: string, text: string)
    ensures Reference(name) == Some(text) <==> StandsFor(name, text)
  {
    if name in {"lt", "gt", "amp", "quot", "apos"} {
      NamedReferences(name);
    } else if |name| > 1 && name[0] == '#' {
      NumberResolved(name, text);
    }
  }

  lemma NumberResolved(name: string, text: string)
    requires |name| > 1 && name[0] == '#'
    ensures Reference(name) == Some(text) <==> StandsFor(name, text)
  {
    var hex := name[1] == 'x' || name[1] == 'X';
    var digits := name[if hex then 2 else 1..];
    DigitIsWorth(name[1], false);
    NumeralIs(name[1..], 10);
    NumeralIs(digits, Base(hex));
    CodeIsNumber(digits, hex);
    assert hex ==> name[1..][0] == name[1];
    assert "lt"[0] == 'l' && "gt"[0] == 'g' && "amp"[0] == 'a' && "quot"[0] == 'q' && "apos"[0] == 'a';
    hide RefCode, Number, Worth, Utf8, Utf8Of;
    if digits != "" && Digits(digits, Base(hex)) && Number(digits, Base(hex)) <= LAST_CODE {
      Utf8IsItsForm(Number(digits, Base(hex)), text);
    } else if digits != "" && Digits(digits, Base(hex)) {
      TooLarge(text, Number(digits, Base(hex)));
    }
  }

  lemma TooLarge(text: string, code: nat)
    requires code > LAST_CODE
    ensures !Utf8Of(text, code)
  {
  }

  lemma NoSemicolon(name: string, text: string)
    requires StandsFor(name, text)
    ensures ';' !in name
  {
    forall i | 0 <= i < |name| ensures name[i] != ';' {
      if name in {"lt", "gt", "amp", "quot", "apos"} {
        NamedReferences(name);
        assert name[i] in name;
      } else if i > 0 {
        if Numeral(name[1..], 10) {
          DigitIsWorth(name[1..][i - 1], false);
        } else if i > 1 {
          DigitIsWorth(name[2..][i - 2], true);
        }
      }
    }
  }

  lemma EntityReads(name: string, text: string, rest: string)
    requires |name| <= 11 && StandsFor(name, text)
    ensures Entity("&" + (name + (";" + rest))) == Some((text, rest))
  {
    NoSemicolon(name, text);
    ReferenceIsResolved(name, text);
    hide Reference, StandsFor;
    var s := "&" + (name + (";" + rest));
    var end := |name| + 1;
    assert s[end] == ';' && forall k :: 0 < k < end ==> s[k] == name[k - 1];
    IndexOfIs(s, ';', end);
    assert s[1..end] == name && s[end + 1..] == rest;
  }

  lemma EntityFound(s: string) returns (name: string)
    requires s != "" && s[0] == '&' && Entity(s).Some?
    ensures
      var (text, rest) := Entity(s).value;
      |name| <= 11 && StandsFor(name, text) && s == "&" + (name + (";" + rest))
  {
    hide Reference, StandsFor;
    var end := IndexOf(s, ';');
    name := s[1..end];
    ReferenceIsResolved(name, Entity(s).value.0);
    assert s == [s[0]] + (s[1..end] + ([s[end]] + s[end + 1..]));
  }
}
