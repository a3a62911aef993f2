/** What a request must claim before its signature is looked at: a date of the calendar, a lifetime within
    bounds, and a known way of authenticating its body. */
module Claims {
  import opened Option
  import opened Text
  import opened Query
  import opened SigV4

  lemma PadLonger(width: nat, n: nat)
    ensures Pad(width + 1, n) == Pad(width, n / 10) + [DigitChar(n % 10)]
  {
  }

  /** Digits are the number they stand for, written with as many. */
  lemma {:induction false} DigitsPad(s: string)
    requires forall i :: 0 <= i < |s| ==> IsDigit(s[i])
    ensures Pad(|s|, DigitsValue(s)) == s
  {
    if s != "" {
      var most, last := s[..|s| - 1], s[|s| - 1];
      DigitsPad(most);
      PadLonger(|most|, DigitsValue(s));
      hide Pad, DigitsValue;
      LastDigit(s);
      assert s == most + [last];
    }
  }

  lemma LastDigit(s: string)
    requires s != "" && forall i :: 0 <= i < |s| ==> IsDigit(s[i])
    ensures DigitsValue(s) / 10 == DigitsValue(s[..|s| - 1]) && DigitChar(DigitsValue(s) % 10) == s[|s| - 1]
  {
  }

  lemma DigitsArePadded(s: string)
    requires Digits(s).Some?
    ensures Pad(|s|, Digits(s).value) == s
  {
    DigitsPad(s);
  }

  function NumberIn(s: string): nat {
    if Digits(s).Some? then Digits(s).value else 0
  }

  /** The fields of a text in the form of a date. */
  function DayOf(text: string): Civil
    requires |text| == 16
  {
    Civil(NumberIn(text[..4]), NumberIn(text[4..6]), NumberIn(text[6..8]), NumberIn(text[9..11]),
          NumberIn(text[11..13]), NumberIn(text[13..15]))
  }

  /** A text in the form of a date: digits with a T between and a Z behind. */
  predicate DateForm(text: string) {
    && |text| == 16 && text[8] == 'T' && text[15] == 'Z'
    && forall i :: 0 <= i < 15 && i != 8 ==> IsDigit(text[i])
  }

  lemma ParsedForm(prim: Primitives, text: string)
    requires ParseAmzDate(prim, text).Some?
    ensures DateForm(text)
    ensures Digits(text[..4]).Some? && Digits(text[4..6]).Some? && Digits(text[6..8]).Some?
    ensures Digits(text[9..11]).Some? && Digits(text[11..13]).Some? && Digits(text[13..15]).Some?
    ensures
      var (stamp, back) := prim.timegm(DayOf(text));
      && ParseAmzDate(prim, text) == Some(stamp) && stamp != -1
      && back.year == DayOf(text).year && back.month == DayOf(text).month && back.day == DayOf(text).day
  {
    forall i | 0 <= i < 15 && i != 8 ensures IsDigit(text[i]) {
      if i < 4 {
        assert text[..4][i] == text[i];
      } else if i < 6 {
        assert text[4..6][i - 4] == text[i];
      } else if i < 8 {
        assert text[6..8][i - 6] == text[i];
      } else if i < 11 {
        assert text[9..11][i - 9] == text[i];
      } else if i < 13 {
        assert text[11..13][i - 11] == text[i];
      } else {
        assert text[13..15][i - 13] == text[i];
      }
    }
  }

  /** A date that is accepted is one of the calendar: where timegm normalises its fields to what gmtime
      answers, the instant it gives is on the very day the text names. */
  lemma AcceptedDateIsReal(prim: Primitives, text: string)
    requires ParseAmzDate(prim, text).Some?
    requires |text| == 16 && prim.gmtime(ParseAmzDate(prim, text).value) == prim.timegm(DayOf(text)).1
    ensures DateForm(text) && FormatAmzDate(prim, ParseAmzDate(prim, text).value)[..8] == text[..8]
  {
    ParsedForm(prim, text);
    var at := ParseAmzDate(prim, text).value;
    hide Pad, Digits, ParseAmzDate, FormatAmzDate;
    DateParts(prim, at);
    DigitsArePadded(text[..4]);
    DigitsArePadded(text[4..6]);
    DigitsArePadded(text[6..8]);
    var t := FormatAmzDate(prim, at);
    assert t[..8] == t[..4] + t[4..6] + t[6..8] && text[..8] == text[..4] + text[4..6] + text[6..8];
  }

  /** An accepted URL names the one algorithm and lives no longer than a week. */
  lemma AcceptedIsBounded(prim: Primitives, request: SigningRequest, query: seq<QueryParam>,
                          resolve: string -> Option<string>, options: AuthOptions)
    requires
      var outcome := Authenticate(prim, request, query, resolve, options);
      outcome.Ok? && outcome.value.presigned
    ensures FindParam(query, "X-Amz-Algorithm") == Some("AWS4-HMAC-SHA256") && 1 <= ExpiresOf(query) <= 7 * 24 * 60 * 60
    ensures FindParam(query, "X-Amz-Signature").Some?
  {
    hide FindParam, ParseAmzDate, ExpiresOf, ParseAuthorization, PayloadModeFor, HeaderOf, ParseCredential,
      SplitSignedHeaders, DeriveSigningKey, RequestSignature, BuildCanonicalRequest, ToLower;
  }

  /** A header-signed request says how its body is authenticated: by one of the markers or by a digest of 64
      hex digits, which the body is then held to. */
  lemma PayloadIsDeclared(content: string)
    ensures
      match PayloadModeFor(content)
      case Ok((mode, digest)) =>
        (match mode
         case Unsigned => content == "UNSIGNED-PAYLOAD" && digest == ""
         case StreamingSigned =>
           && content in {"STREAMING-AWS4-HMAC-SHA256-PAYLOAD", "STREAMING-AWS4-HMAC-SHA256-PAYLOAD-TRAILER"}
           && digest == ""
         case StreamingUnsigned => content == "STREAMING-UNSIGNED-PAYLOAD-TRAILER" && digest == ""
         case Signed => |content| == 64 && AllHex(content) && digest == ToLower(content))
      case Err(_) => !(|content| == 64 && AllHex(content)) && content != "UNSIGNED-PAYLOAD"
  {
    assert |content| == 64 && AllHex(content) ==> content != "UNSIGNED-PAYLOAD";
  }

  predicate AllHex(s: string) {
    forall i :: 0 <= i < |s| ==> IsHexDigit(s[i])
  }

  /** The first header under a name counts, and one that is not there reads as empty. */
  lemma {:induction false} FirstHeaderCounts(headers: seq<(string, string)>, i: nat, name: string)
    requires i <= |headers| && forall k :: 0 <= k < i ==> headers[k].0 != name
    ensures HeaderOf(headers, name) == HeaderOf(headers[i..], name)
    ensures i < |headers| && headers[i].0 == name ==> HeaderOf(headers, name) == headers[i].1
    ensures i == |headers| ==> HeaderOf(headers, name) == "" && !HasHeader(headers, name)
    decreases i
  {
    if i > 0 {
      assert headers[0].0 != name;
      FirstHeaderCounts(headers[1..], i - 1, name);
      assert headers[1..][i - 1..] == headers[i..];
    } else {
      assert headers[0..] == headers;
    }
  }
}
