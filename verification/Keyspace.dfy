/** Row keys of the metadata store: a tag byte, components, separators, big-endian numbers. Rows sort
    as what they stand for, prefixes have exact bounds, and the decoders invert the encoders. */
module Keyspace {
  import opened Option
  import opened Text
  import opened Arithmetic

  const SEPARATOR: char := 0 as char
  const LAST: char := 255 as char

  predicate NulFree(s: string) {
    SEPARATOR !in s
  }

  // ----- Numbers -----------------------------------------------------------------

  function Power256(width: nat): (p: nat)
    ensures p > 0
  {
    if width == 0 then 1 else 256 * Power256(width - 1)
  }

  /** The lowest `width` bytes, most significant first. */
  function BigEndian(value: nat, width: nat): (s: Bytes)
    ensures |s| == width
  {
    if width == 0 then "" else BigEndian(value / 256, width - 1) + [(value % 256) as char]
  }

  function FromBigEndian(s: Bytes): nat {
    if s == "" then 0 else 256 * FromBigEndian(s[..|s| - 1]) + s[|s| - 1] as int
  }

  lemma {:induction false} NumberReads(value: nat, width: nat)
    requires value < Power256(width)
    ensures FromBigEndian(BigEndian(value, width)) == value
  {
    if width > 0 {
      NumberReads(value / 256, width - 1);
      var s := BigEndian(value, width);
      assert s[..|s| - 1] == BigEndian(value / 256, width - 1);
    }
  }

  lemma {:induction false} NumberWrites(s: Bytes)
    ensures FromBigEndian(s) < Power256(|s|) && BigEndian(FromBigEndian(s), |s|) == s
  {
    if s != "" {
      var most: Bytes := s[..|s| - 1];
      NumberWrites(most);
      assert s == most + [s[|s| - 1]];
    }
  }

  /** Same width: numeric order is byte order. */
  lemma {:induction false} NumbersSort(a: nat, b: nat, width: nat)
    requires a < b < Power256(width)
    ensures Less(BigEndian(a, width), BigEndian(b, width))
  {
    hide Less;
    var x, y := BigEndian(a / 256, width - 1), BigEndian(b / 256, width - 1);
    if a / 256 < b / 256 {
      NumbersSort(a / 256, b / 256, width - 1);
      LessExtends(x, y, [(a % 256) as char], [(b % 256) as char]);
    } else {
      LessAt(BigEndian(a, width), BigEndian(b, width), width - 1);
    }
  }

  // ----- Order of concatenations ---------------------------------------------------

  /** Strings of one length that differ decide, whatever follows. */
  lemma {:induction false} LessExtends(a: string, b: string, x: string, y: string)
    requires Less(a, b) && |a| == |b|
    ensures Less(a + x, b + y)
    decreases |a|
  {
    if a[0] == b[0] {
      assert (a + x)[1..] == a[1..] + x && (b + y)[1..] == b[1..] + y;
      LessExtends(a[1..], b[1..], x, y);
    }
  }

  /** A common prefix decides nothing. */
  lemma {:induction false} CommonPrefix(p: string, a: string, b: string)
    ensures Less(p + a, p + b) == Less(a, b)
  {
    if p == "" {
      assert p + a == a && p + b == b;
    } else {
      assert (p + a)[1..] == p[1..] + a && (p + b)[1..] == p[1..] + b;
      CommonPrefix(p[1..], a, b);
    }
  }

  /** The separator sorts below everything, so components compare one after the other. */
  lemma {:induction false} SeparatedOrder(a: string, b: string, x: string, y: string)
    requires NulFree(a) && NulFree(b)
    ensures Less(a + ([SEPARATOR] + x), b + ([SEPARATOR] + y)) == (Less(a, b) || (a == b && Less(x, y)))
    decreases |a|
  {
    var s, t := a + ([SEPARATOR] + x), b + ([SEPARATOR] + y);
    if a == "" || b == "" {
      assert a == "" ==> s[0] == SEPARATOR && s[1..] == x;
      assert b == "" ==> t[0] == SEPARATOR && t[1..] == y;
      assert a != "" ==> s[0] == a[0] && s[0] > SEPARATOR;
      assert b != "" ==> t[0] == b[0] && t[0] > SEPARATOR;
    } else {
      assert s[0] == a[0] && t[0] == b[0];
      assert s[1..] == a[1..] + ([SEPARATOR] + x) && t[1..] == b[1..] + ([SEPARATOR] + y);
      assert NulFree(a[1..]) && NulFree(b[1..]);
      SeparatedOrder(a[1..], b[1..], x, y);
      assert a == b <==> a[0] == b[0] && a[1..] == b[1..] by {
        assert a == [a[0]] + a[1..] && b == [b[0]] + b[1..];
      }
    }
  }

  /** What stands before the first separator is determined. */
  lemma SeparatorDecides(a: string, b: string, y: string)
    requires NulFree(a) && NulFree(b) && a + [SEPARATOR] <= b + ([SEPARATOR] + y)
    ensures a == b
  {
    var t := b + ([SEPARATOR] + y);
    var z := t[|a| + 1..];
    assert t == a + [SEPARATOR] + z && t == b + [SEPARATOR] + y;
    IndexOfAfter(a, SEPARATOR, z);
    IndexOfAfter(b, SEPARATOR, y);
  }

  // ----- Row keys --------------------------------------------------------------------

  function ObjectPrefix(bucket: string): string {
    "o" + bucket + [SEPARATOR]
  }

  function Object(bucket: string, key: string): string {
    ObjectPrefix(bucket) + key
  }

  function UploadPrefix(bucket: string): string {
    "u" + bucket + [SEPARATOR]
  }

  function UploadByKey(bucket: string, key: string, uploadId: string): string {
    UploadPrefix(bucket) + (key + ([SEPARATOR] + uploadId))
  }

  function PartPrefix(uploadId: Bytes): Bytes {
    "p" + uploadId + [SEPARATOR]
  }

  function Part(uploadId: Bytes, number: nat): Bytes {
    PartPrefix(uploadId) + BigEndian(number, 4)
  }

  function Audit(sequence: nat): Bytes {
    "A" + BigEndian(sequence, 8)
  }

  // ----- Decoders ----------------------------------------------------------------------

  function ObjectKey(stored: string, bucket: string): Option<string> {
    var prefix := ObjectPrefix(bucket);
    if prefix <= stored then Some(stored[|prefix|..]) else None
  }

  /** Where the last c is; the length when there is none. */
  function LastIndexOf(s: string, c: char): (i: nat)
    ensures i <= |s|
    ensures i < |s| ==> s[i] == c && forall k :: i < k < |s| ==> s[k] != c
    ensures i == |s| ==> c !in s
  {
    if s == "" then 0
    else if s[|s| - 1] == c then |s| - 1
    else
      var i := LastIndexOf(s[..|s| - 1], c);
      if i == |s| - 1 then |s| else i
  }

  function UploadKeyParts(stored: string, bucket: string): Option<(string, string)> {
    var prefix := UploadPrefix(bucket);
    if !(prefix <= stored) then None
    else
      var rest := stored[|prefix|..];
      var split := LastIndexOf(rest, SEPARATOR);
      if split == |rest| then None else Some((rest[..split], rest[split + 1..]))
  }

  function PartNumber(stored: Bytes, uploadId: Bytes): Option<nat> {
    var prefix := PartPrefix(uploadId);
    if !(prefix <= stored) || |stored| - |prefix| != 4 then None else Some(FromBigEndian(stored[|prefix|..]))
  }

  function AuditSequence(stored: Bytes): Option<nat> {
    if |stored| != 9 || stored[0] != 'A' then None else Some(FromBigEndian(stored[1..]))
  }

  /** Each decoder accepts exactly what its encoder writes, and gives it back. */
  lemma ObjectKeyExact(stored: string, bucket: string, key: string)
    ensures ObjectKey(stored, bucket) == Some(key) <==> stored == Object(bucket, key)
  {
  }

  lemma UploadKeyPartsExact(stored: string, bucket: string, key: string, uploadId: string)
    ensures UploadKeyParts(stored, bucket) == Some((key, uploadId)) <==>
            stored == UploadByKey(bucket, key, uploadId) && NulFree(uploadId)
  {
    if UploadKeyParts(stored, bucket) == Some((key, uploadId)) {
      UploadKeyPartsSplit(stored, bucket);
    }
    if stored == UploadByKey(bucket, key, uploadId) && NulFree(uploadId) {
      UploadKeyPartsRead(bucket, key, uploadId);
    }
  }

  lemma UploadKeyPartsSplit(stored: string, bucket: string)
    requires UploadKeyParts(stored, bucket).Some?
    ensures
      var parts := UploadKeyParts(stored, bucket).value;
      stored == UploadByKey(bucket, parts.0, parts.1) && NulFree(parts.1)
  {
    hide UploadPrefix, LastIndexOf;
    var prefix := UploadPrefix(bucket);
    var rest := stored[|prefix|..];
    assert stored == prefix + rest;
    var split := LastIndexOf(rest, SEPARATOR);
    assert rest == rest[..split] + ([rest[split]] + rest[split + 1..]);
  }

  lemma {:induction false} LastIndexIs(a: string, b: string, c: char)
    requires c !in b
    ensures LastIndexOf(a + ([c] + b), c) == |a|
    decreases |b|
  {
    var s := a + ([c] + b);
    if b != "" {
      assert s[..|s| - 1] == a + ([c] + b[..|b| - 1]);
      LastIndexIs(a, b[..|b| - 1], c);
      assert s[|s| - 1] == b[|b| - 1];
    }
  }

  lemma UploadKeyPartsRead(bucket: string, key: string, uploadId: string)
    requires NulFree(uploadId)
    ensures UploadKeyParts(UploadByKey(bucket, key, uploadId), bucket) == Some((key, uploadId))
  {
    var prefix, rest := UploadPrefix(bucket), key + ([SEPARATOR] + uploadId);
    LastIndexIs(key, uploadId, SEPARATOR);
    hide UploadPrefix, LastIndexOf;
    assert (prefix + rest)[|prefix|..] == rest && prefix <= prefix + rest;
    assert rest[..|key|] == key && rest[|key| + 1..] == uploadId;
  }

  lemma PartNumberExact(stored: Bytes, uploadId: Bytes, number: nat)
    ensures PartNumber(stored, uploadId) == Some(number) <==> number < 0x1_0000_0000 && stored == Part(uploadId, number)
  {
    var prefix := PartPrefix(uploadId);
    Powers();
    hide PartPrefix, BigEndian, FromBigEndian, Power256;
    if PartNumber(stored, uploadId) == Some(number) {
      NumberWrites(stored[|prefix|..]);
      assert stored == prefix + stored[|prefix|..];
    }
    if number < 0x1_0000_0000 && stored == Part(uploadId, number) {
      assert stored[|prefix|..] == BigEndian(number, 4);
      NumberReads(number, 4);
    }
  }

  lemma AuditSequenceExact(stored: Bytes, sequence: nat)
    ensures AuditSequence(stored) == Some(sequence) <==> sequence < 0x1_0000_0000_0000_0000 && stored == Audit(sequence)
  {
    Powers();
    hide BigEndian, FromBigEndian, Power256;
    if AuditSequence(stored) == Some(sequence) {
      NumberWrites(stored[1..]);
      assert stored == "A" + stored[1..];
    }
    if sequence < 0x1_0000_0000_0000_0000 && stored == Audit(sequence) {
      assert stored[1..] == BigEndian(sequence, 8);
      NumberReads(sequence, 8);
    }
  }

  lemma Powers()
    ensures Power256(4) == 0x1_0000_0000 && Power256(8) == 0x1_0000_0000_0000_0000
  {
    assert Power256(2) == 0x1_0000 && Power256(6) == 0x1_0000_0000_0000;
  }

  /** Another bucket's or upload's row is refused. */
  lemma OthersRefused(name: Bytes, other: Bytes, key: string, uploadId: string, number: nat)
    requires NulFree(name) && NulFree(other) && name != other
    ensures ObjectKey(Object(other, key), name) == None
    ensures UploadKeyParts(UploadByKey(other, key, uploadId), name) == None
    ensures PartNumber(Part(other, number), name) == None
  {
    hide BigEndian;
    RowIsForeign("o", name, other, key);
    RowIsForeign("u", name, other, key + ([SEPARATOR] + uploadId));
    RowIsForeign("p", name, other, BigEndian(number, 4));
  }

  lemma RowIsForeign(tag: string, name: string, other: string, rest: string)
    requires |tag| == 1 && NulFree(name) && NulFree(other) && name != other
    ensures !(tag + name + [SEPARATOR] <= tag + other + [SEPARATOR] + rest)
  {
    var p, s := tag + name + [SEPARATOR], tag + other + [SEPARATOR] + rest;
    if p <= s {
      assert p[1..] == name + [SEPARATOR] && s[1..] == other + ([SEPARATOR] + rest);
      SeparatorDecides(name, other, rest);
    }
  }

  // ----- Rows sort as what they stand for --------------------------------------------------

  lemma ObjectsSort(bucket: string, a: string, b: string)
    ensures Less(Object(bucket, a), Object(bucket, b)) <==> Less(a, b)
  {
    CommonPrefix(ObjectPrefix(bucket), a, b);
  }

  /** By key, then by upload id. */
  lemma UploadsSort(bucket: string, a: string, b: string, x: string, y: string)
    requires NulFree(a) && NulFree(b)
    ensures Less(UploadByKey(bucket, a, x), UploadByKey(bucket, b, y)) <==> Less(a, b) || (a == b && Less(x, y))
  {
    hide UploadPrefix, Less;
    CommonPrefix(UploadPrefix(bucket), a + ([SEPARATOR] + x), b + ([SEPARATOR] + y));
    SeparatedOrder(a, b, x, y);
  }

  lemma NumbersSortExactly(a: nat, b: nat, width: nat)
    requires a < Power256(width) && b < Power256(width)
    ensures Less(BigEndian(a, width), BigEndian(b, width)) <==> a < b
  {
    hide Less, BigEndian;
    LessTotal(BigEndian(a, width), BigEndian(b, width));
    LessTotal(BigEndian(a, width), BigEndian(a, width));
    if a < b {
      NumbersSort(a, b, width);
    } else if b < a {
      NumbersSort(b, a, width);
    }
  }

  lemma PartsSort(uploadId: Bytes, a: nat, b: nat)
    requires a < 0x1_0000_0000 && b < 0x1_0000_0000
    ensures Less(Part(uploadId, a), Part(uploadId, b)) <==> a < b
  {
    Powers();
    hide BigEndian, Less, Power256;
    NumbersSortExactly(a, b, 4);
    CommonPrefix(PartPrefix(uploadId), BigEndian(a, 4), BigEndian(b, 4));
  }

  lemma AuditSorts(a: nat, b: nat)
    requires a < 0x1_0000_0000_0000_0000 && b < 0x1_0000_0000_0000_0000
    ensures Less(Audit(a), Audit(b)) <==> a < b
  {
    Powers();
    hide BigEndian, Less, Power256;
    NumbersSortExactly(a, b, 8);
    CommonPrefix("A", BigEndian(a, 8), BigEndian(b, 8));
  }

  // ----- Prefix bounds -----------------------------------------------------------------------

  /** The least string above everything that starts with the prefix. */
  function Successor(prefix: Bytes): Option<Bytes> {
    if prefix == "" then None
    else
      match Successor(prefix[1..])
      case Some(above) => Some([prefix[0]] + above)
      case None => if prefix[0] == LAST then None else Some([(prefix[0] as int + 1) as char])
  }

  lemma {:induction false} SuccessorNone(prefix: Bytes)
    ensures Successor(prefix) == None <==> forall i :: 0 <= i < |prefix| ==> prefix[i] == LAST
  {
    if prefix != "" {
      SuccessorNone(prefix[1..]);
    }
  }

  /** Between a prefix and its bound lies exactly what starts with the prefix. */
  lemma {:induction false} BoundIsExact(prefix: Bytes, s: Bytes)
    ensures Successor(prefix).Some? ==> (prefix <= s <==> !Less(s, prefix) && Less(s, Successor(prefix).value))
    ensures Successor(prefix) == None ==> (prefix <= s <==> !Less(s, prefix))
  {
    if prefix == "" || s == "" {
    } else {
      BoundIsExact(prefix[1..], s[1..]);
      assert prefix <= s <==> prefix[0] == s[0] && prefix[1..] <= s[1..] by { PrefixUnfolds(prefix, s); }
      assert Less(s, prefix) == (s[0] < prefix[0] || (s[0] == prefix[0] && Less(s[1..], prefix[1..])));
      match Successor(prefix[1..])
      case Some(above) =>
        var bound := [prefix[0]] + above;
        assert bound[1..] == above;
      case None =>
        if prefix[0] != LAST {
          var bound := [(prefix[0] as int + 1) as char];
          assert Less(s, bound) <==> s[0] < bound[0] || (s[0] == bound[0] && Less(s[1..], ""));
        }
    }
  }

  lemma PrefixUnfolds(p: string, s: string)
    requires p != "" && s != ""
    ensures p <= s <==> p[0] == s[0] && p[1..] <= s[1..]
  {
    if p[0] == s[0] && p[1..] <= s[1..] {
      assert p == [p[0]] + p[1..] && s == [s[0]] + s[1..];
      assert forall i :: 0 <= i < |p| ==> p[i] == s[i] by {
        forall i | 0 < i < |p| ensures p[i] == s[i] {
          assert p[1..][i - 1] == s[1..][i - 1];
        }
      }
    }
    if p <= s {
      assert forall i :: 0 <= i < |p[1..]| ==> p[1..][i] == p[i + 1] == s[i + 1] == s[1..][i];
    }
  }

  lemma {:induction false} SuccessorOfLast(most: Bytes, c: char)
    requires c as int < 256
    ensures c != LAST ==> Successor(most + [c]) == Some(most + [(c as int + 1) as char])
    ensures c == LAST ==> Successor(most + [c]) == Successor(most)
  {
    var s: Bytes := most + [c];
    if most == "" {
      assert s == [c] && s[1..] == "";
      assert Successor("") == None;
      assert "" + [(c as int + 1) as char] == [(c as int + 1) as char];
    } else {
      assert s[1..] == most[1..] + [c] && s[0] == most[0];
      SuccessorOfLast(most[1..], c);
      assert [most[0]] + (most[1..] + [(c as int + 1) as char]) == most + [(c as int + 1) as char];
    }
  }

  /** The bound as it is computed: from the right, dropping the bytes that cannot be raised. */
  method UpperBound(prefix: Bytes) returns (bound: Option<Bytes>)
    ensures bound == Successor(prefix)
  {
    var out: Bytes := prefix;
    while out != ""
      invariant Successor(out) == Successor(prefix)
      decreases |out|
    {
      var last := out[|out| - 1];
      var most: Bytes := out[..|out| - 1];
      assert out == most + [last];
      SuccessorOfLast(most, last);
      if last != LAST {
        return Some(most + [(last as int + 1) as char]);
      }
      out := most;
    }
    bound := None;
  }

  /** The prefix of one bucket's objects holds that bucket's objects and no others. */
  lemma ObjectScanIsExact(bucket: Bytes, s: Bytes)
    requires NulFree(bucket)
    ensures
      var prefix: Bytes := ObjectPrefix(bucket);
      Successor(prefix).Some? && (!Less(s, prefix) && Less(s, Successor(prefix).value) <==> ObjectKey(s, bucket).Some?)
  {
    var prefix: Bytes := ObjectPrefix(bucket);
    assert prefix[0] == 'o';
    SuccessorNone(prefix);
    BoundIsExact(prefix, s);
  }

  method ParseAuditSequence(stored: Bytes) returns (sequence: Option<nat>)
    ensures sequence == AuditSequence(stored)
  {
    if |stored| != 9 || stored[0] != 'A' {
      return None;
    }
    var value: nat := 0;
    for i := 1 to 9
      invariant value == FromBigEndian(stored[1..i])
    {
      assert stored[1..i + 1][..i - 1] == stored[1..i];
      value := value * 256 + stored[i] as int;
    }
    assert stored[1..9] == stored[1..];
    sequence := Some(value);
  }

  /** The k-th byte from the left, as the shift and mask take it. */
  lemma {:induction false} BytesShifted(value: nat, width: nat, k: nat)
    requires k < width
    ensures BigEndian(value, width)[k] as int == value / Power256(width - 1 - k) % 256
    decreases width
  {
    if k < width - 1 {
      BytesShifted(value / 256, width - 1, k);
      DivideTwice(value, 256, Power256(width - 2 - k));
    } else {
      assert Power256(0) == 1;
    }
  }

  method AppendBigEndian64(out: string, value: nat) returns (appended: string)
    requires value < 0x1_0000_0000_0000_0000
    ensures appended == out + BigEndian(value, 8)
  {
    appended := out;
    for k := 0 to 8
      invariant appended == out + BigEndian(value, 8)[..k]
    {
      BytesShifted(value, 8, k);
      appended := appended + [(value / Power256(7 - k) % 256) as char];
    }
  }
}
