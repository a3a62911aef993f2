/** All the rows of the metadata store together: each key stands for one row, whatever kind it is of, and a
    scan meets the rows it is for and no others. */
module RowKeys {
  import opened Option
  import opened Text
  import opened Keyspace

  datatype Row =
    | BucketRow(name: Bytes)
    | ObjectRow(bucket: Bytes, key: Bytes)
    | UploadRow(bucket: Bytes, key: Bytes, uploadId: Bytes)
    | UploadIdRow(uploadId: Bytes)
    | PartRow(uploadId: Bytes, number: nat)
    | OrphanRow(blobId: Bytes)
    | MetaRow(name: Bytes)
    | AccessKeyRow(id: Bytes)
    | UserRow(name: Bytes)
    | AuditRow(sequence: nat)

  /** Names and upload ids hold no NUL, and numbers fit their width; a key may hold anything. */
  predicate Proper(r: Row) {
    match r
    case ObjectRow(bucket, _) => NulFree(bucket)
    case UploadRow(bucket, _, uploadId) => NulFree(bucket) && NulFree(uploadId)
    case PartRow(uploadId, number) => NulFree(uploadId) && number < 0x1_0000_0000
    case AuditRow(sequence) => sequence < 0x1_0000_0000_0000_0000
    case _ => true
  }

  function Tag(r: Row): (tag: string)
    ensures |tag| == 1
  {
    match r
    case BucketRow(_) => "b"
    case ObjectRow(_, _) => "o"
    case UploadRow(_, _, _) => "u"
    case UploadIdRow(_) => "U"
    case PartRow(_, _) => "p"
    case OrphanRow(_) => "x"
    case MetaRow(_) => "m"
    case AccessKeyRow(_) => "k"
    case UserRow(_) => "a"
    case AuditRow(_) => "A"
  }

  function KeyText(r: Row): string {
    match r
    case BucketRow(name) => "b" + name
    case ObjectRow(bucket, key) => Object(bucket, key)
    case UploadRow(bucket, key, uploadId) => UploadByKey(bucket, key, uploadId)
    case UploadIdRow(uploadId) => "U" + uploadId
    case PartRow(uploadId, number) => Part(uploadId, number)
    case OrphanRow(blobId) => "x" + blobId
    case MetaRow(name) => "m" + name
    case AccessKeyRow(id) => "k" + id
    case UserRow(name) => "a" + name
    case AuditRow(sequence) => Audit(sequence)
  }

  lemma TagLeads(r: Row)
    ensures Tag(r) <= KeyText(r)
  {
    hide BigEndian;
  }

  lemma TagsApart(r: Row, s: Row)
    requires KeyText(r) == KeyText(s)
    ensures Tag(r) == Tag(s)
  {
    hide KeyText, Tag;
    TagLeads(r);
    TagLeads(s);
    assert Tag(r) == KeyText(r)[..1] && Tag(s) == KeyText(s)[..1];
  }

  /** The kinds are told apart by their tags. */
  lemma TagIsKind(r: Row, s: Row)
    requires Tag(r) == Tag(s)
    ensures
      match r
      case BucketRow(_) => s.BucketRow?
      case ObjectRow(_, _) => s.ObjectRow?
      case UploadRow(_, _, _) => s.UploadRow?
      case UploadIdRow(_) => s.UploadIdRow?
      case PartRow(_, _) => s.PartRow?
      case OrphanRow(_) => s.OrphanRow?
      case MetaRow(_) => s.MetaRow?
      case AccessKeyRow(_) => s.AccessKeyRow?
      case UserRow(_) => s.UserRow?
      case AuditRow(_) => s.AuditRow?
  {
    assert Tag(r)[0] == Tag(s)[0];
  }

  lemma Behind(tag: string, a: string, b: string)
    requires tag + a == tag + b
    ensures a == b
  {
    assert (tag + a)[|tag|..] == a && (tag + b)[|tag|..] == b;
  }

  lemma ObjectRowsApart(r: Row, s: Row)
    requires r.ObjectRow? && s.ObjectRow? && Proper(r) && Proper(s) && KeyText(r) == KeyText(s)
    ensures r == s
  {
    hide Object, ObjectKey;
    ObjectKeyExact(KeyText(r), r.bucket, r.key);
    ObjectKeyExact(KeyText(s), s.bucket, s.key);
    ObjectKeyExact(KeyText(s), r.bucket, r.key);
    if r.bucket != s.bucket {
      OthersRefused(r.bucket, s.bucket, s.key, "", 0);
    }
  }

  lemma UploadRowsApart(r: Row, s: Row)
    requires r.UploadRow? && s.UploadRow? && Proper(r) && Proper(s) && KeyText(r) == KeyText(s)
    ensures r == s
  {
    hide UploadByKey, UploadKeyParts;
    UploadKeyPartsExact(KeyText(r), r.bucket, r.key, r.uploadId);
    UploadKeyPartsExact(KeyText(r), r.bucket, s.key, s.uploadId);
    if r.bucket != s.bucket {
      OthersRefused(r.bucket, s.bucket, s.key, s.uploadId, 0);
    }
  }

  lemma PartRowsApart(r: Row, s: Row)
    requires r.PartRow? && s.PartRow? && Proper(r) && Proper(s) && KeyText(r) == KeyText(s)
    ensures r == s
  {
    hide Part, PartNumber;
    PartNumberExact(Part(r.uploadId, r.number), r.uploadId, r.number);
    PartNumberExact(Part(s.uploadId, s.number), r.uploadId, s.number);
    if r.uploadId != s.uploadId {
      OthersRefused(r.uploadId, s.uploadId, "", "", s.number);
    }
  }

  lemma AuditRowsApart(r: Row, s: Row)
    requires r.AuditRow? && s.AuditRow? && Proper(r) && Proper(s) && KeyText(r) == KeyText(s)
    ensures r == s
  {
    hide Audit, AuditSequence;
    AuditSequenceExact(Audit(r.sequence), r.sequence);
    AuditSequenceExact(Audit(s.sequence), s.sequence);
  }

  /** No two rows share a key, of whatever kinds they are. */
  lemma KeysApart(r: Row, s: Row)
    requires Proper(r) && Proper(s)
    ensures KeyText(r) == KeyText(s) <==> r == s
  {
    if KeyText(r) == KeyText(s) {
      TagsApart(r, s);
      TagIsKind(r, s);
      hide Object, UploadByKey, Part, Audit, Proper, Tag;
      match r
      case BucketRow(name) => Behind("b", name, s.name);
      case ObjectRow(_, _) => ObjectRowsApart(r, s);
      case UploadRow(_, _, _) => UploadRowsApart(r, s);
      case UploadIdRow(uploadId) => Behind("U", uploadId, s.uploadId);
      case PartRow(_, _) => PartRowsApart(r, s);
      case OrphanRow(blobId) => Behind("x", blobId, s.blobId);
      case MetaRow(name) => Behind("m", name, s.name);
      case AccessKeyRow(id) => Behind("k", id, s.id);
      case UserRow(name) => Behind("a", name, s.name);
      case AuditRow(_) => AuditRowsApart(r, s);
    }
  }

  // ----- Scans ---------------------------------------------------------------------------------

  /** What the store scans: a whole kind, or one bucket's objects or uploads, or one upload's parts. */
  datatype Scan =
    | Kind(tag: char)
    | ObjectsOf(bucket: Bytes)
    | UploadsOf(bucket: Bytes)
    | PartsOf(uploadId: Bytes)

  predicate ProperScan(c: Scan) {
    match c
    case Kind(tag) => tag as int < 255
    case ObjectsOf(bucket) => NulFree(bucket)
    case UploadsOf(bucket) => NulFree(bucket)
    case PartsOf(uploadId) => NulFree(uploadId)
  }

  function Prefix(c: Scan): string {
    match c
    case Kind(tag) => [tag]
    case ObjectsOf(bucket) => ObjectPrefix(bucket)
    case UploadsOf(bucket) => UploadPrefix(bucket)
    case PartsOf(uploadId) => PartPrefix(uploadId)
  }

  /** The rows a scan is for. */
  predicate Wanted(c: Scan, r: Row) {
    match c
    case Kind(tag) => Tag(r) == [tag]
    case ObjectsOf(bucket) => r.ObjectRow? && r.bucket == bucket
    case UploadsOf(bucket) => r.UploadRow? && r.bucket == bucket
    case PartsOf(uploadId) => r.PartRow? && r.uploadId == uploadId
  }

  lemma KindMeets(tag: char, r: Row)
    ensures [tag] <= KeyText(r) <==> Tag(r) == [tag]
  {
    hide KeyText, Tag;
    TagLeads(r);
    assert Tag(r) == KeyText(r)[..1];
  }

  lemma TaggedPrefix(tag: char, name: string, r: Row)
    requires [tag] + name + [SEPARATOR] <= KeyText(r)
    ensures Tag(r) == [tag]
  {
    hide KeyText, Tag;
    KindMeets(tag, r);
    assert ([tag] + name + [SEPARATOR])[0] == tag;
  }

  /** A prefix is met by the rows it is for, and by those alone. */
  lemma PrefixMeets(c: Scan, r: Row)
    requires ProperScan(c) && Proper(r)
    ensures Prefix(c) <= KeyText(r) <==> Wanted(c, r)
  {
    hide BigEndian;
    match c
    case Kind(tag) => KindMeets(tag, r);
    case ObjectsOf(bucket) =>
      if Prefix(c) <= KeyText(r) {
        TaggedPrefix('o', bucket, r);
        TagIsKind(r, ObjectRow(bucket, ""));
        if r.bucket != bucket {
          RowIsForeign("o", bucket, r.bucket, r.key);
        }
      }
    case UploadsOf(bucket) =>
      if Prefix(c) <= KeyText(r) {
        TaggedPrefix('u', bucket, r);
        TagIsKind(r, UploadRow(bucket, "", ""));
        if r.bucket != bucket {
          RowIsForeign("u", bucket, r.bucket, r.key + ([SEPARATOR] + r.uploadId));
        }
      }
    case PartsOf(uploadId) =>
      if Prefix(c) <= KeyText(r) {
        TaggedPrefix('p', uploadId, r);
        TagIsKind(r, PartRow(uploadId, 0));
        if r.uploadId != uploadId {
          RowIsForeign("p", uploadId, r.uploadId, BigEndian(r.number, 4));
        }
      }
  }

  lemma KeyOctets(r: Row)
    ensures Octets(KeyText(r))
  {
    hide BigEndian;
  }

  /** A scan from a prefix up to its bound meets exactly the rows it is for. */
  lemma ScanIsExact(c: Scan, r: Row)
    requires ProperScan(c) && Proper(r)
    ensures Octets(Prefix(c)) && Octets(KeyText(r)) && Successor(Prefix(c)).Some?
    ensures !Less(KeyText(r), Prefix(c)) && Less(KeyText(r), Successor(Prefix(c)).value) <==> Wanted(c, r)
  {
    hide Successor, Less, KeyText, Wanted;
    KeyOctets(r);
    PrefixMeets(c, r);
    var prefix: Bytes := Prefix(c);
    assert prefix != "" && prefix[0] != LAST;
    SuccessorNone(prefix);
    BoundIsExact(prefix, KeyText(r));
  }
}
