/** The aws-chunked body decoder: length-prefixed frames, a signature chained from each frame to the
    next, and a block of trailing headers. */
module Chunked {
  import opened Option
  import opened Text
  import U = Uri
  import S = SigV4

  const MAX_CHUNK_BYTES: nat := 5 * 1024 * 1024 * 1024
  const MAX_CHUNKS: nat := 4_000_000
  const MAX_LINE: nat := 1024
  const MAX_TRAILERS: nat := 32
  const EXTENSION: string := "chunk-signature="
  const TRAILER_SIGNATURE: string := "x-amz-trailer-signature"
  const EMPTY_SHA256: string :=
    "e3b0c44298fc1c14" + "9afbf4c8996fb924" + "27ae41e4649b934c" + "a495991b7852b855"

  datatype Error = IncompleteBody | SignatureDoesNotMatch

  datatype Options = Options(
    verifySignatures: bool,
    prim: S.Primitives,
    signingKey: string,
    amzDate: string,
    scope: string,
    seedSignature: string,
    expectTrailerSignature: bool,
    declaredLength: nat)

  function ChunkToSign(o: Options, previous: string, payload: string): string {
    "AWS4-HMAC-SHA256-PAYLOAD" + "\n" + o.amzDate + "\n" + o.scope + "\n" + previous + "\n" + EMPTY_SHA256 + "\n"
      + o.prim.sha256Hex(payload)
  }

  function ChunkSignature(o: Options, previous: string, payload: string): (s: string)
    ensures ToLower(s) == s
  {
    S.Sign(o.prim, o.signingKey, ChunkToSign(o, previous, payload))
  }

  function TrailerToSign(o: Options, previous: string, canonical: string): string {
    "AWS4-HMAC-SHA256-TRAILER" + "\n" + o.amzDate + "\n" + o.scope + "\n" + previous + "\n"
      + o.prim.sha256Hex(canonical)
  }

  function TrailerSignature(o: Options, previous: string, canonical: string): (s: string)
    ensures ToLower(s) == s
  {
    S.Sign(o.prim, o.signingKey, TrailerToSign(o, previous, canonical))
  }

  // ----- Lines and headers -----------------------------------------------------

  /** Up to the next CRLF, which must not be far; and what follows it. */
  function TakeLine(body: string): (r: Option<(string, string)>)
    ensures r.Some? ==> |r.value.0| + 2 + |r.value.1| == |body|
  {
    match FindText(body, "\r\n")
    case None => None
    case Some(end) => if end > MAX_LINE then None else Some((body[..end], body[end + 2..]))
  }

  function HexNumber(s: string): Option<nat> {
    if s == "" then Some(0)
    else
      var last := U.HexValue(s[|s| - 1]);
      match HexNumber(s[..|s| - 1])
      case None => None
      case Some(high) => if last < 0 then None else Some(16 * high + last)
  }

  function ParseHexSize(s: string): Option<nat> {
    if s == "" || |s| > 16 then None
    else
      match HexNumber(s)
      case None => None
      case Some(n) => if n > MAX_CHUNK_BYTES then None else Some(n)
  }

  datatype Head = Head(size: string, field: string)

  /** `<size>` or `<size>;chunk-signature=<hex>`, and no other extension. */
  function ParseHeader(line: string): Option<Head> {
    var semicolon := IndexOf(line, ';');
    if semicolon == |line| then Some(Head(line, ""))
    else
      var extension := line[semicolon + 1..];
      if EXTENSION <= extension then Some(Head(line[..semicolon], extension[|EXTENSION|..])) else None
  }

  // ----- Chunks ----------------------------------------------------------------

  /** A chunk's payload, the body behind it, and the signature the next chunk chains from. */
  datatype Taken = Taken(payload: string, rest: string, signature: string)

  function NextSignature(o: Options, previous: string, payload: string): string {
    if o.verifySignatures then ChunkSignature(o, previous, payload) else previous
  }

  function TakeChunk(o: Options, body: string, previous: string): (r: Result<Taken, Error>)
    ensures r.Ok? ==> |r.value.rest| + |r.value.payload| < |body|
  {
    match TakeLine(body)
    case None => Err(IncompleteBody)
    case Some((line, t)) =>
      match ParseHeader(line)
      case None => Err(IncompleteBody)
      case Some(head) => TakePayload(o, head, t, previous)
  }

  function TakePayload(o: Options, head: Head, t: string, previous: string): (r: Result<Taken, Error>)
    ensures r.Ok? ==> |r.value.rest| + |r.value.payload| == |t|
  {
    match ParseHexSize(head.size)
    case None => Err(IncompleteBody)
    case Some(size) =>
      if o.verifySignatures && head.field == "" then Err(SignatureDoesNotMatch)
      else if size > |t| then Err(IncompleteBody)
      else if o.verifySignatures && ChunkSignature(o, previous, t[..size]) != ToLower(head.field)
          then Err(SignatureDoesNotMatch)
      else Ok(Taken(t[..size], t[size..], NextSignature(o, previous, t[..size])))
  }

  datatype Ending = Ending(rest: string, signature: string)

  /** Some clients end the body without the CRLF behind the last chunk. */
  function PastBreak(s: string): string {
    if "\r\n" <= s then s[2..] else s
  }

  /** The payloads handed to the sink, and how the chunks ended. */
  datatype Walk = Walk(delivered: seq<string>, end: Result<Ending, Error>)

  function Chunks(o: Options, body: string, previous: string, count: nat): Walk
    decreases |body|
  {
    if body == "" || count + 1 > MAX_CHUNKS then Walk([], Err(IncompleteBody))
    else
      match TakeChunk(o, body, previous)
      case Err(e) => Walk([], Err(e))
      case Ok(Taken(payload, rest, signature)) =>
        if payload == "" then Walk([], Ok(Ending(PastBreak(rest), signature)))
        else if !("\r\n" <= rest) then Walk([], Err(IncompleteBody))
        else
          var more := Chunks(o, rest[2..], signature, count + 1);
          Walk([payload] + more.delivered, more.end)
  }

  // ----- Trailers --------------------------------------------------------------

  function TrimLeft(s: string): string {
    if s != "" && (s[0] == ' ' || s[0] == '\t') then TrimLeft(s[1..]) else s
  }

  function TrimEnd(s: string): string {
    if s != "" && (s[|s| - 1] == ' ' || s[|s| - 1] == '\t') then TrimEnd(s[..|s| - 1]) else s
  }

  function Trim(s: string): string {
    TrimEnd(TrimLeft(s))
  }

  datatype Block = Block(trailers: map<string, string>, canonical: string, declared: string)

  /** One trailing header: the signature line apart, the first value under a name counts. */
  function TakeTrailer(block: Block, line: string): Option<Block> {
    var colon := IndexOf(line, ':');
    if |block.trailers| >= MAX_TRAILERS || colon == |line| then None
    else
      var name, value := ToLower(Trim(line[..colon])), Trim(line[colon + 1..]);
      if name == TRAILER_SIGNATURE then Some(block.(declared := ToLower(value)))
      else
        Some(block.(trailers := if name in block.trailers then block.trailers else block.trailers[name := value],
                    canonical := block.canonical + TrailerLine(name, value) + "\n"))
  }

  function TrailerLine(name: string, value: string): string {
    name + ":" + value
  }

  function Trailers(body: string, block: Block): Option<Block>
    decreases |body|
  {
    if body == "" then Some(block)
    else
      match TakeLine(body)
      case None => None
      case Some((line, rest)) =>
        if line == "" then Some(block)
        else
          match TakeTrailer(block, line)
          case None => None
          case Some(next) => Trailers(rest, next)
  }

  // ----- Whole bodies ------------------------------------------------------------

  function Total(payloads: seq<string>): nat {
    if payloads == [] then 0 else |payloads[0]| + Total(payloads[1..])
  }

  /** What reached the sink, and the trailers or the error thrown. */
  datatype Outcome = Outcome(delivered: seq<string>, result: Result<map<string, string>, Error>)

  function Decode(o: Options, body: string): Outcome {
    var walk := Chunks(o, body, o.seedSignature, 0);
    Outcome(walk.delivered,
            match walk.end
            case Err(e) => Err(e)
            case Ok(end) => Finish(o, end, Total(walk.delivered)))
  }

  function Finish(o: Options, end: Ending, decoded: nat): Result<map<string, string>, Error> {
    match Trailers(end.rest, Block(map[], "", ""))
    case None => Err(IncompleteBody)
    case Some(block) =>
      if o.verifySignatures && o.expectTrailerSignature
         && (block.declared == "" || TrailerSignature(o, end.signature, block.canonical) != block.declared)
      then Err(SignatureDoesNotMatch)
      else if o.declaredLength != 0 && decoded != o.declaredLength then Err(IncompleteBody)
      else Ok(block.trailers)
  }

  // ----- Soundness: what is delivered was vouched for --------------------------------

  /** A frame at the start of a body: a header line, the payload it announces, the CRLF behind it.
      With signatures on, the header carries the payload's signature, chained from the one before. */
  predicate IsFrame(o: Options, body: string, previous: string, line: string, payload: string, rest: string) {
    && body == line + "\r\n" + payload + rest
    && ParseHeader(line).Some?
    && ParseHexSize(ParseHeader(line).value.size) == Some(|payload|)
    && (o.verifySignatures ==> ToLower(ParseHeader(line).value.field) == ChunkSignature(o, previous, payload))
  }

  /** The payloads lie in the body one behind the other, each inside a frame whose signature follows
      from the ones before; `rest` is what remains behind them. */
  ghost predicate Vouched(o: Options, body: string, previous: string, delivered: seq<string>, rest: string)
    decreases |delivered|
  {
    if delivered == [] then rest == body
    else
      delivered[0] != "" &&
      exists line: string, after: string ::
        IsFrame(o, body, previous, line, delivered[0], "\r\n" + after)
        && Vouched(o, after, NextSignature(o, previous, delivered[0]), delivered[1..], rest)
  }

  /** The signature the chain has reached behind some payloads. */
  function ChainEnd(o: Options, previous: string, delivered: seq<string>): string
    decreases |delivered|
  {
    if delivered == [] then previous else ChainEnd(o, NextSignature(o, previous, delivered[0]), delivered[1..])
  }

  /** A zero-length frame, properly signed, where the payloads end. */
  ghost predicate Closes(o: Options, body: string, previous: string, end: Ending) {
    exists line: string, tail: string ::
      IsFrame(o, body, previous, line, "", tail) && end == Ending(PastBreak(tail), NextSignature(o, previous, ""))
  }

  lemma LineTaken(body: string)
    requires TakeLine(body).Some?
    ensures body == TakeLine(body).value.0 + "\r\n" + TakeLine(body).value.1
  {
    FoundIs(body, "\r\n");
  }

  lemma {:induction false} FoundIs(s: string, literal: string)
    ensures FindText(s, literal).Some? ==> s[FindText(s, literal).value..][..|literal|] == literal
  {
    if !(literal <= s) && s != "" {
      FoundIs(s[1..], literal);
    }
  }

  lemma TakenIsFrame(o: Options, body: string, previous: string) returns (line: string)
    requires TakeChunk(o, body, previous).Ok?
    ensures
      var t := TakeChunk(o, body, previous).value;
      IsFrame(o, body, previous, line, t.payload, t.rest) && t.signature == NextSignature(o, previous, t.payload)
  {
    hide TakeLine, ChunkSignature, ParseHeader, ParseHexSize;
    line := TakeLine(body).value.0;
    var behind := TakeLine(body).value.1;
    LineTaken(body);
    var t := TakeChunk(o, body, previous).value;
    assert behind == t.payload + t.rest;
    Associative(line + "\r\n", t.payload, t.rest);
  }

  /** Everything the sink ever receives is vouched for, whether or not the body is accepted in the end. */
  lemma {:induction false} DeliveredIsVouched(o: Options, body: string, previous: string, count: nat)
    returns (rest: string)
    ensures Vouched(o, body, previous, Chunks(o, body, previous, count).delivered, rest)
    ensures
      var walk := Chunks(o, body, previous, count);
      walk.end.Ok? ==> Closes(o, rest, ChainEnd(o, previous, walk.delivered), walk.end.value)
    decreases |body|
  {
    hide TakeChunk, IsFrame, NextSignature, PastBreak;
    var walk := Chunks(o, body, previous, count);
    rest := body;
    if body != "" && count + 1 <= MAX_CHUNKS && TakeChunk(o, body, previous).Ok? {
      var line := TakenIsFrame(o, body, previous);
      var t := TakeChunk(o, body, previous).value;
      if t.payload != "" && "\r\n" <= t.rest {
        rest := DeliveredIsVouched(o, t.rest[2..], t.signature, count + 1);
        assert walk.delivered[1..] == Chunks(o, t.rest[2..], t.signature, count + 1).delivered;
        assert t.rest == "\r\n" + t.rest[2..];
        assert IsFrame(o, body, previous, line, walk.delivered[0], "\r\n" + t.rest[2..]);
      }
    }
  }

  /** So it is at every call of the sink: each prefix of the deliveries is vouched for on its own. */
  lemma {:induction false} PrefixIsVouched(o: Options, body: string, previous: string, delivered: seq<string>,
                                           rest: string, i: nat)
    returns (left: string)
    requires Vouched(o, body, previous, delivered, rest) && i <= |delivered|
    ensures Vouched(o, body, previous, delivered[..i], left)
    decreases i
  {
    hide IsFrame, NextSignature;
    left := body;
    if i > 0 {
      var line, after :| IsFrame(o, body, previous, line, delivered[0], "\r\n" + after)
                         && Vouched(o, after, NextSignature(o, previous, delivered[0]), delivered[1..], rest);
      left := PrefixIsVouched(o, after, NextSignature(o, previous, delivered[0]), delivered[1..], rest, i - 1);
      assert delivered[..i][1..] == delivered[1..][..i - 1];
    }
  }

  /** What decoding an arbitrary body guarantees. */
  lemma DecodeIsSound(o: Options, body: string) returns (rest: string)
    ensures Vouched(o, body, o.seedSignature, Decode(o, body).delivered, rest)
    ensures
      var out := Decode(o, body);
      out.result.Ok? ==>
        && (o.declaredLength == 0 || Total(out.delivered) == o.declaredLength)
        && exists end :: Closes(o, rest, ChainEnd(o, o.seedSignature, out.delivered), end)
            && Finish(o, end, Total(out.delivered)) == out.result
  {
    hide Chunks, Vouched, Closes, ChainEnd, Trailers, TrailerSignature;
    rest := DeliveredIsVouched(o, body, o.seedSignature, 0);
    var walk := Chunks(o, body, o.seedSignature, 0);
    if walk.end.Ok? {
      assert Closes(o, rest, ChainEnd(o, o.seedSignature, walk.delivered), walk.end.value);
    }
  }

  // ----- Completeness: correct framing is read back ------------------------------------

  /** A header line as a client writes it, and the payload it announces. */
  datatype Chunk = Chunk(line: string, payload: string)

  predicate IsLine(line: string) {
    |line| <= MAX_LINE && FindText(line, "\r\n") == None
  }

  /** The line announces this payload and, with signatures on, carries the right signature. */
  predicate WellFormed(o: Options, previous: string, c: Chunk) {
    && IsLine(c.line)
    && ParseHeader(c.line).Some?
    && ParseHexSize(ParseHeader(c.line).value.size) == Some(|c.payload|)
    && (o.verifySignatures ==>
          ParseHeader(c.line).value.field != ""
              && ToLower(ParseHeader(c.line).value.field) == ChunkSignature(o, previous, c.payload))
  }

  predicate AllWellFormed(o: Options, previous: string, chunks: seq<Chunk>)
    decreases |chunks|
  {
    chunks == [] ||
    (WellFormed(o, previous, chunks[0]) && AllWellFormed(o, NextSignature(o, previous, chunks[0].payload), chunks[1..]))
  }

  function Framed(chunks: seq<Chunk>): string {
    if chunks == [] then ""
    else chunks[0].line + ("\r\n" + (chunks[0].payload + ("\r\n" + Framed(chunks[1..]))))
  }

  function Payloads(chunks: seq<Chunk>): (r: seq<string>)
    ensures |r| == |chunks| && forall i :: 0 <= i < |chunks| ==> r[i] == chunks[i].payload
  {
    seq(|chunks|, i requires 0 <= i < |chunks| => chunks[i].payload)
  }

  lemma {:induction false} LineFound(line: string, rest: string)
    requires FindText(line, "\r\n") == None
    ensures FindText(line + ("\r\n" + rest), "\r\n") == Some(|line|)
  {
    var s := line + ("\r\n" + rest);
    if line == "" {
      assert s == "\r\n" + rest;
    } else {
      assert s[1..] == line[1..] + ("\r\n" + rest);
      LineFound(line[1..], rest);
      assert |line| > 1 ==> line[..2] != "\r\n";
      assert |line| == 1 ==> s[1] == '\r';
    }
  }

  lemma LineReads(line: string, rest: string)
    requires IsLine(line)
    ensures TakeLine(line + ("\r\n" + rest)) == Some((line, rest))
  {
    var s := line + ("\r\n" + rest);
    LineFound(line, rest);
    hide FindText;
    assert s[..|line|] == line && s[|line| + 2..] == rest;
  }

  lemma ChunkReads(o: Options, previous: string, c: Chunk, rest: string)
    requires WellFormed(o, previous, c)
    ensures TakeChunk(o, c.line + ("\r\n" + (c.payload + rest)), previous)
         == Ok(Taken(c.payload, rest, NextSignature(o, previous, c.payload)))
  {
    hide TakeLine, ParseHeader, ParseHexSize, ChunkSignature;
    LineReads(c.line, c.payload + rest);
    assert (c.payload + rest)[..|c.payload|] == c.payload && (c.payload + rest)[|c.payload|..] == rest;
  }

  /** Well-formed frames in front of a body are delivered, and decoding goes on behind them. */
  lemma {:induction false} FramesRead(o: Options, previous: string, chunks: seq<Chunk>, rest: string, count: nat)
    requires AllWellFormed(o, previous, chunks) && (forall c :: c in chunks ==> c.payload != "")
    requires count + |chunks| <= MAX_CHUNKS
    ensures
      var more := Chunks(o, rest, ChainEnd(o, previous, Payloads(chunks)), count + |chunks|);
      Chunks(o, Framed(chunks) + rest, previous, count) == Walk(Payloads(chunks) + more.delivered, more.end)
    decreases |chunks|
  {
    hide TakeChunk, WellFormed, NextSignature, Chunks;
    if chunks == [] {
      assert Framed(chunks) + rest == rest;
      assert Payloads(chunks) == [];
    } else {
      var c, others := chunks[0], chunks[1..];
      FramedText(chunks, rest);
      assert c in chunks;
      assert Payloads(chunks)[1..] == Payloads(others);
      FirstDelivered(o, previous, chunks, Framed(others) + rest, count);
      FramesRead(o, NextSignature(o, previous, c.payload), others, rest, count + 1);
      var more := Chunks(o, rest, ChainEnd(o, previous, Payloads(chunks)), count + |chunks|);
      assert [c.payload] + (Payloads(others) + more.delivered) == Payloads(chunks) + more.delivered;
    }
  }

  lemma FirstDelivered(o: Options, previous: string, chunks: seq<Chunk>, behind: string, count: nat)
    requires chunks != [] && chunks[0].payload != "" && WellFormed(o, previous, chunks[0]) && count < MAX_CHUNKS
    ensures
      var c := chunks[0];
      var more := Chunks(o, behind, NextSignature(o, previous, c.payload), count + 1);
      Chunks(o, c.line + ("\r\n" + (c.payload + ("\r\n" + behind))), previous, count)
          == Walk([c.payload] + more.delivered, more.end)
  {
    hide TakeChunk, WellFormed, NextSignature;
    ChunkReads(o, previous, chunks[0], "\r\n" + behind);
    assert ("\r\n" + behind)[2..] == behind;
    assert "\r\n" <= "\r\n" + behind;
  }

  lemma FramedText(chunks: seq<Chunk>, rest: string)
    requires chunks != []
    ensures Framed(chunks) + rest
         == chunks[0].line + ("\r\n" + (chunks[0].payload + ("\r\n" + (Framed(chunks[1..]) + rest))))
  {
    var c, others := chunks[0], Framed(chunks[1..]);
    assert Framed(chunks) == c.line + ("\r\n" + (c.payload + ("\r\n" + others)));
    hide Framed;
    Associative("\r\n", others, rest);
    Associative(c.payload, "\r\n" + others, rest);
    Associative("\r\n", c.payload + ("\r\n" + others), rest);
    Associative(c.line, "\r\n" + (c.payload + ("\r\n" + others)), rest);
  }

  // ----- Completeness: trailers --------------------------------------------------------

  datatype Trailer = Trailer(name: string, value: string)

  /** A name and value as a client writes them: lowercased, trimmed, on a line of their own. */
  predicate Proper(t: Trailer) {
    && ToLower(t.name) == t.name && Trim(t.name) == t.name && ':' !in t.name && t.name != TRAILER_SIGNATURE
    && Trim(t.value) == t.value
    && IsLine(TrailerLine(t.name, t.value))
  }

  predicate Distinct(ts: seq<Trailer>) {
    forall i, j :: 0 <= i < j < |ts| ==> ts[i].name != ts[j].name
  }

  function TrailerMap(ts: seq<Trailer>): map<string, string> {
    if ts == [] then map[] else TrailerMap(ts[..|ts| - 1])[ts[|ts| - 1].name := ts[|ts| - 1].value]
  }

  function CanonicalTrailers(ts: seq<Trailer>): string {
    if ts == [] then ""
    else CanonicalTrailers(ts[..|ts| - 1]) + TrailerLine(ts[|ts| - 1].name, ts[|ts| - 1].value) + "\n"
  }

  function TrailerText(ts: seq<Trailer>): string {
    if ts == [] then "" else TrailerLine(ts[0].name, ts[0].value) + ("\r\n" + TrailerText(ts[1..]))
  }

  lemma {:induction false} TrailerNames(ts: seq<Trailer>)
    ensures forall n :: n in TrailerMap(ts) <==> exists i :: 0 <= i < |ts| && ts[i].name == n
    ensures Distinct(ts) ==> |TrailerMap(ts)| == |ts|
  {
    if ts != [] {
      var most, last := ts[..|ts| - 1], ts[|ts| - 1];
      TrailerNames(most);
      forall n ensures n in TrailerMap(ts) <==> exists i :: 0 <= i < |ts| && ts[i].name == n {
        if n in TrailerMap(most) {
          var i :| 0 <= i < |most| && most[i].name == n;
          assert ts[i].name == n;
        }
        if exists i :: 0 <= i < |ts| && ts[i].name == n {
          var i :| 0 <= i < |ts| && ts[i].name == n;
          assert i < |most| ==> most[i].name == n;
        }
      }
      if Distinct(ts) {
        assert last.name !in TrailerMap(most);
      }
    }
  }

  lemma TrailerParts(name: string, value: string)
    requires ':' !in name
    ensures
      var line := TrailerLine(name, value);
      |line| == |name| + 1 + |value| && IndexOf(line, ':') == |name| && line[..|name|] == name
          && line[|name| + 1..] == value
  {
    var line := TrailerLine(name, value);
    assert line == name + [':'] + value;
    IndexOfAfter(name, ':', value);
  }

  lemma DistinctTo(ts: seq<Trailer>, us: seq<Trailer>)
    requires Distinct(ts + us)
    ensures Distinct(ts)
    ensures us != [] ==> us[0].name !in TrailerMap(ts) && Distinct(ts + [us[0]])
  {
    var all := ts + us;
    forall i, j | 0 <= i < j < |ts| ensures ts[i].name != ts[j].name {
      assert all[i].name != all[j].name;
    }
    if us != [] {
      TrailerNames(ts);
      var more := ts + [us[0]];
      forall i, j | 0 <= i < j < |more| ensures more[i].name != more[j].name {
        assert all[i].name != all[j].name && all[i] == more[i] && all[j] == more[j];
      }
      forall i | 0 <= i < |ts| ensures ts[i].name != us[0].name {
        assert all[i].name != all[|ts|].name;
      }
    }
  }

  lemma OneMoreTrailer(done: seq<Trailer>, t: Trailer)
    ensures TrailerMap(done + [t]) == TrailerMap(done)[t.name := t.value]
    ensures CanonicalTrailers(done + [t]) == CanonicalTrailers(done) + TrailerLine(t.name, t.value) + "\n"
  {
    assert (done + [t])[..|done|] == done;
  }

  /** One line of name and value: refused by a full block, and otherwise a signature or a trailer. */
  lemma LineTakes(block: Block, name: string, value: string)
    requires ':' !in name && ToLower(name) == name && Trim(name) == name && Trim(value) == value
    ensures TakeTrailer(block, TrailerLine(name, value))
         == if |block.trailers| >= MAX_TRAILERS then None
            else if name == TRAILER_SIGNATURE then Some(block.(declared := ToLower(value)))
            else Some(block.(trailers := if name in block.trailers then block.trailers
                             else block.trailers[name := value],
                             canonical := block.canonical + TrailerLine(name, value) + "\n"))
  {
    TrailerParts(name, value);
    hide IndexOf, Trim, ToLower, TrailerLine, TRAILER_SIGNATURE;
  }

  lemma LineStep(block: Block, line: string, rest: string)
    requires IsLine(line) && line != ""
    ensures Trailers(line + ("\r\n" + rest), block)
         == match TakeTrailer(block, line)
            case None => None
            case Some(next) => Trailers(rest, next)
  {
    hide TakeLine, TakeTrailer, IsLine;
    LineReads(line, rest);
    assert line + ("\r\n" + rest) != "";
  }

  function BlockOf(ts: seq<Trailer>, declared: string): Block {
    Block(TrailerMap(ts), CanonicalTrailers(ts), declared)
  }

  /** A trailer goes into a block of others unless the block is full. */
  lemma TrailerTaken(done: seq<Trailer>, t: Trailer, declared: string)
    requires Proper(t) && Distinct(done + [t]) && |done| <= MAX_TRAILERS
    ensures TakeTrailer(BlockOf(done, declared), TrailerLine(t.name, t.value))
         == if |done| < MAX_TRAILERS then Some(BlockOf(done + [t], declared)) else None
  {
    LineTakes(BlockOf(done, declared), t.name, t.value);
    DistinctTo(done, [t]);
    TrailerNames(done);
    OneMoreTrailer(done, t);
    hide Trim, ToLower, TrailerLine, TrailerMap, CanonicalTrailers, Distinct, IsLine, TakeTrailer;
  }

  lemma ProperLine(t: Trailer)
    requires Proper(t)
    ensures IsLine(TrailerLine(t.name, t.value)) && TrailerLine(t.name, t.value) != ""
  {
    hide Trim, ToLower, IsLine;
  }

  /** Trailers are read one by one until the block is full; one more is refused. */
  lemma {:induction false} TrailersRead(done: seq<Trailer>, ts: seq<Trailer>, declared: string, rest: string)
    requires (forall t :: t in ts ==> Proper(t)) && Distinct(done + ts) && |done| <= MAX_TRAILERS
    ensures Trailers(TrailerText(ts) + rest, BlockOf(done, declared))
         == if |done| + |ts| <= MAX_TRAILERS then Trailers(rest, BlockOf(done + ts, declared)) else None
    decreases |ts|
  {
    hide TakeTrailer, TrailerLine, Proper, Trailers, BlockOf, Distinct;
    if ts == [] {
      assert TrailerText(ts) + rest == rest && done + ts == done;
    } else {
      var t, others := ts[0], ts[1..];
      var line, behind := TrailerLine(t.name, t.value), TrailerText(others) + rest;
      assert t in ts;
      assert done + [t] + others == done + ts && done + ts == done + ([t] + others);
      DistinctTo(done + [t], others);
      ProperLine(t);
      Associative("\r\n", TrailerText(others), rest);
      Associative(line, "\r\n" + TrailerText(others), rest);
      LineStep(BlockOf(done, declared), line, behind);
      TrailerTaken(done, t, declared);
      if |done| < MAX_TRAILERS {
        TrailersRead(done + [t], others, declared, rest);
      }
    }
  }

  predicate IsSignature(s: string) {
    s != "" && ToLower(s) == s && Trim(s) == s && IsLine(TrailerLine(TRAILER_SIGNATURE, s))
  }

  /** A signature line among the trailers: how many stand before it, and what it says. */
  datatype Declared = Declared(at: nat, signature: string)

  predicate Placed(ts: seq<Trailer>, d: Option<Declared>) {
    d.Some? ==> d.value.at <= |ts| && IsSignature(d.value.signature)
  }

  /** The trailer block: its lines, the signature line among them, and a blank line. */
  function BlockText(ts: seq<Trailer>, d: Option<Declared>): string
    requires Placed(ts, d)
  {
    match d
    case None => TrailerText(ts) + "\r\n"
    case Some(Declared(at, signature)) =>
      TrailerText(ts[..at]) + (TrailerLine(TRAILER_SIGNATURE, signature) + ("\r\n" + (TrailerText(ts[at..]) + "\r\n")))
  }

  function DeclaredText(d: Option<Declared>): string {
    match d
    case None => ""
    case Some(declared) => declared.signature
  }

  predicate Signed(o: Options) {
    o.verifySignatures && o.expectTrailerSignature
  }

  /** The limit is checked before each line, the signature's included, but only trailers count: the
      signature line must not come behind the last trailer a full block has room for. */
  predicate TrailersFit(ts: seq<Trailer>, d: Option<Declared>) {
    |ts| <= MAX_TRAILERS && (d.Some? ==> d.value.at < MAX_TRAILERS)
  }

  lemma SignatureTaken(block: Block, signature: string, rest: string)
    requires IsSignature(signature)
    ensures Trailers(TrailerLine(TRAILER_SIGNATURE, signature) + ("\r\n" + rest), block)
         == if |block.trailers| < MAX_TRAILERS then Trailers(rest, block.(declared := signature)) else None
  {
    NameIsPlain();
    LineTakes(block, TRAILER_SIGNATURE, signature);
    hide IsLine, Trim, ToLower, TrailerLine, TRAILER_SIGNATURE, TakeTrailer, Trailers;
    SignatureLineText(signature);
    LineStep(block, TrailerLine(TRAILER_SIGNATURE, signature), rest);
  }

  lemma SignatureLineText(signature: string)
    ensures TrailerLine(TRAILER_SIGNATURE, signature) != ""
  {
  }

  lemma NameIsPlain()
    ensures ToLower(TRAILER_SIGNATURE) == TRAILER_SIGNATURE && Trim(TRAILER_SIGNATURE) == TRAILER_SIGNATURE
    ensures ':' !in TRAILER_SIGNATURE
  {
    var name := TRAILER_SIGNATURE;
    assert |name| == 23 && name[0] == 'x' && name[22] == 'e';
    assert forall i :: 0 <= i < |name| ==> name[i] != ':' && LowerChar(name[i]) == name[i];
  }

  lemma BlankEnds(block: Block)
    ensures Trailers("\r\n", block) == Some(block)
  {
    assert IsLine("");
    assert "" + ("\r\n" + "") == "\r\n";
    LineReads("", "");
  }

  lemma NoTrailers(declared: string)
    ensures BlockOf([], declared) == Block(map[], "", declared)
  {
  }

  lemma BlockSize(ts: seq<Trailer>, declared: string)
    requires Distinct(ts)
    ensures |BlockOf(ts, declared).trailers| == |ts|
  {
    TrailerNames(ts);
  }

  /** The exact limit: a block of distinct trailers, with a signature line at any place or none, is read as
      its map and canonical text if and only if there are at most 32 trailers, and fewer than 32 of them
      stand before the signature line. */
  lemma BlockReads(ts: seq<Trailer>, d: Option<Declared>)
    requires (forall t :: t in ts ==> Proper(t)) && Distinct(ts) && Placed(ts, d)
    ensures Trailers(BlockText(ts, d), Block(map[], "", ""))
         == if TrailersFit(ts, d) then Some(BlockOf(ts, DeclaredText(d))) else None
  {
    hide TrailerText, TrailerLine, Trailers, IsSignature, Proper, Distinct, BlockOf;
    NoTrailers("");
    assert [] + ts == ts;
    if d.None? {
      TrailersRead([], ts, "", "\r\n");
      BlankEnds(BlockOf(ts, ""));
    } else {
      SignedBlockReads(ts, d.value.at, d.value.signature);
    }
  }

  lemma SignedBlockReads(ts: seq<Trailer>, at: nat, signature: string)
    requires (forall t :: t in ts ==> Proper(t)) && Distinct(ts) && at <= |ts| && IsSignature(signature)
    ensures Trailers(BlockText(ts, Some(Declared(at, signature))), BlockOf([], ""))
         == if |ts| <= MAX_TRAILERS && at < MAX_TRAILERS then Some(BlockOf(ts, signature)) else None
  {
    hide TrailerText, TrailerLine, Trailers, IsSignature, Proper, Distinct, TRAILER_SIGNATURE;
    var before, behind := ts[..at], ts[at..];
    assert before + behind == ts && [] + before == before;
    DistinctTo(before, behind);
    var tail := TrailerText(behind) + "\r\n";
    TrailersRead([], before, "", TrailerLine(TRAILER_SIGNATURE, signature) + ("\r\n" + tail));
    if at <= MAX_TRAILERS {
      BlockSize(before, "");
      SignatureTaken(BlockOf(before, ""), signature, tail);
      if at < MAX_TRAILERS {
        TrailersRead(before, behind, signature, "\r\n");
        BlankEnds(BlockOf(ts, signature));
      }
    }
  }

  // ----- Repeated trailers -----------------------------------------------------------------

  /** The first value under each name. */
  function Firsts(ts: seq<Trailer>): map<string, string> {
    if ts == [] then map[]
    else
      var most, last := Firsts(ts[..|ts| - 1]), ts[|ts| - 1];
      if last.name in most then most else most[last.name := last.value]
  }

  lemma {:induction false} FirstsSize(ts: seq<Trailer>)
    ensures |Firsts(ts)| <= |ts|
  {
    if ts != [] {
      FirstsSize(ts[..|ts| - 1]);
    }
  }

  /** The value kept under a name is the one it came with first. */
  lemma {:induction false} FirstsAreFirst(ts: seq<Trailer>, i: nat)
    requires i < |ts| && forall k :: 0 <= k < i ==> ts[k].name != ts[i].name
    ensures ts[i].name in Firsts(ts) && Firsts(ts)[ts[i].name] == ts[i].value
    decreases |ts|
  {
    var most := ts[..|ts| - 1];
    if i < |most| {
      FirstsAreFirst(most, i);
    } else {
      FirstsNamed(most, ts[i].name);
    }
  }

  lemma {:induction false} FirstsNamed(ts: seq<Trailer>, name: string)
    ensures name in Firsts(ts) <==> exists k :: 0 <= k < |ts| && ts[k].name == name
  {
    if ts != [] {
      var most, last := ts[..|ts| - 1], ts[|ts| - 1];
      FirstsNamed(most, name);
      if exists k :: 0 <= k < |ts| && ts[k].name == name {
        var k :| 0 <= k < |ts| && ts[k].name == name;
        assert k < |most| ==> most[k].name == name;
      }
      if exists k :: 0 <= k < |most| && most[k].name == name {
        var k :| 0 <= k < |most| && most[k].name == name;
        assert ts[k].name == name;
      }
      assert ts[|ts| - 1] == last;
    }
  }

  lemma OneMoreFirst(done: seq<Trailer>, t: Trailer)
    ensures Firsts(done + [t]) == if t.name in Firsts(done) then Firsts(done) else Firsts(done)[t.name := t.value]
  {
    assert (done + [t])[..|done|] == done;
  }

  lemma RepeatTaken(done: seq<Trailer>, t: Trailer, declared: string)
    requires Proper(t) && |done| < MAX_TRAILERS
    ensures TakeTrailer(Block(Firsts(done), CanonicalTrailers(done), declared), TrailerLine(t.name, t.value))
         == Some(Block(Firsts(done + [t]), CanonicalTrailers(done + [t]), declared))
  {
    FirstsSize(done);
    LineTakes(Block(Firsts(done), CanonicalTrailers(done), declared), t.name, t.value);
    OneMoreFirst(done, t);
    OneMoreTrailer(done, t);
    hide Trim, ToLower, TrailerLine, Firsts, CanonicalTrailers, TrailerMap, IsLine, TakeTrailer;
  }

  /** Trailers whose names may repeat: the first value under a name counts, and every line is signed. */
  lemma {:induction false} RepeatedRead(done: seq<Trailer>, ts: seq<Trailer>, declared: string, rest: string)
    requires (forall t :: t in ts ==> Proper(t)) && |done| + |ts| <= MAX_TRAILERS
    ensures Trailers(TrailerText(ts) + rest, Block(Firsts(done), CanonicalTrailers(done), declared))
         == Trailers(rest, Block(Firsts(done + ts), CanonicalTrailers(done + ts), declared))
    decreases |ts|
  {
    hide TakeTrailer, TrailerLine, Proper, Trailers, Firsts, CanonicalTrailers;
    if ts == [] {
      assert TrailerText(ts) + rest == rest && done + ts == done;
    } else {
      var t, others := ts[0], ts[1..];
      var line, behind := TrailerLine(t.name, t.value), TrailerText(others) + rest;
      assert t in ts;
      assert done + [t] + others == done + ts;
      ProperLine(t);
      Associative("\r\n", TrailerText(others), rest);
      Associative(line, "\r\n" + TrailerText(others), rest);
      LineStep(Block(Firsts(done), CanonicalTrailers(done), declared), line, behind);
      RepeatTaken(done, t, declared);
      RepeatedRead(done + [t], others, declared, rest);
    }
  }

  // ----- Completeness: whole bodies ------------------------------------------------------

  /** Chunks, a zero-length last one, and the trailer block. */
  function Body(chunks: seq<Chunk>, last: string, ts: seq<Trailer>, d: Option<Declared>): string
    requires Placed(ts, d)
  {
    Framed(chunks) + (last + ("\r\n" + BlockText(ts, d)))
  }

  /** The chain's last link, which the trailer signature is chained from. */
  function LastSignature(o: Options, chunks: seq<Chunk>): string {
    NextSignature(o, ChainEnd(o, o.seedSignature, Payloads(chunks)), "")
  }

  predicate ProperlySigned(o: Options, chunks: seq<Chunk>, ts: seq<Trailer>, d: Option<Declared>) {
    d.Some? && d.value.signature == TrailerSignature(o, LastSignature(o, chunks), CanonicalTrailers(ts))
  }

  /** A body whose framing, signatures and trailers are all in order. */
  predicate Correct(o: Options, chunks: seq<Chunk>, last: string, ts: seq<Trailer>, d: Option<Declared>) {
    && |chunks| < MAX_CHUNKS
    && (forall c :: c in chunks ==> c.payload != "")
    && AllWellFormed(o, o.seedSignature, chunks)
    && WellFormed(o, ChainEnd(o, o.seedSignature, Payloads(chunks)), Chunk(last, ""))
    && (forall t :: t in ts ==> Proper(t)) && Distinct(ts) && Placed(ts, d)
    && (Signed(o) ==> ProperlySigned(o, chunks, ts, d))
  }

  /** A text that starts with a line does not start with a line break. */
  lemma LineIsNoBreak(line: string, rest: string)
    requires IsLine(line) && line != ""
    ensures !("\r\n" <= line + ("\r\n" + rest))
  {
    LineFound(line, rest);
  }

  lemma TrailerTextStarts(ts: seq<Trailer>, rest: string)
    requires ts != [] && Proper(ts[0])
    ensures !("\r\n" <= TrailerText(ts) + rest)
  {
    var line, others := TrailerLine(ts[0].name, ts[0].value), TrailerText(ts[1..]);
    ProperLine(ts[0]);
    Associative("\r\n", others, rest);
    Associative(line, "\r\n" + others, rest);
    assert TrailerText(ts) + rest == line + ("\r\n" + (others + rest));
    LineIsNoBreak(line, others + rest);
  }

  lemma BlockFollows(ts: seq<Trailer>, d: Option<Declared>)
    requires (forall t :: t in ts ==> Proper(t)) && Placed(ts, d)
    ensures !("\r\n" <= BlockText(ts, d)) || (ts == [] && d.None? && BlockText(ts, d) == "\r\n")
  {
    hide Proper, TrailerText, TrailerLine, IsLine, Trim, ToLower, TRAILER_SIGNATURE;
    if d.None? {
      if ts == [] {
        NoTrailerText();
      } else {
        assert ts[0] in ts;
        TrailerTextStarts(ts, "\r\n");
      }
    } else {
      var before, behind := ts[..d.value.at], TrailerText(ts[d.value.at..]) + "\r\n";
      var line := TrailerLine(TRAILER_SIGNATURE, d.value.signature);
      if before == [] {
        NoTrailerText();
        SignatureLineText(d.value.signature);
        LineIsNoBreak(line, behind);
        assert BlockText(ts, d) == line + ("\r\n" + behind);
      } else {
        assert before[0] in ts;
        TrailerTextStarts(before, line + ("\r\n" + behind));
      }
    }
  }

  lemma NoTrailerText()
    ensures TrailerText([]) == ""
  {
  }

  /** The last chunk, and the trailer block or the blank line behind it. */
  lemma LastReads(o: Options, last: string, block: string, previous: string, count: nat)
    requires WellFormed(o, previous, Chunk(last, "")) && count < MAX_CHUNKS
    ensures Chunks(o, last + ("\r\n" + block), previous, count)
         == Walk([], Ok(Ending(PastBreak(block), NextSignature(o, previous, ""))))
  {
    hide WellFormed, TakeChunk, PastBreak;
    ChunkReads(o, previous, Chunk(last, ""), block);
    assert "" + block == block;
  }

  lemma PastBlockReads(ts: seq<Trailer>, d: Option<Declared>)
    requires (forall t :: t in ts ==> Proper(t)) && Distinct(ts) && Placed(ts, d)
    ensures Trailers(PastBreak(BlockText(ts, d)), Block(map[], "", ""))
         == if TrailersFit(ts, d) then Some(BlockOf(ts, DeclaredText(d))) else None
  {
    hide BlockText, Proper, Distinct, Placed, BlockOf;
    BlockFollows(ts, d);
    BlockReads(ts, d);
    if "\r\n" <= BlockText(ts, d) {
      NoTrailers("");
      assert PastBreak("\r\n") == "";
    }
  }

  /** Correct framing decodes to exactly the payloads and trailers it was made from, wherever the trailer
      signature stands. It is accepted exactly when the trailers fit and the client declared no other length. */
  lemma CorrectBodyDecodes(o: Options, chunks: seq<Chunk>, last: string, ts: seq<Trailer>, d: Option<Declared>)
    requires Correct(o, chunks, last, ts, d)
    ensures
      var out := Decode(o, Body(chunks, last, ts, d));
      var length := o.declaredLength == 0 || o.declaredLength == Total(Payloads(chunks));
      && out.delivered == Payloads(chunks)
      && out.result == if TrailersFit(ts, d) && length then Ok(TrailerMap(ts)) else Err(IncompleteBody)
  {
    var previous := ChainEnd(o, o.seedSignature, Payloads(chunks));
    hide Chunks, WellFormed, BlockText, AllWellFormed, Proper, Distinct, PastBreak, Trailers, TrailerMap,
        CanonicalTrailers, ChainEnd, TrailerSignature, NextSignature, IsSignature, Total, Framed, TrailersFit;
    LastReads(o, last, BlockText(ts, d), previous, |chunks|);
    FramesRead(o, o.seedSignature, chunks, last + ("\r\n" + BlockText(ts, d)), 0);
    assert Payloads(chunks) + [] == Payloads(chunks);
    PastBlockReads(ts, d);
    if d.Some? {
      SignatureIsText(d.value.signature);
    }
  }

  lemma SignatureIsText(signature: string)
    ensures IsSignature(signature) ==> signature != ""
  {
  }

  // ----- The framing a client writes ---------------------------------------------------------

  function Hex(n: nat): string {
    (if n < 16 then "" else Hex(n / 16)) + [S.LOWER_HEX[n % 16]]
  }

  predicate HexDigits(s: string) {
    forall i :: 0 <= i < |s| ==> '0' <= s[i] <= '9' || 'a' <= s[i] <= 'f'
  }

  lemma HexDigitReads(d: nat)
    requires d < 16
    ensures U.HexValue(S.LOWER_HEX[d]) == d && HexDigits([S.LOWER_HEX[d]])
  {
  }

  lemma HexAppends(s: string, c: char)
    requires HexNumber(s).Some? && U.HexValue(c) >= 0
    ensures HexNumber(s + [c]) == Some(16 * HexNumber(s).value + U.HexValue(c))
  {
    var t := s + [c];
    hide HexNumber, U.HexValue;
    assert t[..|t| - 1] == s && t[|t| - 1] == c;
    HexOfLast(t);
  }

  lemma HexOfLast(s: string)
    requires s != "" && HexNumber(s[..|s| - 1]).Some? && U.HexValue(s[|s| - 1]) >= 0
    ensures HexNumber(s) == Some(16 * HexNumber(s[..|s| - 1]).value + U.HexValue(s[|s| - 1]))
  {
    hide U.HexValue;
  }

  lemma {:induction false} HexReads(n: nat)
    ensures HexNumber(Hex(n)) == Some(n) && HexDigits(Hex(n)) && Hex(n) != ""
  {
    hide U.HexValue, Hex, HexNumber, HexDigits;
    HexDigitReads(n % 16);
    HexUnfolds(n);
    if n < 16 {
      assert HexNumber("") == Some(0) && HexDigits("") by { EmptyHex(); }
      HexAppends("", S.LOWER_HEX[n % 16]);
      DigitsAppend("", S.LOWER_HEX[n % 16]);
    } else {
      HexReads(n / 16);
      HexAppends(Hex(n / 16), S.LOWER_HEX[n % 16]);
      DigitsAppend(Hex(n / 16), S.LOWER_HEX[n % 16]);
    }
  }

  lemma HexUnfolds(n: nat)
    ensures Hex(n) == (if n < 16 then "" else Hex(n / 16)) + [S.LOWER_HEX[n % 16]] && Hex(n) != ""
  {
  }

  lemma EmptyHex()
    ensures HexNumber("") == Some(0) && HexDigits("")
  {
  }

  lemma DigitsAppend(s: string, c: char)
    requires HexDigits(s) && HexDigits([c])
    ensures HexDigits(s + [c])
  {
    assert [c][0] == c;
  }

  lemma {:induction false} HexShort(n: nat, digits: nat)
    requires digits > 0 && n < Power16(digits)
    ensures |Hex(n)| <= digits
    decreases digits
  {
    if n >= 16 {
      HexShort(n / 16, digits - 1);
    }
  }

  function Power16(k: nat): nat {
    if k == 0 then 1 else 16 * Power16(k - 1)
  }

  lemma SizeReads(n: nat)
    requires n <= MAX_CHUNK_BYTES
    ensures ParseHexSize(Hex(n)) == Some(n) && |Hex(n)| <= 9
  {
    hide Hex, HexNumber, HexDigits, Power16;
    HexReads(n);
    Power16Is();
    HexShort(n, 9);
  }

  lemma Power16Is()
    ensures Power16(9) == 0x10_0000_0000
  {
    assert Power16(3) == 4096 && Power16(6) == 4096 * Power16(3);
  }

  /** HMAC-SHA256 gives 32 bytes. */
  ghost predicate MacIs32(prim: S.Primitives) {
    forall key, message :: |prim.hmac(key, message)| == 32
  }

  lemma {:induction false} HexOfMac(raw: Bytes)
    ensures |S.ToHex(raw)| == 2 * |raw|
  {
    if raw != "" {
      HexOfMac(raw[1..]);
    }
  }

  lemma {:induction false} NoBreak(s: string)
    requires '\r' !in s
    ensures FindText(s, "\r\n") == None
  {
    if s != "" {
      assert s[0] != '\r';
      NoBreak(s[1..]);
    }
  }

  function HeaderFor(o: Options, previous: string, payload: string): string {
    Hex(|payload|) + if o.verifySignatures then ";" + (EXTENSION + ChunkSignature(o, previous, payload)) else ""
  }

  lemma SignText(prim: S.Primitives, key: string, toSign: string)
    requires MacIs32(prim)
    ensures |S.Sign(prim, key, toSign)| == 64
    ensures forall i :: 0 <= i < 64 ==> U.Unreserved(S.Sign(prim, key, toSign)[i])
  {
    HexOfMac(prim.hmac(key, toSign));
  }

  /** A signature is 64 characters that need no care. */
  predicate Signature(s: string) {
    |s| == 64 && forall i :: 0 <= i < 64 ==> U.Unreserved(s[i])
  }

  lemma ChunkSignatureText(o: Options, previous: string, payload: string)
    requires MacIs32(o.prim)
    ensures Signature(ChunkSignature(o, previous, payload))
  {
    hide S.Sign, U.Unreserved, ChunkToSign;
    SignText(o.prim, o.signingKey, ChunkToSign(o, previous, payload));
  }

  lemma TrailerSignatureText(o: Options, previous: string, canonical: string)
    requires MacIs32(o.prim)
    ensures IsSignature(TrailerSignature(o, previous, canonical))
  {
    hide S.Sign, U.Unreserved, TrailerToSign;
    SignText(o.prim, o.signingKey, TrailerToSign(o, previous, canonical));
    SignatureIsUsable(TrailerSignature(o, previous, canonical));
  }

  lemma SignatureIsUsable(signature: string)
    requires Signature(signature) && ToLower(signature) == signature
    ensures IsSignature(signature)
  {
    assert Trim(signature) == signature;
    hide Trim, ToLower;
    NameIsLine(signature);
  }

  lemma NameIsLine(signature: string)
    requires |signature| == 64 && '\r' !in signature
    ensures IsLine(TrailerLine(TRAILER_SIGNATURE, signature))
  {
    assert '\r' !in TRAILER_SIGNATURE && |TRAILER_SIGNATURE| == 23;
    NoBreak(TrailerLine(TRAILER_SIGNATURE, signature));
  }

  lemma HeaderParses(size: string, field: string)
    requires HexDigits(size)
    ensures ParseHeader(size) == Some(Head(size, ""))
            && ParseHeader(size + (";" + (EXTENSION + field))) == Some(Head(size, field))
  {
    IndexOfIs(size, ';', |size|);
    var line := size + (";" + (EXTENSION + field));
    assert line == size + [';'] + (EXTENSION + field);
    IndexOfAfter(size, ';', EXTENSION + field);
    hide IndexOf;
    assert (EXTENSION + field)[..|EXTENSION|] == EXTENSION && (EXTENSION + field)[|EXTENSION|..] == field;
  }

  lemma HeaderIsWellFormed(o: Options, previous: string, payload: string)
    requires MacIs32(o.prim) && |payload| <= MAX_CHUNK_BYTES
    ensures WellFormed(o, previous, Chunk(HeaderFor(o, previous, payload), payload))
  {
    hide *;
    SizeReads(|payload|);
    HexReads(|payload|);
    ChunkSignatureText(o, previous, payload);
    HeaderParses(Hex(|payload|), ChunkSignature(o, previous, payload));
    HeaderIsLine(Hex(|payload|), ChunkSignature(o, previous, payload));
    HeaderChoices(o, previous, payload, Hex(|payload|));
  }

  lemma HeaderChoices(o: Options, previous: string, payload: string, size: string)
    requires size == Hex(|payload|) && ParseHexSize(size) == Some(|payload|)
    requires
      var signature := ChunkSignature(o, previous, payload);
      var line := size + (";" + (EXTENSION + signature));
      && Signature(signature) && IsLine(size) && IsLine(line)
      && ParseHeader(size) == Some(Head(size, "")) && ParseHeader(line) == Some(Head(size, signature))
    ensures WellFormed(o, previous, Chunk(HeaderFor(o, previous, payload), payload))
  {
    hide Hex, ChunkSignature, ParseHeader, ParseHexSize, IsLine, Signature, EXTENSION;
    SignatureLength(ChunkSignature(o, previous, payload));
    assert size + "" == size;
  }

  lemma SignatureLength(signature: string)
    requires Signature(signature)
    ensures |signature| == 64
  {
  }

  lemma HeaderIsLine(size: string, signature: string)
    requires HexDigits(size) && |size| <= 9 && Signature(signature)
    ensures IsLine(size) && IsLine(size + (";" + (EXTENSION + signature)))
  {
    NoBreak(size);
    ExtensionText();
    var line := size + (";" + (EXTENSION + signature));
    hide FindText, EXTENSION;
    assert '\r' !in signature;
    NoBreak(line);
  }

  lemma ExtensionText()
    ensures '\r' !in EXTENSION && |EXTENSION| == 16
  {
  }

  /** Payloads framed as an SDK frames them. */
  function Frames(o: Options, previous: string, payloads: seq<string>): seq<Chunk>
    decreases |payloads|
  {
    if payloads == [] then []
    else
      [Chunk(HeaderFor(o, previous, payloads[0]), payloads[0])]
        + Frames(o, NextSignature(o, previous, payloads[0]), payloads[1..])
  }

  lemma {:induction false} FramesAreWellFormed(o: Options, previous: string, payloads: seq<string>)
    requires MacIs32(o.prim) && forall p :: p in payloads ==> 0 < |p| <= MAX_CHUNK_BYTES
    ensures AllWellFormed(o, previous, Frames(o, previous, payloads))
            && Payloads(Frames(o, previous, payloads)) == payloads
    decreases |payloads|
  {
    hide WellFormed, HeaderFor, NextSignature, MacIs32, AllWellFormed;
    if payloads == [] {
      assert AllWellFormed(o, previous, []) by { NoneIsWellFormed(o, previous); }
    } else {
      assert payloads[0] in payloads;
      var next := NextSignature(o, previous, payloads[0]);
      HeaderIsWellFormed(o, previous, payloads[0]);
      FramesAreWellFormed(o, next, payloads[1..]);
      OneMoreWellFormed(o, previous, Chunk(HeaderFor(o, previous, payloads[0]), payloads[0]),
                        Frames(o, next, payloads[1..]));
      assert payloads == [payloads[0]] + payloads[1..];
    }
  }

  lemma NoneIsWellFormed(o: Options, previous: string)
    ensures AllWellFormed(o, previous, [])
  {
  }

  lemma OneMoreWellFormed(o: Options, previous: string, c: Chunk, chunks: seq<Chunk>)
    requires WellFormed(o, previous, c) && AllWellFormed(o, NextSignature(o, previous, c.payload), chunks)
    ensures AllWellFormed(o, previous, [c] + chunks) && Payloads([c] + chunks) == [c.payload] + Payloads(chunks)
  {
    hide WellFormed, NextSignature;
    assert ([c] + chunks)[1..] == chunks;
  }

  /** A body as an SDK sends it; a signed one has its signature line behind `at` trailers. */
  function Encode(o: Options, payloads: seq<string>, ts: seq<Trailer>, at: nat): string
    requires Signed(o) ==> Placed(ts, Some(Declared(at, ClientSignature(o, payloads, ts))))
  {
    var chunks := Frames(o, o.seedSignature, payloads);
    var previous := ChainEnd(o, o.seedSignature, payloads);
    Body(chunks, HeaderFor(o, previous, ""), ts,
         if Signed(o) then Some(Declared(at, ClientSignature(o, payloads, ts))) else None)
  }

  function ClientSignature(o: Options, payloads: seq<string>, ts: seq<Trailer>): string {
    TrailerSignature(o, NextSignature(o, ChainEnd(o, o.seedSignature, payloads), ""), CanonicalTrailers(ts))
  }

  lemma ClientSignatureIsPlaced(o: Options, payloads: seq<string>, ts: seq<Trailer>, at: nat)
    requires MacIs32(o.prim) && at <= |ts|
    ensures Placed(ts, Some(Declared(at, ClientSignature(o, payloads, ts))))
  {
    hide IsSignature, MacIs32;
    TrailerSignatureText(o, NextSignature(o, ChainEnd(o, o.seedSignature, payloads), ""), CanonicalTrailers(ts));
  }

  /** The round trip: the framing of any payloads and trailers decodes to exactly them, if and only if
      there are at most 32 trailers and, when signed, fewer than 32 stand before the signature line. */
  lemma DecodeInvertsEncode(o: Options, payloads: seq<string>, ts: seq<Trailer>, at: nat)
    requires MacIs32(o.prim) && at <= |ts|
    requires |payloads| < MAX_CHUNKS && forall p :: p in payloads ==> 0 < |p| <= MAX_CHUNK_BYTES
    requires (forall t :: t in ts ==> Proper(t)) && Distinct(ts)
    requires o.declaredLength == 0 || o.declaredLength == Total(payloads)
    ensures Signed(o) ==> Placed(ts, Some(Declared(at, ClientSignature(o, payloads, ts))))
    ensures
      var fits := |ts| <= MAX_TRAILERS && (Signed(o) ==> at < MAX_TRAILERS);
      var result := if fits then Ok(TrailerMap(ts)) else Err(IncompleteBody);
      Decode(o, Encode(o, payloads, ts, at)) == Outcome(payloads, result)
  {
    hide WellFormed, HeaderFor, MacIs32, Body, Decode, Proper, Distinct, ChainEnd, NextSignature, Placed,
        AllWellFormed, Total, CanonicalTrailers, TrailerMap, TrailerSignature;
    var chunks := Frames(o, o.seedSignature, payloads);
    var previous := ChainEnd(o, o.seedSignature, payloads);
    FramesAreWellFormed(o, o.seedSignature, payloads);
    HeaderIsWellFormed(o, previous, "");
    ClientSignatureIsPlaced(o, payloads, ts, at);
    NothingPlaced(ts);
    assert |chunks| == |Payloads(chunks)|;
    forall c | c in chunks ensures c.payload != "" {
      var i :| 0 <= i < |chunks| && chunks[i] == c;
      assert Payloads(chunks)[i] in payloads;
    }
    CorrectBodyDecodes(o, chunks, HeaderFor(o, previous, ""), ts,
                       if Signed(o) then Some(Declared(at, ClientSignature(o, payloads, ts))) else None);
  }

  lemma NothingPlaced(ts: seq<Trailer>)
    ensures Placed(ts, None)
  {
  }
}
