/** What the aws-chunked decoder takes at all: sizes within bounds, and trailer blocks of lines that each have
    a name and a value. */
module ChunkBounds {
  import opened Option
  import opened Text
  import opened Chunked
  import S = SigV4

  // ----- Sizes ---------------------------------------------------------------------------------

  lemma TakenIsBounded(o: Options, body: string, previous: string)
    requires TakeChunk(o, body, previous).Ok?
    ensures |TakeChunk(o, body, previous).value.payload| <= 5 * 1024 * 1024 * 1024
  {
    hide TakeLine, ParseHeader, ChunkSignature, HexNumber;
  }

  /** No delivered chunk is empty or larger than 5 GiB, and there are fewer than four million of them. */
  lemma {:induction false} DeliveriesAreBounded(o: Options, body: string, previous: string, count: nat)
    requires count <= 4_000_000
    ensures
      var walk := Chunks(o, body, previous, count);
      && |walk.delivered| + count <= 4_000_000
      && (forall p :: p in walk.delivered ==> 0 < |p| <= 5 * 1024 * 1024 * 1024)
      && (walk.end.Ok? ==> |walk.delivered| + count < 4_000_000)
    decreases |body|
  {
    hide TakeChunk, PastBreak;
    if body != "" && count + 1 <= MAX_CHUNKS && TakeChunk(o, body, previous).Ok? {
      var t := TakeChunk(o, body, previous).value;
      TakenIsBounded(o, body, previous);
      if t.payload != "" && "\r\n" <= t.rest {
        DeliveriesAreBounded(o, t.rest[2..], t.signature, count + 1);
      }
    }
  }

  /** A size is up to 16 hex digits in either case, and at most 5 GiB. */
  lemma SizeIsHex(s: string)
    ensures
      var number := HexNumber(s);
      ParseHexSize(s).Some? <==> 0 < |s| <= 16 && number.Some? && number.value <= 5 * 1024 * 1024 * 1024
    ensures HexNumber(s).Some? <==> forall i :: 0 <= i < |s| ==> S.IsHexDigit(s[i])
    ensures ParseHexSize(s).Some? ==> ParseHexSize(s) == HexNumber(s)
  {
    HexIsDigits(s);
  }

  lemma {:induction false} HexIsDigits(s: string)
    ensures HexNumber(s).Some? <==> forall i :: 0 <= i < |s| ==> S.IsHexDigit(s[i])
  {
    if s != "" {
      var most := s[..|s| - 1];
      HexIsDigits(most);
      assert forall i :: 0 <= i < |most| ==> most[i] == s[i];
    }
  }

  // ----- Trailer blocks --------------------------------------------------------------------------

  function Lined(lines: seq<string>, tail: string): string {
    if lines == [] then tail else lines[0] + ("\r\n" + Lined(lines[1..], tail))
  }

  /** A line as a name, lowercased, and a value, both trimmed. */
  function Entry(line: string): Trailer
    requires ':' in line
  {
    var colon := IndexOf(line, ':');
    Trailer(ToLower(Trim(line[..colon])), Trim(line[colon + 1..]))
  }

  predicate TrailerLines(lines: seq<string>) {
    forall l :: l in lines ==> l != "" && |l| <= 1024 && ':' in l
  }

  /** The lines that are trailers: all but the signature's. */
  function Entries(lines: seq<string>): seq<Trailer>
    requires TrailerLines(lines)
  {
    if lines == [] then []
    else
      var last := Entry(lines[|lines| - 1]);
      Entries(lines[..|lines| - 1]) + if last.name == TRAILER_SIGNATURE then [] else [last]
  }

  /** The signature declared last, if any is. */
  function DeclaredBy(lines: seq<string>): string
    requires TrailerLines(lines)
  {
    if lines == [] then ""
    else
      var last := Entry(lines[|lines| - 1]);
      if last.name == TRAILER_SIGNATURE then ToLower(last.value) else DeclaredBy(lines[..|lines| - 1])
  }

  function BlockFrom(lines: seq<string>): Block
    requires TrailerLines(lines)
  {
    Block(Firsts(Entries(lines)), CanonicalTrailers(Entries(lines)), DeclaredBy(lines))
  }

  lemma LineNoted(done: seq<string>, line: string)
    requires TrailerLines(done) && line != "" && |line| <= 1024
    requires TakeTrailer(BlockFrom(done), line).Some?
    ensures TrailerLines(done + [line]) && TakeTrailer(BlockFrom(done), line) == Some(BlockFrom(done + [line]))
  {
    hide Trim, ToLower, IndexOf, Firsts, CanonicalTrailers, Entries, DeclaredBy, TRAILER_SIGNATURE;
    HasColon(line);
    OneMoreLine(done, line);
    OneMoreFirst(Entries(done), Entry(line));
    OneMoreTrailer(Entries(done), Entry(line));
  }

  lemma OneMoreLine(done: seq<string>, line: string)
    requires TrailerLines(done) && line != "" && |line| <= 1024 && ':' in line
    ensures TrailerLines(done + [line])
    ensures
      var e, more := Entry(line), done + [line];
      && Entries(more) == (if e.name == TRAILER_SIGNATURE then Entries(done) else Entries(done) + [e])
      && DeclaredBy(more) == if e.name == TRAILER_SIGNATURE then ToLower(e.value) else DeclaredBy(done)
  {
    hide Entry, ToLower, TRAILER_SIGNATURE;
    var more := done + [line];
    assert more[..|more| - 1] == done && more[|more| - 1] == line;
    assert Entries(done) + [] == Entries(done);
  }

  lemma HasColon(line: string)
    ensures IndexOf(line, ':') < |line| <==> ':' in line
  {
    if ':' in line {
      var i :| 0 <= i < |line| && line[i] == ':';
      assert IndexOf(line, ':') <= i;
    }
  }

  /** A block that is read is lines with a name and a value each, up to a blank line or the end of the body,
      and says what they say. */
  lemma {:induction false} BlockFound(done: seq<string>, body: string) returns (lines: seq<string>, tail: string)
    requires TrailerLines(done) && Trailers(body, BlockFrom(done)).Some?
    ensures TrailerLines(done + lines) && body == Lined(lines, tail) && (tail == "" || "\r\n" <= tail)
    ensures Trailers(body, BlockFrom(done)) == Some(BlockFrom(done + lines))
    decreases |body|
  {
    hide TakeLine, TakeTrailer, BlockFrom, TrailerLines;
    lines, tail := [], body;
    assert done + [] == done;
    if body != "" {
      var (line, rest) := TakeLine(body).value;
      LineTaken(body);
      Associative(line, "\r\n", rest);
      LineShort(body);
      if line != "" {
        LineNoted(done, line);
        var more;
        more, tail := BlockFound(done + [line], rest);
        lines := [line] + more;
        assert lines[1..] == more && done + [line] + more == done + lines;
      } else {
        assert body == "" + ("\r\n" + rest);
      }
    }
  }

  lemma LineShort(body: string)
    requires TakeLine(body).Some?
    ensures |TakeLine(body).value.0| <= 1024
  {
  }

  lemma NothingYet()
    ensures TrailerLines([]) && BlockFrom([]) == Block(map[], "", "")
  {
  }

  /** The trailers of an accepted body: what its lines behind the chunks say, the first value under each name. */
  lemma AcceptedTrailers(o: Options, body: string) returns (lines: seq<string>, tail: string)
    requires Decode(o, body).result.Ok?
    ensures TrailerLines(lines) && (tail == "" || "\r\n" <= tail)
    ensures
      var walk := Chunks(o, body, o.seedSignature, 0);
      && walk.end.Ok? && walk.end.value.rest == Lined(lines, tail)
      && Decode(o, body).result == Ok(Firsts(Entries(lines)))
      && (Signed(o) ==> DeclaredBy(lines) == TrailerSignature(o, walk.end.value.signature,
                                                              CanonicalTrailers(Entries(lines))))
  {
    hide Chunks, Trailers, TrailerSignature, Total, TrailerLines, BlockFrom;
    NothingYet();
    var walk := Chunks(o, body, o.seedSignature, 0);
    lines, tail := BlockFound([], walk.end.value.rest);
    assert [] + lines == lines;
    BlockParts(lines);
  }

  lemma BlockParts(lines: seq<string>)
    requires TrailerLines(lines)
    ensures
      var b := BlockFrom(lines);
      b.trailers == Firsts(Entries(lines)) && b.canonical == CanonicalTrailers(Entries(lines))
      && b.declared == DeclaredBy(lines)
  {
  }
}
