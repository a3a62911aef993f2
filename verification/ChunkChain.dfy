/** The chain of chunk signatures. With a hash that no two texts share, a signature fixes the whole body
    before it: frames out of their place are refused, and a closing signature vouches for every payload. */
module ChunkChain {
  import opened Option
  import opened Text
  import opened Lines
  import opened Chunked
  import S = SigV4
  import R = SignedText
  import C = SignatureCovers

  // ----- What one signature covers ---------------------------------------------------------------

  const CHUNK_TITLE := "AWS4-HMAC-SHA256-PAYLOAD"
  const TRAILER_TITLE := "AWS4-HMAC-SHA256-TRAILER"

  lemma Titles()
    ensures OneLine(CHUNK_TITLE) && OneLine(TRAILER_TITLE) && OneLine(S.ALGORITHM) && OneLine(EMPTY_SHA256)
    ensures CHUNK_TITLE != S.ALGORITHM && TRAILER_TITLE != S.ALGORITHM && CHUNK_TITLE != TRAILER_TITLE
  {
    DigestOneLine();
    assert |CHUNK_TITLE| == 24 && |TRAILER_TITLE| == 24 && |S.ALGORITHM| == 16;
    assert CHUNK_TITLE[17] == 'P' && TRAILER_TITLE[17] == 'T';
  }

  lemma DigestOneLine()
    ensures OneLine(EMPTY_SHA256)
  {
    assert OneLine("e3b0c44298fc1c14") && OneLine("9afbf4c8996fb924");
    assert OneLine("27ae41e4649b934c") && OneLine("a495991b7852b855");
  }

  /** A title, a date and a scope as lines, and what follows them. */
  function Headed(title: string, amzDate: string, scope: string): string {
    title + ("\n" + (amzDate + ("\n" + scope)))
  }

  lemma HeadedReads(title: string, amzDate: string, scope: string)
    requires OneLine(title) && OneLine(amzDate)
    ensures Split(Headed(title, amzDate, scope)) == [title, amzDate] + Split(scope)
  {
    hide Split, OneLine;
    FirstRow(title, amzDate + ("\n" + scope));
    FirstRow(amzDate, scope);
  }

  lemma Behind(head: string, a: string, nl: string)
    ensures head + nl + a == head + (nl + a)
  {
  }

  lemma HeadedText(title: string, amzDate: string, scope: string, nl: string)
    ensures title + nl + amzDate + nl + scope == title + (nl + (amzDate + (nl + scope)))
  {
  }

  /** The lines of the text that is signed for a chunk. */
  lemma ChunkToSignReads(o: Options, previous: string, payload: string)
    requires OneLine(o.amzDate) && OneLine(previous) && OneLine(o.prim.sha256Hex(payload))
    ensures Split(ChunkToSign(o, previous, payload))
         == [CHUNK_TITLE, o.amzDate] + Split(o.scope) + [previous, EMPTY_SHA256, o.prim.sha256Hex(payload)]
  {
    hide Split, OneLine, EMPTY_SHA256, CHUNK_TITLE, Headed;
    Titles();
    var head := Headed(CHUNK_TITLE, o.amzDate, o.scope);
    var digest := o.prim.sha256Hex(payload);
    ChunkToSignIs(o, previous, payload);
    HeadedReads(CHUNK_TITLE, o.amzDate, o.scope);
    LastRow(head, previous);
    LastRow(head + ("\n" + previous), EMPTY_SHA256);
    LastRow(head + ("\n" + previous) + ("\n" + EMPTY_SHA256), digest);
  }

  lemma ChunkToSignIs(o: Options, previous: string, payload: string)
    ensures ChunkToSign(o, previous, payload)
         == Headed(CHUNK_TITLE, o.amzDate, o.scope) + ("\n" + previous) + ("\n" + EMPTY_SHA256)
            + ("\n" + o.prim.sha256Hex(payload))
  {
    hide EMPTY_SHA256;
    var nl := "\n";
    var head := CHUNK_TITLE + nl + o.amzDate + nl + o.scope;
    HeadedText(CHUNK_TITLE, o.amzDate, o.scope, nl);
    Behind(head, previous, nl);
    Behind(head + nl + previous, EMPTY_SHA256, nl);
    Behind(head + nl + previous + nl + EMPTY_SHA256, o.prim.sha256Hex(payload), nl);
  }

  /** And of the text that is signed for the trailers. */
  lemma TrailerToSignReads(o: Options, previous: string, canonical: string)
    requires OneLine(o.amzDate) && OneLine(previous) && OneLine(o.prim.sha256Hex(canonical))
    ensures Split(TrailerToSign(o, previous, canonical))
         == [TRAILER_TITLE, o.amzDate] + Split(o.scope) + [previous, o.prim.sha256Hex(canonical)]
  {
    hide Split, OneLine, TRAILER_TITLE, Headed;
    Titles();
    var head := Headed(TRAILER_TITLE, o.amzDate, o.scope);
    TrailerToSignIs(o, previous, canonical);
    HeadedReads(TRAILER_TITLE, o.amzDate, o.scope);
    LastRow(head, previous);
    LastRow(head + ("\n" + previous), o.prim.sha256Hex(canonical));
  }

  lemma TrailerToSignIs(o: Options, previous: string, canonical: string)
    ensures TrailerToSign(o, previous, canonical)
         == Headed(TRAILER_TITLE, o.amzDate, o.scope) + ("\n" + previous) + ("\n" + o.prim.sha256Hex(canonical))
  {
    var nl := "\n";
    var head := TRAILER_TITLE + nl + o.amzDate + nl + o.scope;
    HeadedText(TRAILER_TITLE, o.amzDate, o.scope, nl);
    Behind(head, previous, nl);
    Behind(head + nl + previous, o.prim.sha256Hex(canonical), nl);
  }

  /** Signatures are checked under a hash that no two texts share, and the date is one line, as a date is. */
  ghost predicate Sound(o: Options) {
    o.verifySignatures && C.CollisionFree(o.prim) && OneLine(o.amzDate)
  }

  lemma SignDetermines(prim: S.Primitives, key: string, a: string, b: string)
    requires C.CollisionFree(prim) && S.Sign(prim, key, a) == S.Sign(prim, key, b)
    ensures a == b
  {
    hide S.ToHex;
    C.HexDetermines(prim.hmac(key, a), prim.hmac(key, b));
  }

  /** A chunk's signature covers the signature before it and the payload. */
  lemma ChunkSignatureCovers(o: Options, p: string, x: string, q: string, y: string)
    requires Sound(o) && OneLine(p) && OneLine(q)
    ensures ChunkSignature(o, p, x) == ChunkSignature(o, q, y) <==> p == q && x == y
  {
    hide Split, OneLine, EMPTY_SHA256, CHUNK_TITLE, ChunkToSign, S.Sign;
    if ChunkSignature(o, p, x) == ChunkSignature(o, q, y) {
      SignDetermines(o.prim, o.signingKey, ChunkToSign(o, p, x), ChunkToSign(o, q, y));
      ChunkToSignReads(o, p, x);
      ChunkToSignReads(o, q, y);
      var h := [CHUNK_TITLE, o.amzDate];
      var z, w := [p, EMPTY_SHA256, o.prim.sha256Hex(x)], [q, EMPTY_SHA256, o.prim.sha256Hex(y)];
      C.Parts(h, Split(o.scope), z, h, Split(o.scope), w);
      assert z[0] == w[0] && z[2] == w[2];
    }
  }

  /** The trailers' signature covers the last chunk's and the trailers. */
  lemma TrailerSignatureCovers(o: Options, p: string, x: string, q: string, y: string)
    requires Sound(o) && OneLine(p) && OneLine(q)
    ensures TrailerSignature(o, p, x) == TrailerSignature(o, q, y) <==> p == q && x == y
  {
    hide Split, OneLine, TRAILER_TITLE, TrailerToSign, S.Sign;
    if TrailerSignature(o, p, x) == TrailerSignature(o, q, y) {
      SignDetermines(o.prim, o.signingKey, TrailerToSign(o, p, x), TrailerToSign(o, q, y));
      TrailerToSignReads(o, p, x);
      TrailerToSignReads(o, q, y);
      var h := [TRAILER_TITLE, o.amzDate];
      var z, w := [p, o.prim.sha256Hex(x)], [q, o.prim.sha256Hex(y)];
      C.Parts(h, Split(o.scope), z, h, Split(o.scope), w);
      assert z[0] == w[0] && z[1] == w[1];
    }
  }

  lemma TitleFirst(title: string, amzDate: string, scope: string, tail: string)
    requires OneLine(title)
    ensures Split(Headed(title, amzDate, scope) + tail)[0] == title
  {
    hide Split, OneLine;
    var rest := amzDate + ("\n" + scope) + tail;
    Associative(title, "\n" + (amzDate + ("\n" + scope)), tail);
    Associative("\n", amzDate + ("\n" + scope), tail);
    FirstRow(title, rest);
  }

  lemma StringToSignTitle(amzDate: string, scope: string, hash: string)
    ensures Split(S.StringToSign(amzDate, scope, hash))[0] == S.ALGORITHM
  {
    hide Split, OneLine, S.StringToSign, S.ALGORITHM;
    Titles();
    R.StringToSignText(amzDate, scope, hash);
    FirstRow(S.ALGORITHM, amzDate + ("\n" + (scope + ("\n" + hash))));
  }

  /** What is signed for a request, a chunk and the trailers can never be mistaken for one another. */
  lemma KindsApart(o: Options, p: string, x: string, q: string, y: string, amzDate: string, scope: string, hash: string)
    ensures ChunkToSign(o, p, x) != TrailerToSign(o, q, y)
    ensures ChunkToSign(o, p, x) != S.StringToSign(amzDate, scope, hash)
    ensures TrailerToSign(o, q, y) != S.StringToSign(amzDate, scope, hash)
  {
    hide Split, OneLine, S.StringToSign, S.ALGORITHM, Headed, CHUNK_TITLE, TRAILER_TITLE, EMPTY_SHA256, ChunkToSign,
      TrailerToSign;
    Titles();
    StringToSignTitle(amzDate, scope, hash);
    ChunkToSignIs(o, p, x);
    TrailerToSignIs(o, q, y);
    var a, b := Headed(CHUNK_TITLE, o.amzDate, o.scope), Headed(TRAILER_TITLE, o.amzDate, o.scope);
    var c, d := ("\n" + p) + ("\n" + EMPTY_SHA256) + ("\n" + o.prim.sha256Hex(x)),
                ("\n" + q) + ("\n" + o.prim.sha256Hex(y));
    TitleFirst(CHUNK_TITLE, o.amzDate, o.scope, c);
    TitleFirst(TRAILER_TITLE, o.amzDate, o.scope, d);
    FourParts(a, "\n" + p, "\n" + EMPTY_SHA256, "\n" + o.prim.sha256Hex(x));
    Associative(b, "\n" + q, "\n" + o.prim.sha256Hex(y));
  }

  lemma FourParts(a: string, b: string, c: string, d: string)
    ensures a + b + c + d == a + (b + c + d)
  {
  }

  // ----- What the chain fixes --------------------------------------------------------------------

  lemma {:induction false} HexOneLine(raw: Bytes)
    ensures OneLine(S.ToHex(raw))
  {
    if raw != "" {
      HexOneLine(raw[1..]);
    }
  }

  lemma SignatureOneLine(o: Options, previous: string, payload: string)
    ensures OneLine(ChunkSignature(o, previous, payload))
  {
    hide OneLine, ChunkToSign, S.ToHex;
    HexOneLine(o.prim.hmac(o.signingKey, ChunkToSign(o, previous, payload)));
  }

  lemma {:induction false} ChainOneLine(o: Options, previous: string, payloads: seq<string>)
    requires o.verifySignatures && OneLine(previous)
    ensures OneLine(ChainEnd(o, previous, payloads))
    decreases |payloads|
  {
    hide OneLine, ChunkSignature;
    if payloads != [] {
      SignatureOneLine(o, previous, payloads[0]);
      ChainOneLine(o, ChunkSignature(o, previous, payloads[0]), payloads[1..]);
    }
  }

  /** Chains of one length that end alike started alike and went over the same payloads. */
  lemma {:induction false} ChainDetermines(o: Options, p: string, xs: seq<string>, q: string, ys: seq<string>)
    requires Sound(o) && OneLine(p) && OneLine(q) && |xs| == |ys|
    ensures ChainEnd(o, p, xs) == ChainEnd(o, q, ys) <==> p == q && xs == ys
    decreases |xs|
  {
    hide OneLine, ChunkSignature, C.CollisionFree;
    if xs != [] {
      SignatureOneLine(o, p, xs[0]);
      SignatureOneLine(o, q, ys[0]);
      ChainDetermines(o, ChunkSignature(o, p, xs[0]), xs[1..], ChunkSignature(o, q, ys[0]), ys[1..]);
      ChunkSignatureCovers(o, p, xs[0], q, ys[0]);
      assert xs == [xs[0]] + xs[1..] && ys == [ys[0]] + ys[1..];
    }
  }

  lemma {:induction false} ChainSplits(o: Options, p: string, xs: seq<string>, ys: seq<string>)
    ensures ChainEnd(o, p, xs + ys) == ChainEnd(o, ChainEnd(o, p, xs), ys)
    decreases |xs|
  {
    hide NextSignature;
    if xs == [] {
      assert xs + ys == ys;
    } else {
      assert (xs + ys)[1..] == xs[1..] + ys;
      ChainSplits(o, NextSignature(o, p, xs[0]), xs[1..], ys);
    }
  }

  /** The seed is the signature of a request, as the server hands it to the decoder. */
  ghost predicate SeedOfRequest(o: Options) {
    exists amzDate: string, scope: string, hash: string ::
      o.seedSignature == S.Sign(o.prim, o.signingKey, S.StringToSign(amzDate, scope, hash))
  }

  /** No chunk carries the request's own signature. */
  lemma SeedIsNoLink(o: Options, previous: string, payload: string)
    requires Sound(o) && SeedOfRequest(o)
    ensures ChunkSignature(o, previous, payload) != o.seedSignature
  {
    hide OneLine, S.StringToSign, ChunkToSign, S.Sign, C.CollisionFree;
    var amzDate, scope, hash :|
      o.seedSignature == S.Sign(o.prim, o.signingKey, S.StringToSign(amzDate, scope, hash));
    KindsApart(o, previous, payload, previous, payload, amzDate, scope, hash);
    if ChunkSignature(o, previous, payload) == o.seedSignature {
      SignDetermines(o.prim, o.signingKey, ChunkToSign(o, previous, payload), S.StringToSign(amzDate, scope, hash));
    }
  }

  lemma SeedOneLine(o: Options)
    requires SeedOfRequest(o)
    ensures OneLine(o.seedSignature)
  {
    hide OneLine, S.StringToSign, S.ToHex;
    var amzDate, scope, hash :|
      o.seedSignature == S.Sign(o.prim, o.signingKey, S.StringToSign(amzDate, scope, hash));
    HexOneLine(o.prim.hmac(o.signingKey, S.StringToSign(amzDate, scope, hash)));
  }

  /** The chain never comes back to the seed. */
  lemma NeverTheSeed(o: Options, payloads: seq<string>)
    requires Sound(o) && SeedOfRequest(o) && payloads != []
    ensures ChainEnd(o, o.seedSignature, payloads) != o.seedSignature
  {
    hide OneLine, ChunkSignature, SeedOfRequest, C.CollisionFree;
    var most, last := payloads[..|payloads| - 1], payloads[|payloads| - 1];
    assert payloads == most + [last];
    ChainSplits(o, o.seedSignature, most, [last]);
    ChainOne(o, ChainEnd(o, o.seedSignature, most), last);
    SeedIsNoLink(o, ChainEnd(o, o.seedSignature, most), last);
  }

  lemma ChainOne(o: Options, previous: string, payload: string)
    requires o.verifySignatures
    ensures ChainEnd(o, previous, [payload]) == ChunkSignature(o, previous, payload)
  {
    hide ChunkSignature;
    assert [payload][1..] == [];
  }

  /** From the seed on, the signature that the chain has reached fixes everything before it, its number of
      payloads included. */
  lemma ChainFixesPayloads(o: Options, xs: seq<string>, ys: seq<string>)
    requires Sound(o) && SeedOfRequest(o)
    ensures ChainEnd(o, o.seedSignature, xs) == ChainEnd(o, o.seedSignature, ys) <==> xs == ys
  {
    hide OneLine, ChainEnd, SeedOfRequest, C.CollisionFree;
    SeedOneLine(o);
    if |xs| <= |ys| {
      Shorter(o, xs, ys);
    } else {
      Shorter(o, ys, xs);
    }
  }

  lemma Shorter(o: Options, xs: seq<string>, ys: seq<string>)
    requires Sound(o) && SeedOfRequest(o) && |xs| <= |ys| && OneLine(o.seedSignature)
    ensures ChainEnd(o, o.seedSignature, xs) == ChainEnd(o, o.seedSignature, ys) <==> xs == ys
  {
    hide OneLine, ChainEnd, SeedOfRequest, C.CollisionFree;
    var n := |ys| - |xs|;
    var front, back := ys[..n], ys[n..];
    assert ys == front + back;
    ChainSplits(o, o.seedSignature, front, back);
    ChainOneLine(o, o.seedSignature, front);
    ChainDetermines(o, o.seedSignature, xs, ChainEnd(o, o.seedSignature, front), back);
    if n > 0 {
      NeverTheSeed(o, front);
    } else {
      assert ys == back;
    }
  }

  // ----- Frames out of their place -----------------------------------------------------------------

  /** A frame that was signed for one place in the chain is refused at every other. */
  lemma OutOfPlace(o: Options, p: string, q: string, c: Chunk, rest: string)
    requires Sound(o) && OneLine(p) && OneLine(q) && WellFormed(o, p, c) && p != q
    ensures TakeChunk(o, c.line + ("\r\n" + (c.payload + rest)), q) == Err(Error.SignatureDoesNotMatch)
  {
    hide OneLine, TakeLine, ParseHeader, ParseHexSize, ChunkSignature, C.CollisionFree;
    LineReads(c.line, c.payload + rest);
    ChunkSignatureCovers(o, p, c.payload, q, c.payload);
    assert (c.payload + rest)[..|c.payload|] == c.payload && (c.payload + rest)[|c.payload|..] == rest;
  }

  lemma {:induction false} PrefixWellFormed(o: Options, p: string, chunks: seq<Chunk>, k: nat)
    requires AllWellFormed(o, p, chunks) && k <= |chunks|
    ensures AllWellFormed(o, p, chunks[..k])
    ensures k < |chunks| ==> WellFormed(o, ChainEnd(o, p, Payloads(chunks[..k])), chunks[k])
    decreases k
  {
    hide WellFormed, NextSignature;
    if k > 0 {
      var next := NextSignature(o, p, chunks[0].payload);
      PrefixWellFormed(o, next, chunks[1..], k - 1);
      assert chunks[..k][1..] == chunks[1..][..k - 1];
      assert Payloads(chunks[..k])[1..] == Payloads(chunks[1..][..k - 1]);
    }
  }

  /** Frames of a body in some other arrangement. */
  function Arranged(chunks: seq<Chunk>, order: seq<nat>): (r: seq<Chunk>)
    requires forall i :: i in order ==> i < |chunks|
    ensures |r| == |order|
  {
    seq(|order|, i requires 0 <= i < |order| => assert order[i] in order; chunks[order[i]])
  }

  lemma {:induction false} FramedJoins(xs: seq<Chunk>, ys: seq<Chunk>)
    ensures Framed(xs + ys) == Framed(xs) + Framed(ys)
  {
    if xs == [] {
      assert xs + ys == ys && "" + Framed(ys) == Framed(ys);
    } else {
      assert (xs + ys)[1..] == xs[1..] + ys;
      FramedJoins(xs[1..], ys);
      FramedText(xs, Framed(ys));
    }
  }

  lemma FirstFramed(xs: seq<Chunk>, rest: string)
    requires xs != []
    ensures Framed(xs) + rest == xs[0].line + ("\r\n" + (xs[0].payload + ("\r\n" + (Framed(xs[1..]) + rest))))
  {
    hide Framed;
    FramedText(xs, rest);
  }

  lemma StopsAt(o: Options, body: string, previous: string, count: nat)
    requires body != "" && count < MAX_CHUNKS
    requires TakeChunk(o, body, previous) == Err(Error.SignatureDoesNotMatch)
    ensures Chunks(o, body, previous, count) == Walk([], Err(Error.SignatureDoesNotMatch))
  {
    hide TakeChunk;
  }

  lemma LinksDiffer(o: Options, chunks: seq<Chunk>, i: nat, k: nat)
    requires Sound(o) && SeedOfRequest(o) && i <= |chunks| && k <= |chunks| && i != k
    ensures ChainEnd(o, o.seedSignature, Payloads(chunks[..i])) != ChainEnd(o, o.seedSignature, Payloads(chunks[..k]))
  {
    hide Sound, SeedOfRequest, ChainEnd;
    ChainFixesPayloads(o, Payloads(chunks[..i]), Payloads(chunks[..k]));
  }

  /** The client's frames in any other arrangement, with some left out or sent twice: what stands in its
      place up to the first that does not is delivered, and there decoding stops. */
  lemma RearrangedStops(o: Options, chunks: seq<Chunk>, order: seq<nat>, k: nat, rest: string)
    requires Sound(o) && SeedOfRequest(o) && AllWellFormed(o, o.seedSignature, chunks) && |chunks| < MAX_CHUNKS
    requires forall c :: c in chunks ==> c.payload != ""
    requires (forall i :: i in order ==> i < |chunks|) && k < |order| && order[k] != k && k <= |chunks|
    requires forall j :: 0 <= j < k ==> order[j] == j
    ensures Decode(o, Framed(Arranged(chunks, order)) + rest)
         == Outcome(Payloads(chunks[..k]), Err(Error.SignatureDoesNotMatch))
  {
    hide Sound, SeedOfRequest, AllWellFormed, WellFormed, Framed, Chunks, ChainEnd, TakeChunk, Finish, Total;
    var sent, i := Arranged(chunks, order), order[k];
    assert i in order;
    var before, behind := chunks[..k], sent[k..];
    assert sent[..k] == before && sent == before + behind && behind[0] == chunks[i];
    var p := ChainEnd(o, o.seedSignature, Payloads(chunks[..i]));
    var q := ChainEnd(o, o.seedSignature, Payloads(before));
    PrefixWellFormed(o, o.seedSignature, chunks, i);
    PrefixWellFormed(o, o.seedSignature, chunks, k);
    LinksDiffer(o, chunks, i, k);
    LinksOneLine(o, chunks, i, k);
    FramedJoins(before, behind);
    Associative(Framed(before), Framed(behind), rest);
    FirstFramed(behind, rest);
    FramesRead(o, o.seedSignature, before, Framed(behind) + rest, 0);
    OutOfPlaceSound(o, p, q, chunks[i], "\r\n" + (Framed(behind[1..]) + rest));
    StopsAt(o, Framed(behind) + rest, q, k);
    assert Payloads(before) + [] == Payloads(before);
  }

  lemma OutOfPlaceSound(o: Options, p: string, q: string, c: Chunk, rest: string)
    requires Sound(o) && OneLine(p) && OneLine(q) && WellFormed(o, p, c) && p != q
    ensures TakeChunk(o, c.line + ("\r\n" + (c.payload + rest)), q) == Err(Error.SignatureDoesNotMatch)
    ensures c.line + ("\r\n" + (c.payload + rest)) != ""
  {
    hide Sound, WellFormed, TakeChunk;
    OutOfPlace(o, p, q, c, rest);
    assert |c.line + ("\r\n" + (c.payload + rest))| >= 2;
  }

  lemma LinksOneLine(o: Options, chunks: seq<Chunk>, i: nat, k: nat)
    requires Sound(o) && SeedOfRequest(o) && i <= |chunks| && k <= |chunks|
    ensures OneLine(ChainEnd(o, o.seedSignature, Payloads(chunks[..i])))
    ensures OneLine(ChainEnd(o, o.seedSignature, Payloads(chunks[..k])))
  {
    hide OneLine, SeedOfRequest, ChainEnd, C.CollisionFree;
    SeedOneLine(o);
    ChainOneLine(o, o.seedSignature, Payloads(chunks[..i]));
    ChainOneLine(o, o.seedSignature, Payloads(chunks[..k]));
  }

  /** Two frames in swapped order: nothing of them is delivered, if and only if the chain does not come back
      to its seed behind the first, whatever the seed is. */
  lemma SwappedDeliversNothing(o: Options, a: Chunk, b: Chunk, rest: string)
    requires Sound(o) && OneLine(o.seedSignature) && AllWellFormed(o, o.seedSignature, [a, b])
    requires a.payload != "" && b.payload != ""
    ensures Decode(o, Framed([b, a]) + rest).delivered == []
       <==> ChunkSignature(o, o.seedSignature, a.payload) != o.seedSignature
  {
    hide OneLine, WellFormed, Framed, Chunks, TakeChunk, Finish, Total, ChunkSignature, C.CollisionFree;
    var link := ChunkSignature(o, o.seedSignature, a.payload);
    var behind := Framed([a]) + rest;
    assert [a, b][1..] == [b] && [b, a][1..] == [a];
    assert WellFormed(o, link, b);
    FirstFramed([b, a], rest);
    if link != o.seedSignature {
      SignatureOneLine(o, o.seedSignature, a.payload);
      OutOfPlaceSound(o, link, o.seedSignature, b, "\r\n" + behind);
      StopsAt(o, Framed([b, a]) + rest, o.seedSignature, 0);
    } else {
      FirstDelivered(o, o.seedSignature, [b], behind, 0);
    }
  }

  // ----- The end of the body ---------------------------------------------------------------------

  /** The trailer block behind the chunks of a body. */
  function BlockBehind(o: Options, body: string): Option<Block> {
    match Chunks(o, body, o.seedSignature, 0).end
    case Err(_) => None
    case Ok(end) => Trailers(end.rest, Block(map[], "", ""))
  }

  lemma EndIsChained(o: Options, body: string)
    requires Chunks(o, body, o.seedSignature, 0).end.Ok?
    ensures
      var walk := Chunks(o, body, o.seedSignature, 0);
      walk.end.value.signature == NextSignature(o, ChainEnd(o, o.seedSignature, walk.delivered), "")
  {
    hide Chunks, Vouched, IsFrame, NextSignature, PastBreak;
    var rest := DeliveredIsVouched(o, body, o.seedSignature, 0);
  }

  /** A body that is accepted with the client's trailer signature at its end holds the client's payloads and
      trailers and nothing else, however it was framed. */
  lemma TrailerVouchesForAll(o: Options, body: string, payloads: seq<string>, canonical: string)
    requires Sound(o) && SeedOfRequest(o) && Signed(o) && Decode(o, body).result.Ok?
    ensures
      var block := BlockBehind(o, body);
      var signature := TrailerSignature(o, NextSignature(o, ChainEnd(o, o.seedSignature, payloads), ""), canonical);
      && block.Some?
      && (block.value.declared == signature <==>
            Decode(o, body).delivered == payloads && block.value.canonical == canonical)
  {
    hide OneLine, Chunks, Trailers, ChainEnd, TrailerSignature, ChunkSignature, SeedOfRequest, Total, C.CollisionFree;
    var walk := Chunks(o, body, o.seedSignature, 0);
    EndIsChained(o, body);
    var block := Trailers(walk.end.value.rest, Block(map[], "", "")).value;
    var p, q := ChainEnd(o, o.seedSignature, walk.delivered), ChainEnd(o, o.seedSignature, payloads);
    SeedOneLine(o);
    ChainOneLine(o, o.seedSignature, walk.delivered);
    ChainOneLine(o, o.seedSignature, payloads);
    SignatureOneLine(o, p, "");
    SignatureOneLine(o, q, "");
    TrailerSignatureCovers(o, ChunkSignature(o, p, ""), block.canonical, ChunkSignature(o, q, ""), canonical);
    ChunkSignatureCovers(o, p, "", q, "");
    ChainFixesPayloads(o, walk.delivered, payloads);
  }

  // ----- What the canonical trailers fix -----------------------------------------------------------

  lemma {:induction false} CanonicalFirst(ts: seq<Trailer>)
    requires ts != []
    ensures CanonicalTrailers(ts) == TrailerLine(ts[0].name, ts[0].value) + ("\n" + CanonicalTrailers(ts[1..]))
  {
    hide TrailerLine;
    var most, last := ts[..|ts| - 1], ts[|ts| - 1];
    var end := TrailerLine(last.name, last.value);
    if most == [] {
      assert "" + end + "\n" == end + ("\n" + "");
      assert CanonicalTrailers(ts[1..]) == "";
    } else {
      CanonicalFirst(most);
      assert ts[1..][..|ts| - 2] == most[1..];
      Regroup(TrailerLine(ts[0].name, ts[0].value), "\n", CanonicalTrailers(most[1..]), end, "\n");
    }
  }

  lemma Regroup(a: string, b: string, c: string, d: string, e: string)
    ensures a + (b + c) + d + e == a + (b + (c + d + e))
  {
  }

  /** A trailer on a line of its own, its name up to the first colon. */
  predicate Plain(t: Trailer) {
    ':' !in t.name && OneLine(t.name) && OneLine(t.value)
  }

  lemma PlainLine(t: Trailer)
    requires Plain(t)
    ensures OneLine(TrailerLine(t.name, t.value))
  {
  }

  lemma LineDetermines(t: Trailer, u: Trailer)
    requires Plain(t) && Plain(u) && TrailerLine(t.name, t.value) == TrailerLine(u.name, u.value)
    ensures t == u
  {
    TrailerParts(t.name, t.value);
    TrailerParts(u.name, u.value);
  }

  /** Trailers on lines of their own read back from their canonical text, in their order. */
  lemma {:induction false} CanonicalDetermines(ts: seq<Trailer>, us: seq<Trailer>)
    requires (forall t :: t in ts ==> Plain(t)) && forall u :: u in us ==> Plain(u)
    ensures CanonicalTrailers(ts) == CanonicalTrailers(us) <==> ts == us
    decreases |ts|
  {
    hide TrailerLine, Split, OneLine, CanonicalTrailers, Plain;
    Unwritten();
    if ts != [] {
      assert ts[0] in ts;
      CanonicalFirst(ts);
      PlainLine(ts[0]);
      FirstRow(TrailerLine(ts[0].name, ts[0].value), CanonicalTrailers(ts[1..]));
    }
    if us != [] {
      assert us[0] in us;
      CanonicalFirst(us);
      PlainLine(us[0]);
      FirstRow(TrailerLine(us[0].name, us[0].value), CanonicalTrailers(us[1..]));
    }
    if ts != [] && us != [] && CanonicalTrailers(ts) == CanonicalTrailers(us) {
      var x, y := Split(CanonicalTrailers(ts)), Split(CanonicalTrailers(us));
      assert x[0] == y[0];
      LineDetermines(ts[0], us[0]);
      SameRest(TrailerLine(ts[0].name, ts[0].value), CanonicalTrailers(ts[1..]), CanonicalTrailers(us[1..]));
      CanonicalDetermines(ts[1..], us[1..]);
      assert ts == [ts[0]] + ts[1..] && us == [us[0]] + us[1..];
    }
  }

  lemma SameRest(line: string, a: string, b: string)
    requires line + ("\n" + a) == line + ("\n" + b)
    ensures a == b
  {
    var n := |line| + 1;
    assert (line + ("\n" + a))[n..] == a && (line + ("\n" + b))[n..] == b;
  }

  lemma Unwritten()
    ensures CanonicalTrailers([]) == ""
  {
  }
}
