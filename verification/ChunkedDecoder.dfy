/** The decoder as it runs: a cursor over the body, a running signature, and a sink that is handed
    each payload as soon as it has been checked. */
module ChunkedDecoder {
  import opened Option
  import opened Text
  import U = Uri
  import C = Chunked

  /** Where payloads go. It may be called only with what the body vouches for up to that point. */
  class Sink {
    var received: seq<string>

    constructor ()
      ensures received == []
    {
      received := [];
    }

    method Accept(payload: string, ghost o: C.Options, ghost body: string, ghost left: string)
      requires C.Vouched(o, body, o.seedSignature, received + [payload], left)
      modifies this
      ensures received == old(received) + [payload]
    {
      received := received + [payload];
    }
  }

  method ParseHexSize(text: string) returns (size: Option<nat>)
    ensures size == C.ParseHexSize(text)
  {
    if text == "" || |text| > 16 {
      return None;
    }
    var value: nat := 0;
    for i := 0 to |text|
      invariant C.HexNumber(text[..i]) == Some(value)
    {
      assert text[..i + 1][..i] == text[..i];
      var digit := U.HexValue(text[i]);
      if digit < 0 {
        BadDigit(text, i);
        return None;
      }
      value := value * 16 + digit;
    }
    assert text[..|text|] == text;
    size := if value > C.MAX_CHUNK_BYTES then None else Some(value);
  }

  lemma {:induction false} BadDigit(text: string, i: nat)
    requires i < |text| && U.HexValue(text[i]) < 0
    ensures C.HexNumber(text) == None
    decreases |text|
  {
    if i < |text| - 1 {
      BadDigit(text[..|text| - 1], i);
    }
  }

  /** The header line, its size, its signature, and the payload: checked in that order. */
  method NextChunk(o: C.Options, body: string, previous: string) returns (r: Result<C.Taken, C.Error>)
    ensures r == C.TakeChunk(o, body, previous)
  {
    hide C.TakeLine, C.ParseHeader, C.ParseHexSize, C.ChunkSignature;
    var line := C.TakeLine(body);
    if line == None {
      return Err(C.IncompleteBody);
    }
    var head := C.ParseHeader(line.value.0);
    if head == None {
      return Err(C.IncompleteBody);
    }
    var size := ParseHexSize(head.value.size);
    if size == None {
      return Err(C.IncompleteBody);
    }
    if o.verifySignatures && head.value.field == "" {
      return Err(C.SignatureDoesNotMatch);
    }
    var rest := line.value.1;
    if size.value > |rest| {
      return Err(C.IncompleteBody);
    }
    var payload, signature := rest[..size.value], previous;
    if o.verifySignatures {
      var expected := C.ChunkSignature(o, previous, payload);
      if expected != ToLower(head.value.field) {
        return Err(C.SignatureDoesNotMatch);
      }
      signature := expected;
    }
    r := Ok(C.Taken(payload, rest[size.value..], signature));
  }

  /** A frame behind what has been delivered extends what is vouched for. */
  lemma {:induction false} VouchedExtends(o: C.Options, body: string, previous: string, delivered: seq<string>,
                                          rest: string, line: string, payload: string, after: string)
    requires C.Vouched(o, body, previous, delivered, rest) && payload != ""
    requires C.IsFrame(o, rest, C.ChainEnd(o, previous, delivered), line, payload, "\r\n" + after)
    ensures C.Vouched(o, body, previous, delivered + [payload], after)
    ensures C.ChainEnd(o, previous, delivered + [payload])
            == C.NextSignature(o, C.ChainEnd(o, previous, delivered), payload)
    decreases |delivered|
  {
    hide C.IsFrame, C.NextSignature;
    var more := delivered + [payload];
    if delivered == [] {
      assert more == [payload] && more[1..] == [];
    } else {
      var first := delivered[0];
      var l, a :| C.IsFrame(o, body, previous, l, first, "\r\n" + a)
                  && C.Vouched(o, a, C.NextSignature(o, previous, first), delivered[1..], rest);
      VouchedExtends(o, a, C.NextSignature(o, previous, first), delivered[1..], rest, line, payload, after);
      assert more[0] == first && more[1..] == delivered[1..] + [payload];
    }
  }

  lemma {:induction false} TotalAppends(payloads: seq<string>, last: string)
    ensures C.Total(payloads + [last]) == C.Total(payloads) + |last|
  {
    if payloads == [] {
      assert payloads + [last] == [last];
    } else {
      assert (payloads + [last])[1..] == payloads[1..] + [last];
      TotalAppends(payloads[1..], last);
    }
  }

  /** What decoding from here on makes of the whole. */
  function Before(delivered: seq<string>, more: C.Walk): C.Walk {
    C.Walk(delivered + more.delivered, more.end)
  }

  class Decoder {
    const options: C.Options
    var decoded: nat
    var trailers: map<string, string>

    constructor (options: C.Options)
      ensures this.options == options && decoded == 0 && trailers == map[]
    {
      this.options, decoded, trailers := options, 0, map[];
    }

    /** Decodes a body into the sink; Some is an exception. */
    method Decode(body: string, sink: Sink) returns (error: Option<C.Error>)
      requires decoded == 0 && trailers == map[] && sink.received == []
      modifies this, sink
      ensures sink.received == C.Decode(options, body).delivered
      ensures decoded == C.Total(sink.received)
      ensures
        match C.Decode(options, body).result
        case Err(e) => error == Some(e)
        case Ok(map_) => error == None && trailers == map_
    {
      hide C.Chunks, C.Trailers, C.TrailerSignature, C.Total;
      var end := TakeChunks(body, sink);
      if end.Err? {
        return Some(end.error);
      }
      error := TakeTrailers(end.value);
    }

    /** The loop over the chunks. */
    method TakeChunks(body: string, sink: Sink) returns (end: Result<C.Ending, C.Error>)
      requires decoded == 0 && sink.received == []
      modifies this`decoded, sink
      ensures C.Chunks(options, body, options.seedSignature, 0) == C.Walk(sink.received, end)
      ensures decoded == C.Total(sink.received)
    {
      hide C.TakeChunk, C.NextSignature, C.Vouched, C.IsFrame, C.ChainEnd, C.PastBreak;
      var rest, previous, count := body, options.seedSignature, 0;
      Begins(body);
      while rest != ""
        invariant C.Chunks(options, body, options.seedSignature, 0)
                  == Before(sink.received, C.Chunks(options, rest, previous, count))
        invariant C.Vouched(options, body, options.seedSignature, sink.received, rest)
        invariant previous == C.ChainEnd(options, options.seedSignature, sink.received)
        invariant decoded == C.Total(sink.received)
        decreases |rest|
      {
        NothingBehind(sink.received);
        count := count + 1;
        if count > C.MAX_CHUNKS {
          return Err(C.IncompleteBody);
        }
        var taken := NextChunk(options, rest, previous);
        if taken.Err? {
          return Err(taken.error);
        }
        var payload, behind, signature := taken.value.payload, taken.value.rest, taken.value.signature;
        if payload == "" {
          return Ok(C.Ending(C.PastBreak(behind), signature));
        }
        if !("\r\n" <= behind) {
          return Err(C.IncompleteBody);
        }
        ghost var line := C.TakenIsFrame(options, rest, previous);
        assert behind == "\r\n" + behind[2..];
        VouchedExtends(options, body, options.seedSignature, sink.received, rest, line, payload, behind[2..]);
        TotalAppends(sink.received, payload);
        Associative(sink.received, [payload], C.Chunks(options, behind[2..], signature, count).delivered);
        rest := behind[2..];
        decoded := decoded + |payload|;
        sink.Accept(payload, options, body, rest);
        previous := signature;
      }
      NothingBehind(sink.received);
      end := Err(C.IncompleteBody);
    }

    lemma Begins(body: string)
      ensures Before([], C.Chunks(options, body, options.seedSignature, 0))
              == C.Chunks(options, body, options.seedSignature, 0)
      ensures C.Vouched(options, body, options.seedSignature, [], body)
      ensures C.ChainEnd(options, options.seedSignature, []) == options.seedSignature && C.Total([]) == 0
    {
    }

    /** The trailer block, and the two checks at the end of the body. */
    method TakeTrailers(end: C.Ending) returns (error: Option<C.Error>)
      requires trailers == map[]
      modifies this`trailers
      ensures
        match C.Finish(options, end, decoded)
        case Err(e) => error == Some(e)
        case Ok(map_) => error == None && trailers == map_
    {
      hide C.TakeLine, C.TakeTrailer, C.TrailerSignature;
      var rest, block := end.rest, C.Block(map[], "", "");
      while rest != ""
        invariant C.Trailers(end.rest, C.Block(map[], "", "")) == C.Trailers(rest, block)
        decreases |rest|
      {
        var line := C.TakeLine(rest);
        if line == None {
          return Some(C.IncompleteBody);
        }
        if line.value.0 == "" {
          break;
        }
        var next := C.TakeTrailer(block, line.value.0);
        if next == None {
          return Some(C.IncompleteBody);
        }
        block, rest := next.value, line.value.1;
      }
      assert C.Trailers(end.rest, C.Block(map[], "", "")) == Some(block);
      trailers := block.trailers;
      if options.verifySignatures && options.expectTrailerSignature
         && (block.declared == "" || C.TrailerSignature(options, end.signature, block.canonical) != block.declared)
      {
        return Some(C.SignatureDoesNotMatch);
      }
      if options.declaredLength != 0 && decoded != options.declaredLength {
        return Some(C.IncompleteBody);
      }
      error := None;
    }
  }

  lemma NothingBehind(received: seq<string>)
    ensures forall end :: Before(received, C.Walk([], end)) == C.Walk(received, end)
  {
    assert received + [] == received;
  }
}
