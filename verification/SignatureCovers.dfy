/** One signature, one request. With a hash that no two texts share, two requests that carry the same
    signature are the same request in everything the signature is meant to cover, so a request that was
    tampered with is refused. */
module SignatureCovers {
  import opened Option
  import opened Text
  import opened Lines
  import opened Uri
  import opened Sorting
  import opened Query
  import opened SigV4
  import opened SignedText

  // ----- The primitives -----------------------------------------------------------------

  /** A digest determines the text it was taken of, under whatever key, and a hex digest is one line. */
  ghost predicate CollisionFree(prim: Primitives) {
    && (forall k, m, l, n :: prim.hmac(k, m) == prim.hmac(l, n) ==> m == n)
    && (forall m, n :: prim.sha256Hex(m) == prim.sha256Hex(n) ==> m == n)
    && (forall m :: OneLine(prim.sha256Hex(m)))
  }

  lemma HexDigitsDiffer(a: nat, b: nat)
    requires a < 16 && b < 16 && LOWER_HEX[a] == LOWER_HEX[b]
    ensures a == b
  {
  }

  lemma HexFirst(raw: Bytes)
    requires raw != ""
    ensures
      var text, x := ToHex(raw), raw[0] as int;
      |text| >= 2 && text[0] == LOWER_HEX[x / 16] && text[1] == LOWER_HEX[x % 16] && text[2..] == ToHex(raw[1..])
  {
    hide LOWER_HEX, Plain, ToLower;
  }

  lemma {:induction false} HexDetermines(a: Bytes, b: Bytes)
    requires ToHex(a) == ToHex(b)
    ensures a == b
  {
    if a != "" && b != "" {
      var x, y := a[0] as int, b[0] as int;
      HexFirst(a);
      HexFirst(b);
      hide ToHex, LOWER_HEX;
      HexDigitsDiffer(x / 16, y / 16);
      HexDigitsDiffer(x % 16, y % 16);
      HexDetermines(a[1..], b[1..]);
      assert x == 16 * (x / 16) + x % 16 && y == 16 * (y / 16) + y % 16;
      assert a == [a[0]] + a[1..] && b == [b[0]] + b[1..];
    }
  }

  // ----- What is signed -------------------------------------------------------------------

  /** Everything that goes into a signature but the key. */
  datatype Signing = Signing(
    request: SigningRequest, names: seq<string>, payloadHash: string, amzDate: string, scope: string)
  {
    predicate Readable() {
      && OnTheWire(request) && Listed(names) && OneLine(payloadHash) && OneLine(amzDate)
      && BuildCanonicalRequest(request, names, payloadHash).Ok?
    }

    function Canonical(): string
      requires Readable()
    {
      BuildCanonicalRequest(request, names, payloadHash).value.Render()
    }

    function Text(prim: Primitives): string
      requires Readable()
    {
      StringToSign(amzDate, scope, prim.sha256Hex(Canonical()))
    }
  }

  /** The same method, path, date, scope and payload digest, the same parameters in whatever order, and
      the same headers signed with the same values. */
  ghost predicate SameSigned(a: Signing, b: Signing) {
    && a.request.method_ == b.request.method_ && CanonicalUri(a.request.uri) == CanonicalUri(b.request.uri)
    && SameParams(a.request.query, b.request.query)
    && (forall n :: n in a.names <==> n in b.names)
    && SameValues(a.request.headers, b.request.headers, a.names)
    && a.payloadHash == b.payloadHash && a.amzDate == b.amzDate && a.scope == b.scope
  }

  /** Two queries with the same parameters, signatures aside. */
  predicate SameParams(a: Bytes, b: Bytes) {
    multiset(Pairs(Covered(Parse(a)))) == multiset(Pairs(Covered(Parse(b))))
  }

  predicate SameValues(a: seq<(string, string)>, b: seq<(string, string)>, names: seq<string>) {
    forall n :: n in names ==> CanonicalHeaderValue(HeaderOf(a, n)) == CanonicalHeaderValue(HeaderOf(b, n))
  }

  lemma ParamsDetermine(a: Bytes, b: Bytes)
    ensures Canonical(Parse(a), SIGNATURE_PARAM) == Canonical(Parse(b), SIGNATURE_PARAM) <==> SameParams(a, b)
  {
    CanonicalCovers(Parse(a));
    CanonicalCovers(Parse(b));
    CanonicalDetermines(Covered(Parse(a)), Covered(Parse(b)));
  }

  lemma RowSame(name: string, x: string, y: string)
    ensures name + ":" + x == name + ":" + y <==> x == y
  {
    var a, b := name + ":" + x, name + ":" + y;
    assert a[|name| + 1..] == x && b[|name| + 1..] == y;
  }

  lemma {:induction false} RowsDetermine(a: seq<(string, string)>, b: seq<(string, string)>, names: seq<string>)
    ensures Rows(a, names) == Rows(b, names) <==> SameValues(a, b, names)
    ensures |Rows(a, names)| == |Rows(b, names)| == |names|
  {
    hide CanonicalHeaderValue, HeaderOf;
    if names != [] {
      var n := names[0];
      RowsDetermine(a, b, names[1..]);
      RowSame(n, CanonicalHeaderValue(HeaderOf(a, n)), CanonicalHeaderValue(HeaderOf(b, n)));
      assert names == [n] + names[1..];
      RowsSplit(a, names);
      RowsSplit(b, names);
      SameValuesSplit(a, b, names);
    }
  }

  lemma RowsSplit(headers: seq<(string, string)>, names: seq<string>)
    requires names != []
    ensures Rows(headers, names) != [] && Rows(headers, names)[1..] == Rows(headers, names[1..])
    ensures Rows(headers, names)[0] == names[0] + ":" + CanonicalHeaderValue(HeaderOf(headers, names[0]))
    ensures Rows(headers, names) == [Rows(headers, names)[0]] + Rows(headers, names[1..])
  {
    hide CanonicalHeaderValue, HeaderOf;
  }

  lemma SameValuesSplit(a: seq<(string, string)>, b: seq<(string, string)>, names: seq<string>)
    requires names != []
    ensures SameValues(a, b, names)
       <==> CanonicalHeaderValue(HeaderOf(a, names[0])) == CanonicalHeaderValue(HeaderOf(b, names[0]))
            && SameValues(a, b, names[1..])
  {
    hide CanonicalHeaderValue, HeaderOf;
    assert names == [names[0]] + names[1..];
  }

  /** Texts taken apart at both ends. */
  lemma Parts<T>(a: seq<T>, m: seq<T>, z: seq<T>, b: seq<T>, n: seq<T>, y: seq<T>)
    requires |a| == |b| && |z| == |y| && a + m + z == b + n + y
    ensures a == b && m == n && z == y
  {
    var s := a + m + z;
    assert |m| == |n|;
    assert a == s[..|a|] && b == s[..|a|];
    assert m == s[|a|..|a| + |m|] && n == s[|a|..|a| + |m|];
    assert z == s[|a| + |m|..] && y == s[|a| + |m|..];
  }

  lemma SameParts(a: Signing, b: Signing)
    requires a.Readable() && b.Readable() && a.Canonical() == b.Canonical()
    ensures a.request.method_ == b.request.method_ && CanonicalUri(a.request.uri) == CanonicalUri(b.request.uri)
    ensures Canonical(Parse(a.request.query), SIGNATURE_PARAM) == Canonical(Parse(b.request.query), SIGNATURE_PARAM)
    ensures Rows(a.request.headers, SignedNames(a.names)) == Rows(b.request.headers, SignedNames(b.names))
    ensures JoinNames(SignedNames(a.names)) == JoinNames(SignedNames(b.names)) && a.payloadHash == b.payloadHash
  {
    hide OneLine, Split, Rows, SignedNames, JoinNames, Canonical, Parse, CanonicalUri, BuildCanonicalRequest,
      OnTheWire, Listed;
    CanonicalReads(a.request, a.names, a.payloadHash);
    CanonicalReads(b.request, b.names, b.payloadHash);
    var x, y := Rows(a.request.headers, SignedNames(a.names)), Rows(b.request.headers, SignedNames(b.names));
    var h := [a.request.method_, CanonicalUri(a.request.uri), Canonical(Parse(a.request.query), SIGNATURE_PARAM)];
    var i := [b.request.method_, CanonicalUri(b.request.uri), Canonical(Parse(b.request.query), SIGNATURE_PARAM)];
    Parts(h, x + [""], [JoinNames(SignedNames(a.names)), a.payloadHash],
          i, y + [""], [JoinNames(SignedNames(b.names)), b.payloadHash]);
    assert h[0] == i[0] && h[1] == i[1] && h[2] == i[2];
    assert x == (x + [""])[..|x|] && y == (y + [""])[..|x|];
  }

  lemma SignedListed(names: seq<string>)
    requires Listed(names)
    ensures Listed(SignedNames(names)) && SplitSignedHeaders(JoinNames(SignedNames(names))) == SignedNames(names)
  {
    hide ListedName, SignedNames, JoinNames, SplitSignedHeaders;
    SignedMembers(names);
    NamesReadBack(SignedNames(names));
  }

  lemma SameCanonical(a: Signing, b: Signing)
    requires a.Readable() && b.Readable()
    requires a.Canonical() == b.Canonical() && a.amzDate == b.amzDate && a.scope == b.scope
    ensures SameSigned(a, b)
  {
    hide Rows, SignedNames, JoinNames, SplitSignedHeaders, Canonical, Parse, CanonicalUri, BuildCanonicalRequest,
      OnTheWire, OneLine, Listed, SameValues, SameParams, Signing.Canonical;
    SameParts(a, b);
    SignedListed(a.names);
    SignedListed(b.names);
    SignedNamesDetermined(a.names, b.names);
    ParamsDetermine(a.request.query, b.request.query);
    RowsDetermine(a.request.headers, b.request.headers, SignedNames(a.names));
    SignedMembers(a.names);
    ValuesOfMembers(a.request.headers, b.request.headers, SignedNames(a.names), a.names);
  }

  lemma ValuesOfMembers(a: seq<(string, string)>, b: seq<(string, string)>, x: seq<string>, y: seq<string>)
    requires forall n :: n in x <==> n in y
    ensures SameValues(a, b, x) <==> SameValues(a, b, y)
  {
    hide CanonicalHeaderValue, HeaderOf;
  }

  lemma SameToSign(prim: Primitives, a: Signing, b: Signing)
    requires CollisionFree(prim) && a.Readable() && b.Readable() && a.Text(prim) == b.Text(prim)
    ensures a.Canonical() == b.Canonical() && a.amzDate == b.amzDate && a.scope == b.scope
  {
    hide OneLine, Split, Signing.Canonical, BuildCanonicalRequest, OnTheWire, Listed, StringToSign, Join;
    var x, y := prim.sha256Hex(a.Canonical()), prim.sha256Hex(b.Canonical());
    StringToSignReads(a.amzDate, a.scope, x);
    StringToSignReads(b.amzDate, b.scope, y);
    var h, i := [ALGORITHM, a.amzDate], [ALGORITHM, b.amzDate];
    Parts(h, Split(a.scope), [x], i, Split(b.scope), [y]);
    assert h[1] == i[1] && [x][0] == [y][0];
    JoinSplits(a.scope);
    JoinSplits(b.scope);
  }

  lemma {:induction false} SameLines(a: seq<(string, string)>, b: seq<(string, string)>, names: seq<string>)
    requires SameValues(a, b, names) && HeaderLines(a, names).Ok? && HeaderLines(b, names).Ok?
    ensures HeaderLines(a, names) == HeaderLines(b, names)
  {
    hide CanonicalHeaderValue, HeaderOf, HasHeader;
    if names != [] {
      assert names[0] in names;
      SameLines(a, b, names[1..]);
    }
  }

  /** A signature covers this much of a request and no more. */
  lemma TextCovers(prim: Primitives, a: Signing, b: Signing)
    requires CollisionFree(prim) && a.Readable() && b.Readable()
    ensures a.Text(prim) == b.Text(prim) <==> SameSigned(a, b)
  {
    if a.Text(prim) == b.Text(prim) {
      hide *;
      SameToSign(prim, a, b);
      SameCanonical(a, b);
    }
    if SameSigned(a, b) {
      SameRendered(a, b);
    }
  }

  lemma SameRendered(a: Signing, b: Signing)
    requires a.Readable() && b.Readable() && SameSigned(a, b)
    ensures a.Canonical() == b.Canonical() && a.amzDate == b.amzDate && a.scope == b.scope
  {
    hide SameValues, SameParams, Canonical, Parse, CanonicalUri, HeaderLines, JoinNames, SignedNames, OnTheWire,
      OneLine, Listed, CanonicalRequest.Render;
    ParamsDetermine(a.request.query, b.request.query);
    SignedNamesDetermined(a.names, b.names);
    SignedMembers(a.names);
    ValuesOfMembers(a.request.headers, b.request.headers, SignedNames(a.names), a.names);
    BuiltFrom(a);
    BuiltFrom(b);
    SameLines(a.request.headers, b.request.headers, SignedNames(a.names));
  }

  lemma BuiltFrom(s: Signing)
    requires s.Readable()
    ensures HeaderLines(s.request.headers, SignedNames(s.names)).Ok?
    ensures BuildCanonicalRequest(s.request, s.names, s.payloadHash)
         == Ok(CanonicalRequest(s.request.method_, CanonicalUri(s.request.uri),
                                Canonical(Parse(s.request.query), SIGNATURE_PARAM),
                                HeaderLines(s.request.headers, SignedNames(s.names)).value,
                                JoinNames(SignedNames(s.names)), s.payloadHash))
  {
    hide HeaderLines, JoinNames, Canonical, Parse, CanonicalUri, Unique, SortNames;
  }

  // ----- Accepted requests -------------------------------------------------------------------

  /** What an accepted request signed. */
  function SigningOf(request: SigningRequest, outcome: AuthOutcome, b: Basis): Signing {
    Signing(request.(method_ := outcome.method_), b.names, b.payloadHash, outcome.amzDate, outcome.scope)
  }

  /** No line breaks in what arrived, nor in the second method the server would take. */
  predicate Arrived(request: SigningRequest, options: AuthOptions) {
    OnTheWire(request) && OneLine(options.alternateMethod)
  }

  lemma DigitsOneLine(s: string)
    requires Digits(s).Some?
    ensures OneLine(s)
  {
  }

  lemma DateOneLine(prim: Primitives, text: string)
    requires ParseAmzDate(prim, text).Some?
    ensures OneLine(text)
  {
    DigitsOneLine(text[..4]);
    DigitsOneLine(text[4..6]);
    DigitsOneLine(text[6..8]);
    DigitsOneLine(text[9..11]);
    DigitsOneLine(text[11..13]);
    DigitsOneLine(text[13..15]);
    hide Digits;
    var a, b := text[..4] + text[4..6] + text[6..8], text[9..11] + text[11..13] + text[13..15];
    assert text == a + "T" + b + "Z";
  }

  lemma UnsignedOneLine()
    ensures OneLine(UNSIGNED_PAYLOAD)
  {
  }

  /** Building with another method changes the method alone. */
  lemma MethodAlone(request: SigningRequest, names: seq<string>, payloadHash: string, method_: string)
    requires BuildCanonicalRequest(request, names, payloadHash).Ok?
    ensures BuildCanonicalRequest(request.(method_ := method_), names, payloadHash)
         == Ok(BuildCanonicalRequest(request, names, payloadHash).value.(method_ := method_))
  {
    hide HeaderLines, JoinNames, Canonical, Parse, Unique, SortNames, CanonicalUri;
  }

  /** An accepted request carries the signature of what it signed. */
  lemma AcceptedSigned(prim: Primitives, request: SigningRequest, resolve: string -> Option<string>,
                       options: AuthOptions) returns (b: Basis)
    requires Arrived(request, options)
    requires var accepted := Authenticate(prim, request, Parse(request.query), resolve, options);
      accepted.Ok? && !accepted.value.anonymous
    ensures
      var outcome := Authenticate(prim, request, Parse(request.query), resolve, options).value;
      var signing := SigningOf(request, outcome, b);
      && signing.Readable() && outcome.signature == Sign(prim, outcome.signingKey, signing.Text(prim))
      && Authentic(prim, request, resolve, outcome, b) && FromRequest(request, Parse(request.query), outcome, b)
      && Timely(prim, Parse(request.query), options, outcome)
      && (outcome.method_ == request.method_ || outcome.method_ == options.alternateMethod != "")
  {
    b := AcceptedIsAuthentic(prim, request, Parse(request.query), resolve, options);
    var outcome := Authenticate(prim, request, Parse(request.query), resolve, options).value;
    BasisReadable(prim, request, Parse(request.query), options, outcome, b);
    hide Authenticate, BuildCanonicalRequest, Parse, OneLine, Listed, FromRequest, Timely, CanonicalRequest.Render,
      DeriveSigningKey, Sign, StringToSign;
    MethodAlone(request, b.names, b.payloadHash, outcome.method_);
  }

  lemma BasisReadable(prim: Primitives, request: SigningRequest, query: seq<QueryParam>, options: AuthOptions,
                      outcome: AuthOutcome, b: Basis)
    requires OnTheWire(request) && FromRequest(request, query, outcome, b) && Timely(prim, query, options, outcome)
    ensures OneLine(outcome.amzDate) && OneLine(b.payloadHash) && Listed(b.names)
  {
    hide OneLine, Listed, ParseAmzDate, SplitSignedHeaders, ParseAuthorization, ParseCredential, PayloadModeFor,
      ExpiresOf, FindParam, HeaderOf, ToLower;
    DateOneLine(prim, outcome.amzDate);
    UnsignedOneLine();
    HeaderOneLine(request.headers, "x-amz-content-sha256");
    if outcome.presigned {
      SplitIsListed(FindParam(query, P_SIGNED_HEADERS).value);
    } else {
      SplitIsListed(ParseAuthorization(HeaderOf(request.headers, "authorization")).value.signedHeaders);
    }
  }

  /** Two requests that are accepted under one signing key carry one signature exactly when they sign the
      same; and under whatever keys one signature still means that they sign the same. */
  lemma OneSignatureOneRequest(prim: Primitives, first: SigningRequest, second: SigningRequest,
                               resolve: string -> Option<string>, secrets: string -> Option<string>,
                               options: AuthOptions, later: AuthOptions) returns (a: Basis, b: Basis)
    requires CollisionFree(prim) && Arrived(first, options) && Arrived(second, later)
    requires var accepted := Authenticate(prim, first, Parse(first.query), resolve, options);
      accepted.Ok? && !accepted.value.anonymous
    requires var accepted := Authenticate(prim, second, Parse(second.query), secrets, later);
      accepted.Ok? && !accepted.value.anonymous
    ensures
      var x := Authenticate(prim, first, Parse(first.query), resolve, options).value;
      var y := Authenticate(prim, second, Parse(second.query), secrets, later).value;
      && FromRequest(first, Parse(first.query), x, a) && FromRequest(second, Parse(second.query), y, b)
      && (x.signature == y.signature ==> SameSigned(SigningOf(first, x, a), SigningOf(second, y, b)))
      && (x.signingKey == y.signingKey ==>
            (x.signature == y.signature <==> SameSigned(SigningOf(first, x, a), SigningOf(second, y, b))))
  {
    hide Authenticate, Parse, FromRequest, Authentic, Timely, SameSigned, Signing.Text, Signing.Readable, ToHex,
      Arrived;
    a := AcceptedSigned(prim, first, resolve, options);
    b := AcceptedSigned(prim, second, secrets, later);
    var x := Authenticate(prim, first, Parse(first.query), resolve, options).value;
    var y := Authenticate(prim, second, Parse(second.query), secrets, later).value;
    var s, t := SigningOf(first, x, a), SigningOf(second, y, b);
    TextCovers(prim, s, t);
    if x.signature == y.signature {
      HexDetermines(prim.hmac(x.signingKey, s.Text(prim)), prim.hmac(y.signingKey, t.Text(prim)));
    }
  }

  /** The signature a request presents, in its query or in its Authorization header. */
  function Presented(request: SigningRequest): Option<string> {
    var param := FindParam(Parse(request.query), SIGNATURE_PARAM);
    var header := ParseAuthorization(HeaderOf(request.headers, "authorization"));
    if param.Some? then Some(ToLower(param.value))
    else if header.Ok? then Some(ToLower(header.value.signature))
    else None
  }

  /** Something a signature covers is not as it was: the path, a parameter, a signed header, or the method,
      which is neither the one signed nor makes it the one the server would also take. */
  predicate Tampers(first: SigningRequest, signed: string, names: seq<string>, second: SigningRequest,
                    options: AuthOptions)
  {
    || CanonicalUri(first.uri) != CanonicalUri(second.uri) || !SameParams(first.query, second.query)
    || !SameValues(first.headers, second.headers, names)
    || (second.method_ != signed && options.alternateMethod != signed)
  }

  lemma AcceptedPresents(prim: Primitives, request: SigningRequest, resolve: string -> Option<string>,
                         options: AuthOptions)
    requires Authenticate(prim, request, Parse(request.query), resolve, options).Ok? && Presented(request).Some?
    ensures
      var outcome := Authenticate(prim, request, Parse(request.query), resolve, options).value;
      !outcome.anonymous && Presented(request) == Some(outcome.signature)
  {
    hide Authenticate, ParseAuthorization, ParseCredential, PayloadModeFor, SplitSignedHeaders, FindParam, Parse,
      Authentic, Timely, ToLower, HeaderOf;
    var b := AcceptedIsAuthentic(prim, request, Parse(request.query), resolve, options);
    NoHeaderNoSignature();
  }

  lemma NoHeaderNoSignature()
    ensures ParseAuthorization("").Err?
  {
    assert |ALGORITHM| == 16;
  }

  /** A signature lifted from an accepted request does not get a tampered one in, at whatever time and
      whatever secrets the server then knows. */
  lemma TamperedIsRefused(prim: Primitives, first: SigningRequest, second: SigningRequest,
                          resolve: string -> Option<string>, secrets: string -> Option<string>,
                          options: AuthOptions, later: AuthOptions, a: Basis)
    requires CollisionFree(prim) && Arrived(first, options) && Arrived(second, later)
    requires var accepted := Authenticate(prim, first, Parse(first.query), resolve, options);
      && accepted.Ok? && !accepted.value.anonymous && FromRequest(first, Parse(first.query), accepted.value, a)
      && Presented(second) == Some(accepted.value.signature)
      && Tampers(first, accepted.value.method_, a.names, second, later)
    ensures Authenticate(prim, second, Parse(second.query), secrets, later).Err?
  {
    hide Authenticate, Parse, Presented, FindParam, Arrived, CanonicalUri, SameParams, SameValues;
    if Authenticate(prim, second, Parse(second.query), secrets, later).Ok? {
      AcceptedPresents(prim, second, secrets, later);
      var c, d := OneSignatureOneRequest(prim, first, second, resolve, secrets, options, later);
      var e := AcceptedSigned(prim, second, secrets, later);
      SameBasis(first, Parse(first.query), Authenticate(prim, first, Parse(first.query), resolve, options).value, a, c);
    }
  }

  lemma SameBasis(request: SigningRequest, query: seq<QueryParam>, outcome: AuthOutcome, a: Basis, b: Basis)
    requires FromRequest(request, query, outcome, a) && FromRequest(request, query, outcome, b)
    ensures a.names == b.names && a.payloadHash == b.payloadHash && a.scope == b.scope
  {
    hide ParseAuthorization, ParseCredential, PayloadModeFor, SplitSignedHeaders, FindParam, ToLower, HeaderOf;
  }

  // ----- The key ---------------------------------------------------------------------------------

  /** A digest determines the key it was taken under as well. */
  ghost predicate KeysApart(prim: Primitives) {
    forall k, m, l, n :: prim.hmac(k, m) == prim.hmac(l, n) ==> k == l && m == n
  }

  lemma SecretApart(a: string, b: string)
    requires "AWS4" + a == "AWS4" + b
    ensures a == b
  {
    assert ("AWS4" + a)[4..] == a && ("AWS4" + b)[4..] == b;
  }

  /** A signing key belongs to one secret, day, region and service. */
  lemma KeyCovers(prim: Primitives, secret: string, date: string, region: string, service: string,
                  other: string, day: string, place: string, name: string)
    requires KeysApart(prim)
    ensures DeriveSigningKey(prim, secret, date, region, service) == DeriveSigningKey(prim, other, day, place, name)
       <==> secret == other && date == day && region == place && service == name
  {
    var h := prim.hmac;
    if DeriveSigningKey(prim, secret, date, region, service) == DeriveSigningKey(prim, other, day, place, name) {
      var a, b := h("AWS4" + secret, date), h("AWS4" + other, day);
      assert h(h(a, region), service) == h(h(b, place), name);
      assert h(a, region) == h(b, place);
      assert a == b;
      SecretApart(secret, other);
    }
  }

  // ----- A minted URL ------------------------------------------------------------------------------

  lemma MintedQueryOctets(prim: Primitives, request: PresignRequest, credentials: Credentials)
    requires 0 < request.expiresSeconds
    ensures var params := PresignParams(prim, request, credentials); var query := Canonical(params, "");
      Octets(query) && Parse(query) == params && Covered(params) == params
      && Canonical(Parse(query), SIGNATURE_PARAM) == query
  {
    var params := PresignParams(prim, request, credentials);
    ParamNames(prim, request, credentials);
    hide Canonical, Parse, Octets, FiveInOrder, PresignParams;
    ReadsBack(params);
    CoveredAll(params);
  }

  lemma {:induction false} CoveredAll(params: seq<QueryParam>)
    requires NamesDiffer(params, SIGNATURE_PARAM)
    ensures Covered(params) == params
  {
    if params != [] {
      CoveredAll(params[1..]);
      assert params[0].name != SIGNATURE_PARAM;
    }
  }

  /** What a minted URL's signature is computed from. */
  function MintedSigning(prim: Primitives, request: PresignRequest, credentials: Credentials): Signing
    requires 0 < request.expiresSeconds
  {
    MintedQueryOctets(prim, request, credentials);
    var query := Canonical(PresignParams(prim, request, credentials), "");
    Signing(SigningRequest(request.method_, request.uri, query, [("host", request.host)]), ["host"],
            UNSIGNED_PAYLOAD, FormatAmzDate(prim, request.nowSeconds), PresignScope(prim, request).Scope())
  }

  predicate OneLined(request: PresignRequest) {
    OneLine(request.method_) && OneLine(request.uri) && OneLine(request.host)
  }

  lemma HostListed()
    ensures Listed(["host"]) && OneLine("host") && SignedNames(["host"]) == ["host"]
  {
    assert Sort((a, b) => Less(a, b), ["host"]) == ["host"];
    assert ToLower("host") == "host";
  }

  lemma MintedBuilt(prim: Primitives, request: PresignRequest, credentials: Credentials)
    requires 0 < request.expiresSeconds
    ensures
      var s := MintedSigning(prim, request, credentials);
      BuildCanonicalRequest(s.request, s.names, s.payloadHash)
        == Ok(MintedCanonical(request, Canonical(PresignParams(prim, request, credentials), "")))
  {
    MintedQueryOctets(prim, request, credentials);
    hide Canonical, Parse, PresignParams, FormatAmzDate, PresignScope, BuildCanonicalRequest, Octets, MintedCanonical;
    SignsHost(request, Canonical(PresignParams(prim, request, credentials), ""));
  }

  lemma HostAlone(request: PresignRequest, query: Bytes)
    requires OneLined(request)
    ensures OnTheWire(SigningRequest(request.method_, request.uri, query, [("host", request.host)]))
    ensures Listed(["host"]) && OneLine(UNSIGNED_PAYLOAD)
  {
    HostListed();
    UnsignedOneLine();
    hide OneLine;
  }

  lemma MintedDate(prim: Primitives, request: PresignRequest)
    requires CalendarInverts(prim, request.nowSeconds)
    ensures OneLine(FormatAmzDate(prim, request.nowSeconds))
  {
    hide FormatAmzDate, ParseAmzDate, CalendarInverts, OneLine;
    DateRoundTrip(prim, request.nowSeconds);
    DateOneLine(prim, FormatAmzDate(prim, request.nowSeconds));
  }

  lemma MintedReadable(prim: Primitives, request: PresignRequest, credentials: Credentials)
    requires 0 < request.expiresSeconds && CalendarInverts(prim, request.nowSeconds) && OneLined(request)
    ensures MintedSigning(prim, request, credentials).Readable()
  {
    hide OneLine, OneLined, Listed, Canonical, Parse, PresignParams, FormatAmzDate, PresignScope, Octets, OnTheWire,
      BuildCanonicalRequest, CalendarInverts, MintedCanonical, Covered;
    MintedQueryOctets(prim, request, credentials);
    HostAlone(request, Canonical(PresignParams(prim, request, credentials), ""));
    MintedDate(prim, request);
    MintedBuilt(prim, request, credentials);
  }

  lemma MintedSigned(prim: Primitives, request: PresignRequest, credentials: Credentials)
    requires 0 < request.expiresSeconds && CalendarInverts(prim, request.nowSeconds) && OneLined(request)
    ensures MintedSigning(prim, request, credentials).Readable()
    ensures MintedSignature(prim, request, credentials)
         == Sign(prim, MintedKey(prim, request, credentials), MintedSigning(prim, request, credentials).Text(prim))
  {
    MintedReadable(prim, request, credentials);
    MintedBuilt(prim, request, credentials);
    hide Canonical, PresignParams, FormatAmzDate, PresignScope, Sign, StringToSign, BuildCanonicalRequest,
      CanonicalRequest.Render, CalendarInverts, MintedCanonical, MintedKey, Signing.Readable;
  }

  lemma {:induction false} FoundIsThere(params: seq<QueryParam>, name: string)
    requires name != SIGNATURE_PARAM
    ensures
      match FindParam(params, name)
      case Some(value) => (name, value) in Pairs(Covered(params))
      case None => forall value :: (name, value) !in Pairs(Covered(params))
  {
    hide SIGNATURE_PARAM;
    if params != [] {
      FoundIsThere(params[1..], name);
      CoveredFirst(params);
    }
  }

  lemma CoveredFirst(params: seq<QueryParam>)
    requires params != []
    ensures Pairs(Covered(params))
         == (if params[0].name == SIGNATURE_PARAM then [] else [(params[0].name, params[0].value)])
            + Pairs(Covered(params[1..]))
  {
    hide Covered;
    CoveredStep(params);
  }

  lemma CoveredStep(params: seq<QueryParam>)
    requires params != []
    ensures Covered(params)
         == (if params[0].name == SIGNATURE_PARAM then [] else [params[0]]) + Covered(params[1..])
  {
  }

  /** A parameter whose name is the only one of its kind is found wherever it stands. */
  lemma SoleIsFound(params: seq<QueryParam>, p: seq<QueryParam>, i: nat)
    requires multiset(Pairs(Covered(params))) == multiset(Pairs(p)) && i < |p| && p[i].name != SIGNATURE_PARAM
    requires forall j :: 0 <= j < |p| && p[j].name == p[i].name ==> j == i
    ensures FindParam(params, p[i].name) == Some(p[i].value)
  {
    hide Covered, FindParam;
    var name := p[i].name;
    FoundIsThere(params, name);
    assert Pairs(p)[i] == (name, p[i].value) && (name, p[i].value) in multiset(Pairs(p));
    assert (name, p[i].value) in Pairs(Covered(params));
    if FindParam(params, name).Some? {
      var found := (name, FindParam(params, name).value);
      assert found in multiset(Pairs(p));
      var j :| 0 <= j < |Pairs(p)| && Pairs(p)[j] == found;
      assert p[j].name == name;
    }
  }

  /** The query of a URL that was minted, in terms of what it was minted from. */
  lemma UrlReads(prim: Primitives, request: PresignRequest, credentials: Credentials, url: Bytes)
    requires PresignQuery(prim, request, credentials) == Ok(url)
    ensures 0 < request.expiresSeconds <= MAX_EXPIRES
    ensures FindParam(Parse(url), SIGNATURE_PARAM) == Some(MintedSignature(prim, request, credentials))
    ensures Covered(Parse(url)) == PresignParams(prim, request, credentials)
    ensures Canonical(Parse(url), SIGNATURE_PARAM) == Canonical(PresignParams(prim, request, credentials), "")
  {
    hide PresignQuery, Minted, MintedSignature, Parse, Canonical, FindParam, PresignParams, Octets, Covered;
    OnlyValidRequests(prim, request, credentials);
    MintedIs(prim, request, credentials);
    MintedReads(prim, request, credentials);
    MintedQueryOctets(prim, request, credentials);
    var last := QueryParam(SIGNATURE_PARAM, MintedSignature(prim, request, credentials), true);
    MintedLookups(prim, request, credentials, last);
    CoveredDropsLast(PresignParams(prim, request, credentials), last);
  }

  lemma {:induction false} CoveredDropsLast(params: seq<QueryParam>, last: QueryParam)
    requires last.name == SIGNATURE_PARAM
    ensures Covered(params + [last]) == Covered(params)
  {
    if params == [] {
      assert params + [last] == [last] && [last][1..] == [];
      assert Covered([last][1..]) == [];
    } else {
      assert (params + [last])[1..] == params[1..] + [last];
      CoveredDropsLast(params[1..], last);
    }
  }

  /** What a verifier finds in a query with the parameters of a minted one. */
  lemma LookupsAnyOrder(prim: Primitives, request: PresignRequest, credentials: Credentials, query: seq<QueryParam>)
    requires 0 < request.expiresSeconds
    requires multiset(Pairs(Covered(query))) == multiset(Pairs(PresignParams(prim, request, credentials)))
    ensures FindParam(query, P_ALGORITHM) == Some(ALGORITHM)
    ensures FindParam(query, P_CREDENTIAL)
         == Some(credentials.accessKey + "/" + PresignScope(prim, request).Scope())
    ensures FindParam(query, P_DATE) == Some(FormatAmzDate(prim, request.nowSeconds))
    ensures FindParam(query, P_EXPIRES) == Some(Decimal(request.expiresSeconds))
    ensures FindParam(query, P_SIGNED_HEADERS) == Some("host")
  {
    var p := PresignParams(prim, request, credentials);
    ParamValues(prim, request, credentials);
    NamesApart();
    hide Covered, FindParam, PresignParams, FormatAmzDate, Decimal, CredentialScope.Scope, PresignScope;
    SoleIsFound(query, p, 0);
    SoleIsFound(query, p, 1);
    SoleIsFound(query, p, 2);
    SoleIsFound(query, p, 3);
    SoleIsFound(query, p, 4);
  }

  lemma ClaimAnyOrder(prim: Primitives, request: PresignRequest, credentials: Credentials, query: seq<QueryParam>,
                      options: AuthOptions)
    requires 0 < request.expiresSeconds <= MAX_EXPIRES && CalendarInverts(prim, request.nowSeconds)
    requires multiset(Pairs(Covered(query))) == multiset(Pairs(PresignParams(prim, request, credentials)))
    ensures PresignedClaim(prim, query, MintedSignature(prim, request, credentials), options)
         == if InWindow(request, options) then Ok(ClaimMade(prim, request, credentials)) else Err(AccessDenied)
  {
    hide FindParam, FormatAmzDate, ParseAmzDate, Stoll, Decimal, CredentialScope.Scope, MintedSignature, PresignParams,
      PresignedClaim, CalendarInverts, Covered, PresignScope;
    LookupsAnyOrder(prim, request, credentials, query);
    StollOfDecimal(request.expiresSeconds);
    DateRoundTrip(prim, request.nowSeconds);
    var date, expiry := FindParam(query, P_DATE).value, FindParam(query, P_EXPIRES).value;
    ClaimFromParams(prim, query, MintedSignature(prim, request, credentials), options,
                    FindParam(query, P_CREDENTIAL).value, date, expiry, FindParam(query, P_SIGNED_HEADERS).value,
                    request.nowSeconds, request.expiresSeconds);
  }

  /** Where a request with the signature of a minted URL goes. */
  lemma AcceptedSignsMinted(prim: Primitives, request: PresignRequest, credentials: Credentials,
                            redeemed: SigningRequest, resolve: string -> Option<string>, options: AuthOptions)
      returns (b: Basis)
    requires CollisionFree(prim) && CalendarInverts(prim, request.nowSeconds) && 0 < request.expiresSeconds
    requires OneLined(request) && Arrived(redeemed, options)
    requires FindParam(Parse(redeemed.query), SIGNATURE_PARAM) == Some(MintedSignature(prim, request, credentials))
    requires Authenticate(prim, redeemed, Parse(redeemed.query), resolve, options).Ok?
    ensures
      var y := Authenticate(prim, redeemed, Parse(redeemed.query), resolve, options).value;
      && SigningOf(redeemed, y, b).Readable()
      && SameSigned(MintedSigning(prim, request, credentials), SigningOf(redeemed, y, b))
      && (y.method_ == redeemed.method_ || y.method_ == options.alternateMethod != "")
  {
    hide Authenticate, Parse, FindParam, FromRequest, Authentic, Timely, SameSigned, Signing.Text, Signing.Readable,
      ToHex, Arrived, OneLined, MintedSignature, MintedSigning, MintedKey, ToLower, CalendarInverts;
    SignatureShape(prim, request, credentials);
    MintedSigned(prim, request, credentials);
    PresentedIs(redeemed);
    AcceptedPresents(prim, redeemed, resolve, options);
    b := AcceptedSigned(prim, redeemed, resolve, options);
    var y := Authenticate(prim, redeemed, Parse(redeemed.query), resolve, options).value;
    var s, t := MintedSigning(prim, request, credentials), SigningOf(redeemed, y, b);
    HexDetermines(prim.hmac(MintedKey(prim, request, credentials), s.Text(prim)),
                  prim.hmac(y.signingKey, t.Text(prim)));
    TextCovers(prim, s, t);
  }

  lemma PresentedIs(request: SigningRequest)
    ensures
      var param := FindParam(Parse(request.query), SIGNATURE_PARAM);
      param.Some? ==> Presented(request) == Some(ToLower(param.value))
  {
    hide Parse, FindParam, ToLower, ParseAuthorization;
  }

  lemma {:induction false} SignedArePresent(headers: seq<(string, string)>, names: seq<string>, n: string)
    requires HeaderLines(headers, names).Ok? && n in names
    ensures HasHeader(headers, n)
  {
    if names[0] != n {
      SignedArePresent(headers, names[1..], n);
    }
  }

  lemma HostPresent(s: Signing)
    requires s.Readable() && "host" in s.names
    ensures HasHeader(s.request.headers, "host")
  {
    hide HeaderLines, HasHeader, Signing.Readable;
    BuiltFrom(s);
    SignedMembers(s.names);
    SignedArePresent(s.request.headers, SignedNames(s.names), "host");
  }

  /** A request that presents the signature of a minted URL is let in exactly when it asks for what the URL
      was minted for, in its window, with its parameters and no others, in whatever order. */
  lemma MintedIsAcceptedExactly(prim: Primitives, request: PresignRequest, credentials: Credentials, url: Bytes,
                                redeemed: SigningRequest, resolve: string -> Option<string>, options: AuthOptions)
    requires CollisionFree(prim) && CalendarInverts(prim, request.nowSeconds)
    requires PresignQuery(prim, request, credentials) == Ok(url)
    requires '/' !in credentials.accessKey && '/' !in request.region
    requires resolve(credentials.accessKey) == Some(credentials.secretKey)
    requires OneLined(request) && Arrived(redeemed, options)
    requires FindParam(Parse(redeemed.query), SIGNATURE_PARAM) == FindParam(Parse(url), SIGNATURE_PARAM)
    ensures Authenticate(prim, redeemed, Parse(redeemed.query), resolve, options).Ok?
       <==> Redeems(request, redeemed, options) && InWindow(request, options) && SameParams(redeemed.query, url)
  {
    hide Authenticate, PresignQuery, Parse, FindParam, Redeems, InWindow, SameParams, CalendarInverts, OneLined,
      Arrived, Octets;
    UrlReads(prim, request, credentials, url);
    if Authenticate(prim, redeemed, Parse(redeemed.query), resolve, options).Ok? {
      AcceptedRedeems(prim, request, credentials, url, redeemed, resolve, options);
    }
    if SameParams(redeemed.query, url) {
      RedeemedAnyOrder(prim, request, credentials, url, redeemed, resolve, options);
    }
  }

  lemma AcceptedRedeems(prim: Primitives, request: PresignRequest, credentials: Credentials, url: Bytes,
                        redeemed: SigningRequest, resolve: string -> Option<string>, options: AuthOptions)
    requires CollisionFree(prim) && CalendarInverts(prim, request.nowSeconds)
    requires PresignQuery(prim, request, credentials) == Ok(url)
    requires OneLined(request) && Arrived(redeemed, options)
    requires FindParam(Parse(redeemed.query), SIGNATURE_PARAM) == FindParam(Parse(url), SIGNATURE_PARAM)
    requires Authenticate(prim, redeemed, Parse(redeemed.query), resolve, options).Ok?
    ensures Redeems(request, redeemed, options) && SameParams(redeemed.query, url)
  {
    hide Authenticate, PresignQuery, Parse, FindParam, CalendarInverts, OneLined, Arrived, CanonicalHeaderValue,
      HeaderOf, HasHeader, CanonicalUri, Covered, Signing.Readable, Canonical, PresignParams, FormatAmzDate, Octets,
      PresignScope;
    UrlReads(prim, request, credentials, url);
    MintedQueryOctets(prim, request, credentials);
    var b := AcceptedSignsMinted(prim, request, credentials, redeemed, resolve, options);
    var y := Authenticate(prim, redeemed, Parse(redeemed.query), resolve, options).value;
    HostGiven(request.host);
    assert "host" in ["host"];
    HostPresent(SigningOf(redeemed, y, b));
  }

  lemma RedeemedAnyOrder(prim: Primitives, request: PresignRequest, credentials: Credentials, url: Bytes,
                         redeemed: SigningRequest, resolve: string -> Option<string>, options: AuthOptions)
    requires CalendarInverts(prim, request.nowSeconds) && PresignQuery(prim, request, credentials) == Ok(url)
    requires '/' !in credentials.accessKey && '/' !in request.region
    requires resolve(credentials.accessKey) == Some(credentials.secretKey)
    requires FindParam(Parse(redeemed.query), SIGNATURE_PARAM) == FindParam(Parse(url), SIGNATURE_PARAM)
    requires SameParams(redeemed.query, url)
    ensures
      var outcome := Authenticate(prim, redeemed, Parse(redeemed.query), resolve, options);
      if InWindow(request, options) then Redeems(request, redeemed, options) ==> outcome.Ok?
      else outcome == Err(AccessDenied)
  {
    hide PresignQuery, Parse, FindParam, CalendarInverts, CheckClaim, PresignedClaim, HeaderClaim, ClaimMade,
      MintedSignature, PresignParams, Canonical, Covered, HeaderOf, InWindow, Redeems, Octets;
    UrlReads(prim, request, credentials, url);
    ClaimAnyOrder(prim, request, credentials, Parse(redeemed.query), options);
    ParamsDetermine(redeemed.query, url);
    if Redeems(request, redeemed, options) {
      MintedChecks(prim, request, credentials, redeemed, resolve, options);
    }
  }
}
