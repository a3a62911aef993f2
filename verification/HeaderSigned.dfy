/** Requests signed in the Authorization header: what a client writes there is what the server reads, and
    a request signed that way is let in exactly while the clocks agree. */
module HeaderSigned {
  import opened Option
  import opened Text
  import opened Uri
  import opened Query
  import opened SigV4
  import opened SignedText

  /** What a client writes. */
  function AuthorizationText(credential: string, signedHeaders: string, signature: string): string {
    ALGORITHM
      + (" Credential=" + (credential + (", SignedHeaders=" + (signedHeaders + (", Signature=" + signature)))))
  }

  /** A value that a field can hold: no comma in it and no blank at its end. */
  predicate FieldText(s: string) {
    s != "" && ',' !in s && s[|s| - 1] != ' '
  }

  function Noted(header: AuthorizationHeader, name: string, field: string): AuthorizationHeader {
    if name == "Credential" then header.(credential := field)
    else if name == "SignedHeaders" then header.(signedHeaders := field)
    else if name == "Signature" then header.(signature := field)
    else header
  }

  predicate FieldName(name: string) {
    name != "" && '=' !in name && name[0] != ' ' && name[0] != ','
  }

  lemma FieldsAre(text: string, header: AuthorizationHeader, s: string, eq: nat, end: nat)
    requires s == SkipSeparators(text) && eq == IndexOf(s, '=') && eq < |s|
    requires end == eq + 1 + IndexOf(s[eq + 1..], ',')
    ensures
      var next := Noted(header, s[..eq], TrimRight(s[eq + 1..end]));
      AuthorizationFields(text, header) == if end == |s| then next else AuthorizationFields(s[end + 1..], next)
  {
    hide IndexOf, TrimRight, SkipSeparators;
  }

  lemma FieldReads(name: string, field: string, tail: string, header: AuthorizationHeader)
    requires FieldName(name) && FieldText(field) && (tail == "" || tail[0] == ',')
    ensures
      var next := Noted(header, name, field);
      AuthorizationFields(" " + (name + ("=" + (field + tail))), header)
        == if tail == "" then next else AuthorizationFields(tail[1..], next)
  {
    hide IndexOf, Noted, AuthorizationFields, SkipSeparators, TrimRight, FieldName, FieldText;
    var s, end := name + ("=" + (field + tail)), |name| + 1 + |field|;
    FieldAt(name, field, tail);
    FieldsAre(" " + s, header, s, |name|, end);
  }

  /** Where a field's parts are. */
  lemma FieldAt(name: string, field: string, tail: string)
    requires FieldName(name) && FieldText(field) && (tail == "" || tail[0] == ',')
    ensures
      var s, end := name + ("=" + (field + tail)), |name| + 1 + |field|;
      && SkipSeparators(" " + s) == s && IndexOf(s, '=') == |name| && IndexOf(s[|name| + 1..], ',') == |field|
      && s[..|name|] == name && s[|name| + 1..end] == field && TrimRight(field) == field
      && |s| == end + |tail| && (tail != "" ==> s[end + 1..] == tail[1..])
  {
    var s, end := name + ("=" + (field + tail)), |name| + 1 + |field|;
    assert (" " + s)[1..] == s && s[0] == name[0];
    IndexOfIs(s, '=', |name|);
    assert s[|name| + 1..] == field + tail;
    IndexOfIs(field + tail, ',', |field|);
    hide IndexOf;
  }

  lemma NamesAreFields()
    ensures FieldName("Credential") && FieldName("SignedHeaders") && FieldName("Signature")
    ensures "Credential" != "SignedHeaders" && "SignedHeaders" != "Signature" && "Credential" != "Signature"
  {
    assert |"Credential"| == 10 && |"SignedHeaders"| == 13 && |"Signature"| == 9;
  }

  /** What a client writes is what the server reads. */
  lemma AuthorizationReadsBack(credential: string, signedHeaders: string, signature: string)
    requires FieldText(credential) && FieldText(signedHeaders) && FieldText(signature)
    ensures ParseAuthorization(AuthorizationText(credential, signedHeaders, signature))
         == Ok(AuthorizationHeader(credential, signedHeaders, signature))
  {
    var third := " " + ("Signature" + ("=" + (signature + "")));
    var second := " " + ("SignedHeaders" + ("=" + (signedHeaders + ("," + third))));
    var first := " " + ("Credential" + ("=" + (credential + ("," + second))));
    NamesAreFields();
    Written(credential, signedHeaders, signature);
    hide FieldName, FieldText, AuthorizationFields, ALGORITHM, AuthorizationText;
    var none := AuthorizationHeader("", "", "");
    assert ("," + second)[1..] == second && ("," + third)[1..] == third;
    FieldReads("Credential", credential, "," + second, none);
    FieldReads("SignedHeaders", signedHeaders, "," + third, none.(credential := credential));
    FieldReads("Signature", signature, "", none.(credential := credential, signedHeaders := signedHeaders));
    NotEmpty(credential);
    NotEmpty(signedHeaders);
    NotEmpty(signature);
    var text := ALGORITHM + first;
    assert ALGORITHM <= text && text[|ALGORITHM|..] == first;
  }

  lemma NotEmpty(s: string)
    requires FieldText(s)
    ensures s != ""
  {
  }

  lemma Written(credential: string, signedHeaders: string, signature: string)
    ensures
      var third := " " + ("Signature" + ("=" + (signature + "")));
      var second := " " + ("SignedHeaders" + ("=" + (signedHeaders + ("," + third))));
      var first := " " + ("Credential" + ("=" + (credential + ("," + second))));
      AuthorizationText(credential, signedHeaders, signature) == ALGORITHM + first
  {
    var third := " " + ("Signature" + ("=" + (signature + "")));
    assert ", Signature=" + signature == "," + third;
    var second := " " + ("SignedHeaders" + ("=" + (signedHeaders + ("," + third))));
    assert ", SignedHeaders=" + (signedHeaders + ("," + third)) == "," + second;
    var first := " " + ("Credential" + ("=" + (credential + ("," + second))));
    assert " Credential=" + (credential + ("," + second)) == first;
  }

  // ----- A request signed this way -----------------------------------------------------------

  /** A client's side of a request: who signs, when, and which headers. */
  datatype Signer = Signer(accessKey: string, secret: string, region: string, at: int, names: seq<string>)
  {
    function Scope(prim: Primitives): CredentialScope {
      CredentialScope(accessKey, FormatAmzDate(prim, at)[..8], region, SERVICE, TERMINATOR)
    }

    function Signature(prim: Primitives, canonical: CanonicalRequest): string {
      RequestSignature(prim, DeriveSigningKey(prim, secret, FormatAmzDate(prim, at)[..8], region, SERVICE),
                       FormatAmzDate(prim, at), Scope(prim).Scope(), canonical)
    }

    function Authorization(prim: Primitives, canonical: CanonicalRequest): string {
      AuthorizationText(accessKey + "/" + Scope(prim).Scope(), JoinNames(names), Signature(prim, canonical))
    }
  }

  predicate Writable(prim: Primitives, s: Signer) {
    && '/' !in s.accessKey && ',' !in s.accessKey && '/' !in s.region && ',' !in s.region
    && Listed(s.names) && "host" in s.names && FieldText(JoinNames(s.names)) && CalendarInverts(prim, s.at)
  }

  /** The request bears the signer's date, a payload digest or marker, and the signature over them. */
  predicate Bears(prim: Primitives, request: SigningRequest, s: Signer) {
    var content := HeaderOf(request.headers, "x-amz-content-sha256");
    var built := BuildCanonicalRequest(request, s.names, content);
    && HeaderOf(request.headers, "x-amz-date") == FormatAmzDate(prim, s.at)
    && PayloadModeFor(content).Ok? && built.Ok? && s.Signature(prim, built.value) != ""
    && HeaderOf(request.headers, "authorization") == s.Authorization(prim, built.value)
  }

  lemma DateHasNoComma(prim: Primitives, seconds: int)
    ensures ',' !in FormatAmzDate(prim, seconds)[..8] && '/' !in FormatAmzDate(prim, seconds)[..8]
    ensures FormatAmzDate(prim, seconds) != ""
  {
    hide Pad;
  }

  lemma BehindSlash(front: string, field: string)
    requires ',' !in front && FieldText(field)
    ensures FieldText(front + "/" + field) && front + "/" + field == front + ("/" + field)
  {
    var s := front + "/" + field;
    assert s[|s| - 1] == field[|field| - 1];
  }

  lemma ServiceFits()
    ensures ',' !in SERVICE && '/' !in SERVICE && '/' !in TERMINATOR && FieldText(TERMINATOR)
  {
    assert |SERVICE| == 2 && |TERMINATOR| == 12 && TERMINATOR[11] == 't';
  }

  lemma CredentialFits(prim: Primitives, s: Signer)
    requires Writable(prim, s)
    ensures FieldText(s.accessKey + "/" + s.Scope(prim).Scope())
    ensures ParseCredential(s.accessKey + "/" + s.Scope(prim).Scope()) == Ok(s.Scope(prim))
  {
    DateHasNoComma(prim, s.at);
    ServiceFits();
    hide FormatAmzDate, CalendarInverts, Listed, ParseCredential, FieldText, SERVICE, TERMINATOR;
    var date := FormatAmzDate(prim, s.at)[..8];
    BehindSlash(SERVICE, TERMINATOR);
    BehindSlash(s.region, SERVICE + "/" + TERMINATOR);
    BehindSlash(date, s.region + "/" + (SERVICE + "/" + TERMINATOR));
    BehindSlash(s.accessKey, s.Scope(prim).Scope());
    CredentialReadsBack(s.accessKey, s.Scope(prim));
  }

  lemma SignatureFits(prim: Primitives, s: Signer, canonical: CanonicalRequest)
    requires s.Signature(prim, canonical) != ""
    ensures FieldText(s.Signature(prim, canonical))
    ensures ToLower(s.Signature(prim, canonical)) == s.Signature(prim, canonical)
  {
    hide ToHex, ToLower, StringToSign, DeriveSigningKey, FormatAmzDate;
    var signature := s.Signature(prim, canonical);
    assert Plain(signature);
    assert forall i :: 0 <= i < |signature| ==> Unreserved(signature[i]);
  }

  /** A request signed in its Authorization header is let in, as its signer's, exactly while the clocks are
      no further apart than the server allows. */
  lemma HeaderSignedIsAccepted(prim: Primitives, request: SigningRequest, s: Signer,
                               resolve: string -> Option<string>, options: AuthOptions)
    requires Writable(prim, s) && Bears(prim, request, s) && resolve(s.accessKey) == Some(s.secret)
    requires FindParam(Parse(request.query), SIGNATURE_PARAM) == None
    ensures
      var outcome := Authenticate(prim, request, Parse(request.query), resolve, options);
      && (outcome.Ok? <==> -options.skewSeconds <= options.nowSeconds - s.at <= options.skewSeconds)
      && (outcome.Err? ==> outcome.error == RequestTimeTooSkewed)
      && (outcome.Ok? ==> !outcome.value.presigned && !outcome.value.anonymous
                          && outcome.value.accessKey == s.accessKey)
  {
    hide FindParam, Parse, Writable, Bears, CheckClaim, HeaderClaim, PresignedClaim, ParseAuthorization,
      BuildCanonicalRequest, Signer.Authorization;
    ClaimBorne(prim, request, s, options);
    if -options.skewSeconds <= options.nowSeconds - s.at <= options.skewSeconds {
      BorneChecks(prim, request, s, resolve, options);
    }
    HeaderIsThere(prim, request, s);
  }

  lemma HeaderIsThere(prim: Primitives, request: SigningRequest, s: Signer)
    requires Bears(prim, request, s)
    ensures HeaderOf(request.headers, "authorization") != ""
  {
    assert |ALGORITHM| == 16;
    hide BuildCanonicalRequest, FormatAmzDate, HeaderOf, PayloadModeFor, Signer.Signature, Signer.Scope;
  }

  /** The claim such a request makes. */
  function ClaimOf(prim: Primitives, request: SigningRequest, s: Signer): Claim
    requires Bears(prim, request, s)
  {
    var content := HeaderOf(request.headers, "x-amz-content-sha256");
    var (payload, digest) := PayloadModeFor(content).value;
    Claim(false, s.accessKey + "/" + s.Scope(prim).Scope(), JoinNames(s.names),
          s.Signature(prim, BuildCanonicalRequest(request, s.names, content).value), FormatAmzDate(prim, s.at), content,
          payload, digest, content == STREAMING_SIGNED_TRAILER || content == STREAMING_UNSIGNED_TRAILER)
  }

  lemma ClaimBorne(prim: Primitives, request: SigningRequest, s: Signer, options: AuthOptions)
    requires Writable(prim, s) && Bears(prim, request, s)
    ensures HeaderClaim(prim, request, HeaderOf(request.headers, "authorization"), options)
         == if -options.skewSeconds <= options.nowSeconds - s.at <= options.skewSeconds
            then Ok(ClaimOf(prim, request, s)) else Err(RequestTimeTooSkewed)
  {
    var content := HeaderOf(request.headers, "x-amz-content-sha256");
    var built := BuildCanonicalRequest(request, s.names, content).value;
    CredentialFits(prim, s);
    SignatureFits(prim, s, built);
    DateRoundTrip(prim, s.at);
    DateHasNoComma(prim, s.at);
    NoContent();
    hide BuildCanonicalRequest, FormatAmzDate, HeaderOf, PayloadModeFor, Signer.Signature, Signer.Scope, FieldText,
      ParseAmzDate, ParseAuthorization, AuthorizationText, CalendarInverts, Listed, ToLower, ParseCredential;
    AuthorizationReadsBack(s.accessKey + "/" + s.Scope(prim).Scope(), JoinNames(s.names), s.Signature(prim, built));
  }

  lemma NoContent()
    ensures PayloadModeFor("").Err?
  {
  }

  lemma BorneChecks(prim: Primitives, request: SigningRequest, s: Signer, resolve: string -> Option<string>,
                    options: AuthOptions)
    requires Writable(prim, s) && Bears(prim, request, s) && resolve(s.accessKey) == Some(s.secret)
    ensures var checked := CheckClaim(prim, request, ClaimOf(prim, request, s), resolve, options);
      checked.Ok? && checked.value.accessKey == s.accessKey && !checked.value.presigned && !checked.value.anonymous
  {
    var content := HeaderOf(request.headers, "x-amz-content-sha256");
    var built := BuildCanonicalRequest(request, s.names, content).value;
    CredentialFits(prim, s);
    SignatureFits(prim, s, built);
    NamesReadBack(s.names);
    hide BuildCanonicalRequest, FormatAmzDate, HeaderOf, PayloadModeFor, FieldText, CheckClaim, RequestSignature,
      DeriveSigningKey, AuthorizationText, CalendarInverts, Listed, ToLower, ParseCredential, SplitSignedHeaders,
      CredentialScope.Scope, JoinNames;
    assert built.(method_ := built.method_) == built;
    CheckPasses(prim, request, ClaimOf(prim, request, s), resolve, options, s.Scope(prim), s.names, s.secret, built,
                built.method_);
  }
}
