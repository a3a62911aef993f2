/** AWS Signature Version 4: minting presigned URLs and verifying requests. The cryptography and
    the C library's calendar are parameters; everything the server itself does with them is here. */
module SigV4 {
  import opened Option
  import opened Text
  import opened Uri
  import opened Sorting
  import opened Query

  const ALGORITHM := "AWS4-HMAC-SHA256"
  const TERMINATOR := "aws4_request"
  const SERVICE := "s3"
  const UNSIGNED_PAYLOAD := "UNSIGNED-PAYLOAD"
  const STREAMING_SIGNED := "STREAMING-AWS4-HMAC-SHA256-PAYLOAD"
  const STREAMING_SIGNED_TRAILER := "STREAMING-AWS4-HMAC-SHA256-PAYLOAD-TRAILER"
  const STREAMING_UNSIGNED_TRAILER := "STREAMING-UNSIGNED-PAYLOAD-TRAILER"

  const P_ALGORITHM: Bytes := "X-Amz-Algorithm"
  const P_CREDENTIAL: Bytes := "X-Amz-Credential"
  const P_DATE: Bytes := "X-Amz-Date"
  const P_EXPIRES: Bytes := "X-Amz-Expires"
  const P_SIGNED_HEADERS: Bytes := "X-Amz-SignedHeaders"
  const SIGNATURE_PARAM: Bytes := "X-Amz-Signature"
  const MAX_EXPIRES: int := 604800

  datatype Error =
    | InvalidArgument
    | InvalidRequest
    | AccessDenied
    | MissingSecurityHeader
    | RequestTimeTooSkewed
    | InvalidAccessKeyId
    | SignatureDoesNotMatch

  datatype Civil = Civil(year: nat, month: nat, day: nat, hour: nat, minute: nat, second: nat)

  /** HMAC-SHA256, the hex SHA-256, gmtime, and timegm with the fields as it normalised them. */
  datatype Primitives = Primitives(
    hmac: (string, string) -> Bytes,
    sha256Hex: string -> string,
    gmtime: int -> Civil,
    timegm: Civil -> (int, Civil))

  // ----- Dates ---------------------------------------------------------------

  /** The lowest digits of a number, zeros in front. */
  function Pad(width: nat, n: nat): (s: string)
    ensures |s| == width && forall i :: 0 <= i < |s| ==> IsDigit(s[i])
  {
    if width == 0 then "" else Pad(width - 1, n / 10) + [DigitChar(n % 10)]
  }

  function FormatAmzDate(prim: Primitives, seconds: int): (s: Bytes)
    ensures |s| == 16
  {
    var t := prim.gmtime(seconds);
    Pad(4, t.year) + Pad(2, t.month) + Pad(2, t.day) + "T" + Pad(2, t.hour) + Pad(2, t.minute) + Pad(2, t.second) + "Z"
  }

  function Digits(s: string): Option<nat> {
    if forall i :: 0 <= i < |s| ==> IsDigit(s[i]) then Some(DigitsValue(s)) else None
  }

  function ParseAmzDate(prim: Primitives, text: string): Option<int> {
    if |text| != 16 || text[8] != 'T' || text[15] != 'Z' then None
    else
      var year, month, day := Digits(text[..4]), Digits(text[4..6]), Digits(text[6..8]);
      var hour, minute, second := Digits(text[9..11]), Digits(text[11..13]), Digits(text[13..15]);
      if year == None || month == None || day == None || hour == None || minute == None || second == None then None
      else
        var t := Civil(year.value, month.value, day.value, hour.value, minute.value, second.value);
        var (stamp, back) := prim.timegm(t);
        if stamp == -1 || back.year != t.year || back.month != t.month || back.day != t.day then None
        else Some(stamp)
  }

  /** The library's calendar calls invert each other at this instant. The year is one four digits
      hold, and the instant is not the one timegm cannot tell from failure. */
  predicate CalendarInverts(prim: Primitives, seconds: int) {
    var t := prim.gmtime(seconds);
    && seconds != -1 && prim.timegm(t) == (seconds, t)
    && t.year < 10000 && t.month < 100 && t.day < 100 && t.hour < 100 && t.minute < 100 && t.second < 100
  }

  lemma PadValue4(n: nat)
    requires n < 10000
    ensures DigitsValue(Pad(4, n)) == n
  {
    hide Pad, DigitsValue;
    PadValue2(n / 100);
    PadStep(n, 4);
    PadStep(n / 10, 3);
    assert n / 10 / 10 == n / 100;
  }

  lemma PadValue2(n: nat)
    requires n < 100
    ensures DigitsValue(Pad(2, n)) == n
  {
    PadStep(n, 2);
    PadStep(n / 10, 1);
  }

  lemma PadStep(n: nat, width: nat)
    requires width > 0
    ensures DigitsValue(Pad(width, n)) == 10 * DigitsValue(Pad(width - 1, n / 10)) + n % 10
  {
    var s := Pad(width, n);
    assert s[..width - 1] == Pad(width - 1, n / 10);
  }

  lemma DateRoundTrip(prim: Primitives, seconds: int)
    requires CalendarInverts(prim, seconds)
    ensures ParseAmzDate(prim, FormatAmzDate(prim, seconds)) == Some(seconds)
  {
    var t, text := prim.gmtime(seconds), FormatAmzDate(prim, seconds);
    hide Pad, DigitsValue, FormatAmzDate;
    DateParts(prim, seconds);
    PadValue4(t.year);
    PadValue2(t.month);
    PadValue2(t.day);
    PadValue2(t.hour);
    PadValue2(t.minute);
    PadValue2(t.second);
  }

  lemma DateParts(prim: Primitives, seconds: int)
    ensures var t := prim.gmtime(seconds); var text := FormatAmzDate(prim, seconds);
      && |text| == 16 && text[8] == 'T' && text[15] == 'Z'
      && text[..4] == Pad(4, t.year) && text[4..6] == Pad(2, t.month) && text[6..8] == Pad(2, t.day)
      && text[9..11] == Pad(2, t.hour) && text[11..13] == Pad(2, t.minute) && text[13..15] == Pad(2, t.second)
  {
    hide Pad;
  }

  // ----- Requests ------------------------------------------------------------

  /** One HTTP request, reduced to what a signature covers. Header names are lowercased. */
  datatype SigningRequest = SigningRequest(method_: string, uri: string, query: Bytes, headers: seq<(string, string)>)

  /** The first value under the name, empty when there is none. */
  function HeaderOf(headers: seq<(string, string)>, name: string): string {
    if headers == [] then "" else if headers[0].0 == name then headers[0].1 else HeaderOf(headers[1..], name)
  }

  predicate HasHeader(headers: seq<(string, string)>, name: string) {
    exists i :: 0 <= i < |headers| && headers[i].0 == name
  }

  /** Ends trimmed and inner runs of blanks collapsed. `started` says whether anything was
      written yet, `pending` that a blank is owed before the next character. */
  function Trimall(s: string, started: bool, pending: bool): string {
    if s == "" then ""
    else if s[0] == ' ' || s[0] == '\t' then Trimall(s[1..], started, started)
    else (if pending then " " else "") + [s[0]] + Trimall(s[1..], true, false)
  }

  function CanonicalHeaderValue(s: string): string {
    Trimall(s, false, false)
  }

  /** Splits at ';', drops empty names, lowercases the rest. */
  function SplitSignedHeaders(list: string): seq<string>
    decreases |list|
  {
    var sep := IndexOf(list, ';');
    var rest := if sep == |list| then [] else SplitSignedHeaders(list[sep + 1..]);
    if sep > 0 then [ToLower(list[..sep])] + rest else rest
  }

  datatype CanonicalRequest = CanonicalRequest(
    method_: string, uri: string, query: string, headers: string, signedHeaders: string, payloadHash: string)
  {
    function Render(): string {
      method_ + "\n" + uri + "\n" + query + "\n" + headers + "\n" + signedHeaders + "\n" + payloadHash
    }
  }

  function SortNames(names: seq<string>): seq<string> {
    Sort((a, b) => Less(a, b), names)
  }

  /** Neighbours that are equal become one. */
  function Unique(names: seq<string>): seq<string> {
    if |names| < 2 then names
    else if names[0] == names[1] then Unique(names[1..])
    else [names[0]] + Unique(names[1..])
  }

  /** Each line `name:value`, or the name the client signed and did not send. */
  function HeaderLines(headers: seq<(string, string)>, names: seq<string>): Result<string, Error> {
    if names == [] then Ok("")
    else if !HasHeader(headers, names[0]) then Err(SignatureDoesNotMatch)
    else
      var rest :- HeaderLines(headers, names[1..]);
      Ok(names[0] + ":" + CanonicalHeaderValue(HeaderOf(headers, names[0])) + "\n" + rest)
  }

  function JoinNames(names: seq<string>): string {
    if names == [] then ""
    else
      var before, last := JoinNames(names[..|names| - 1]), names[|names| - 1];
      if before == "" then last else before + ";" + last
  }

  function CanonicalUri(uri: string): string {
    if uri == "" then "/" else uri
  }

  function BuildCanonicalRequest(request: SigningRequest, signedHeaders: seq<string>, payloadHash: string)
    : Result<CanonicalRequest, Error>
  {
    var names := Unique(SortNames(signedHeaders));
    var lines :- HeaderLines(request.headers, names);
    Ok(CanonicalRequest(request.method_, CanonicalUri(request.uri), Canonical(Parse(request.query), SIGNATURE_PARAM),
                        lines, JoinNames(names), payloadHash))
  }

  // ----- Signing -------------------------------------------------------------

  const LOWER_HEX := "0123456789abcdef"

  function ToHex(raw: Bytes): (s: string)
    ensures Plain(s) && ToLower(s) == s
  {
    if raw == "" then ""
    else
      var s := [LOWER_HEX[raw[0] as int / 16], LOWER_HEX[raw[0] as int % 16]] + ToHex(raw[1..]);
      s
  }

  function DeriveSigningKey(prim: Primitives, secret: string, dateStamp: string, region: string,
                            service: string): string
  {
    prim.hmac(prim.hmac(prim.hmac(prim.hmac("AWS4" + secret, dateStamp), region), service), TERMINATOR)
  }

  function StringToSign(amzDate: string, scope: string, requestHash: string): string {
    ALGORITHM + "\n" + amzDate + "\n" + scope + "\n" + requestHash
  }

  function Sign(prim: Primitives, key: string, toSign: string): string {
    ToHex(prim.hmac(key, toSign))
  }

  /** The signature of a canonical request under a key. */
  function RequestSignature(prim: Primitives, key: string, amzDate: string, scope: string,
                            canonical: CanonicalRequest): string
  {
    Sign(prim, key, StringToSign(amzDate, scope, prim.sha256Hex(canonical.Render())))
  }

  // ----- Credentials ---------------------------------------------------------

  datatype CredentialScope = CredentialScope(
    accessKey: string, dateStamp: string, region: string, service: string, terminator: string)
  {
    function Scope(): string {
      dateStamp + "/" + (region + "/" + (service + "/" + terminator))
    }
  }

  /** The first n parts between slashes; what follows the n-th is ignored. */
  function SlashParts(text: string, n: nat): Result<seq<string>, Error>
    requires n > 0
    decreases n
  {
    var sep := IndexOf(text, '/');
    if n == 1 then Ok([text[..sep]])
    else if sep == |text| then Err(InvalidArgument)
    else
      var rest :- SlashParts(text[sep + 1..], n - 1);
      Ok([text[..sep]] + rest)
  }

  lemma {:induction false} SlashPartsCount(text: string, n: nat)
    requires n > 0
    ensures SlashParts(text, n).Ok? ==> |SlashParts(text, n).value| == n
    decreases n
  {
    var sep := IndexOf(text, '/');
    if n > 1 && sep < |text| {
      SlashPartsCount(text[sep + 1..], n - 1);
    }
  }

  function ParseCredential(text: string): Result<CredentialScope, Error> {
    var p :- SlashParts(text, 5);
    SlashPartsCount(text, 5);
    Ok(CredentialScope(p[0], p[1], p[2], p[3], p[4]))
  }

  // ----- The Authorization header --------------------------------------------

  datatype AuthorizationHeader = AuthorizationHeader(credential: string, signedHeaders: string, signature: string)

  function SkipSeparators(s: string): string {
    if s != "" && (s[0] == ' ' || s[0] == ',') then SkipSeparators(s[1..]) else s
  }

  lemma {:induction false} SkipShortens(s: string)
    ensures |SkipSeparators(s)| <= |s|
  {
    if s != "" && (s[0] == ' ' || s[0] == ',') {
      SkipShortens(s[1..]);
    }
  }

  function TrimRight(s: string): string {
    if s != "" && s[|s| - 1] == ' ' then TrimRight(s[..|s| - 1]) else s
  }

  /** `name=value` fields, later ones overwriting earlier ones. A field ends at the first comma
      behind its '='. */
  function AuthorizationFields(text: string, header: AuthorizationHeader): AuthorizationHeader
    decreases |text|
  {
    SkipShortens(text);
    var s := SkipSeparators(text);
    var eq := IndexOf(s, '=');
    if eq == |s| then header
    else
      var end := eq + 1 + IndexOf(s[eq + 1..], ',');
      var name, field := s[..eq], TrimRight(s[eq + 1..end]);
      var next :=
        if name == "Credential" then header.(credential := field)
        else if name == "SignedHeaders" then header.(signedHeaders := field)
        else if name == "Signature" then header.(signature := field)
        else header;
      if end == |s| then next else AuthorizationFields(s[end + 1..], next)
  }

  function ParseAuthorization(value: string): Result<AuthorizationHeader, Error> {
    if !(ALGORITHM <= value) then Err(InvalidRequest)
    else
      var header := AuthorizationFields(value[|ALGORITHM|..], AuthorizationHeader("", "", ""));
      if header.credential == "" || header.signedHeaders == "" || header.signature == "" then Err(InvalidRequest)
      else Ok(header)
  }

  // ----- Verification --------------------------------------------------------

  datatype PayloadMode = Signed | Unsigned | StreamingSigned | StreamingUnsigned

  predicate IsHexDigit(c: char) {
    '0' <= c <= '9' || 'a' <= c <= 'f' || 'A' <= c <= 'F'
  }

  /** How the body is authenticated, and the digest it must have when that is by digest. */
  function PayloadModeFor(contentSha256: string): Result<(PayloadMode, string), Error> {
    if contentSha256 == UNSIGNED_PAYLOAD then Ok((Unsigned, ""))
    else if contentSha256 == STREAMING_SIGNED
        || contentSha256 == STREAMING_SIGNED_TRAILER then Ok((StreamingSigned, ""))
    else if contentSha256 == STREAMING_UNSIGNED_TRAILER then Ok((StreamingUnsigned, ""))
    else if |contentSha256| != 64 || !(forall i :: 0 <= i < 64 ==> IsHexDigit(contentSha256[i]))
        then Err(InvalidArgument)
    else Ok((Signed, ToLower(contentSha256)))
  }

  /** `alternateMethod` is a second method the client may have signed; empty means none. */
  datatype AuthOptions = AuthOptions(nowSeconds: int, skewSeconds: int, alternateMethod: string)

  datatype AuthOutcome = AuthOutcome(
    anonymous: bool, presigned: bool, accessKey: string, method_: string, payload: PayloadMode,
    trailerExpected: bool, payloadSha256: string, scope: string, amzDate: string, signature: string, signingKey: string)

  const ANONYMOUS := AuthOutcome(true, false, "", "", Unsigned, false, "", "", "", "", "")

  /** What a request claims, before its signature is looked at. */
  datatype Claim = Claim(
    presigned: bool, credential: string, signedHeaders: string, signature: string, amzDate: string,
    payloadHash: string, payload: PayloadMode, payloadSha256: string, trailerExpected: bool)

  function ExpiresOf(query: seq<QueryParam>): int {
    var param := FindParam(query, P_EXPIRES);
    if param == None then 0
    else
      var number := Stoll(param.value);
      if number == None then -1 else number.value
  }

  function PresignedClaim(prim: Primitives, query: seq<QueryParam>, signature: string,
                          options: AuthOptions): Result<Claim, Error>
  {
    var algorithm := FindParam(query, P_ALGORITHM);
    var credential := FindParam(query, P_CREDENTIAL);
    var date := FindParam(query, P_DATE);
    var signedHeaders := FindParam(query, P_SIGNED_HEADERS);
    if algorithm != Some(ALGORITHM) || credential == None || date == None
        || signedHeaders == None then Err(InvalidArgument)
    else
      var signedAt := ParseAmzDate(prim, date.value);
      var expires := ExpiresOf(query);
      if signedAt == None || expires <= 0 || expires > MAX_EXPIRES then Err(InvalidArgument)
      else if options.nowSeconds > signedAt.value + expires then Err(AccessDenied)
      else if signedAt.value - options.nowSeconds > options.skewSeconds then Err(AccessDenied)
      else Ok(Claim(true, credential.value, signedHeaders.value, signature, date.value,
                    UNSIGNED_PAYLOAD, Unsigned, "", false))
  }

  function HeaderClaim(prim: Primitives, request: SigningRequest, authorization: string,
                       options: AuthOptions): Result<Claim, Error>
  {
    var header :- ParseAuthorization(authorization);
    var dated := HeaderOf(request.headers, "x-amz-date");
    var amzDate := if dated == "" then HeaderOf(request.headers, "date") else dated;
    if amzDate == "" then Err(MissingSecurityHeader)
    else
      var signedAt := ParseAmzDate(prim, amzDate);
      if signedAt == None then Err(InvalidArgument)
      else
        var drift := if options.nowSeconds > signedAt.value then options.nowSeconds - signedAt.value
                     else signedAt.value - options.nowSeconds;
        var contentSha256 := HeaderOf(request.headers, "x-amz-content-sha256");
        if drift > options.skewSeconds then Err(RequestTimeTooSkewed)
        else if contentSha256 == "" then Err(MissingSecurityHeader)
        else
          var (payload, digest) :- PayloadModeFor(contentSha256);
          Ok(Claim(false, header.credential, header.signedHeaders, header.signature, amzDate, contentSha256, payload,
                   digest, contentSha256 == STREAMING_SIGNED_TRAILER || contentSha256 == STREAMING_UNSIGNED_TRAILER))
  }

  /** The part both forms share: the scope, the secret, and the signature computed afresh. */
  function CheckClaim(prim: Primitives, request: SigningRequest, claim: Claim, resolve: string -> Option<string>,
                      options: AuthOptions): Result<AuthOutcome, Error>
  {
    var scope :- ParseCredential(claim.credential);
    var secret := resolve(scope.accessKey);
    var signedHeaders := SplitSignedHeaders(claim.signedHeaders);
    if scope.service != SERVICE || scope.terminator != TERMINATOR then Err(InvalidArgument)
    else if claim.amzDate[..if |claim.amzDate| < 8 then |claim.amzDate| else 8] != scope.dateStamp
        then Err(InvalidArgument)
    else if secret == None then Err(InvalidAccessKeyId)
    else if "host" !in signedHeaders then Err(SignatureDoesNotMatch)
    else
      var key := DeriveSigningKey(prim, secret.value, scope.dateStamp, scope.region, scope.service);
      var canonical :- BuildCanonicalRequest(request, signedHeaders, claim.payloadHash);
      var expected := ToLower(claim.signature);
      var first := RequestSignature(prim, key, claim.amzDate, scope.Scope(), canonical);
      var second := RequestSignature(prim, key, claim.amzDate, scope.Scope(),
                                     canonical.(method_ := options.alternateMethod));
      var outcome := AuthOutcome(false, claim.presigned, scope.accessKey, request.method_, claim.payload,
                                 claim.trailerExpected,
                                 claim.payloadSha256, scope.Scope(), claim.amzDate, first, key);
      if first == expected then Ok(outcome)
      else if options.alternateMethod != "" && second == expected then
        Ok(outcome.(method_ := options.alternateMethod, signature := second))
      else Err(SignatureDoesNotMatch)
  }

  function Authenticate(prim: Primitives, request: SigningRequest, query: seq<QueryParam>,
                        resolve: string -> Option<string>, options: AuthOptions): Result<AuthOutcome, Error>
  {
    var authorization := HeaderOf(request.headers, "authorization");
    var signature := FindParam(query, SIGNATURE_PARAM);
    if authorization == "" && signature == None then Ok(ANONYMOUS)
    else
      var claim :- if signature.Some? then PresignedClaim(prim, query, signature.value, options)
                   else HeaderClaim(prim, request, authorization, options);
      CheckClaim(prim, request, claim, resolve, options)
  }

  // ----- Presigning ----------------------------------------------------------

  datatype Credentials = Credentials(accessKey: Bytes, secretKey: string)

  datatype PresignRequest = PresignRequest(
    method_: string, host: string, uri: string, region: Bytes, nowSeconds: int, expiresSeconds: int)

  function PresignScope(prim: Primitives, request: PresignRequest): CredentialScope {
    CredentialScope("", FormatAmzDate(prim, request.nowSeconds)[..8], request.region, SERVICE, TERMINATOR)
  }

  lemma DigitsOctets(s: string)
    requires forall i :: 0 <= i < |s| ==> IsDigit(s[i])
    ensures Octets(s)
  {
  }

  lemma ScopeOctets(prim: Primitives, request: PresignRequest)
    ensures Octets(PresignScope(prim, request).Scope())
  {
    hide FormatAmzDate;
    var date: Bytes, service: Bytes, terminator: Bytes := FormatAmzDate(prim, request.nowSeconds)[..8], SERVICE,
        TERMINATOR;
  }

  function PresignParams(prim: Primitives, request: PresignRequest, credentials: Credentials): seq<QueryParam>
    requires 0 < request.expiresSeconds
  {
    var amzDate := FormatAmzDate(prim, request.nowSeconds);
    var credential := credentials.accessKey + "/" + PresignScope(prim, request).Scope();
    ScopeOctets(prim, request);
    DigitsOctets(Decimal(request.expiresSeconds));
    [QueryParam(P_ALGORITHM, ALGORITHM, true),
     QueryParam(P_CREDENTIAL, credential, true),
     QueryParam(P_DATE, amzDate, true),
     QueryParam(P_EXPIRES, Decimal(request.expiresSeconds), true),
     QueryParam(P_SIGNED_HEADERS, "host", true)]
  }

  function PresignQuery(prim: Primitives, request: PresignRequest, credentials: Credentials): Result<string, Error> {
    if request.expiresSeconds <= 0 || request.expiresSeconds > MAX_EXPIRES then Err(InvalidArgument)
    else if request.host == "" then Err(InvalidArgument)
    else
      var params := PresignParams(prim, request, credentials);
      var query := Canonical(params, "");
      CanonicalIsFixed(params);
      var signing := SigningRequest(request.method_, request.uri, query, [("host", request.host)]);
      var canonical :- BuildCanonicalRequest(signing, ["host"], UNSIGNED_PAYLOAD);
      var scope := PresignScope(prim, request);
      var key := DeriveSigningKey(prim, credentials.secretKey, scope.dateStamp, scope.region, SERVICE);
      var signature := RequestSignature(prim, key, FormatAmzDate(prim, request.nowSeconds), scope.Scope(), canonical);
      Ok(query + "&" + Item(Encoded(SIGNATURE_PARAM, signature)))
  }

  // ----- A minted URL, taken apart --------------------------------------------

  lemma NamesArePlain()
    ensures Plain(P_ALGORITHM) && Plain(P_CREDENTIAL)
  {
  }

  lemma OtherNamesArePlain()
    ensures Plain(P_DATE) && Plain(P_EXPIRES) && Plain(P_SIGNED_HEADERS)
  {
  }

  lemma SignatureIsPlain()
    ensures Plain(SIGNATURE_PARAM)
  {
  }

  lemma NamesInOrder()
    ensures Less(P_ALGORITHM, P_CREDENTIAL) && Less(P_CREDENTIAL, P_DATE)
    ensures Less(P_DATE, P_EXPIRES) && Less(P_EXPIRES, P_SIGNED_HEADERS)
    ensures Less(P_ALGORITHM, P_DATE) && Less(P_ALGORITHM, P_EXPIRES)
    ensures Less(P_ALGORITHM, P_SIGNED_HEADERS) && Less(P_CREDENTIAL, P_EXPIRES)
    ensures Less(P_CREDENTIAL, P_SIGNED_HEADERS) && Less(P_DATE, P_SIGNED_HEADERS)
  {
    hide Less;
    LessAt(P_ALGORITHM, P_CREDENTIAL, 6);
    LessAt(P_CREDENTIAL, P_DATE, 6);
    LessAt(P_DATE, P_EXPIRES, 6);
    LessAt(P_EXPIRES, P_SIGNED_HEADERS, 6);
    LessTransitive(P_ALGORITHM, P_CREDENTIAL, P_DATE);
    LessTransitive(P_ALGORITHM, P_DATE, P_EXPIRES);
    LessTransitive(P_ALGORITHM, P_EXPIRES, P_SIGNED_HEADERS);
    LessTransitive(P_CREDENTIAL, P_DATE, P_EXPIRES);
    LessTransitive(P_CREDENTIAL, P_EXPIRES, P_SIGNED_HEADERS);
    LessTransitive(P_DATE, P_EXPIRES, P_SIGNED_HEADERS);
  }

  lemma NamesApart()
    ensures P_ALGORITHM != SIGNATURE_PARAM && P_CREDENTIAL != SIGNATURE_PARAM
    ensures P_DATE != SIGNATURE_PARAM && P_EXPIRES != SIGNATURE_PARAM
    ensures P_SIGNED_HEADERS != SIGNATURE_PARAM
    ensures P_ALGORITHM != P_CREDENTIAL && P_ALGORITHM != P_DATE
    ensures P_ALGORITHM != P_EXPIRES && P_ALGORITHM != P_SIGNED_HEADERS
    ensures P_CREDENTIAL != P_DATE && P_CREDENTIAL != P_EXPIRES
    ensures P_CREDENTIAL != P_SIGNED_HEADERS && P_DATE != P_EXPIRES
    ensures P_DATE != P_SIGNED_HEADERS && P_EXPIRES != P_SIGNED_HEADERS
  {
    assert |P_ALGORITHM| == 15 && |P_CREDENTIAL| == 16 && |P_DATE| == 10;
    assert |P_EXPIRES| == 13 && |P_SIGNED_HEADERS| == 19 && |SIGNATURE_PARAM| == 15;
    assert P_ALGORITHM[6] == 'A' && SIGNATURE_PARAM[6] == 'S';
  }

  /** The query of a minted URL reads back as the parameters it was made from. */
  lemma ReadsBack(params: seq<QueryParam>)
    requires FiveInOrder(params) && NamesDiffer(params, SIGNATURE_PARAM)
    ensures Octets(Canonical(params, "")) && Parse(Canonical(params, "")) == params
    ensures Canonical(params, SIGNATURE_PARAM) == Canonical(params, "")
  {
    hide Encode, Less, Parse, Render, SortItems, Octets;
    OrderedReadBack(params);
    EncodedEach(params, "");
    EncodedEach(params, SIGNATURE_PARAM);
    assert EncodeParams(params, SIGNATURE_PARAM) == EncodeParams(params, "");
  }

  /** Five parameters whose names need no encoding and come in order. */
  predicate FiveInOrder(params: seq<QueryParam>) {
    && |params| == 5
    && (forall i :: 0 <= i < 5 ==> params[i].hasValue && Encode(params[i].name, true) == params[i].name)
    && (forall i, j :: 0 <= i < j < 5 ==> Less(params[i].name, params[j].name))
  }

  lemma FiveFromEach(p: seq<QueryParam>)
    requires |p| == 5 && p[0].hasValue && p[1].hasValue && p[2].hasValue && p[3].hasValue && p[4].hasValue
    requires Encode(p[0].name, true) == p[0].name && Encode(p[1].name, true) == p[1].name
    requires Encode(p[2].name, true) == p[2].name && Encode(p[3].name, true) == p[3].name
             && Encode(p[4].name, true) == p[4].name
    requires Less(p[0].name, p[1].name) && Less(p[0].name, p[2].name) && Less(p[0].name, p[3].name)
             && Less(p[0].name, p[4].name)
    requires Less(p[1].name, p[2].name) && Less(p[1].name, p[3].name) && Less(p[1].name, p[4].name)
    requires Less(p[2].name, p[3].name) && Less(p[2].name, p[4].name) && Less(p[3].name, p[4].name)
    ensures FiveInOrder(p)
  {
    hide Encode, Less;
  }

  lemma ParamNames(prim: Primitives, request: PresignRequest, credentials: Credentials)
    requires 0 < request.expiresSeconds
    ensures var params := PresignParams(prim, request, credentials);
      FiveInOrder(params) && NamesDiffer(params, SIGNATURE_PARAM)
  {
    NamesApart();
    PlainNames();
    NamesInOrder();
    hide Encode, Less, FiveInOrder, Pad, FormatAmzDate, Decimal;
    FiveFromEach(PresignParams(prim, request, credentials));
  }

  lemma PlainNames()
    ensures Encode(P_ALGORITHM, true) == P_ALGORITHM && Encode(P_CREDENTIAL, true) == P_CREDENTIAL
    ensures Encode(P_DATE, true) == P_DATE && Encode(P_EXPIRES, true) == P_EXPIRES
    ensures Encode(P_SIGNED_HEADERS, true) == P_SIGNED_HEADERS
  {
    hide Encode, Unreserved;
    NamesArePlain();
    OtherNamesArePlain();
    PlainEncode(P_ALGORITHM);
    PlainEncode(P_CREDENTIAL);
    PlainEncode(P_DATE);
    PlainEncode(P_EXPIRES);
    PlainEncode(P_SIGNED_HEADERS);
  }

  predicate PresignNames(p: seq<QueryParam>) {
    && |p| == 5 && p[0].name == P_ALGORITHM && p[1].name == P_CREDENTIAL && p[2].name == P_DATE
    && p[3].name == P_EXPIRES && p[4].name == P_SIGNED_HEADERS
  }

  lemma LooksUp(p: seq<QueryParam>, last: QueryParam)
    requires PresignNames(p) && last.name == SIGNATURE_PARAM
    ensures FindParam(p + [last], P_ALGORITHM) == Some(p[0].value)
    ensures FindParam(p + [last], P_CREDENTIAL) == Some(p[1].value)
    ensures FindParam(p + [last], P_DATE) == Some(p[2].value)
    ensures FindParam(p + [last], P_EXPIRES) == Some(p[3].value)
    ensures FindParam(p + [last], P_SIGNED_HEADERS) == Some(p[4].value)
    ensures FindParam(p + [last], SIGNATURE_PARAM) == Some(last.value)
  {
    NamesApart();
    hide FindParam;
    var q := p + [last];
    FindAt(q, 0);
    FindAt(q, 1);
    FindAt(q, 2);
    FindAt(q, 3);
    FindAt(q, 4);
    FindAt(q, 5);
  }

  // ----- The credential scope, written and read --------------------------------

  lemma SlashStep(first: string, rest: string, n: nat)
    requires '/' !in first && n > 1
    ensures SlashParts(first + ['/'] + rest, n)
         == match SlashParts(rest, n - 1) case Ok(parts) => Ok([first] + parts) case Err(e) => Err(e)
  {
    IndexOfAfter(first, '/', rest);
    hide IndexOf;
  }

  lemma ScopeParts(scope: CredentialScope)
    requires '/' !in scope.dateStamp && '/' !in scope.region
    requires '/' !in scope.service && '/' !in scope.terminator
    ensures SlashParts(scope.Scope(), 4) == Ok([scope.dateStamp, scope.region, scope.service, scope.terminator])
  {
    var s4, s3 := scope.terminator, scope.service + "/" + scope.terminator;
    LastPart(s4);
    hide SlashParts, IndexOf;
    SlashStep(scope.service, s4, 2);
    SlashStep(scope.region, s3, 3);
    SlashStep(scope.dateStamp, scope.region + "/" + s3, 4);
    FourParts(scope.dateStamp, scope.region, scope.service, s4);
  }

  lemma FourParts<T>(a: T, b: T, c: T, d: T)
    ensures [a] + ([b] + ([c] + [d])) == [a, b, c, d]
  {
  }

  lemma CredentialReadsBack(accessKey: string, scope: CredentialScope)
    requires '/' !in accessKey && '/' !in scope.dateStamp && '/' !in scope.region
    requires '/' !in scope.service && '/' !in scope.terminator
    ensures ParseCredential(accessKey + "/" + scope.Scope()) == Ok(scope.(accessKey := accessKey))
  {
    ScopeParts(scope);
    hide SlashParts, CredentialScope.Scope;
    SlashStep(accessKey, scope.Scope(), 5);
  }

  lemma LastPart(text: string)
    requires '/' !in text
    ensures SlashParts(text, 1) == Ok([text])
  {
    IndexOfIs(text, '/', |text|);
    assert text[..|text|] == text;
  }

  // ----- The host header -------------------------------------------------------

  lemma OnlyHost(request: SigningRequest, payloadHash: string)
    requires HasHeader(request.headers, "host")
    ensures SplitSignedHeaders("host") == ["host"]
    ensures BuildCanonicalRequest(request, ["host"], payloadHash)
         == Ok(CanonicalRequest(request.method_, CanonicalUri(request.uri),
                                Canonical(Parse(request.query), SIGNATURE_PARAM),
                 "host" + ":" + CanonicalHeaderValue(HeaderOf(request.headers, "host")) + "\n" + "", "host",
                     payloadHash))
  {
    IndexOfIs("host", ';', 4);
    assert "host"[..4] == "host";
    assert ToLower("host") == "host";
    assert Sort((a, b) => Less(a, b), ["host"]) == ["host"];
    assert HeaderLines(request.headers, []) == Ok("");
    assert ["host"][1..] == [] && ["host"][..0] == [];
    assert JoinNames(["host"]) == "host";
  }

  // ----- The theorem -----------------------------------------------------------

  /** The canonical request a minted URL's signature covers. */
  function MintedCanonical(request: PresignRequest, query: string): CanonicalRequest {
    CanonicalRequest(request.method_, CanonicalUri(request.uri), query,
                     "host" + ":" + CanonicalHeaderValue(request.host) + "\n" + "", "host", UNSIGNED_PAYLOAD)
  }

  function MintedKey(prim: Primitives, request: PresignRequest, credentials: Credentials): string {
    DeriveSigningKey(prim, credentials.secretKey, FormatAmzDate(prim, request.nowSeconds)[..8], request.region, SERVICE)
  }

  function MintedSignature(prim: Primitives, request: PresignRequest, credentials: Credentials): string
    requires 0 < request.expiresSeconds
  {
    RequestSignature(prim, MintedKey(prim, request, credentials), FormatAmzDate(prim, request.nowSeconds),
                     PresignScope(prim, request).Scope(),
                     MintedCanonical(request, Canonical(PresignParams(prim, request, credentials), "")))
  }

  lemma SignatureShape(prim: Primitives, request: PresignRequest, credentials: Credentials)
    requires 0 < request.expiresSeconds
    ensures Plain(MintedSignature(prim, request, credentials))
    ensures ToLower(MintedSignature(prim, request, credentials)) == MintedSignature(prim, request, credentials)
  {
    hide ToHex, ToLower, Plain;
  }

  function Minted(prim: Primitives, request: PresignRequest, credentials: Credentials): string
    requires 0 < request.expiresSeconds
  {
    Canonical(PresignParams(prim, request, credentials), "")
      + "&" + Item(Encoded(SIGNATURE_PARAM, MintedSignature(prim, request, credentials)))
  }

  lemma MintedIs(prim: Primitives, request: PresignRequest, credentials: Credentials)
    requires 0 < request.expiresSeconds <= MAX_EXPIRES && request.host != ""
    ensures PresignQuery(prim, request, credentials) == Ok(Minted(prim, request, credentials))
  {
    ParamNames(prim, request, credentials);
    hide PresignParams, Canonical, Parse, Sign, FiveInOrder, Octets, Item, DeriveSigningKey, FormatAmzDate,
      BuildCanonicalRequest, HasHeader, CanonicalHeaderValue, HeaderOf, NamesDiffer;
    ReadsBack(PresignParams(prim, request, credentials));
    SignsHost(request, Canonical(PresignParams(prim, request, credentials), ""));
  }

  lemma SignsHost(request: PresignRequest, query: Bytes)
    requires Canonical(Parse(query), SIGNATURE_PARAM) == query
    ensures BuildCanonicalRequest(SigningRequest(request.method_, request.uri, query, [("host", request.host)]),
                                  ["host"], UNSIGNED_PAYLOAD)
         == Ok(MintedCanonical(request, query))
  {
    hide Canonical, Parse, CanonicalHeaderValue, HeaderOf, HasHeader, BuildCanonicalRequest;
    HostGiven(request.host);
    OnlyHost(SigningRequest(request.method_, request.uri, query, [("host", request.host)]), UNSIGNED_PAYLOAD);
  }

  /** What the verifier reads from it: the parameters, the signature behind them, and, with the
      signature left out, the very query that was signed. */
  lemma MintedReads(prim: Primitives, request: PresignRequest, credentials: Credentials)
    requires 0 < request.expiresSeconds
    ensures var params := PresignParams(prim, request, credentials);
      var signature := MintedSignature(prim, request, credentials);
      var minted := Minted(prim, request, credentials);
      && Octets(minted) && Octets(signature)
      && Parse(minted) == params + [QueryParam(SIGNATURE_PARAM, signature, true)]
      && Canonical(Parse(minted), SIGNATURE_PARAM) == Canonical(params, "")
  {
    var params := PresignParams(prim, request, credentials);
    ParamNames(prim, request, credentials);
    ReadsBack(params);
    SignatureShape(prim, request, credentials);
    SignatureIsPlain();
    hide PresignParams, Canonical, Parse, FiveInOrder, Item, MintedSignature;
    SignatureDropsOut(params, SIGNATURE_PARAM, MintedSignature(prim, request, credentials));
  }

  lemma HostGiven(host: string)
    ensures HasHeader([("host", host)], "host") && HeaderOf([("host", host)], "host") == host
  {
    assert [("host", host)][0].0 == "host";
  }

  predicate InWindow(request: PresignRequest, options: AuthOptions) {
    && options.nowSeconds <= request.nowSeconds + request.expiresSeconds
    && request.nowSeconds - options.nowSeconds <= options.skewSeconds
  }

  lemma MintedClaim(prim: Primitives, request: PresignRequest, credentials: Credentials, last: QueryParam,
                    options: AuthOptions)
    requires 0 < request.expiresSeconds <= MAX_EXPIRES && CalendarInverts(prim, request.nowSeconds)
    requires last.name == SIGNATURE_PARAM && last.value == MintedSignature(prim, request, credentials)
    ensures var query := PresignParams(prim, request, credentials) + [last];
      && FindParam(query, SIGNATURE_PARAM) == Some(last.value)
      && PresignedClaim(prim, query, last.value, options)
        == if InWindow(request, options) then Ok(ClaimMade(prim, request, credentials)) else Err(AccessDenied)
  {
    hide FindParam, FormatAmzDate, ParseAmzDate, Stoll, Decimal, CredentialScope.Scope, MintedSignature, PresignParams,
      PresignedClaim, PresignNames, CalendarInverts, Octets;
    var p := PresignParams(prim, request, credentials);
    MintedLookups(prim, request, credentials, last);
    StollOfDecimal(request.expiresSeconds);
    DateRoundTrip(prim, request.nowSeconds);
    ClaimFromParams(prim, p + [last], last.value, options, p[1].value, p[2].value, p[3].value, p[4].value,
                    request.nowSeconds, request.expiresSeconds);
  }

  /** What a verifier finds under each name in a minted query. */
  lemma MintedLookups(prim: Primitives, request: PresignRequest, credentials: Credentials, last: QueryParam)
    requires 0 < request.expiresSeconds && last.name == SIGNATURE_PARAM
    ensures var p := PresignParams(prim, request, credentials); var query := p + [last];
      && |p| == 5 && p[2].value == FormatAmzDate(prim, request.nowSeconds)
          && p[3].value == Decimal(request.expiresSeconds)
      && p[1].value == credentials.accessKey + "/" + PresignScope(prim, request).Scope() && p[4].value == "host"
      && FindParam(query, P_ALGORITHM) == Some(ALGORITHM) && FindParam(query, P_CREDENTIAL) == Some(p[1].value)
      && FindParam(query, P_DATE) == Some(p[2].value) && FindParam(query, P_EXPIRES) == Some(p[3].value)
      && FindParam(query, P_SIGNED_HEADERS) == Some(p[4].value) && FindParam(query, SIGNATURE_PARAM) == Some(last.value)
  {
    ParamValues(prim, request, credentials);
    hide FindParam, FormatAmzDate, Decimal, CredentialScope.Scope, PresignParams, PresignNames, Octets;
    LooksUp(PresignParams(prim, request, credentials), last);
  }

  lemma ParamValues(prim: Primitives, request: PresignRequest, credentials: Credentials)
    requires 0 < request.expiresSeconds
    ensures var p := PresignParams(prim, request, credentials);
      && |p| == 5 && PresignNames(p) && p[0].value == ALGORITHM && p[2].value == FormatAmzDate(prim, request.nowSeconds)
      && p[1].value == credentials.accessKey + "/" + PresignScope(prim, request).Scope()
      && p[3].value == Decimal(request.expiresSeconds) && p[4].value == "host"
  {
    hide FormatAmzDate, Decimal, CredentialScope.Scope;
  }

  lemma ClaimFromParams(prim: Primitives, query: seq<QueryParam>, signature: string, options: AuthOptions,
                        credential: Bytes, date: Bytes, expiry: Bytes, signedHeaders: Bytes, at: int, expires: int)
    requires FindParam(query, P_ALGORITHM) == Some(ALGORITHM) && FindParam(query, P_CREDENTIAL) == Some(credential)
    requires FindParam(query, P_DATE) == Some(date) && FindParam(query, P_EXPIRES) == Some(expiry)
    requires FindParam(query, P_SIGNED_HEADERS) == Some(signedHeaders)
    requires ParseAmzDate(prim, date) == Some(at) && Stoll(expiry) == Some(expires) && 0 < expires <= MAX_EXPIRES
    ensures PresignedClaim(prim, query, signature, options)
      == if options.nowSeconds <= at + expires && at - options.nowSeconds <= options.skewSeconds
         then Ok(Claim(true, credential, signedHeaders, signature, date, UNSIGNED_PAYLOAD, Unsigned, "", false))
         else Err(AccessDenied)
  {
    hide FindParam, ParseAmzDate, Stoll;
  }

  lemma NoSlashes(prim: Primitives, request: PresignRequest)
    requires '/' !in request.region
    ensures var scope := PresignScope(prim, request);
      '/' !in scope.dateStamp && '/' !in scope.region && '/' !in scope.service && '/' !in scope.terminator
  {
    hide Pad;
    DateHasNoSlash(prim, request.nowSeconds);
    assert |SERVICE| == 2 && |TERMINATOR| == 12;
  }

  lemma DateHasNoSlash(prim: Primitives, seconds: int)
    ensures '/' !in FormatAmzDate(prim, seconds)[..8]
  {
    hide Pad;
  }

  /** The request goes where the URL was minted for: same path, same host up to blanks, and the
      method signed is the one it has or the one it may have had. */
  ghost predicate Redeems(request: PresignRequest, redeemed: SigningRequest, options: AuthOptions) {
    && CanonicalUri(redeemed.uri) == CanonicalUri(request.uri)
    && HasHeader(redeemed.headers, "host")
    && CanonicalHeaderValue(HeaderOf(redeemed.headers, "host")) == CanonicalHeaderValue(request.host)
    && (redeemed.method_ == request.method_ || options.alternateMethod == request.method_ != "")
  }

  lemma RedeemedCanonical(request: PresignRequest, query: string, redeemed: SigningRequest, options: AuthOptions)
    requires Redeems(request, redeemed, options) && Canonical(Parse(redeemed.query), SIGNATURE_PARAM) == query
    ensures SplitSignedHeaders("host") == ["host"]
    ensures BuildCanonicalRequest(redeemed, ["host"], UNSIGNED_PAYLOAD)
         == Ok(MintedCanonical(request, query).(method_ := redeemed.method_))
  {
    OnlyHost(redeemed, UNSIGNED_PAYLOAD);
    hide Canonical, Parse, CanonicalHeaderValue, HeaderOf, HasHeader, BuildCanonicalRequest, SplitSignedHeaders;
  }

  /** When a claim's parts are all in order and its signature is the one computed over the method
      sent or the alternate one, the check passes and reports that signature. */
  lemma CheckPasses(prim: Primitives, request: SigningRequest, claim: Claim, resolve: string -> Option<string>,
                    options: AuthOptions, scope: CredentialScope, names: seq<string>, secret: string,
                    canonical: CanonicalRequest, signed: string)
    requires ParseCredential(claim.credential) == Ok(scope) && scope.service == SERVICE
             && scope.terminator == TERMINATOR
    requires |claim.amzDate| >= 8 && claim.amzDate[..8] == scope.dateStamp && resolve(scope.accessKey) == Some(secret)
    requires SplitSignedHeaders(claim.signedHeaders) == names && "host" in names
    requires BuildCanonicalRequest(request, names, claim.payloadHash) == Ok(canonical)
    requires canonical.method_ == signed || options.alternateMethod == signed != ""
    requires claim.signature == ToLower(claim.signature)
      == RequestSignature(prim, DeriveSigningKey(prim, secret, scope.dateStamp, scope.region, scope.service),
                          claim.amzDate, scope.Scope(), canonical.(method_ := signed))
    ensures var checked := CheckClaim(prim, request, claim, resolve, options);
      && checked.Ok? && checked.value.accessKey == scope.accessKey && checked.value.presigned == claim.presigned
      && !checked.value.anonymous && checked.value.signature == claim.signature && checked.value.scope == scope.Scope()
  {
    hide ParseCredential, BuildCanonicalRequest, SplitSignedHeaders, DeriveSigningKey, RequestSignature, ToLower,
      CredentialScope.Scope;
    assert canonical.(method_ := canonical.method_) == canonical;
  }

  /** The claim a minted URL makes once it has been found in its window. */
  function ClaimMade(prim: Primitives, request: PresignRequest, credentials: Credentials): Claim
    requires 0 < request.expiresSeconds
  {
    Claim(true, credentials.accessKey + "/" + PresignScope(prim, request).Scope(), "host",
          MintedSignature(prim, request, credentials), FormatAmzDate(prim, request.nowSeconds), UNSIGNED_PAYLOAD,
              Unsigned, "", false)
  }

  lemma MintedChecks(prim: Primitives, request: PresignRequest, credentials: Credentials, redeemed: SigningRequest,
                     resolve: string -> Option<string>, options: AuthOptions)
    requires 0 < request.expiresSeconds
    requires '/' !in credentials.accessKey && '/' !in request.region
    requires resolve(credentials.accessKey) == Some(credentials.secretKey)
    requires
      Canonical(Parse(redeemed.query), SIGNATURE_PARAM) == Canonical(PresignParams(prim, request, credentials), "")
    requires Redeems(request, redeemed, options)
    ensures var checked := CheckClaim(prim, redeemed, ClaimMade(prim, request, credentials), resolve, options);
      && checked.Ok? && checked.value.accessKey == credentials.accessKey && checked.value.presigned
      && !checked.value.anonymous && checked.value.signature == MintedSignature(prim, request, credentials)
  {
    NoSlashes(prim, request);
    SignatureShape(prim, request, credentials);
    var query := Canonical(PresignParams(prim, request, credentials), "");
    RedeemedCanonical(request, query, redeemed, options);
    hide ParseCredential, FormatAmzDate, Minted, PresignParams, Canonical, Parse, BuildCanonicalRequest,
        SplitSignedHeaders,
      DeriveSigningKey, RequestSignature, ToLower, CredentialScope.Scope, CheckClaim, CanonicalHeaderValue, Octets;
    var scope := PresignScope(prim, request);
    CredentialReadsBack(credentials.accessKey, scope);
    CheckPasses(prim, redeemed, ClaimMade(prim, request, credentials), resolve, options,
                scope.(accessKey := credentials.accessKey), ["host"], credentials.secretKey,
                MintedCanonical(request, query).(method_ := redeemed.method_), request.method_);
  }

  lemma OnlyValidRequests(prim: Primitives, request: PresignRequest, credentials: Credentials)
    ensures PresignQuery(prim, request, credentials).Ok?
       ==> 0 < request.expiresSeconds <= MAX_EXPIRES && request.host != ""
  {
  }

  /** A URL minted for a credential is accepted, as that credential's, by a verifier that knows
      its secret, exactly from `skewSeconds` before it was minted until it expires. */
  lemma MintedIsAccepted(prim: Primitives, request: PresignRequest, credentials: Credentials, redeemed: SigningRequest,
                         resolve: string -> Option<string>, options: AuthOptions)
    requires PresignQuery(prim, request, credentials) == Ok(redeemed.query)
    requires CalendarInverts(prim, request.nowSeconds)
    requires '/' !in credentials.accessKey && '/' !in request.region
    requires resolve(credentials.accessKey) == Some(credentials.secretKey)
    requires Redeems(request, redeemed, options)
    ensures var outcome := Authenticate(prim, redeemed, Parse(redeemed.query), resolve, options);
      && (outcome.Ok? <==> InWindow(request, options))
      && (outcome.Ok? ==> outcome.value.presigned && outcome.value.accessKey == credentials.accessKey)
      && (outcome.Err? ==> outcome.error == AccessDenied)
  {
    hide PresignQuery, Minted, MintedSignature, PresignedClaim, HeaderClaim, CheckClaim, Parse, Canonical, FindParam,
      HeaderOf, PresignParams, Octets, CalendarInverts, Redeems, PresignScope, ClaimMade, InWindow;
    OnlyValidRequests(prim, request, credentials);
    MintedIs(prim, request, credentials);
    MintedReads(prim, request, credentials);
    var last := QueryParam(SIGNATURE_PARAM, MintedSignature(prim, request, credentials), true);
    MintedClaim(prim, request, credentials, last, options);
    MintedChecks(prim, request, credentials, redeemed, resolve, options);
  }

  // ----- Nothing else is accepted ------------------------------------------------

  /** What a signature was computed from: the scope and secret that gave the key, and the headers and
      payload digest the canonical request was built with. */
  datatype Basis = Basis(scope: CredentialScope, secret: string, names: seq<string>, payloadHash: string)

  /** The outcome's signature is the one its secret gives for this very request, its host included. */
  predicate Authentic(prim: Primitives, request: SigningRequest, resolve: string -> Option<string>,
                      outcome: AuthOutcome, b: Basis)
  {
    && resolve(b.scope.accessKey) == Some(b.secret) && b.scope.accessKey == outcome.accessKey
    && b.scope.service == SERVICE && b.scope.terminator == TERMINATOR && "host" in b.names
    && outcome.scope == b.scope.Scope()
    && outcome.signingKey == DeriveSigningKey(prim, b.secret, b.scope.dateStamp, b.scope.region, b.scope.service)
    && BuildCanonicalRequest(request, b.names, b.payloadHash).Ok?
    && outcome.signature == RequestSignature(prim, outcome.signingKey, outcome.amzDate, outcome.scope,
                                             BuildCanonicalRequest(request, b.names,
                                                                   b.payloadHash).value.(method_ := outcome.method_))
  }

  /** The basis is what the request presents: its credential's scope, the headers it lists and the digest it
      declares; and the outcome's date and payload mode are the request's too. A presigned request signs no
      payload. */
  predicate FromRequest(request: SigningRequest, query: seq<QueryParam>, outcome: AuthOutcome, b: Basis) {
    && b.scope.dateStamp == outcome.amzDate[..if |outcome.amzDate| < 8 then |outcome.amzDate| else 8]
    && if outcome.presigned then
         var credential, signedHeaders := FindParam(query, P_CREDENTIAL), FindParam(query, P_SIGNED_HEADERS);
         && credential.Some? && ParseCredential(credential.value) == Ok(b.scope)
         && signedHeaders.Some? && SplitSignedHeaders(signedHeaders.value) == b.names
         && FindParam(query, P_DATE) == Some(outcome.amzDate) && b.payloadHash == UNSIGNED_PAYLOAD
         && outcome.payload.Unsigned? && outcome.payloadSha256 == "" && !outcome.trailerExpected
       else
         var header := ParseAuthorization(HeaderOf(request.headers, "authorization"));
         var dated := HeaderOf(request.headers, "x-amz-date");
         && header.Ok? && ParseCredential(header.value.credential) == Ok(b.scope)
         && SplitSignedHeaders(header.value.signedHeaders) == b.names
         && outcome.signature == ToLower(header.value.signature)
         && outcome.amzDate == (if dated == "" then HeaderOf(request.headers, "date") else dated)
         && b.payloadHash == HeaderOf(request.headers, "x-amz-content-sha256") != ""
         && PayloadModeFor(b.payloadHash) == Ok((outcome.payload, outcome.payloadSha256))
         && (outcome.trailerExpected <==> b.payloadHash in {STREAMING_SIGNED_TRAILER, STREAMING_UNSIGNED_TRAILER})
  }

  /** Signed not too long ago, and not in the future. */
  predicate Timely(prim: Primitives, query: seq<QueryParam>, options: AuthOptions, outcome: AuthOutcome) {
    var signedAt := ParseAmzDate(prim, outcome.amzDate);
    && signedAt.Some?
    && signedAt.value - options.nowSeconds <= options.skewSeconds
    && options.nowSeconds - signedAt.value <= if outcome.presigned then ExpiresOf(query) else options.skewSeconds
  }

  lemma CheckedIsAuthentic(prim: Primitives, request: SigningRequest, claim: Claim, resolve: string -> Option<string>,
                           options: AuthOptions) returns (b: Basis)
    requires CheckClaim(prim, request, claim, resolve, options).Ok?
    ensures
      var outcome := CheckClaim(prim, request, claim, resolve, options).value;
      && Authentic(prim, request, resolve, outcome, b)
      && !outcome.anonymous && outcome.presigned == claim.presigned && outcome.amzDate == claim.amzDate
      && outcome.signature == ToLower(claim.signature)
      && (outcome.method_ == request.method_ || outcome.method_ == options.alternateMethod != "")
    ensures
      var outcome := CheckClaim(prim, request, claim, resolve, options).value;
      && ParseCredential(claim.credential) == Ok(b.scope) && b.names == SplitSignedHeaders(claim.signedHeaders)
      && b.payloadHash == claim.payloadHash && outcome.payload == claim.payload
      && outcome.payloadSha256 == claim.payloadSha256 && outcome.trailerExpected == claim.trailerExpected
      && b.scope.dateStamp == claim.amzDate[..if |claim.amzDate| < 8 then |claim.amzDate| else 8]
  {
    hide ParseCredential, SplitSignedHeaders, DeriveSigningKey, RequestSignature, ToLower, CredentialScope.Scope;
    var scope := ParseCredential(claim.credential).value;
    b := Basis(scope, resolve(scope.accessKey).value, SplitSignedHeaders(claim.signedHeaders), claim.payloadHash);
    var built := BuildCanonicalRequest(request, b.names, b.payloadHash).value;
    assert built.(method_ := request.method_) == built;
  }

  lemma ClaimIsTimely(prim: Primitives, request: SigningRequest, query: seq<QueryParam>, text: string,
                      options: AuthOptions, outcome: AuthOutcome)
    requires
      var claim := if outcome.presigned then PresignedClaim(prim, query, text, options)
          else HeaderClaim(prim, request, text, options);
      claim.Ok? && claim.value.presigned == outcome.presigned && claim.value.amzDate == outcome.amzDate
    ensures Timely(prim, query, options, outcome)
  {
    hide FindParam, ParseAmzDate, ExpiresOf, ParseAuthorization, PayloadModeFor, HeaderOf;
  }

  /** Whatever is let through carries the signature its credential's secret gives for this request, in
      time, or came with no signature at all. */
  lemma AcceptedIsAuthentic(prim: Primitives, request: SigningRequest, query: seq<QueryParam>,
                            resolve: string -> Option<string>, options: AuthOptions) returns (b: Basis)
    requires Authenticate(prim, request, query, resolve, options).Ok?
    ensures
      var outcome := Authenticate(prim, request, query, resolve, options).value;
      var presented := FindParam(query, SIGNATURE_PARAM);
      && (outcome.anonymous <==> presented == None && HeaderOf(request.headers, "authorization") == "")
      && (!outcome.anonymous ==>
            && Authentic(prim, request, resolve, outcome, b) && FromRequest(request, query, outcome, b)
            && Timely(prim, query, options, outcome)
            && outcome.presigned == presented.Some?
            && (presented.Some? ==> outcome.signature == ToLower(presented.value))
            && (outcome.method_ == request.method_ || outcome.method_ == options.alternateMethod != ""))
  {
    hide PresignedClaim, HeaderClaim, CheckClaim, FindParam, HeaderOf, Authentic, Timely, ToLower, FromRequest,
        ParseCredential, SplitSignedHeaders;
    var authorization, signature := HeaderOf(request.headers, "authorization"), FindParam(query, SIGNATURE_PARAM);
    b := Basis(CredentialScope("", "", "", "", ""), "", [], "");
    if authorization != "" || signature.Some? {
      var text := if signature.Some? then signature.value else authorization;
      var claim := if signature.Some? then PresignedClaim(prim, query, text, options)
          else HeaderClaim(prim, request, text, options);
      b := CheckedIsAuthentic(prim, request, claim.value, resolve, options);
      ClaimKind(prim, request, query, text, options);
      ClaimIsRequests(prim, request, query, text, options, claim.value,
                      Authenticate(prim, request, query, resolve, options).value, b);
      ClaimIsTimely(prim, request, query, text, options, Authenticate(prim, request, query, resolve, options).value);
    }
  }

  /** A claim is made of the request's own parts. */
  lemma ClaimIsRequests(prim: Primitives, request: SigningRequest, query: seq<QueryParam>, text: string,
                        options: AuthOptions, claim: Claim, outcome: AuthOutcome, b: Basis)
    requires Ok(claim) == if outcome.presigned then PresignedClaim(prim, query, text, options)
                          else HeaderClaim(prim, request, text, options)
    requires outcome.presigned || text == HeaderOf(request.headers, "authorization")
    requires ParseCredential(claim.credential) == Ok(b.scope) && b.names == SplitSignedHeaders(claim.signedHeaders)
    requires b.payloadHash == claim.payloadHash && outcome.payload == claim.payload
    requires outcome.payloadSha256 == claim.payloadSha256 && outcome.trailerExpected == claim.trailerExpected
    requires outcome.amzDate == claim.amzDate && outcome.signature == ToLower(claim.signature)
    requires b.scope.dateStamp == claim.amzDate[..if |claim.amzDate| < 8 then |claim.amzDate| else 8]
    ensures FromRequest(request, query, outcome, b)
  {
    hide FindParam, ParseAmzDate, ExpiresOf, ParseAuthorization, PayloadModeFor, HeaderOf, ParseCredential,
        SplitSignedHeaders, ToLower;
    if !outcome.presigned {
      var mode := PayloadModeFor(b.payloadHash);
      assert mode.Ok? && mode.value.0 == outcome.payload && mode.value.1 == outcome.payloadSha256;
    }
  }

  lemma ClaimKind(prim: Primitives, request: SigningRequest, query: seq<QueryParam>, text: string, options: AuthOptions)
    ensures
      var c := PresignedClaim(prim, query, text, options);
      c.Ok? ==> c.value.presigned && c.value.signature == text
    ensures HeaderClaim(prim, request, text, options).Ok? ==> !HeaderClaim(prim, request, text, options).value.presigned
  {
    hide FindParam, ParseAmzDate, ExpiresOf, ParseAuthorization, PayloadModeFor, HeaderOf;
  }

  // ----- The loops -------------------------------------------------------------

  method CollapseBlanks(value: string) returns (out: string)
    ensures out == CanonicalHeaderValue(value)
  {
    out := "";
    var pendingSpace := false;
    for i := 0 to |value|
      invariant out + Trimall(value[i..], out != "", pendingSpace) == CanonicalHeaderValue(value)
    {
      TrimallStep(out, value, i, pendingSpace);
      hide Trimall;
      if value[i] == ' ' || value[i] == '\t' {
        pendingSpace := out != "";
        continue;
      }
      if pendingSpace {
        out := out + " ";
        pendingSpace := false;
      }
      out := out + [value[i]];
    }
    assert value[|value|..] == "";
  }

  lemma TrimallStep(out: string, value: string, i: nat, pending: bool)
    requires i < |value|
    ensures var c, rest := value[i], value[i + 1..];
      var next := if pending then out + " " else out;
      out + Trimall(value[i..], out != "", pending)
        == if c == ' ' || c == '\t' then out + Trimall(rest, out != "", out != "")
           else next + [c] + Trimall(rest, true, false)
  {
    var c, tail := value[i], Trimall(value[i + 1..], true, false);
    assert value[i..][1..] == value[i + 1..];
    Associative(out, [c], tail);
    Associative(out, " ", [c] + tail);
    Associative(out + " ", [c], tail);
    Associative(" ", [c], tail);
    assert "" + [c] == [c];
  }

  method SplitNames(list: string) returns (names: seq<string>)
    ensures names == SplitSignedHeaders(list)
  {
    hide SplitSignedHeaders, IndexOf, ToLower;
    names := [];
    var pos := 0;
    assert list[0..] == list && [] + SplitSignedHeaders(list) == SplitSignedHeaders(list);
    while pos <= |list|
      invariant pos <= |list| && names + SplitSignedHeaders(list[pos..]) == SplitSignedHeaders(list)
    {
      var rest := list[pos..];
      var sep := IndexOf(rest, ';');
      SplitStep(names, rest);
      if sep > 0 {
        names := names + [ToLower(rest[..sep])];
      }
      if sep == |rest| {
        return;
      }
      assert rest[sep + 1..] == list[pos + sep + 1..];
      pos := pos + sep + 1;
    }
  }

  /** A name in front of the others, unless it is empty. */
  function Ahead(name: string, rest: seq<string>): seq<string> {
    if |name| > 0 then [ToLower(name)] + rest else rest
  }

  function Remaining(list: string, sep: nat): seq<string>
    requires sep <= |list|
  {
    if sep == |list| then [] else SplitSignedHeaders(list[sep + 1..])
  }

  lemma SplitIs(list: string, sep: nat)
    requires sep == IndexOf(list, ';')
    ensures SplitSignedHeaders(list) == Ahead(list[..sep], Remaining(list, sep))
  {
    hide IndexOf, ToLower;
  }

  lemma SplitStep(names: seq<string>, s: string)
    ensures var sep := IndexOf(s, ';');
      var more := if sep > 0 then names + [ToLower(s[..sep])] else names;
      names + SplitSignedHeaders(s) == if sep == |s| then more else more + SplitSignedHeaders(s[sep + 1..])
  {
    hide IndexOf, ToLower, SplitSignedHeaders;
    var sep := IndexOf(s, ';');
    SplitIs(s, sep);
    var rest := Remaining(s, sep);
    if sep > 0 {
      Associative(names, [ToLower(s[..sep])], rest);
    }
    AddsNothing(names);
    AddsNothing(names + [ToLower(s[..sep])]);
  }

  lemma AddsNothing(names: seq<string>)
    ensures names + [] == names
  {
  }

  /** One pass over the names: the lines, and the list of names beside them. */
  method RenderHeaders(headers: seq<(string, string)>, names: seq<string>)
    returns (lines: Result<string, Error>, joined: string)
    ensures lines == HeaderLines(headers, names)
    ensures lines.Ok? ==> joined == JoinNames(names)
  {
    hide HeaderLines, HasHeader, CanonicalHeaderValue, HeaderOf;
    NoLines(headers);
    var text := "";
    joined := "";
    assert names[0..] == names && "" + "" == "";
    StartsEmpty(HeaderLines(headers, names));
    for i := 0 to |names|
      invariant joined == JoinNames(names[..i])
      invariant Then(text, HeaderLines(headers, names[i..])) == HeaderLines(headers, names)
    {
      LinesStep(text, headers, names, i);
      Present(headers, names[i]);
      assert names[..i + 1][..i] == names[..i];
      if !(exists k :: 0 <= k < |headers| && headers[k].0 == names[i]) {
        return Err(SignatureDoesNotMatch), joined;
      }
      text := text + (names[i] + ":" + CanonicalHeaderValue(HeaderOf(headers, names[i])) + "\n");
      joined := if joined == "" then names[i] else joined + ";" + names[i];
    }
    assert names[|names|..] == [] && names[..|names|] == names;
    assert text + "" == text;
    return Ok(text), joined;
  }

  lemma NoLines(headers: seq<(string, string)>)
    ensures HeaderLines(headers, []) == Ok("")
  {
  }

  lemma StartsEmpty(r: Result<string, Error>)
    ensures Then("", r) == r
  {
    if r.Ok? {
      assert "" + r.value == r.value;
    }
  }

  method CanonicalOf(request: SigningRequest, signedHeaders: seq<string>, payloadHash: string)
    returns (r: Result<CanonicalRequest, Error>)
    ensures r == BuildCanonicalRequest(request, signedHeaders, payloadHash)
  {
    hide HeaderLines, JoinNames, Unique, SortNames, Canonical, Parse;
    var names := Unique(SortNames(signedHeaders));
    var lines, joined := RenderHeaders(request.headers, names);
    if lines.Err? {
      return Err(lines.error);
    }
    return Ok(CanonicalRequest(request.method_, CanonicalUri(request.uri),
                               Canonical(Parse(request.query), SIGNATURE_PARAM), lines.value, joined, payloadHash));
  }

  lemma Present(headers: seq<(string, string)>, name: string)
    ensures HasHeader(headers, name) <==> exists k :: 0 <= k < |headers| && headers[k].0 == name
  {
  }

  function Then(lines: string, rest: Result<string, Error>): Result<string, Error> {
    if rest.Ok? then Ok(lines + rest.value) else rest
  }

  lemma LinesStep(lines: string, headers: seq<(string, string)>, names: seq<string>, i: nat)
    requires i < |names|
    ensures var line := names[i] + ":" + CanonicalHeaderValue(HeaderOf(headers, names[i])) + "\n";
      Then(lines, HeaderLines(headers, names[i..]))
        == if !HasHeader(headers, names[i]) then Err(SignatureDoesNotMatch)
           else Then(lines + line, HeaderLines(headers, names[i + 1..]))
  {
    hide CanonicalHeaderValue, HeaderOf, HasHeader;
    var line := names[i] + ":" + CanonicalHeaderValue(HeaderOf(headers, names[i])) + "\n";
    var rest := HeaderLines(headers, names[i + 1..]);
    assert names[i..][1..] == names[i + 1..];
    if rest.Ok? {
      Associative(lines, line, rest.value);
    }
  }
}
