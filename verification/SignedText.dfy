/** What a signature covers. The text that is signed reads back as the parts it is made of, so with
    collision-free primitives two requests accepted with one signature are the same request. */
module SignedText {
  import opened Option
  import opened Text
  import opened Lines
  import opened Uri
  import opened Sorting
  import opened Query
  import opened SigV4

  // ----- The text reads back ----------------------------------------------------------

  lemma RenderReads(c: CanonicalRequest)
    requires OneLine(c.method_) && OneLine(c.uri) && OneLine(c.query)
    requires OneLine(c.signedHeaders) && OneLine(c.payloadHash)
    ensures Split(c.Render())
         == [c.method_, c.uri, c.query] + Split(c.headers) + [c.signedHeaders, c.payloadHash]
  {
    hide Split, OneLine, CanonicalRequest.Render;
    var tail := c.headers + ("\n" + c.signedHeaders) + ("\n" + c.payloadHash);
    RenderText(c);
    FirstRow(c.method_, c.uri + ("\n" + (c.query + ("\n" + tail))));
    FirstRow(c.uri, c.query + ("\n" + tail));
    FirstRow(c.query, tail);
    LastRow(c.headers + ("\n" + c.signedHeaders), c.payloadHash);
    LastRow(c.headers, c.signedHeaders);
  }

  lemma RenderText(c: CanonicalRequest)
    ensures
      var tail := c.headers + ("\n" + c.signedHeaders) + ("\n" + c.payloadHash);
      c.Render() == c.method_ + ("\n" + (c.uri + ("\n" + (c.query + ("\n" + tail)))))
  {
    var nl := "\n";
    var a, b := c.headers + (nl + c.signedHeaders), nl + c.payloadHash;
    assert c.Render() == c.method_ + nl + c.uri + nl + c.query + nl + (a + b);
    Regrouped(c.method_, c.uri, c.query, a + b, nl);
  }

  lemma Regrouped(a: string, b: string, c: string, d: string, nl: string)
    ensures a + nl + b + nl + c + nl + d == a + (nl + (b + (nl + (c + (nl + d)))))
  {
  }

  /** The same of the string to sign; nothing is asked of the scope. */
  lemma StringToSignReads(amzDate: string, scope: string, requestHash: string)
    requires OneLine(amzDate) && OneLine(requestHash)
    ensures Split(StringToSign(amzDate, scope, requestHash)) == [ALGORITHM, amzDate] + Split(scope) + [requestHash]
  {
    hide Split, OneLine, StringToSign, ALGORITHM;
    var tail := scope + ("\n" + requestHash);
    StringToSignText(amzDate, scope, requestHash);
    FirstRow(ALGORITHM, amzDate + ("\n" + tail));
    FirstRow(amzDate, tail);
    LastRow(scope, requestHash);
  }

  lemma StringToSignText(amzDate: string, scope: string, requestHash: string)
    ensures OneLine(ALGORITHM)
    ensures StringToSign(amzDate, scope, requestHash)
         == ALGORITHM + ("\n" + (amzDate + ("\n" + (scope + ("\n" + requestHash)))))
  {
    assert |ALGORITHM| == 16;
    Regrouped(ALGORITHM, amzDate, scope, requestHash, "\n");
  }

  // ----- The headers in it ---------------------------------------------------------------

  /** A row for each signed header. */
  function Rows(headers: seq<(string, string)>, names: seq<string>): seq<string> {
    if names == [] then []
    else [names[0] + ":" + CanonicalHeaderValue(HeaderOf(headers, names[0]))] + Rows(headers, names[1..])
  }

  /** No part of the request holds a line break; what arrived over HTTP never does. */
  predicate OnTheWire(request: SigningRequest) {
    && OneLine(request.method_) && OneLine(request.uri)
    && forall i :: 0 <= i < |request.headers| ==> OneLine(request.headers[i].0) && OneLine(request.headers[i].1)
  }

  lemma {:induction false} HeaderOneLine(headers: seq<(string, string)>, name: string)
    requires forall i :: 0 <= i < |headers| ==> OneLine(headers[i].0) && OneLine(headers[i].1)
    ensures OneLine(HeaderOf(headers, name)) && (HasHeader(headers, name) ==> OneLine(name))
  {
    if headers != [] && headers[0].0 != name {
      HeaderOneLine(headers[1..], name);
      if HasHeader(headers, name) {
        var i :| 0 <= i < |headers| && headers[i].0 == name;
        assert headers[1..][i - 1].0 == name;
      }
    }
  }

  lemma {:induction false} TrimallOneLine(s: string, started: bool, pending: bool)
    requires OneLine(s)
    ensures OneLine(Trimall(s, started, pending))
  {
    if s != "" {
      if s[0] == ' ' || s[0] == '\t' {
        TrimallOneLine(s[1..], started, started);
      } else {
        TrimallOneLine(s[1..], true, false);
        assert s[0] in s;
      }
    }
  }

  lemma {:induction false} HeaderLinesRead(headers: seq<(string, string)>, names: seq<string>)
    requires forall i :: 0 <= i < |headers| ==> OneLine(headers[i].0) && OneLine(headers[i].1)
    requires HeaderLines(headers, names).Ok?
    ensures Split(HeaderLines(headers, names).value) == Rows(headers, names) + [""]
    ensures forall n :: n in names ==> OneLine(n)
  {
    hide Split, OneLine, CanonicalHeaderValue;
    if names == [] {
      assert Split("") == [""] by { EmptyLine(); }
    } else {
      var name, value := names[0], CanonicalHeaderValue(HeaderOf(headers, names[0]));
      HeaderLinesRead(headers, names[1..]);
      HeaderOneLine(headers, name);
      RowOneLine(name, HeaderOf(headers, name));
      var rest := HeaderLines(headers, names[1..]).value;
      assert HeaderLines(headers, names).value == (name + ":" + value) + ("\n" + rest);
      FirstRow(name + ":" + value, rest);
    }
  }

  lemma EmptyLine()
    ensures Split("") == [""] && OneLine("")
  {
  }

  lemma RowOneLine(name: string, value: string)
    requires OneLine(name) && OneLine(value)
    ensures OneLine(name + ":" + CanonicalHeaderValue(value))
  {
    TrimallOneLine(value, false, false);
  }

  lemma {:induction false} JoinedOneLine(names: seq<string>)
    requires forall n :: n in names ==> OneLine(n)
    ensures OneLine(JoinNames(names))
  {
    if names != [] {
      JoinedOneLine(names[..|names| - 1]);
      assert names[|names| - 1] in names;
    }
  }

  // ----- The query in it -----------------------------------------------------------------------

  /** The parameters a signature covers: all but itself. */
  function Covered(params: seq<QueryParam>): seq<QueryParam> {
    if params == [] then []
    else (if params[0].name == SIGNATURE_PARAM then [] else [params[0]]) + Covered(params[1..])
  }

  lemma {:induction false} CoveredEncodes(params: seq<QueryParam>)
    ensures EncodeParams(params, SIGNATURE_PARAM) == EncodeParams(Covered(params), "")
  {
    hide EncodeParam, SIGNATURE_PARAM;
    SignatureNamed();
    if params != [] {
      CoveredEncodes(params[1..]);
      if params[0].name == SIGNATURE_PARAM {
        assert Covered(params) == Covered(params[1..]);
      } else {
        assert Covered(params)[0] == params[0] && Covered(params)[1..] == Covered(params[1..]);
      }
    }
  }

  lemma SignatureNamed()
    ensures SIGNATURE_PARAM != ""
  {
  }

  lemma CanonicalCovers(params: seq<QueryParam>)
    ensures Canonical(params, SIGNATURE_PARAM) == Canonical(Covered(params), "")
  {
    hide EncodeParams, Render, SortItems;
    CoveredEncodes(params);
  }

  lemma {:induction false} RenderedOneLine(items: seq<Encoded>)
    requires forall i :: 0 <= i < |items| ==> OneLine(items[i].name) && OneLine(items[i].value)
    ensures OneLine(Render(items))
  {
    if |items| > 1 {
      RenderedOneLine(items[1..]);
    }
  }

  lemma {:induction false} EncodedOneLine(params: seq<QueryParam>, e: Encoded)
    requires e in EncodeParams(params, "")
    ensures OneLine(e.name) && OneLine(e.value)
  {
    var p := params[0];
    if e == EncodeParam(p) {
      EncodedIsInert(p.name);
      EncodedIsInert(p.value);
    } else {
      EncodedOneLine(params[1..], e);
    }
  }

  lemma CanonicalOneLine(params: seq<QueryParam>)
    ensures OneLine(Canonical(params, SIGNATURE_PARAM))
  {
    CanonicalCovers(params);
    var encoded := EncodeParams(Covered(params), "");
    var items := SortItems(encoded);
    hide OneLine, Canonical, SortItems, Covered;
    forall i | 0 <= i < |items| ensures OneLine(items[i].name) && OneLine(items[i].value) {
      SortedMembers(encoded, items[i]);
      EncodedOneLine(Covered(params), items[i]);
    }
    RenderedOneLine(items);
    assert Canonical(Covered(params), "") == Render(items) by { CanonicalIs(Covered(params)); }
  }

  lemma CanonicalIs(params: seq<QueryParam>)
    ensures Canonical(params, "") == Render(SortItems(EncodeParams(params, "")))
  {
  }

  // ----- The signed names in it ------------------------------------------------------------

  /** Names as a list of signed headers gives them. */
  predicate ListedName(n: string) {
    n != "" && ';' !in n && ToLower(n) == n
  }

  predicate Listed(names: seq<string>) {
    forall n :: n in names ==> ListedName(n)
  }

  lemma LowerHasNoSemicolon(s: string)
    requires ';' !in s
    ensures ';' !in ToLower(s) && ToLower(ToLower(s)) == ToLower(s)
  {
    forall i | 0 <= i < |s| ensures ToLower(s)[i] != ';' {
      assert s[i] in s;
    }
  }

  lemma {:induction false} SplitIsListed(list: string)
    ensures Listed(SplitSignedHeaders(list))
    decreases |list|
  {
    hide IndexOf, ToLower, SplitSignedHeaders, ListedName;
    var sep := IndexOf(list, ';');
    SplitIs(list, sep);
    if sep > 0 {
      FirstIsListed(list, sep);
    }
    if sep < |list| {
      SplitIsListed(list[sep + 1..]);
    }
  }

  lemma FirstIsListed(list: string, sep: nat)
    requires sep == IndexOf(list, ';') && sep > 0
    ensures ListedName(ToLower(list[..sep]))
  {
    assert ';' !in list[..sep];
    LowerHasNoSemicolon(list[..sep]);
    hide IndexOf;
  }

  lemma SplitOne(n: string)
    requires ListedName(n)
    ensures SplitSignedHeaders(n) == [n]
  {
    IndexOfIs(n, ';', |n|);
    assert n[..|n|] == n;
  }

  lemma AheadAppends(name: string, rest: seq<string>, n: string)
    ensures Ahead(name, rest) + [n] == Ahead(name, rest + [n])
  {
    hide ToLower;
    Associative([ToLower(name)], rest, [n]);
  }

  lemma {:induction false} SplitAppends(list: string, n: string)
    requires ListedName(n)
    ensures SplitSignedHeaders(list + (";" + n)) == SplitSignedHeaders(list) + [n]
    decreases |list|
  {
    hide IndexOf, ToLower, ListedName, SplitSignedHeaders, Ahead;
    var sep, tail := IndexOf(list, ';'), ";" + n;
    IndexOfBehind(list, ';', tail);
    SplitIs(list, sep);
    SplitIs(list + tail, sep);
    SplitOne(n);
    AheadAppends(list[..sep], Remaining(list, sep), n);
    Inside(list, tail, sep);
    if sep < |list| {
      Inside(list, tail, sep + 1);
      SplitAppends(list[sep + 1..], n);
    } else {
      Behind(list, ';', n);
      assert Remaining(list, sep) + [n] == [n];
    }
  }

  /** The signed names read back from their list. */
  lemma {:induction false} NamesReadBack(names: seq<string>)
    requires Listed(names)
    ensures SplitSignedHeaders(JoinNames(names)) == names && (JoinNames(names) == "" <==> names == [])
  {
    hide SplitSignedHeaders, ListedName;
    if names == [] {
      assert SplitSignedHeaders("") == [] by { SplitNothing(); }
    } else {
      var before, n := names[..|names| - 1], names[|names| - 1];
      assert n in names;
      NamesReadBack(before);
      NameIsText(n);
      if before == [] {
        SplitOne(n);
      } else {
        SplitAppends(JoinNames(before), n);
        assert JoinNames(before) + ";" + n == JoinNames(before) + (";" + n);
      }
    }
  }

  lemma NameIsText(n: string)
    requires ListedName(n)
    ensures n != ""
  {
  }

  lemma SplitNothing()
    ensures SplitSignedHeaders("") == []
  {
  }

  /** Sorting and dropping doubles keeps the names. */
  function SignedNames(names: seq<string>): seq<string> {
    Unique(SortNames(names))
  }

  lemma {:induction false} UniqueMembers(names: seq<string>)
    ensures forall n :: n in Unique(names) <==> n in names
  {
    if |names| >= 2 {
      UniqueMembers(names[1..]);
      assert names == [names[0]] + names[1..];
    }
  }

  lemma LessIsTotal()
    ensures TotalOrder((a: string, b: string) => Less(a, b))
  {
    hide Less;
    forall a, b ensures Less(a, b) || a == b || Less(b, a) {
      LessTotal(a, b);
    }
    forall a ensures !Less(a, a) {
      LessIrreflexive(a);
    }
    forall a, b, c | Less(a, b) && Less(b, c) ensures Less(a, c) {
      LessTransitive(a, b, c);
    }
  }

  lemma SignedMembers(names: seq<string>)
    ensures forall n :: n in SignedNames(names) <==> n in names
  {
    LessIsTotal();
    SortSorts((a, b) => Less(a, b), names);
    UniqueMembers(SortNames(names));
    forall n ensures n in SortNames(names) <==> n in names {
      assert n in multiset(SortNames(names)) <==> n in multiset(names);
    }
  }

  predicate Increasing(names: seq<string>) {
    forall i, j :: 0 <= i < j < |names| ==> Less(names[i], names[j])
  }

  lemma {:induction false} UniqueIncreases(names: seq<string>)
    requires Sorted((a, b) => Less(a, b), names)
    ensures Increasing(Unique(names))
  {
    if |names| >= 2 {
      var rest := names[1..];
      UniqueIncreases(rest);
      UniqueMembers(rest);
      hide Less;
      if names[0] != names[1] {
        forall j | 0 <= j < |Unique(rest)| ensures Less(names[0], Unique(rest)[j]) {
          assert Unique(rest)[j] in rest;
          AheadOf(names, Unique(rest)[j]);
        }
      }
    }
  }

  lemma AheadOf(names: seq<string>, n: string)
    requires Sorted((a, b) => Less(a, b), names) && |names| >= 2 && names[0] != names[1] && n in names[1..]
    ensures Less(names[0], n)
  {
    hide Less;
    var i :| 1 <= i < |names| && names[i] == n;
    assert !Less(names[1], names[0]) && !Less(names[i], names[0]);
    LessTotal(names[0], names[1]);
    LessTotal(names[0], n);
    assert i == 1 || !Less(names[i], names[1]);
  }

  lemma {:induction false} IncreasingDetermined(a: seq<string>, b: seq<string>)
    requires Increasing(a) && Increasing(b) && forall n :: n in a <==> n in b
    ensures a == b
    decreases |a|
  {
    hide Less;
    assert b == [] || b[0] in b;
    if a != [] {
      assert a[0] in b;
      SameLeast(a, b);
      var x, y := a[1..], b[1..];
      forall n ensures n in x <==> n in y {
        NotLeast(a, n);
        NotLeast(b, n);
      }
      IncreasingDetermined(x, y);
      assert a == [a[0]] + x && b == [b[0]] + y;
    }
  }

  lemma SameLeast(a: seq<string>, b: seq<string>)
    requires Increasing(a) && Increasing(b) && a != [] && b != [] && a[0] in b && b[0] in a
    ensures a[0] == b[0]
  {
    hide Less;
    LessTotal(a[0], b[0]);
    var i :| 0 <= i < |b| && b[i] == a[0];
    var j :| 0 <= j < |a| && a[j] == b[0];
  }

  lemma NotLeast(names: seq<string>, n: string)
    requires Increasing(names) && names != []
    ensures n in names[1..] <==> n in names && n != names[0]
  {
    hide Less;
    LessIrreflexive(names[0]);
    assert names == [names[0]] + names[1..];
  }

  /** What is signed depends on which names are listed alone, not on their order or how often. */
  lemma SignedNamesDetermined(a: seq<string>, b: seq<string>)
    ensures SignedNames(a) == SignedNames(b) <==> forall n :: n in a <==> n in b
  {
    SignedMembers(a);
    SignedMembers(b);
    if forall n :: n in a <==> n in b {
      LessIsTotal();
      SortSorts((a, b) => Less(a, b), a);
      SortSorts((a, b) => Less(a, b), b);
      UniqueIncreases(SortNames(a));
      UniqueIncreases(SortNames(b));
      IncreasingDetermined(SignedNames(a), SignedNames(b));
    } else {
      var n :| !(n in a <==> n in b);
      assert n in SignedNames(a) <==> n in a;
      assert n in SignedNames(b) <==> n in b;
    }
  }

  // ----- One signature, one request --------------------------------------------------------

  /** The whole canonical text, line by line. */
  lemma CanonicalReads(request: SigningRequest, names: seq<string>, payloadHash: string)
    requires OnTheWire(request) && OneLine(payloadHash)
    requires BuildCanonicalRequest(request, names, payloadHash).Ok?
    ensures
      var unique := SignedNames(names);
      Split(BuildCanonicalRequest(request, names, payloadHash).value.Render())
        == [request.method_, CanonicalUri(request.uri), Canonical(Parse(request.query), SIGNATURE_PARAM)]
           + (Rows(request.headers, unique) + [""]) + [JoinNames(unique), payloadHash]
  {
    var unique := SignedNames(names);
    var c := BuildCanonicalRequest(request, names, payloadHash).value;
    CanonicalOneLine(Parse(request.query));
    HeaderLinesRead(request.headers, unique);
    JoinedOneLine(unique);
    UriOneLine(request.uri);
    hide Split, OneLine, Rows, JoinNames, Canonical, Parse, CanonicalRequest.Render, CanonicalUri;
    RenderReads(c);
  }

  lemma UriOneLine(uri: string)
    requires OneLine(uri)
    ensures OneLine(CanonicalUri(uri))
  {
  }
}
