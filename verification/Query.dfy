/** Query strings: splitting one into parameters, and the canonical form that is signed. */
module Query {
  import opened Option
  import opened Text
  import opened Uri
  import opened Sorting

  /** `hasValue` tells `?acl=` from `?acl`. */
  datatype QueryParam = QueryParam(name: Bytes, value: Bytes, hasValue: bool)

  // ----- Splitting -----------------------------------------------------------

  function ParseField(field: Bytes): QueryParam {
    var eq := IndexOf(field, '=');
    if eq == |field| then QueryParam(Decode(field), "", false)
    else QueryParam(Decode(field[..eq]), Decode(field[eq + 1..]), true)
  }

  function ParseFields(s: Bytes): seq<QueryParam>
    decreases |s|
  {
    var amp := IndexOf(s, '&');
    var field := s[..amp];
    if amp == |s| then (if field == "" then [] else [ParseField(field)])
    else if field == "" then ParseFields(s[amp + 1..])
    else [ParseField(field)] + ParseFields(s[amp + 1..])
  }

  /** Empty fields are dropped; a leading '?' is not part of the query. */
  function Parse(raw: Bytes): seq<QueryParam> {
    ParseFields(if raw != "" && raw[0] == '?' then raw[1..] else raw)
  }

  /** The first value under the name. */
  function FindParam(params: seq<QueryParam>, name: string): Option<Bytes> {
    if params == [] then None
    else if params[0].name == name then Some(params[0].value)
    else FindParam(params[1..], name)
  }

  lemma {:induction false} FindAt(params: seq<QueryParam>, i: nat)
    requires i < |params| && forall k :: 0 <= k < i ==> params[k].name != params[i].name
    ensures FindParam(params, params[i].name) == Some(params[i].value)
    decreases i
  {
    if i > 0 {
      assert params[0].name != params[i].name;
      FindAt(params[1..], i - 1);
    }
  }

  // ----- The canonical form --------------------------------------------------

  datatype Encoded = Encoded(name: string, value: string)

  /** By encoded name, then by encoded value. */
  predicate Before(a: Encoded, b: Encoded) {
    if a.name != b.name then Less(a.name, b.name) else Less(a.value, b.value)
  }

  function EncodeParam(p: QueryParam): Encoded {
    Encoded(Encode(p.name, true), Encode(p.value, true))
  }

  /** Every parameter but those named `omit`; an empty `omit` leaves none out. */
  function EncodeParams(params: seq<QueryParam>, omit: string): seq<Encoded> {
    if params == [] then []
    else if omit != "" && params[0].name == omit then EncodeParams(params[1..], omit)
    else [EncodeParam(params[0])] + EncodeParams(params[1..], omit)
  }

  function Item(e: Encoded): string {
    e.name + "=" + e.value
  }

  function Render(items: seq<Encoded>): string {
    if items == [] then ""
    else if |items| == 1 then Item(items[0])
    else Item(items[0]) + "&" + Render(items[1..])
  }

  function SortItems(items: seq<Encoded>): seq<Encoded> {
    Sort((a, b) => Before(a, b), items)
  }

  function Canonical(params: seq<QueryParam>, omit: string): string {
    Render(SortItems(EncodeParams(params, omit)))
  }

  // ----- The order -----------------------------------------------------------

  lemma BeforeIsTotal()
    ensures TotalOrder((a, b) => Before(a, b))
  {
    forall a, b ensures Before(a, b) || a == b || Before(b, a) {
      LessTotal(a.name, b.name);
      LessTotal(a.value, b.value);
    }
    forall a: Encoded ensures !Before(a, a) {
      LessTotal(a.value, a.value);
    }
    forall a, b, c | Before(a, b) && Before(b, c) ensures Before(a, c) {
      BeforeTransitive(a, b, c);
    }
  }

  lemma BeforeTransitive(a: Encoded, b: Encoded, c: Encoded)
    requires Before(a, b) && Before(b, c)
    ensures Before(a, c)
  {
    if a.name == b.name == c.name {
      LessTransitive(a.value, b.value, c.value);
    } else if a.name != b.name && b.name != c.name {
      LessTransitive(a.name, b.name, c.name);
      LessTotal(a.name, b.name);
    }
  }

  // ----- Parsing undoes rendering --------------------------------------------

  predicate InertItem(e: Encoded) {
    Inert(e.name) && Inert(e.value) && Octets(e.name) && Octets(e.value)
  }

  predicate InertItems(items: seq<Encoded>) {
    forall i :: 0 <= i < |items| ==> InertItem(items[i])
  }

  function DecodeItem(e: Encoded): QueryParam
    requires InertItem(e)
  {
    QueryParam(Decode(e.name), Decode(e.value), true)
  }

  function DecodeItems(items: seq<Encoded>): (params: seq<QueryParam>)
    requires InertItems(items)
    ensures |params| == |items|
    ensures forall i :: 0 <= i < |items| ==> params[i] == DecodeItem(items[i])
  {
    seq(|items|, i requires 0 <= i < |items| => DecodeItem(items[i]))
  }

  lemma ItemParts(e: Encoded, rest: string)
    requires InertItem(e)
    ensures Octets(Item(e)) && Item(e) != "" && '&' !in Item(e) && Item(e)[0] != '?'
    ensures ParseField(Item(e)) == DecodeItem(e)
  {
    IndexOfAfter(e.name, '=', e.value);
    assert e.name + ['='] + e.value == Item(e);
    hide Decode, IndexOf;
  }

  lemma ParseFirst(first: Bytes, rest: Bytes)
    requires first != "" && '&' !in first
    ensures ParseFields(first) == [ParseField(first)]
    ensures Octets(first + ['&'] + rest)
    ensures ParseFields(first + ['&'] + rest) == [ParseField(first)] + ParseFields(rest)
  {
    IndexOfAfter(first, '&', rest);
    assert first[..|first|] == first;
    hide IndexOf, ParseField;
  }

  lemma {:induction false} ParseRendered(items: seq<Encoded>)
    requires InertItems(items)
    ensures Octets(Render(items)) && (items != [] ==> Render(items) != "" && Render(items)[0] != '?')
    ensures ParseFields(Render(items)) == DecodeItems(items)
  {
    if items == [] {
      assert ParseFields("") == [];
    } else {
      hide ParseFields, ParseField, IndexOf, Octets;
      var first, rest := Item(items[0]), Render(items[1..]);
      ItemParts(items[0], rest);
      assert DecodeItems(items) == [DecodeItem(items[0])] + DecodeItems(items[1..]);
      if |items| == 1 {
        ParseFirst(first, "");
      } else {
        ParseRendered(items[1..]);
        ParseFirst(first, rest);
        assert Render(items) == first + ['&'] + rest;
      }
    }
  }

  /** The parameters a canonical query string reads back as. */
  lemma ParseOfRendered(items: seq<Encoded>)
    requires InertItems(items)
    ensures Octets(Render(items)) && Parse(Render(items)) == DecodeItems(items)
  {
    ParseRendered(items);
  }

  // ----- Canonical strings are fixed points ----------------------------------

  /** An item that is the encoding of what it decodes to. */
  predicate WellEncoded(e: Encoded) {
    InertItem(e) && EncodeParam(DecodeItem(e)) == e
  }

  predicate AllWellEncoded(items: seq<Encoded>) {
    forall i :: 0 <= i < |items| ==> WellEncoded(items[i])
  }

  lemma EncodedIsWell(p: QueryParam)
    ensures WellEncoded(EncodeParam(p))
    ensures DecodeItem(EncodeParam(p)).name == p.name && DecodeItem(EncodeParam(p)).value == p.value
  {
    EncodedIsInert(p.name);
    EncodedIsInert(p.value);
    DecodeInvertsEncode(p.name, true);
    DecodeInvertsEncode(p.value, true);
  }

  lemma {:induction false} EncodeParamsWell(params: seq<QueryParam>, omit: string)
    ensures AllWellEncoded(EncodeParams(params, omit))
  {
    if params != [] {
      EncodeParamsWell(params[1..], omit);
      EncodedIsWell(params[0]);
      hide WellEncoded;
    }
  }

  lemma SortedWell(items: seq<Encoded>)
    requires AllWellEncoded(items)
    ensures AllWellEncoded(SortItems(items)) && multiset(SortItems(items)) == multiset(items)
    ensures SortItems(SortItems(items)) == SortItems(items)
  {
    var less := (a, b) => Before(a, b);
    BeforeIsTotal();
    SortSorts(less, items);
    SortOfSorted(less, SortItems(items));
    var sorted := SortItems(items);
    forall i | 0 <= i < |sorted| ensures WellEncoded(sorted[i]) {
      assert sorted[i] in multiset(sorted);
      assert sorted[i] in items;
    }
  }

  lemma {:induction false} Reencoded(items: seq<Encoded>, omit: string)
    requires AllWellEncoded(items)
    requires omit == "" || forall i :: 0 <= i < |items| ==> Decode(items[i].name) != omit
    ensures EncodeParams(DecodeItems(items), omit) == items
  {
    hide EncodeParam, DecodeItem, AllWellEncoded, WellEncoded, Decode, InertItem;
    if items != [] {
      TailWell(items);
      Reencoded(items[1..], omit);
      assert DecodeItems(items)[1..] == DecodeItems(items[1..]);
      assert items == [items[0]] + items[1..];
    }
  }

  lemma TailWell(items: seq<Encoded>)
    requires AllWellEncoded(items) && items != []
    ensures AllWellEncoded(items[1..]) && InertItems(items) && EncodeParam(DecodeItem(items[0])) == items[0]
    ensures DecodeItem(items[0]).name == Decode(items[0].name)
  {
  }

  /** Parsing a canonical string and canonicalising again changes nothing, whatever it came from:
      the bytes signed and the bytes sent cannot come apart. */
  lemma CanonicalIsFixed(params: seq<QueryParam>)
    ensures var canonical := Canonical(params, "");
      Octets(canonical) && Canonical(Parse(canonical), "") == canonical
  {
    var items := EncodeParams(params, "");
    EncodeParamsWell(params, "");
    SortedWell(items);
    ParseOfRendered(SortItems(items));
    Reencoded(SortItems(items), "");
  }

  // ----- What the canonical form determines ----------------------------------

  /** A parameter as far as a signature covers it. */
  function Pair(p: QueryParam): (string, string) {
    (p.name, p.value)
  }

  function Pairs(params: seq<QueryParam>): seq<(string, string)> {
    Map((p: QueryParam) => Pair(p), params)
  }

  function EncodePair(p: (string, string)): Encoded {
    if Octets(p.0) && Octets(p.1) then Encoded(Encode(p.0, true), Encode(p.1, true)) else Encoded(p.0, p.1)
  }

  function DecodePair(e: Encoded): (string, string) {
    if Octets(e.name) && Octets(e.value) then (Decode(e.name), Decode(e.value)) else (e.name, e.value)
  }

  lemma {:induction false} PairsEncoded(params: seq<QueryParam>)
    ensures EncodeParams(params, "") == Map((p: (string, string)) => EncodePair(p), Pairs(params))
    ensures Pairs(params) == Map((e: Encoded) => DecodePair(e), EncodeParams(params, ""))
  {
    hide Encode, Decode, WellEncoded;
    if params != [] {
      PairsEncoded(params[1..]);
      PairEncoded(params[0]);
      hide EncodeParam, EncodePair, DecodePair, Pair;
      assert Pairs(params) == [Pair(params[0])] + Pairs(params[1..]);
    }
  }

  lemma PairEncoded(p: QueryParam)
    ensures EncodeParam(p) == EncodePair(Pair(p)) && DecodePair(EncodeParam(p)) == Pair(p)
  {
    EncodedIsWell(p);
  }

  /** Two parameter lists have the same canonical form exactly when they hold the same names and
      values, in whatever order: a signature covers the parameters, no more and no less. */
  lemma CanonicalDetermines(a: seq<QueryParam>, b: seq<QueryParam>)
    ensures Canonical(a, "") == Canonical(b, "") <==> multiset(Pairs(a)) == multiset(Pairs(b))
  {
    var x, y := EncodeParams(a, ""), EncodeParams(b, "");
    PairsEncoded(a);
    PairsEncoded(b);
    if multiset(Pairs(a)) == multiset(Pairs(b)) {
      MapPermuted((p: (string, string)) => EncodePair(p), Pairs(a), Pairs(b));
      BeforeIsTotal();
      SortOfPermuted((a, b) => Before(a, b), x, y);
    }
    if Canonical(a, "") == Canonical(b, "") {
      SameRendering(a, b);
      MapPermuted((e: Encoded) => DecodePair(e), x, y);
    }
  }

  lemma SameRendering(a: seq<QueryParam>, b: seq<QueryParam>)
    requires Canonical(a, "") == Canonical(b, "")
    ensures multiset(EncodeParams(a, "")) == multiset(EncodeParams(b, ""))
  {
    var x, y := EncodeParams(a, ""), EncodeParams(b, "");
    EncodeParamsWell(a, "");
    EncodeParamsWell(b, "");
    SortedWell(x);
    SortedWell(y);
    ParseOfRendered(SortItems(x));
    ParseOfRendered(SortItems(y));
    Reencoded(SortItems(x), "");
    Reencoded(SortItems(y), "");
  }

  // ----- A signature appended ------------------------------------------------

  lemma {:induction false} RenderAppend(items: seq<Encoded>, last: Encoded)
    requires items != []
    ensures Render(items + [last]) == Render(items) + "&" + Item(last)
  {
    var more := items + [last];
    assert more[1..] == items[1..] + [last];
    if |items| > 1 {
      RenderAppend(items[1..], last);
      assert Item(items[0]) + "&" + (Render(items[1..]) + "&" + Item(last))
          == Item(items[0]) + "&" + Render(items[1..]) + "&" + Item(last);
    } else {
      assert items[1..] == [];
    }
  }

  lemma {:induction false} EncodeParamsOmits(params: seq<QueryParam>, last: QueryParam)
    ensures last.name != "" ==> EncodeParams(params + [last], last.name) == EncodeParams(params, last.name)
  {
    if params == [] {
      assert params + [last] == [last] && [last][1..] == [];
      assert last.name != "" ==> EncodeParams([last], last.name) == EncodeParams([], last.name);
    } else {
      assert (params + [last])[1..] == params[1..] + [last];
      EncodeParamsOmits(params[1..], last);
    }
  }

  predicate NamesDiffer(params: seq<QueryParam>, name: string) {
    forall i :: 0 <= i < |params| ==> params[i].name != name
  }

  lemma {:induction false} NoItemNamed(params: seq<QueryParam>, name: string)
    requires NamesDiffer(params, name)
    ensures forall e :: e in EncodeParams(params, "") ==> InertItem(e) && Decode(e.name) != name
  {
    if params != [] {
      EncodedIsWell(params[0]);
      hide WellEncoded, EncodeParam;
      NoItemNamed(params[1..], name);
    }
  }

  lemma SortedMembers(items: seq<Encoded>, e: Encoded)
    requires e in SortItems(items)
    ensures e in items
  {
    BeforeIsTotal();
    SortSorts((a, b) => Before(a, b), items);
    assert e in multiset(SortItems(items));
  }

  predicate Plain(s: string) {
    Octets(s) && forall i :: 0 <= i < |s| ==> Unreserved(s[i])
  }

  lemma ItemDropsOut(items: seq<Encoded>, last: Encoded)
    requires AllWellEncoded(items) && WellEncoded(last) && Decode(last.name) != ""
    requires forall i :: 0 <= i < |items| ==> Decode(items[i].name) != Decode(last.name)
    ensures Octets(Render(items)) && Octets(Render(items + [last]))
    ensures Parse(Render(items + [last])) == Parse(Render(items)) + [DecodeItem(last)]
    ensures EncodeParams(Parse(Render(items + [last])), Decode(last.name)) == items
  {
    hide Parse, Render, Decode, Encode, EncodeParams, EncodeParam, Inert, Octets;
    OneMoreWell(items, last);
    ParseOfRendered(items);
    ParseOfRendered(items + [last]);
    EncodeParamsOmits(DecodeItems(items), DecodeItem(last));
    Reencoded(items, Decode(last.name));
  }

  lemma OneMoreWell(items: seq<Encoded>, last: Encoded)
    requires AllWellEncoded(items) && WellEncoded(last)
    ensures InertItems(items) && InertItems(items + [last]) && DecodeItem(last).name == Decode(last.name)
    ensures DecodeItems(items + [last]) == DecodeItems(items) + [DecodeItem(last)]
  {
    assert forall i :: 0 <= i < |items| ==> InertItem(items[i]);
    hide WellEncoded, AllWellEncoded, InertItem, Decode;
  }

  lemma SortedItemsDiffer(params: seq<QueryParam>, name: string)
    requires NamesDiffer(params, name) && params != []
    ensures var items := SortItems(EncodeParams(params, ""));
      && items != [] && AllWellEncoded(items) && SortItems(items) == items
      && forall i :: 0 <= i < |items| ==> InertItem(items[i]) && Decode(items[i].name) != name
  {
    var items := SortItems(EncodeParams(params, ""));
    EncodeParamsWell(params, "");
    SortedWell(EncodeParams(params, ""));
    assert |multiset(items)| == |items| > 0;
    forall i | 0 <= i < |items| ensures InertItem(items[i]) && Decode(items[i].name) != name {
      SortedMembers(EncodeParams(params, ""), items[i]);
      NoItemNamed(params, name);
    }
  }

  /** The redeemed query: parsed, the signed parameters and then the signature; rendered again
      without the signature, the very bytes that were signed. */
  lemma SignatureDropsOut(params: seq<QueryParam>, name: string, signature: string)
    requires params != [] && name != "" && Plain(name) && Plain(signature) && NamesDiffer(params, name)
    ensures var canonical := Canonical(params, "");
      var redeemed := canonical + "&" + Item(Encoded(name, signature));
      && Octets(canonical) && Octets(redeemed)
      && Parse(redeemed) == Parse(canonical) + [QueryParam(name, signature, true)]
      && Canonical(Parse(redeemed), name) == canonical
  {
    var items, last := SortItems(EncodeParams(params, "")), Encoded(name, signature);
    SortedItemsDiffer(params, name);
    PlainEncode(name);
    PlainEncode(signature);
    EncodedIsWell(QueryParam(name, signature, true));
    hide Parse, Render, Decode, Encode, SortItems, EncodeParams, AllWellEncoded, Item, Octets;
    RenderAppend(items, last);
    ItemDropsOut(items, last);
  }

  lemma {:induction false} EncodedEach(params: seq<QueryParam>, omit: string)
    requires omit == "" || NamesDiffer(params, omit)
    ensures |EncodeParams(params, omit)| == |params|
    ensures forall i :: 0 <= i < |params| ==> EncodeParams(params, omit)[i] == EncodeParam(params[i])
  {
    if params != [] {
      hide EncodeParam;
      EncodedEach(params[1..], omit);
    }
  }

  /** Parameters that all have values and come in order by encoded name read back as they are. */
  lemma OrderedReadBack(params: seq<QueryParam>)
    requires forall i :: 0 <= i < |params| ==> params[i].hasValue
    requires forall i, j :: 0 <= i < j < |params| ==> Less(Encode(params[i].name, true), Encode(params[j].name, true))
    ensures Octets(Canonical(params, "")) && Parse(Canonical(params, "")) == params
  {
    var items := EncodeParams(params, "");
    EncodedEach(params, "");
    EncodeParamsWell(params, "");
    forall i, j | 0 <= i < j < |items| ensures !Before(items[j], items[i]) {
      assert Less(items[i].name, items[j].name);
      LessTotal(items[i].name, items[j].name);
    }
    BeforeIsTotal();
    SortOfSorted((a, b) => Before(a, b), items);
    ParseOfRendered(items);
    forall i | 0 <= i < |params| ensures DecodeItems(items)[i] == params[i] {
      EncodedIsWell(params[i]);
    }
  }

  // ----- The loops -----------------------------------------------------------

  method SplitFields(query: Bytes) returns (params: seq<QueryParam>)
    ensures params == ParseFields(query)
  {
    hide ParseFields, ParseField, IndexOf;
    params := [];
    var pos := 0;
    while pos <= |query|
      invariant pos <= |query|
      invariant params + ParseFields(query[pos..]) == ParseFields(query)
    {
      var rest := query[pos..];
      var amp := IndexOf(rest, '&');
      FieldStep(params, rest);
      if rest[..amp] != "" {
        params := params + [ParseField(rest[..amp])];
      }
      if amp == |rest| {
        return;
      }
      assert rest[amp + 1..] == query[pos + amp + 1..];
      pos := pos + amp + 1;
    }
  }

  method ParseQuery(raw: Bytes) returns (params: seq<QueryParam>)
    ensures params == Parse(raw)
  {
    if raw == "" {
      return [];
    }
    params := SplitFields(if raw[0] == '?' then raw[1..] else raw);
  }

  /** One turn of the loop, with what is still to come behind it. */
  lemma FieldStep(params: seq<QueryParam>, s: Bytes)
    ensures var amp := IndexOf(s, '&');
      var more := if s[..amp] == "" then params else params + [ParseField(s[..amp])];
      params + ParseFields(s) == if amp == |s| then more else more + ParseFields(s[amp + 1..])
  {
    Unfolded(s);
    hide ParseFields, IndexOf, ParseField;
    var amp := IndexOf(s, '&');
    if s[..amp] != "" && amp < |s| {
      Associative(params, [ParseField(s[..amp])], ParseFields(s[amp + 1..]));
    } else if s[..amp] == "" && amp == |s| {
      assert params + [] == params;
    }
  }

  lemma Unfolded(s: Bytes)
    ensures var amp := IndexOf(s, '&'); var field := s[..amp];
      ParseFields(s) ==
        if amp == |s| then (if field == "" then [] else [ParseField(field)])
        else if field == "" then ParseFields(s[amp + 1..])
        else [ParseField(field)] + ParseFields(s[amp + 1..])
  {
    hide IndexOf, ParseField;
  }

  method FindQuery(params: seq<QueryParam>, name: string) returns (value: Option<Bytes>)
    ensures value == FindParam(params, name)
  {
    for i := 0 to |params|
      invariant FindParam(params, name) == FindParam(params[i..], name)
    {
      assert params[i..][1..] == params[i + 1..];
      if params[i].name == name {
        return Some(params[i].value);
      }
    }
    return None;
  }

  method EncodeAll(params: seq<QueryParam>, omit: string) returns (encoded: seq<Encoded>)
    ensures encoded == EncodeParams(params, omit)
  {
    encoded := [];
    for i := 0 to |params|
      invariant encoded + EncodeParams(params[i..], omit) == EncodeParams(params, omit)
    {
      hide EncodeParam;
      var param := params[i];
      assert params[i..][1..] == params[i + 1..];
      if omit != "" && param.name == omit {
        continue;
      }
      Associative(encoded, [EncodeParam(param)], EncodeParams(params[i + 1..], omit));
      encoded := encoded + [EncodeParam(param)];
    }
    assert params[|params|..] == [];
  }

  method RenderAll(items: seq<Encoded>) returns (out: string)
    ensures out == Render(items)
  {
    hide Render;
    assert Render([]) == "" by {
      RenderNothing();
    }
    out := "";
    for i := 0 to |items|
      invariant out == Render(items[..i]) && (i > 0 ==> out != "")
    {
      RenderStep(items, i);
      if out != "" {
        out := out + "&";
      }
      out := out + items[i].name;
      out := out + "=";
      out := out + items[i].value;
    }
    assert items[..|items|] == items;
  }

  lemma RenderNothing()
    ensures Render([]) == ""
  {
  }

  method CanonicalQueryString(params: seq<QueryParam>, omit: string) returns (out: string)
    ensures out == Canonical(params, omit)
  {
    var encoded := EncodeAll(params, omit);
    encoded := SortItems(encoded);
    out := RenderAll(encoded);
  }

  lemma RenderStep(items: seq<Encoded>, i: nat)
    requires i < |items|
    ensures items[..i + 1] == items[..i] + [items[i]]
    ensures i > 0 ==> Render(items[..i + 1]) == Render(items[..i]) + "&" + items[i].name + "=" + items[i].value
    ensures i == 0 ==> Render(items[..i + 1]) == "" + items[i].name + "=" + items[i].value
  {
    var e, sofar := items[i], Render(items[..i]);
    assert items[..i + 1] == items[..i] + [e];
    Associative(sofar + "&", e.name, "=" + e.value);
    Associative(sofar + "&" + e.name, "=", e.value);
    Associative(e.name, "=", e.value);
    if i > 0 {
      RenderAppend(items[..i], e);
    } else {
      assert items[..1] == [e] && "" + e.name == e.name;
      assert Render([e]) == Item(e);
    }
  }
}
