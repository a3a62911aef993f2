/** Parts of the stored records: CORS rules, content headers and bucket grants. Each decodes to what
    was encoded and leaves what follows it; the limits on what decodes are stated exactly. */
module Records {
  import opened Option
  import opened Text
  import opened Codec
  import opened Sorting
  import Cors
  import Console

  type CorsRule = Cors.CorsRule

  // ----- Lists of strings ----------------------------------------------------------

  function Strs(values: seq<string>): string {
    if values == [] then "" else Str(values[0]) + Strs(values[1..])
  }

  function ReadStrs(s: string, count: nat): Read<seq<string>>
    decreases count
  {
    if count == 0 then Some(([], s))
    else
      match ReadStr(s)
      case None => None
      case Some((value, rest)) =>
        match ReadStrs(rest, count - 1)
        case None => None
        case Some((values, left)) => Some(([value] + values, left))
  }

  function StrList(values: seq<string>): string {
    Varint(|values|) + Strs(values)
  }

  /** A count past the limit is corruption. */
  function ReadCount(s: string, limit: nat): Read<nat> {
    match ReadVarint(s)
    case None => None
    case Some((count, rest)) => if count > limit then None else Some((count, rest))
  }

  function ReadStrList(s: string): Read<seq<string>> {
    match ReadCount(s, MAX_LIST)
    case None => None
    case Some((count, rest)) => ReadStrs(rest, count)
  }

  const MAX_RULES: nat := 100
  const MAX_LIST: nat := 1000
  const MAX_HEADERS: nat := 64
  const MAX_GRANTS: nat := 1_000_000

  /** Strings a record can hold at all. */
  predicate Sized(values: seq<string>) {
    forall i :: 0 <= i < |values| ==> |values[i]| < WORD
  }

  lemma {:induction false} StrsRead(values: seq<string>, rest: string)
    requires Sized(values)
    ensures ReadStrs(Strs(values) + rest, |values|) == Some((values, rest))
  {
    hide Str, ReadStr;
    if values == [] {
      assert Strs(values) + rest == rest;
    } else {
      Associative(Str(values[0]), Strs(values[1..]), rest);
      StrReads(values[0], Strs(values[1..]) + rest);
      StrsRead(values[1..], rest);
      assert values == [values[0]] + values[1..];
    }
  }

  lemma CountReads(count: nat, limit: nat, rest: string)
    requires count < WORD
    ensures ReadCount(Varint(count) + rest, limit) == if count > limit then None else Some((count, rest))
  {
    hide Varint, ReadVarint;
    VarintReads(count, rest);
  }

  lemma StrListReads(values: seq<string>, rest: string)
    requires Sized(values) && |values| < WORD
    ensures ReadStrList(StrList(values) + rest) == if |values| > MAX_LIST then None else Some((values, rest))
  {
    hide Varint, ReadCount, Strs, ReadStrs;
    Associative(Varint(|values|), Strs(values), rest);
    CountReads(|values|, MAX_LIST, Strs(values) + rest);
    StrsRead(values, rest);
  }

  // ----- CORS rules ------------------------------------------------------------------

  const INT32: int := 0x1_0000_0000

  /** A number narrowed to 32 bits, signed. */
  function ToInt32(n: nat): int {
    if n % INT32 < 0x8000_0000 then n % INT32 else n % INT32 - INT32
  }

  function Age(age: int): string {
    Bool(age >= 0) + Varint(if age >= 0 then age else 0)
  }

  function ReadAge(s: string): Read<int> {
    match ReadBool(s)
    case None => None
    case Some((has, t)) =>
      match ReadVarint(t)
      case None => None
      case Some((age, rest)) => Some((if has then ToInt32(age) else -1, rest))
  }

  function Rule(r: CorsRule): string {
    Str(r.id) + (StrList(r.allowedOrigins) + (StrList(r.allowedMethods)
      + (StrList(r.allowedHeaders) + (StrList(r.exposeHeaders) + Age(r.maxAgeSeconds)))))
  }

  function ReadRule(s: string): Read<CorsRule> {
    match ReadStr(s)
    case None => None
    case Some((id, a)) =>
      match ReadStrList(a)
      case None => None
      case Some((origins, b)) =>
        match ReadStrList(b)
        case None => None
        case Some((methods, c)) => ReadRuleTail(id, origins, methods, c)
  }

  function ReadRuleTail(id: string, origins: seq<string>, methods: seq<string>, c: string): Read<CorsRule> {
    match ReadStrList(c)
    case None => None
    case Some((headers, d)) =>
      match ReadStrList(d)
      case None => None
      case Some((exposed, e)) =>
        match ReadAge(e)
        case None => None
        case Some((age, rest)) => Some((Cors.CorsRule(id, origins, methods, headers, exposed, age), rest))
  }

  function Rules(rules: seq<CorsRule>): string {
    if rules == [] then "" else Rule(rules[0]) + Rules(rules[1..])
  }

  function ReadRules(s: string, count: nat): Read<seq<CorsRule>>
    decreases count
  {
    if count == 0 then Some(([], s))
    else
      match ReadRule(s)
      case None => None
      case Some((r, rest)) =>
        match ReadRules(rest, count - 1)
        case None => None
        case Some((rules, left)) => Some(([r] + rules, left))
  }

  function CorsRules(rules: seq<CorsRule>): string {
    Varint(|rules|) + Rules(rules)
  }

  function ReadCorsRules(s: string): Read<seq<CorsRule>> {
    match ReadCount(s, MAX_RULES)
    case None => None
    case Some((count, rest)) => ReadRules(rest, count)
  }

  /** What fits the machine: lengths in 64 bits, the age in 32. */
  predicate Representable(r: CorsRule) {
    && |r.id| < WORD && -0x8000_0000 <= r.maxAgeSeconds < 0x8000_0000
    && Sized(r.allowedOrigins) && |r.allowedOrigins| < WORD
    && Sized(r.allowedMethods) && |r.allowedMethods| < WORD
    && Sized(r.allowedHeaders) && |r.allowedHeaders| < WORD
    && Sized(r.exposeHeaders) && |r.exposeHeaders| < WORD
  }

  /** What the decoder accepts. */
  predicate Short(r: CorsRule) {
    && |r.allowedOrigins| <= MAX_LIST && |r.allowedMethods| <= MAX_LIST
    && |r.allowedHeaders| <= MAX_LIST && |r.exposeHeaders| <= MAX_LIST
  }

  /** Every negative age is stored as "none". */
  function Stored(r: CorsRule): CorsRule {
    r.(maxAgeSeconds := if r.maxAgeSeconds < 0 then -1 else r.maxAgeSeconds)
  }

  lemma AgeReads(age: int, rest: string)
    requires -0x8000_0000 <= age < 0x8000_0000
    ensures ReadAge(Age(age) + rest) == Some((if age < 0 then -1 else age, rest))
  {
    hide Varint, ReadVarint, Bool, ReadBool;
    var n := if age >= 0 then age else 0;
    Associative(Bool(age >= 0), Varint(n), rest);
    BoolReads(age >= 0, Varint(n) + rest);
    VarintReads(n, rest);
  }

  lemma RuleTailReads(r: CorsRule, rest: string)
    requires Representable(r)
    ensures
      var s := StrList(r.allowedHeaders) + (StrList(r.exposeHeaders) + Age(r.maxAgeSeconds)) + rest;
      ReadRuleTail(r.id, r.allowedOrigins, r.allowedMethods, s)
      == if |r.allowedHeaders| <= MAX_LIST && |r.exposeHeaders| <= MAX_LIST then Some((Stored(r), rest)) else None
  {
    hide StrList, ReadStrList, Age, ReadAge, Sized;
    var d, e := StrList(r.exposeHeaders), Age(r.maxAgeSeconds);
    Associative(StrList(r.allowedHeaders), d + e, rest);
    Associative(d, e, rest);
    StrListReads(r.allowedHeaders, d + (e + rest));
    StrListReads(r.exposeHeaders, e + rest);
    AgeReads(r.maxAgeSeconds, rest);
  }

  lemma RuleReads(r: CorsRule, rest: string)
    requires Representable(r)
    ensures ReadRule(Rule(r) + rest) == if Short(r) then Some((Stored(r), rest)) else None
  {
    hide Str, ReadStr, StrList, ReadStrList, Age, ReadRuleTail, Sized;
    var tail := StrList(r.allowedHeaders) + (StrList(r.exposeHeaders) + Age(r.maxAgeSeconds));
    var b, c := StrList(r.allowedOrigins), StrList(r.allowedMethods);
    Associative(Str(r.id), b + (c + tail), rest);
    Associative(b, c + tail, rest);
    Associative(c, tail, rest);
    StrReads(r.id, b + (c + (tail + rest)));
    StrListReads(r.allowedOrigins, c + (tail + rest));
    StrListReads(r.allowedMethods, tail + rest);
    RuleTailReads(r, rest);
  }

  predicate AllRepresentable(rules: seq<CorsRule>) {
    forall i :: 0 <= i < |rules| ==> Representable(rules[i])
  }

  predicate AllShort(rules: seq<CorsRule>) {
    forall i :: 0 <= i < |rules| ==> Short(rules[i])
  }

  lemma {:induction false} RulesRead(rules: seq<CorsRule>, rest: string)
    requires AllRepresentable(rules)
    ensures ReadRules(Rules(rules) + rest, |rules|) == if AllShort(rules) then Some((Map(Stored, rules), rest))
            else None
  {
    hide Rule, ReadRule, Representable, Short, Stored;
    if rules == [] {
      assert Rules(rules) + rest == rest && Map(Stored, rules) == [];
    } else {
      Associative(Rule(rules[0]), Rules(rules[1..]), rest);
      RuleReads(rules[0], Rules(rules[1..]) + rest);
      RulesRead(rules[1..], rest);
      ShortSplits(rules);
      assert Map(Stored, rules) == [Stored(rules[0])] + Map(Stored, rules[1..]);
    }
  }

  lemma ShortSplits(rules: seq<CorsRule>)
    requires rules != []
    ensures AllShort(rules) <==> Short(rules[0]) && AllShort(rules[1..])
  {
    hide Short;
    if Short(rules[0]) && AllShort(rules[1..]) {
      forall i | 0 <= i < |rules| ensures Short(rules[i]) {
        assert i > 0 ==> rules[i] == rules[1..][i - 1];
      }
    }
  }

  /** CORS rules read back, ages apart, exactly when there are at most 100 and every list is at most 1000. */
  lemma CorsRulesRead(rules: seq<CorsRule>, rest: string)
    requires AllRepresentable(rules) && |rules| < WORD
    ensures ReadCorsRules(CorsRules(rules) + rest)
         == if |rules| <= MAX_RULES && AllShort(rules) then Some((Map(Stored, rules), rest)) else None
  {
    hide Varint, ReadCount, Rules, ReadRules, AllRepresentable, AllShort;
    Associative(Varint(|rules|), Rules(rules), rest);
    CountReads(|rules|, MAX_RULES, Rules(rules) + rest);
    RulesRead(rules, rest);
  }

  /** They read back unchanged exactly when, besides, no age is below the -1 that stands for none. */
  lemma CorsRulesRoundTrip(rules: seq<CorsRule>, rest: string)
    requires AllRepresentable(rules) && |rules| < WORD
    ensures ReadCorsRules(CorsRules(rules) + rest) == Some((rules, rest))
       <==> |rules| <= MAX_RULES && AllShort(rules) && forall i :: 0 <= i < |rules| ==> rules[i].maxAgeSeconds >= -1
  {
    hide ReadCorsRules, CorsRules, AllRepresentable, AllShort;
    CorsRulesRead(rules, rest);
    if Map(Stored, rules) == rules {
      forall i | 0 <= i < |rules| ensures rules[i].maxAgeSeconds >= -1 {
        assert Map(Stored, rules)[i] == rules[i];
      }
    }
  }

  /** Validation has no limit on the length of a rule's lists, so it accepts a configuration whose stored
      form no longer decodes. */
  lemma ValidatedMayNotDecode(rest: string)
    ensures
      var rule := Cors.CorsRule("", seq(1001, _ => "*"), ["GET"], [], [], -1);
      Cors.Validate([rule]) == Some([rule]) && ReadCorsRules(CorsRules([rule]) + rest) == None
  {
    var rule := Cors.CorsRule("", seq(1001, _ => "*"), ["GET"], [], [], -1);
    Accepted(rule);
    assert Representable(rule);
    hide Cors.Validate, ReadCorsRules, CorsRules, Representable;
    CorsRulesRead([rule], rest);
    assert !Short(rule) && [rule][0] == rule;
  }

  lemma Accepted(rule: CorsRule)
    requires rule == Cors.CorsRule("", seq(1001, _ => "*"), ["GET"], [], [], -1)
    ensures Cors.Validate([rule]) == Some([rule])
  {
    assert ToUpper("GET") == "GET";
    assert multiset("*")['*'] == 1;
    assert Cors.Acceptable(rule);
    hide Cors.Acceptable;
    assert Map(ToUpper, ["GET"]) == ["GET"] && Map(ToLower, []) == [];
    assert Cors.Normal(rule) == rule;
    assert Map(Cors.Normal, [rule]) == [rule];
  }

  // ----- Content headers ---------------------------------------------------------------

  datatype ContentHeaders = ContentHeaders(
    cacheControl: string, contentDisposition: string, contentEncoding: string, contentLanguage: string, expires: string)

  const NO_HEADERS: ContentHeaders := ContentHeaders("", "", "", "", "")

  /** A header under its id, which is fixed forever. */
  datatype Field = Field(id: nat, value: string)

  function FieldIf(id: nat, value: string): seq<Field> {
    if value == "" then [] else [Field(id, value)]
  }

  /** The headers that are present, in the order of their ids. */
  function Fields(h: ContentHeaders): seq<Field> {
    FieldIf(1, h.cacheControl) + FieldIf(2, h.contentDisposition) + FieldIf(3, h.contentEncoding)
    + FieldIf(4, h.contentLanguage) + FieldIf(5, h.expires)
  }

  predicate ValidField(f: Field) {
    f.id < 256 && |f.value| < WORD
  }

  predicate ValidFields(fields: seq<Field>) {
    forall i :: 0 <= i < |fields| ==> ValidField(fields[i])
  }

  function FieldText(f: Field): string
    requires ValidField(f)
  {
    U8(f.id) + Str(f.value)
  }

  function FieldsText(fields: seq<Field>): string
    requires ValidFields(fields)
  {
    if fields == [] then "" else FieldText(fields[0]) + FieldsText(fields[1..])
  }

  function HeaderText(fields: seq<Field>): string
    requires ValidFields(fields)
  {
    Varint(|fields|) + FieldsText(fields)
  }

  /** A field of an id this build does not know is read and dropped. */
  function Assign(h: ContentHeaders, f: Field): ContentHeaders {
    if f.id == 1 then h.(cacheControl := f.value)
    else if f.id == 2 then h.(contentDisposition := f.value)
    else if f.id == 3 then h.(contentEncoding := f.value)
    else if f.id == 4 then h.(contentLanguage := f.value)
    else if f.id == 5 then h.(expires := f.value)
    else h
  }

  function AssignAll(h: ContentHeaders, fields: seq<Field>): ContentHeaders
    decreases |fields|
  {
    if fields == [] then h else AssignAll(Assign(h, fields[0]), fields[1..])
  }

  function ReadField(s: string): Read<Field> {
    match ReadU8(s)
    case None => None
    case Some((id, t)) =>
      match ReadStr(t)
      case None => None
      case Some((value, rest)) => Some((Field(id, value), rest))
  }

  function ReadFields(s: string, count: nat, h: ContentHeaders): Read<ContentHeaders>
    decreases count
  {
    if count == 0 then Some((h, s))
    else
      match ReadField(s)
      case None => None
      case Some((f, rest)) => ReadFields(rest, count - 1, Assign(h, f))
  }

  function ReadContentHeaders(s: string): Read<ContentHeaders> {
    match ReadCount(s, MAX_HEADERS)
    case None => None
    case Some((count, rest)) => ReadFields(rest, count, NO_HEADERS)
  }

  lemma {:induction false} FieldsRead(fields: seq<Field>, h: ContentHeaders, rest: string)
    requires ValidFields(fields)
    ensures ReadFields(FieldsText(fields) + rest, |fields|, h) == Some((AssignAll(h, fields), rest))
    decreases |fields|
  {
    hide Str, ReadStr, U8, ReadU8, Assign;
    if fields == [] {
      assert FieldsText(fields) + rest == rest;
    } else {
      var f, others := fields[0], FieldsText(fields[1..]);
      Associative(FieldText(f), others, rest);
      Associative(U8(f.id), Str(f.value), others + rest);
      U8Reads(f.id, Str(f.value) + (others + rest));
      StrReads(f.value, others + rest);
      FieldsRead(fields[1..], Assign(h, f), rest);
    }
  }

  lemma HeaderTextReads(fields: seq<Field>, rest: string)
    requires ValidFields(fields) && |fields| < WORD
    ensures ReadContentHeaders(HeaderText(fields) + rest)
         == if |fields| > MAX_HEADERS then None else Some((AssignAll(NO_HEADERS, fields), rest))
  {
    hide Varint, ReadCount, FieldsText, ReadFields, ValidFields;
    Associative(Varint(|fields|), FieldsText(fields), rest);
    CountReads(|fields|, MAX_HEADERS, FieldsText(fields) + rest);
    FieldsRead(fields, NO_HEADERS, rest);
  }

  function Known(fields: seq<Field>): seq<Field> {
    if fields == [] then []
    else (if 1 <= fields[0].id <= 5 then [fields[0]] else []) + Known(fields[1..])
  }

  lemma {:induction false} UnknownDoesNothing(h: ContentHeaders, fields: seq<Field>)
    ensures AssignAll(h, fields) == AssignAll(h, Known(fields))
    decreases |fields|
  {
    if fields != [] {
      UnknownDoesNothing(Assign(h, fields[0]), fields[1..]);
      var known := Known(fields);
      assert 1 <= fields[0].id <= 5 ==> known[0] == fields[0] && known[1..] == Known(fields[1..]);
      assert !(1 <= fields[0].id <= 5) ==> known == Known(fields[1..]);
    }
  }

  lemma AssignIf(h: ContentHeaders, id: nat, value: string, more: seq<Field>)
    ensures AssignAll(h, FieldIf(id, value) + more)
            == AssignAll(if value == "" then h else Assign(h, Field(id, value)), more)
  {
    var fields := FieldIf(id, value) + more;
    if value == "" {
      assert fields == more;
    } else {
      assert fields[0] == Field(id, value) && fields[1..] == more;
    }
  }

  lemma FieldsAreHeaders(h: ContentHeaders)
    ensures AssignAll(NO_HEADERS, Fields(h)) == h
  {
    var e := FieldIf(5, h.expires);
    var d := FieldIf(4, h.contentLanguage) + e;
    var c := FieldIf(3, h.contentEncoding) + d;
    var b := FieldIf(2, h.contentDisposition) + c;
    assert Fields(h) == FieldIf(1, h.cacheControl) + b;
    assert e + [] == e;
    hide FieldIf, Fields;
    AssignIf(NO_HEADERS, 1, h.cacheControl, b);
    AssignIf(ContentHeaders(h.cacheControl, "", "", "", ""), 2, h.contentDisposition, c);
    AssignIf(ContentHeaders(h.cacheControl, h.contentDisposition, "", "", ""), 3, h.contentEncoding, d);
    AssignIf(ContentHeaders(h.cacheControl, h.contentDisposition, h.contentEncoding, "", ""), 4, h.contentLanguage, e);
    AssignIf(ContentHeaders(h.cacheControl, h.contentDisposition, h.contentEncoding, h.contentLanguage, ""), 5,
             h.expires, []);
  }

  /** Whatever fields of unknown ids a newer build has mixed in, up to 64 in all, the known headers are
      read back and so is everything behind them. */
  lemma HeadersSurviveNewFields(h: ContentHeaders, fields: seq<Field>, rest: string)
    requires ValidFields(fields) && |fields| <= MAX_HEADERS && Known(fields) == Fields(h)
    ensures ReadContentHeaders(HeaderText(fields) + rest) == Some((h, rest))
  {
    hide ReadContentHeaders, HeaderText, AssignAll, Fields, Known, ValidFields;
    HeaderTextReads(fields, rest);
    UnknownDoesNothing(NO_HEADERS, fields);
    FieldsAreHeaders(h);
  }

  // ----- Bucket grants ------------------------------------------------------------------

  type Access = Console.Access
  type Grants = Console.Grants

  function AccessText(a: Access): string {
    match a
    case NoAccess => "none"
    case Read => "read"
    case Write => "write"
  }

  function ParseAccess(name: string): Option<Access> {
    if name == "none" then Some(Console.NoAccess)
    else if name == "read" then Some(Console.Access.Read)
    else if name == "write" then Some(Console.Write)
    else None
  }

  /** The order an ordered map is walked in: ascending, each key once. */
  predicate Ascending(names: seq<string>) {
    forall i, j :: 0 <= i < j < |names| ==> Less(names[i], names[j])
  }

  ghost predicate Enumerates(names: seq<string>, m: map<string, Access>) {
    Ascending(names) && forall n :: n in names <==> n in m
  }

  function Entry(name: string, a: Access): string {
    Str(name) + Str(AccessText(a))
  }

  function Entries(names: seq<string>, m: map<string, Access>): string
    requires forall n :: n in names ==> n in m
  {
    if names == [] then "" else Entry(names[0], m[names[0]]) + Entries(names[1..], m)
  }

  function GrantsText(g: Grants, names: seq<string>): string
    requires Enumerates(names, g.exceptions)
  {
    Str(AccessText(g.fallback)) + (Varint(|names|) + Entries(names, g.exceptions))
  }

  function ReadAccess(s: string): Read<Access> {
    match ReadStr(s)
    case None => None
    case Some((name, rest)) =>
      match ParseAccess(name)
      case None => None
      case Some(a) => Some((a, rest))
  }

  /** The first entry of a name counts. */
  function ReadEntries(s: string, count: nat, m: map<string, Access>): Read<map<string, Access>>
    decreases count
  {
    if count == 0 then Some((m, s))
    else
      match ReadStr(s)
      case None => None
      case Some((name, t)) =>
        match ReadAccess(t)
        case None => None
        case Some((a, rest)) => ReadEntries(rest, count - 1, if name in m then m else m[name := a])
  }

  function ReadGrants(s: string): Read<Grants> {
    match ReadAccess(s)
    case None => None
    case Some((fallback, t)) =>
      match ReadCount(t, MAX_GRANTS)
      case None => None
      case Some((count, u)) =>
        match ReadEntries(u, count, map[])
        case None => None
        case Some((exceptions, rest)) => Some((Console.Grants(fallback, exceptions), rest))
  }

  lemma AccessReads(a: Access, rest: string)
    ensures ReadAccess(Str(AccessText(a)) + rest) == Some((a, rest))
  {
    hide Str, ReadStr;
    StrReads(AccessText(a), rest);
  }

  lemma {:induction false} EntriesRead(names: seq<string>, m: map<string, Access>, sofar: map<string, Access>,
                                       rest: string)
    requires Ascending(names) && (forall n :: n in names ==> n in m && n !in sofar) && Sized(names)
    ensures ReadEntries(Entries(names, m) + rest, |names|, sofar)
         == Some((sofar + Picked(names, m), rest))
    decreases |names|
  {
    hide Entry, ReadStr, ReadAccess, Less, Picked, Ascending, Sized;
    if names == [] {
      assert Entries(names, m) + rest == rest;
      assert Picked(names, m) == map[] by { PickedSplits(names, m, sofar); }
      assert sofar + map[] == sofar;
    } else {
      var name, others := names[0], Entries(names[1..], m);
      LessApart(names);
      SizedSplits(names);
      Associative(Entry(name, m[name]), others, rest);
      EntryReads(name, m[name], others + rest);
      FirstIsIn(names);
      assert forall n :: n in names[1..] ==> n in names;
      EntriesRead(names[1..], m, sofar[name := m[name]], rest);
      PickedSplits(names, m, sofar);
    }
  }

  function Picked(names: seq<string>, m: map<string, Access>): map<string, Access>
    requires forall n :: n in names ==> n in m
  {
    map n | n in names :: m[n]
  }

  lemma PickedSplits(names: seq<string>, m: map<string, Access>, sofar: map<string, Access>)
    requires forall n :: n in names ==> n in m
    ensures names == [] ==> Picked(names, m) == map[]
    ensures names != [] && names[0] !in names[1..] ==>
      sofar[names[0] := m[names[0]]] + Picked(names[1..], m) == sofar + Picked(names, m)
  {
    if names != [] {
      assert names == [names[0]] + names[1..];
    }
  }

  lemma SizedSplits(names: seq<string>)
    requires Sized(names) && names != []
    ensures |names[0]| < WORD && Sized(names[1..])
  {
  }

  lemma EntryReads(name: string, a: Access, rest: string)
    requires |name| < WORD
    ensures ReadStr(Entry(name, a) + rest) == Some((name, Str(AccessText(a)) + rest))
    ensures ReadAccess(Str(AccessText(a)) + rest) == Some((a, rest))
  {
    hide Str, ReadStr, ReadAccess;
    Associative(Str(name), Str(AccessText(a)), rest);
    StrReads(name, Str(AccessText(a)) + rest);
    AccessReads(a, rest);
  }

  lemma LessApart(names: seq<string>)
    requires names != [] && Ascending(names)
    ensures names[0] !in names[1..] && Ascending(names[1..])
  {
    forall i | 0 <= i < |names[1..]| ensures names[1..][i] != names[0] {
      LessTotal(names[0], names[i + 1]);
    }
  }

  /** Grants read back, up to a million of them. */
  lemma GrantsRead(g: Grants, names: seq<string>, rest: string)
    requires Enumerates(names, g.exceptions) && Sized(names) && |names| < WORD
    ensures ReadGrants(GrantsText(g, names) + rest) == if |names| > MAX_GRANTS then None else Some((g, rest))
  {
    hide Str, Varint, ReadCount, ReadAccess, ReadEntries, Entries, Ascending, Sized;
    var entries := Entries(names, g.exceptions);
    Associative(Str(AccessText(g.fallback)), Varint(|names|) + entries, rest);
    Associative(Varint(|names|), entries, rest);
    AccessReads(g.fallback, Varint(|names|) + (entries + rest));
    CountReads(|names|, MAX_GRANTS, entries + rest);
    EntriesRead(names, g.exceptions, map[], rest);
    assert map[] + Picked(names, g.exceptions) == g.exceptions;
  }

  /** The bytes are determined by the grants: there is one ascending order of their names. */
  lemma {:induction false} OneAscendingOrder(a: seq<string>, b: seq<string>)
    requires Ascending(a) && Ascending(b) && forall n :: n in a <==> n in b
    ensures a == b
    decreases |a|
  {
    hide Less;
    FirstIsIn(a);
    FirstIsIn(b);
    if a != [] {
      assert a[0] in b && b[0] in a;
      FirstIsLeast(a, b[0]);
      FirstIsLeast(b, a[0]);
      LessTotal(a[0], b[0]);
      LessApart(a);
      LessApart(b);
      forall n ensures n in a[1..] <==> n in b[1..] {
        assert n in a <==> n == a[0] || n in a[1..];
        assert n in b <==> n == b[0] || n in b[1..];
      }
      OneAscendingOrder(a[1..], b[1..]);
      assert a == [a[0]] + a[1..] && b == [b[0]] + b[1..];
    }
  }

  lemma FirstIsIn(names: seq<string>)
    ensures names != [] ==> names[0] in names
  {
  }

  lemma FirstIsLeast(names: seq<string>, n: string)
    requires Ascending(names) && n in names
    ensures n == names[0] || Less(names[0], n)
  {
    hide Less;
  }
}
