/** The encoders and decoders of Records.dfy as they run: loops over a writer and a moving reader. */
module RecordsCodec {
  import opened Option
  import opened Text
  import C = Codec
  import R = Records
  import Cors
  import Console

  // ----- Encoding ----------------------------------------------------------------

  method WriteStrList(w: C.Writer, values: seq<string>)
    requires R.Sized(values) && |values| < C.WORD
    modifies w
    ensures w.out == old(w.out) + R.StrList(values)
  {
    hide C.Varint, C.Str;
    w.WriteVarint(|values|);
    for i := 0 to |values|
      invariant w.out + R.Strs(values[i..]) == old(w.out) + C.Varint(|values|) + R.Strs(values)
    {
      Associative(w.out, C.Str(values[i]), R.Strs(values[i + 1..]));
      assert values[i..][1..] == values[i + 1..] && values[i..][0] == values[i];
      w.WriteString(values[i]);
    }
    assert w.out + "" == w.out;
    Associative(old(w.out), C.Varint(|values|), R.Strs(values));
  }

  method WriteRule(w: C.Writer, r: Cors.CorsRule)
    requires R.Representable(r)
    modifies w
    ensures w.out == old(w.out) + R.Rule(r)
  {
    hide C.Varint, C.Str, C.Bool, R.StrList, R.Sized;
    w.WriteString(r.id);
    WriteStrList(w, r.allowedOrigins);
    WriteStrList(w, r.allowedMethods);
    WriteStrList(w, r.allowedHeaders);
    WriteStrList(w, r.exposeHeaders);
    ghost var lists := w.out;
    w.WriteBool(r.maxAgeSeconds >= 0);
    w.WriteVarint(if r.maxAgeSeconds >= 0 then r.maxAgeSeconds else 0);
    Associative(lists, C.Bool(r.maxAgeSeconds >= 0), C.Varint(if r.maxAgeSeconds >= 0 then r.maxAgeSeconds else 0));
    hide R.Age;
    SixParts(old(w.out), C.Str(r.id), R.StrList(r.allowedOrigins), R.StrList(r.allowedMethods),
             R.StrList(r.allowedHeaders), R.StrList(r.exposeHeaders), R.Age(r.maxAgeSeconds));
  }

  lemma SixParts(out: string, a: string, b: string, c: string, d: string, e: string, f: string)
    ensures out + a + b + c + d + e + f == out + (a + (b + (c + (d + (e + f)))))
  {
    Associative(out + a + b + c + d, e, f);
    Associative(out + a + b + c, d, e + f);
    Associative(out + a + b, c, d + (e + f));
    Associative(out + a, b, c + (d + (e + f)));
    Associative(out, a, b + (c + (d + (e + f))));
  }

  method EncodeCorsRules(w: C.Writer, rules: seq<Cors.CorsRule>)
    requires R.AllRepresentable(rules) && |rules| < C.WORD
    modifies w
    ensures w.out == old(w.out) + R.CorsRules(rules)
  {
    hide C.Varint, R.Rule, R.Representable;
    w.WriteVarint(|rules|);
    for i := 0 to |rules|
      invariant w.out + R.Rules(rules[i..]) == old(w.out) + C.Varint(|rules|) + R.Rules(rules)
    {
      Associative(w.out, R.Rule(rules[i]), R.Rules(rules[i + 1..]));
      assert rules[i..][1..] == rules[i + 1..] && rules[i..][0] == rules[i];
      WriteRule(w, rules[i]);
    }
    assert w.out + "" == w.out;
    Associative(old(w.out), C.Varint(|rules|), R.Rules(rules));
  }

  method EncodeContentHeaders(w: C.Writer, h: R.ContentHeaders)
    requires R.ValidFields(R.Fields(h))
    modifies w
    ensures w.out == old(w.out) + R.HeaderText(R.Fields(h))
  {
    hide C.Varint, R.FieldText, R.ValidField, R.Fields;
    var fields := R.Fields(h);
    FieldCount(h);
    w.WriteVarint(|fields|);
    for i := 0 to |fields|
      invariant R.ValidFields(fields[i..])
      invariant w.out + R.FieldsText(fields[i..]) == old(w.out) + C.Varint(|fields|) + R.FieldsText(fields)
    {
      Associative(w.out, R.FieldText(fields[i]), R.FieldsText(fields[i + 1..]));
      assert fields[i..][1..] == fields[i + 1..] && fields[i..][0] == fields[i];
      WriteField(w, fields[i]);
    }
    assert w.out + "" == w.out;
    Associative(old(w.out), C.Varint(|fields|), R.FieldsText(fields));
  }

  lemma FieldCount(h: R.ContentHeaders)
    ensures |R.Fields(h)| <= 5
  {
  }

  method WriteField(w: C.Writer, f: R.Field)
    requires R.ValidField(f)
    modifies w
    ensures w.out == old(w.out) + R.FieldText(f)
  {
    hide C.Str;
    w.WriteU8(f.id);
    w.WriteString(f.value);
    Associative(old(w.out), C.U8(f.id), C.Str(f.value));
  }

  /** `names` is the order an ordered map is walked in. */
  method EncodeBucketGrants(w: C.Writer, g: R.Grants, names: seq<string>)
    requires R.Enumerates(names, g.exceptions) && R.Sized(names) && |names| < C.WORD
    modifies w
    ensures w.out == old(w.out) + R.GrantsText(g, names)
  {
    hide C.Varint, C.Str, R.Entry, R.Ascending;
    var m := g.exceptions;
    w.WriteString(R.AccessText(g.fallback));
    w.WriteVarint(|names|);
    ghost var head := old(w.out) + C.Str(R.AccessText(g.fallback)) + C.Varint(|names|);
    for i := 0 to |names|
      invariant w.out + R.Entries(names[i..], m) == head + R.Entries(names, m)
    {
      Associative(w.out, R.Entry(names[i], m[names[i]]), R.Entries(names[i + 1..], m));
      assert names[i..][1..] == names[i + 1..] && names[i..][0] == names[i];
      WriteEntry(w, names[i], m[names[i]]);
    }
    assert w.out + "" == w.out;
    Associative(old(w.out) + C.Str(R.AccessText(g.fallback)), C.Varint(|names|), R.Entries(names, m));
    Associative(old(w.out), C.Str(R.AccessText(g.fallback)), C.Varint(|names|) + R.Entries(names, m));
  }

  method WriteEntry(w: C.Writer, name: string, a: R.Access)
    requires |name| < C.WORD
    modifies w
    ensures w.out == old(w.out) + R.Entry(name, a)
  {
    hide C.Str;
    w.WriteString(name);
    w.WriteString(R.AccessText(a));
    Associative(old(w.out), C.Str(name), C.Str(R.AccessText(a)));
  }

  // ----- Decoding ----------------------------------------------------------------

  /** What a list reads as once some of it has been read. */
  function Behind<T>(sofar: seq<T>, more: C.Read<seq<T>>): C.Read<seq<T>> {
    match more
    case None => None
    case Some((values, rest)) => Some((sofar + values, rest))
  }

  lemma BehindOne<T>(sofar: seq<T>, one: T, more: C.Read<seq<T>>)
    ensures Behind(sofar, Behind([one], more)) == Behind(sofar + [one], more)
  {
    if more.Some? {
      Associative(sofar, [one], more.value.0);
    }
  }

  lemma NothingBefore<T>(more: C.Read<seq<T>>)
    ensures Behind([], more) == more
  {
    if more.Some? {
      assert [] + more.value.0 == more.value.0;
    }
  }

  lemma StrsStep(s: string, count: nat)
    requires count > 0
    ensures R.ReadStrs(s, count)
         == match C.ReadStr(s)
            case None => None
            case Some((value, rest)) => Behind([value], R.ReadStrs(rest, count - 1))
  {
  }

  lemma RulesStep(s: string, count: nat)
    requires count > 0
    ensures R.ReadRules(s, count)
         == match R.ReadRule(s)
            case None => None
            case Some((value, rest)) => Behind([value], R.ReadRules(rest, count - 1))
  {
    hide R.ReadRule;
  }

  method ReadBounded(r: C.Reader, limit: nat) returns (count: Option<nat>)
    requires r.Valid()
    modifies r
    ensures r.Valid() && r.Agrees(R.ReadCount(old(r.Rest()), limit), count)
  {
    hide C.ReadVarint;
    count := r.NextVarint();
    if count.Some? && count.value > limit {
      count := None;
    }
  }

  method ReadStrList(r: C.Reader) returns (values: Option<seq<string>>)
    requires r.Valid()
    modifies r
    ensures r.Valid() && r.Agrees(R.ReadStrList(old(r.Rest())), values)
  {
    hide R.ReadCount, R.ReadStrs, C.ReadStr;
    var count := ReadBounded(r, R.MAX_LIST);
    if count == None {
      return None;
    }
    ghost var spec := R.ReadStrs(r.Rest(), count.value);
    var sofar: seq<string> := [];
    NothingBefore(spec);
    for i := 0 to count.value
      invariant r.Valid() && Behind(sofar, R.ReadStrs(r.Rest(), count.value - i)) == spec
    {
      StrsStep(r.Rest(), count.value - i);
      var value := r.NextString();
      if value == None {
        return None;
      }
      BehindOne(sofar, value.value, R.ReadStrs(r.Rest(), count.value - i - 1));
      sofar := sofar + [value.value];
    }
    NoStrs(r.Rest(), sofar);
    values := Some(sofar);
  }

  lemma NoStrs(s: string, sofar: seq<string>)
    ensures Behind(sofar, R.ReadStrs(s, 0)) == Some((sofar, s))
  {
    assert sofar + [] == sofar;
  }

  lemma NoRules(s: string, sofar: seq<Cors.CorsRule>)
    ensures Behind(sofar, R.ReadRules(s, 0)) == Some((sofar, s))
  {
    assert sofar + [] == sofar;
  }

  method ReadAge(r: C.Reader) returns (age: Option<int>)
    requires r.Valid()
    modifies r
    ensures r.Valid() && r.Agrees(R.ReadAge(old(r.Rest())), age)
  {
    hide C.ReadBool, C.ReadVarint;
    var has := r.NextBool();
    if has == None {
      return None;
    }
    var value := r.NextVarint();
    age := if value == None then None else Some(if has.value then R.ToInt32(value.value) else -1);
  }

  method ReadRule(r: C.Reader) returns (rule: Option<Cors.CorsRule>)
    requires r.Valid()
    modifies r
    ensures r.Valid() && r.Agrees(R.ReadRule(old(r.Rest())), rule)
  {
    hide C.ReadStr, R.ReadStrList, R.ReadAge;
    var id := r.NextString();
    if id == None { return None; }
    var origins := ReadStrList(r);
    if origins == None { return None; }
    var methods := ReadStrList(r);
    if methods == None { return None; }
    rule := ReadRuleTail(r, id.value, origins.value, methods.value);
  }

  method ReadRuleTail(r: C.Reader, id: string, origins: seq<string>, methods: seq<string>)
    returns (rule: Option<Cors.CorsRule>)
    requires r.Valid()
    modifies r
    ensures r.Valid() && r.Agrees(R.ReadRuleTail(id, origins, methods, old(r.Rest())), rule)
  {
    hide R.ReadStrList, R.ReadAge;
    var headers := ReadStrList(r);
    if headers == None { return None; }
    var exposed := ReadStrList(r);
    if exposed == None { return None; }
    var age := ReadAge(r);
    if age == None { return None; }
    rule := Some(Cors.CorsRule(id, origins, methods, headers.value, exposed.value, age.value));
  }

  method DecodeCorsRules(r: C.Reader) returns (rules: Option<seq<Cors.CorsRule>>)
    requires r.Valid()
    modifies r
    ensures r.Valid() && r.Agrees(R.ReadCorsRules(old(r.Rest())), rules)
  {
    hide R.ReadCount, R.ReadRules, R.ReadRule;
    var count := ReadBounded(r, R.MAX_RULES);
    if count == None {
      return None;
    }
    ghost var spec := R.ReadRules(r.Rest(), count.value);
    var sofar: seq<Cors.CorsRule> := [];
    NothingBefore(spec);
    for i := 0 to count.value
      invariant r.Valid() && Behind(sofar, R.ReadRules(r.Rest(), count.value - i)) == spec
    {
      RulesStep(r.Rest(), count.value - i);
      var rule := ReadRule(r);
      if rule == None {
        return None;
      }
      BehindOne(sofar, rule.value, R.ReadRules(r.Rest(), count.value - i - 1));
      sofar := sofar + [rule.value];
    }
    NoRules(r.Rest(), sofar);
    rules := Some(sofar);
  }

  method ReadField(r: C.Reader) returns (f: Option<R.Field>)
    requires r.Valid()
    modifies r
    ensures r.Valid() && r.Agrees(R.ReadField(old(r.Rest())), f)
  {
    hide C.ReadU8, C.ReadStr;
    var id := r.NextU8();
    if id == None { return None; }
    var value := r.NextString();
    f := if value == None then None else Some(R.Field(id.value, value.value));
  }

  method DecodeContentHeaders(r: C.Reader) returns (headers: Option<R.ContentHeaders>)
    requires r.Valid()
    modifies r
    ensures r.Valid() && r.Agrees(R.ReadContentHeaders(old(r.Rest())), headers)
  {
    hide R.ReadCount, R.ReadField, R.Assign;
    var count := ReadBounded(r, R.MAX_HEADERS);
    if count == None {
      return None;
    }
    ghost var begin := r.Rest();
    var h := R.NO_HEADERS;
    for i := 0 to count.value
      invariant r.Valid() && R.ReadFields(r.Rest(), count.value - i, h)
                == R.ReadFields(begin, count.value, R.NO_HEADERS)
    {
      var f := ReadField(r);
      if f == None {
        return None;
      }
      h := R.Assign(h, f.value);
    }
    headers := Some(h);
  }

  method ReadAccess(r: C.Reader) returns (a: Option<R.Access>)
    requires r.Valid()
    modifies r
    ensures r.Valid() && r.Agrees(R.ReadAccess(old(r.Rest())), a)
  {
    hide C.ReadStr, R.ParseAccess;
    var name := r.NextString();
    a := if name == None then None else R.ParseAccess(name.value);
  }

  method DecodeBucketGrants(r: C.Reader) returns (grants: Option<R.Grants>)
    requires r.Valid()
    modifies r
    ensures r.Valid() && r.Agrees(R.ReadGrants(old(r.Rest())), grants)
  {
    hide R.ReadCount, R.ReadAccess, R.ReadEntries;
    var fallback := ReadAccess(r);
    if fallback == None { return None; }
    var count := ReadBounded(r, R.MAX_GRANTS);
    if count == None { return None; }
    var exceptions := ReadEntries(r, count.value);
    grants := if exceptions == None then None else Some(Console.Grants(fallback.value, exceptions.value));
  }

  method ReadEntries(r: C.Reader, count: nat) returns (exceptions: Option<map<string, R.Access>>)
    requires r.Valid()
    modifies r
    ensures r.Valid() && r.Agrees(R.ReadEntries(old(r.Rest()), count, map[]), exceptions)
  {
    hide R.ReadAccess, C.ReadStr;
    var m: map<string, R.Access> := map[];
    for i := 0 to count
      invariant r.Valid() && R.ReadEntries(r.Rest(), count - i, m) == R.ReadEntries(old(r.Rest()), count, map[])
    {
      var name := r.NextString();
      if name == None {
        return None;
      }
      var access := ReadAccess(r);
      if access == None {
        return None;
      }
      if name.value !in m {
        m := m[name.value := access.value];
      }
    }
    exceptions := Some(m);
  }
}
