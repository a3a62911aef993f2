/** The CORS document: validation, parsing, rendering, and the exact condition under which parsing
    gives back what was rendered. Every refusal is MalformedXML, so a refusal is a None. */
module Cors {
  import opened Option
  import opened Text
  import opened Sorting
  import opened Xml
  import opened XmlTree
  import W = XmlWriter
  import P = XmlParser

  const MAX_RULES: nat := 100
  const MAX_AGE: int := 86400
  const NAMESPACE: string := "http://s3.amazonaws.com/doc/2006-03-01/"

  datatype CorsRule = CorsRule(
    id: string,
    allowedOrigins: seq<string>,
    allowedMethods: seq<string>,
    allowedHeaders: seq<string>,
    exposeHeaders: seq<string>,
    maxAgeSeconds: int)

  // ----- Validation ----------------------------------------------------------

  /** At most one wildcard, and not empty. */
  predicate Pattern(s: string) {
    s != "" && multiset(s)['*'] <= 1
  }

  predicate AllowedMethod(m: string) {
    m == "GET" || m == "PUT" || m == "POST" || m == "DELETE" || m == "HEAD"
  }

  predicate Acceptable(rule: CorsRule) {
    && rule.allowedOrigins != [] && (forall o :: o in rule.allowedOrigins ==> Pattern(o))
    && rule.allowedMethods != [] && (forall m :: m in rule.allowedMethods ==> AllowedMethod(ToUpper(m)))
    && (forall h :: h in rule.allowedHeaders ==> Pattern(h))
    && (forall h :: h in rule.exposeHeaders ==> h != "")
    && rule.maxAgeSeconds <= MAX_AGE
  }

  /** Methods upper-cased, header names lower-cased. */
  function Normal(rule: CorsRule): CorsRule {
    rule.(allowedMethods := Map(ToUpper, rule.allowedMethods), allowedHeaders := Map(ToLower, rule.allowedHeaders))
  }

  function Validate(rules: seq<CorsRule>): Option<seq<CorsRule>> {
    if 0 < |rules| <= MAX_RULES && forall r :: r in rules ==> Acceptable(r) then Some(Map(Normal, rules)) else None
  }

  /** A list whose first i elements have been rewritten in place. */
  function Partly<T>(f: T -> T, s: seq<T>, i: nat): (r: seq<T>)
    requires i <= |s|
    ensures |r| == |s| && (i < |s| ==> r[i] == s[i])
  {
    Map(f, s[..i]) + s[i..]
  }

  lemma StepStarts<T>(f: T -> T, s: seq<T>)
    ensures Partly(f, s, 0) == s && Partly(f, s, |s|) == Map(f, s)
  {
  }

  lemma StepMaps<T>(f: T -> T, s: seq<T>, i: nat)
    requires i < |s|
    ensures Partly(f, s, i)[i := f(s[i])] == Partly(f, s, i + 1)
  {
  }

  /** Upper-cases in place, refusing anything but the five methods. */
  method NormalizeMethods(input: seq<string>) returns (r: Option<seq<string>>)
    ensures r == if forall m :: m in input ==> AllowedMethod(ToUpper(m)) then Some(Map(ToUpper, input)) else None
  {
    hide AllowedMethod, Partly, Map;
    var methods := input;
    StepStarts(ToUpper, input);
    for i := 0 to |methods|
      invariant |methods| == |input|
      invariant methods == Partly(ToUpper, input, i)
      invariant forall k :: 0 <= k < i ==> AllowedMethod(ToUpper(input[k]))
    {
      StepMaps(ToUpper, input, i);
      methods := methods[i := ToUpper(methods[i])];
      if !AllowedMethod(methods[i]) {
        assert input[i] in input;
        return None;
      }
    }
    r := Some(methods);
  }

  method NormalizeHeaders(input: seq<string>) returns (r: Option<seq<string>>)
    ensures r == if forall h :: h in input ==> Pattern(h) then Some(Map(ToLower, input)) else None
  {
    hide Pattern, Partly, Map;
    var headers := input;
    StepStarts(ToLower, input);
    for i := 0 to |headers|
      invariant |headers| == |input|
      invariant headers == Partly(ToLower, input, i)
      invariant forall k :: 0 <= k < i ==> Pattern(input[k])
    {
      if !Pattern(headers[i]) {
        assert input[i] in input;
        return None;
      }
      StepMaps(ToLower, input, i);
      headers := headers[i := ToLower(headers[i])];
    }
    r := Some(headers);
  }

  /** The checks and rewrites of one rule, in the order the code makes them. */
  method ValidateRule(rule: CorsRule) returns (r: Option<CorsRule>)
    ensures r == if Acceptable(rule) then Some(Normal(rule)) else None
  {
    hide Pattern, Map;
    var ok := AllPatterns(rule.allowedOrigins);
    if rule.allowedOrigins == [] || !ok || rule.allowedMethods == [] {
      return None;
    }
    var methods := NormalizeMethods(rule.allowedMethods);
    if methods == None {
      return None;
    }
    var headers := NormalizeHeaders(rule.allowedHeaders);
    if headers == None {
      return None;
    }
    if (exists h :: h in rule.exposeHeaders && h == "") || rule.maxAgeSeconds > MAX_AGE {
      return None;
    }
    r := Some(rule.(allowedMethods := methods.value, allowedHeaders := headers.value));
  }

  method AllPatterns(values: seq<string>) returns (ok: bool)
    ensures ok <==> forall v :: v in values ==> Pattern(v)
  {
    for i := 0 to |values|
      invariant forall k :: 0 <= k < i ==> Pattern(values[k])
    {
      if !Pattern(values[i]) {
        assert values[i] in values;
        return false;
      }
    }
    ok := true;
  }

  method ValidateCorsRules(input: seq<CorsRule>) returns (r: Option<seq<CorsRule>>)
    ensures r == Validate(input)
  {
    hide Acceptable, Normal, Partly, Map;
    StepStarts(Normal, input);
    if input == [] || |input| > MAX_RULES {
      return None;
    }
    var rules := input;
    for i := 0 to |rules|
      invariant |rules| == |input|
      invariant rules == Partly(Normal, input, i)
      invariant forall k :: 0 <= k < i ==> Acceptable(input[k])
    {
      var rule := ValidateRule(rules[i]);
      if rule == None {
        assert input[i] in input;
        return None;
      }
      StepMaps(Normal, input, i);
      rules := rules[i := rule.value];
    }
    r := Some(rules);
  }

  // ----- Parsing -------------------------------------------------------------

  function Texts(nodes: seq<XmlNode>): seq<string> {
    Map((n: XmlNode) => n.text, nodes)
  }

  function ParseAge(nodes: seq<XmlNode>): Option<int> {
    var ages := ChildrenNamed(nodes, "MaxAgeSeconds");
    if ages == [] then Some(-1)
    else
      match Stoll(ages[0].text)
      case None => None
      case Some(value) => if 0 <= value <= MAX_AGE then Some(value) else None
  }

  function ParseRule(node: XmlNode): Option<CorsRule> {
    match ParseAge(node.children)
    case None => None
    case Some(age) =>
      Some(CorsRule(
        ChildText(node.children, "ID"),
        Texts(ChildrenNamed(node.children, "AllowedOrigin")),
        Texts(ChildrenNamed(node.children, "AllowedMethod")),
        Texts(ChildrenNamed(node.children, "AllowedHeader")),
        Texts(ChildrenNamed(node.children, "ExposeHeader")),
        age))
  }

  function ParseRules(nodes: seq<XmlNode>): Option<seq<CorsRule>> {
    if nodes == [] then Some([])
    else
      match ParseRule(nodes[0])
      case None => None
      case Some(rule) =>
        Behind([rule], ParseRules(nodes[1..]))
  }

  function Parse(document: string): Option<seq<CorsRule>> {
    match ParseXml(document)
    case None => None
    case Some(root) =>
      if root.name != "CORSConfiguration" then None
      else
        match ParseRules(ChildrenNamed(root.children, "CORSRule"))
        case None => None
        case Some(rules) => Validate(rules)
  }

  function Behind(rules: seq<CorsRule>, more: Option<seq<CorsRule>>): Option<seq<CorsRule>> {
    match more
    case None => None
    case Some(others) => Some(rules + others)
  }

  lemma BehindOne(rules: seq<CorsRule>, rule: CorsRule, more: Option<seq<CorsRule>>)
    ensures Behind(rules, Behind([rule], more)) == Behind(rules + [rule], more)
  {
    if more.Some? {
      Associative(rules, [rule], more.value);
    }
  }

  method ParseCorsConfiguration(document: string) returns (r: Option<seq<CorsRule>>)
    ensures r == Parse(document)
  {
    hide Xml.ParseXml, Validate, ParseRule;
    if document == "" {
      assert ParseXml(document) == None by { EmptyRefused(); }
      return None;
    }
    var root := P.ParseXml(document);
    if root == None || root.value.name != "CORSConfiguration" {
      return None;
    }
    var nodes := ChildrenNamed(root.value.children, "CORSRule");
    var rules: seq<CorsRule> := [];
    assert nodes[0..] == nodes && forall more: seq<CorsRule> :: [] + more == more;
    for i := 0 to |nodes|
      invariant ParseRules(nodes) == Behind(rules, ParseRules(nodes[i..]))
    {
      assert nodes[i..][1..] == nodes[i + 1..];
      var rule := ParseRule(nodes[i]);
      if rule == None {
        return None;
      }
      BehindOne(rules, rule.value, ParseRules(nodes[i + 1..]));
      rules := rules + [rule.value];
    }
    assert nodes[|nodes|..] == [] && rules + [] == rules;
    if rules == [] {
      NothingRefused();
      return None;
    }
    r := ValidateCorsRules(rules);
  }

  lemma EmptyRefused()
    ensures ParseXml("") == None
  {
    assert Trimmed("") == "";
  }

  lemma NothingRefused()
    ensures Validate([]) == None
  {
  }

  // ----- Rendering -----------------------------------------------------------

  function Leaves(name: string, values: seq<string>): (ts: seq<Tree>)
    ensures |ts| == |values| && forall i :: 0 <= i < |ts| ==> ts[i] == Leaf(name, values[i])
  {
    seq(|values|, i requires 0 <= i < |values| => Leaf(name, values[i]))
  }

  function IdLeaves(id: string): seq<Tree> {
    if id == "" then [] else [Leaf("ID", id)]
  }

  function AgeLeaves(age: int): seq<Tree> {
    if age < 0 then [] else [Leaf("MaxAgeSeconds", Decimal(age))]
  }

  function RuleTrees(rule: CorsRule): seq<Tree> {
    IdLeaves(rule.id)
    + Leaves("AllowedOrigin", rule.allowedOrigins)
    + Leaves("AllowedMethod", rule.allowedMethods)
    + Leaves("AllowedHeader", rule.allowedHeaders)
    + Leaves("ExposeHeader", rule.exposeHeaders)
    + AgeLeaves(rule.maxAgeSeconds)
  }

  function RuleTree(rule: CorsRule): Tree {
    Branch("CORSRule", RuleTrees(rule))
  }

  function Render(rules: seq<CorsRule>): string {
    Document("CORSConfiguration", NAMESPACE, Map(RuleTree, rules))
  }

  /** The innermost open element once the writer has added some leaves to it. */
  function Grown(frames: seq<W.Frame>, ts: seq<Tree>): (r: seq<W.Frame>)
    requires frames != []
    ensures r != [] && (ts == [] ==> r == frames)
  {
    assert ts == [] ==> frames[|frames| - 1].inside + ts == frames[|frames| - 1].inside;
    var last := |frames| - 1;
    frames[..last] + [W.Frame(frames[last].name, frames[last].inside + ts)]
  }

  lemma GrownOnce(frames: seq<W.Frame>, ts: seq<Tree>, t: Tree)
    requires frames != []
    ensures W.Extend(Grown(frames, ts), t) == Grown(frames, ts + [t])
  {
    Associative(frames[|frames| - 1].inside, ts, [t]);
    assert Grown(frames, ts)[..|frames| - 1] == frames[..|frames| - 1];
  }

  lemma GrownTwice(frames: seq<W.Frame>, ts: seq<Tree>, us: seq<Tree>)
    requires frames != []
    ensures Grown(Grown(frames, ts), us) == Grown(frames, ts + us)
  {
    Associative(frames[|frames| - 1].inside, ts, us);
    assert Grown(frames, ts)[..|frames| - 1] == frames[..|frames| - 1];
  }

  method WriteEach(w: W.Writer, name: string, values: seq<string>, ghost frames: seq<W.Frame>, ghost head: string)
    requires frames != [] && W.Tracks(w.Current(), frames, head)
    modifies w
    ensures W.Tracks(w.Current(), Grown(frames, Leaves(name, values)), head)
  {
    hide W.Tracks, W.Step, W.Extend;
    for i := 0 to |values|
      invariant W.Tracks(w.Current(), Grown(frames, Leaves(name, values[..i])), head)
    {
      ghost var grown := Grown(frames, Leaves(name, values[..i]));
      W.StepTracks(w.Current(), grown, head, W.Call.Element(name, values[i]));
      w.Element(name, values[i]);
      GrownOnce(frames, Leaves(name, values[..i]), Leaf(name, values[i]));
      assert Leaves(name, values[..i + 1]) == Leaves(name, values[..i]) + [Leaf(name, values[i])];
    }
    assert values[..|values|] == values;
  }

  method WriteId(w: W.Writer, id: string, ghost frames: seq<W.Frame>, ghost head: string)
    requires frames != [] && W.Tracks(w.Current(), frames, head)
    modifies w
    ensures W.Tracks(w.Current(), Grown(frames, IdLeaves(id)), head)
  {
    hide W.Tracks, W.Step, W.Extend;
    W.StepTracks(w.Current(), frames, head, W.Call.Element("ID", id));
    GrownOnce(frames, [], Leaf("ID", id));
    assert [] + [Leaf("ID", id)] == [Leaf("ID", id)];
    w.ElementIfSet("ID", id);
  }

  method WriteAge(w: W.Writer, age: int, ghost frames: seq<W.Frame>, ghost head: string)
    requires frames != [] && W.Tracks(w.Current(), frames, head)
    modifies w
    ensures W.Tracks(w.Current(), Grown(frames, AgeLeaves(age)), head)
  {
    hide W.Tracks, W.Step, W.Extend;
    if age >= 0 {
      var t := Leaf("MaxAgeSeconds", Decimal(age));
      W.StepTracks(w.Current(), frames, head, W.Call.Element("MaxAgeSeconds", Decimal(age)));
      GrownOnce(frames, [], t);
      assert [] + [t] == [t];
      w.Element("MaxAgeSeconds", Decimal(age));
    }
  }

  method WriteFields(w: W.Writer, rule: CorsRule, ghost frames: seq<W.Frame>, ghost head: string)
    requires frames != [] && W.Tracks(w.Current(), frames, head)
    modifies w
    ensures W.Tracks(w.Current(), Grown(frames, RuleTrees(rule)), head)
  {
    hide W.Tracks, Grown, Leaves, IdLeaves, AgeLeaves;
    ghost var ts := IdLeaves(rule.id);
    WriteId(w, rule.id, frames, head);
    WriteEach(w, "AllowedOrigin", rule.allowedOrigins, Grown(frames, ts), head);
    GrownTwice(frames, ts, Leaves("AllowedOrigin", rule.allowedOrigins));
    ts := ts + Leaves("AllowedOrigin", rule.allowedOrigins);
    WriteEach(w, "AllowedMethod", rule.allowedMethods, Grown(frames, ts), head);
    GrownTwice(frames, ts, Leaves("AllowedMethod", rule.allowedMethods));
    ts := ts + Leaves("AllowedMethod", rule.allowedMethods);
    WriteEach(w, "AllowedHeader", rule.allowedHeaders, Grown(frames, ts), head);
    GrownTwice(frames, ts, Leaves("AllowedHeader", rule.allowedHeaders));
    ts := ts + Leaves("AllowedHeader", rule.allowedHeaders);
    WriteEach(w, "ExposeHeader", rule.exposeHeaders, Grown(frames, ts), head);
    GrownTwice(frames, ts, Leaves("ExposeHeader", rule.exposeHeaders));
    ts := ts + Leaves("ExposeHeader", rule.exposeHeaders);
    WriteAge(w, rule.maxAgeSeconds, Grown(frames, ts), head);
    GrownTwice(frames, ts, AgeLeaves(rule.maxAgeSeconds));
  }

  /** The open root after some rules. */
  function RootFrames(rules: seq<CorsRule>): seq<W.Frame> {
    [W.Frame("CORSConfiguration", Map(RuleTree, rules))]
  }

  method WriteRule(w: W.Writer, rule: CorsRule, ghost done: seq<CorsRule>, ghost head: string)
    requires W.Tracks(w.Current(), RootFrames(done), head)
    modifies w
    ensures W.Tracks(w.Current(), RootFrames(done + [rule]), head)
  {
    hide W.Tracks, W.Step, Map;
    ghost var frames := RootFrames(done);
    W.StepTracks(w.Current(), frames, head, W.Call.Open("CORSRule"));
    w.Open("CORSRule");
    ghost var open := frames + [W.Frame("CORSRule", [])];
    WriteFields(w, rule, open, head);
    ghost var full := Grown(open, RuleTrees(rule));
    W.StepTracks(w.Current(), full, head, W.Call.Close);
    w.Close();
    RuleFolds(rule, done);
  }

  lemma RuleFolds(rule: CorsRule, done: seq<CorsRule>)
    ensures
      var open := RootFrames(done) + [W.Frame("CORSRule", [])];
      |Grown(open, RuleTrees(rule))| == 2 && W.Fold(Grown(open, RuleTrees(rule))) == RootFrames(done + [rule])
  {
    var frames := RootFrames(done);
    var ts := RuleTrees(rule);
    assert [] + ts == ts;
    assert Grown(frames + [W.Frame("CORSRule", [])], ts) == [frames[0], W.Frame("CORSRule", ts)];
    assert Map(RuleTree, done + [rule]) == Map(RuleTree, done) + [RuleTree(rule)];
  }

  method RenderCorsConfiguration(rules: seq<CorsRule>) returns (document: string)
    ensures document == Render(rules)
  {
    hide W.Tracks, W.Finished, Document, Map;
    var writer := new W.Writer("CORSConfiguration", NAMESPACE);
    ghost var head := W.Head("CORSConfiguration", NAMESPACE);
    WriterStarts();
    for i := 0 to |rules|
      invariant fresh(writer)
      invariant W.Tracks(writer.Current(), RootFrames(rules[..i]), head)
    {
      WriteRule(writer, rules[i], rules[..i], head);
      assert rules[..i + 1] == rules[..i] + [rules[i]];
    }
    assert rules[..|rules|] == rules;
    W.FinishTracked(writer.Current(), RootFrames(rules), "CORSConfiguration", NAMESPACE);
    document := writer.Finish();
  }

  lemma WriterStarts()
    ensures W.Tracks(W.Start("CORSConfiguration", NAMESPACE), RootFrames([]), W.Head("CORSConfiguration", NAMESPACE))
  {
    hide W.Head;
    assert Map(RuleTree, []) == [];
    assert W.Names(RootFrames([])) == ["CORSConfiguration"];
    var head := W.Head("CORSConfiguration", NAMESPACE);
    assert head + "" == head;
  }

  // ----- What comes back -----------------------------------------------------

  /** What a stored value looks like after a round trip: no control characters, a trimmed id. */
  function Seen(rule: CorsRule): CorsRule {
    CorsRule(
      Trimmed(Strip(rule.id)),
      Map(Strip, rule.allowedOrigins),
      Map(Strip, rule.allowedMethods),
      Map(Strip, rule.allowedHeaders),
      Map(Strip, rule.exposeHeaders),
      if rule.maxAgeSeconds < 0 then -1 else rule.maxAgeSeconds)
  }

  lemma {:induction false} NamedSplits(a: seq<XmlNode>, b: seq<XmlNode>, name: string)
    ensures ChildrenNamed(a + b, name) == ChildrenNamed(a, name) + ChildrenNamed(b, name)
  {
    if a == [] {
      assert a + b == b;
    } else {
      assert (a + b)[1..] == a[1..] + b;
      NamedSplits(a[1..], b, name);
    }
  }

  lemma {:induction false} NamedUniform(nodes: seq<XmlNode>, own: string, name: string)
    requires forall n :: n in nodes ==> n.name == own
    ensures ChildrenNamed(nodes, name) == if own == name then nodes else []
  {
    if nodes != [] {
      NamedUniform(nodes[1..], own, name);
      assert nodes[0] in nodes;
    }
  }

  /** The leaves of one name among a rule's children, as texts. */
  function Field(ts: seq<Tree>, name: string): seq<string> {
    Texts(ChildrenNamed(ReadBackAll(ts, 2), name))
  }

  lemma ReadBackSplits(a: seq<Tree>, b: seq<Tree>)
    ensures ReadBackAll(a + b, 2) == ReadBackAll(a, 2) + ReadBackAll(b, 2)
  {
    hide ReadBack;
  }

  lemma FieldSplits(a: seq<Tree>, b: seq<Tree>, name: string)
    ensures Field(a + b, name) == Field(a, name) + Field(b, name)
  {
    hide ReadBackAll, ChildrenNamed, Map;
    ReadBackSplits(a, b);
    NamedSplits(ReadBackAll(a, 2), ReadBackAll(b, 2), name);
    MapConcat((n: XmlNode) => n.text, ChildrenNamed(ReadBackAll(a, 2), name), ChildrenNamed(ReadBackAll(b, 2), name));
  }

  lemma FieldOfLeaves(own: string, values: seq<string>, name: string)
    ensures Field(Leaves(own, values), name) == if own == name then Map(Strip, values) else []
  {
    hide Strip;
    var nodes := ReadBackAll(Leaves(own, values), 2);
    forall n | n in nodes ensures n.name == own {
      var i :| 0 <= i < |nodes| && nodes[i] == n;
      assert nodes[i] == ReadBack(Leaf(own, values[i]), 2);
    }
    NamedUniform(nodes, own, name);
    forall i | 0 <= i < |nodes| ensures nodes[i].text == Strip(values[i]) {
      assert nodes[i] == ReadBack(Leaf(own, values[i]), 2);
    }
  }

  /** The id and age leaves are lists of at most one value. */
  function Ids(id: string): seq<string> {
    if id == "" then [] else [id]
  }

  function Ages(age: int): seq<string> {
    if age < 0 then [] else [Decimal(age)]
  }

  lemma FieldOfRule(rule: CorsRule, name: string)
    ensures Field(RuleTrees(rule), name)
         == Part("ID", Ids(rule.id), name) + Part("AllowedOrigin", rule.allowedOrigins, name)
            + Part("AllowedMethod", rule.allowedMethods, name) + Part("AllowedHeader", rule.allowedHeaders, name)
            + Part("ExposeHeader", rule.exposeHeaders, name) + Part("MaxAgeSeconds", Ages(rule.maxAgeSeconds), name)
  {
    assert IdLeaves(rule.id) == Leaves("ID", Ids(rule.id));
    assert AgeLeaves(rule.maxAgeSeconds) == Leaves("MaxAgeSeconds", Ages(rule.maxAgeSeconds));
    hide Field, Leaves, IdLeaves, AgeLeaves, Part;
    var a, b := IdLeaves(rule.id), Leaves("AllowedOrigin", rule.allowedOrigins);
    var c, d := Leaves("AllowedMethod", rule.allowedMethods), Leaves("AllowedHeader", rule.allowedHeaders);
    var e, f := Leaves("ExposeHeader", rule.exposeHeaders), AgeLeaves(rule.maxAgeSeconds);
    FieldSplits(a + b + c + d + e, f, name);
    FieldSplits(a + b + c + d, e, name);
    FieldSplits(a + b + c, d, name);
    FieldSplits(a + b, c, name);
    FieldSplits(a, b, name);
    PartIs("ID", Ids(rule.id), name);
    PartIs("AllowedOrigin", rule.allowedOrigins, name);
    PartIs("AllowedMethod", rule.allowedMethods, name);
    PartIs("AllowedHeader", rule.allowedHeaders, name);
    PartIs("ExposeHeader", rule.exposeHeaders, name);
    PartIs("MaxAgeSeconds", Ages(rule.maxAgeSeconds), name);
  }

  function Part(own: string, values: seq<string>, name: string): seq<string> {
    if own == name then Map(Strip, values) else []
  }

  lemma PartIs(own: string, values: seq<string>, name: string)
    ensures Field(Leaves(own, values), name) == Part(own, values, name)
  {
    FieldOfLeaves(own, values, name);
  }

  lemma DecimalCarried(n: nat)
    ensures Strip(Decimal(n)) == Decimal(n)
  {
    var s := Decimal(n);
    assert forall i :: 0 <= i < |s| ==> IsDigit(s[i]) && Carried(s[i]);
  }

  /** The age leaf, read back, is the age. */
  lemma AgeReads(nodes: seq<XmlNode>, age: int)
    requires age <= MAX_AGE && Texts(ChildrenNamed(nodes, "MaxAgeSeconds")) == Map(Strip, Ages(age))
    ensures ParseAge(nodes) == Some(if age < 0 then -1 else age)
  {
    var found := ChildrenNamed(nodes, "MaxAgeSeconds");
    assert |Texts(found)| == |found|;
    if age >= 0 {
      assert Texts(found)[0] == found[0].text == Strip(Decimal(age));
      DecimalCarried(age);
      StollOfDecimal(age);
    }
  }

  lemma IdReads(nodes: seq<XmlNode>, id: string)
    requires Texts(ChildrenNamed(nodes, "ID")) == Map(Strip, Ids(id))
    ensures ChildText(nodes, "ID") == Trimmed(Strip(id))
  {
    var found := ChildrenNamed(nodes, "ID");
    assert |Texts(found)| == |found|;
    if id != "" {
      assert Texts(found)[0] == found[0].text;
    } else {
      assert Trimmed("") == "";
    }
  }

  lemma OnePart(rule: CorsRule, own: string, values: seq<string>)
    requires
      (own, values) == ("ID", Ids(rule.id)) || (own, values) == ("AllowedOrigin", rule.allowedOrigins)
      || (own, values) == ("AllowedMethod", rule.allowedMethods)
          || (own, values) == ("AllowedHeader", rule.allowedHeaders)
      || (own, values) == ("ExposeHeader", rule.exposeHeaders)
          || (own, values) == ("MaxAgeSeconds", Ages(rule.maxAgeSeconds))
    ensures Field(RuleTrees(rule), own) == Map(Strip, values)
  {
    hide Field, RuleTrees, Map, Ids, Ages;
    FieldOfRule(rule, own);
    var found := Map(Strip, values);
    assert [] + found == found && found + [] == found;
  }

  lemma RuleReads(rule: CorsRule)
    requires rule.maxAgeSeconds <= MAX_AGE
    ensures ParseRule(ReadBack(RuleTree(rule), 1)) == Some(Seen(rule))
    ensures ReadBack(RuleTree(rule), 1).name == "CORSRule"
  {
    hide ReadBackAll, RuleTrees, ChildrenNamed, ChildText, Map, Strip, Trimmed, Ids, Ages, ParseAge, Texts;
    var nodes := ReadBackAll(RuleTrees(rule), 2);
    assert ReadBack(RuleTree(rule), 1).children == nodes;
    OnePart(rule, "ID", Ids(rule.id));
    OnePart(rule, "AllowedOrigin", rule.allowedOrigins);
    OnePart(rule, "AllowedMethod", rule.allowedMethods);
    OnePart(rule, "AllowedHeader", rule.allowedHeaders);
    OnePart(rule, "ExposeHeader", rule.exposeHeaders);
    OnePart(rule, "MaxAgeSeconds", Ages(rule.maxAgeSeconds));
    AgeReads(nodes, rule.maxAgeSeconds);
    IdReads(nodes, rule.id);
  }

  lemma {:induction false} RulesRead(rules: seq<CorsRule>)
    requires forall r :: r in rules ==> r.maxAgeSeconds <= MAX_AGE
    ensures
      var nodes := ReadBackAll(Map(RuleTree, rules), 1);
      ChildrenNamed(nodes, "CORSRule") == nodes && ParseRules(nodes) == Some(Map(Seen, rules))
  {
    hide ParseRule, Seen, ReadBack, RuleTree;
    if rules != [] {
      assert rules[0] in rules;
      RuleReads(rules[0]);
      RulesRead(rules[1..]);
      assert Map(RuleTree, rules)[1..] == Map(RuleTree, rules[1..]);
      assert Map(Seen, rules) == [Seen(rules[0])] + Map(Seen, rules[1..]);
      var nodes := ReadBackAll(Map(RuleTree, rules), 1);
      assert nodes == [ReadBack(RuleTree(rules[0]), 1)] + ReadBackAll(Map(RuleTree, rules[1..]), 1);
      assert nodes[1..] == ReadBackAll(Map(RuleTree, rules[1..]), 1);
    }
  }

  // ----- The round trip ------------------------------------------------------

  lemma {:induction false} LeavesNamed(ts: seq<Tree>)
    requires forall t :: t in ts ==> t.Leaf?
    ensures HeightAll(ts) <= 1
  {
    if ts != [] {
      assert ts[0] in ts;
      LeavesNamed(ts[1..]);
    }
  }

  lemma {:induction false} HeightOfRules(rules: seq<CorsRule>)
    ensures HeightAll(Map(RuleTree, rules)) <= 2
  {
    hide RuleTrees;
    if rules != [] {
      AllLeaves(rules[0]);
      LeavesNamed(RuleTrees(rules[0]));
      assert Map(RuleTree, rules)[0] == RuleTree(rules[0]);
      assert Map(RuleTree, rules)[1..] == Map(RuleTree, rules[1..]);
      HeightOfRules(rules[1..]);
    }
  }

  lemma AllLeaves(rule: CorsRule)
    ensures forall t :: t in RuleTrees(rule) ==> t.Leaf? && ValidName(t.name)
  {
    FieldNames();
    hide ValidName;
  }

  lemma FieldNames()
    ensures ValidName("ID") && ValidName("AllowedOrigin") && ValidName("AllowedMethod")
    ensures ValidName("AllowedHeader") && ValidName("ExposeHeader") && ValidName("MaxAgeSeconds")
  {
  }

  lemma RulesNamed(rules: seq<CorsRule>)
    ensures AllNamed(Map(RuleTree, rules))
  {
    hide RuleTrees;
    assert ValidName("CORSRule");
    forall i | 0 <= i < |rules| ensures Named(Map(RuleTree, rules)[i]) {
      var ts := RuleTrees(rules[i]);
      AllLeaves(rules[i]);
      assert forall k :: 0 <= k < |ts| ==> ts[k] in ts && Named(ts[k]);
      assert Map(RuleTree, rules)[i] == Branch("CORSRule", ts);
    }
  }

  /** The two limits a rendered configuration can run into; it is never too deep. */
  predicate Readable(rules: seq<CorsRule>) {
    |Render(rules)| <= MAX_BYTES && 1 + SizeAll(Map(RuleTree, rules)) <= MAX_ELEMENTS
  }

  lemma RenderedDocument(rules: seq<CorsRule>)
    ensures ParseXml(Render(rules))
         == if Readable(rules) then Some(ReadBack(Branch("CORSConfiguration", Map(RuleTree, rules)), 0)) else None
  {
    hide ParseXml, Document, ReadBack, RuleTree, AllNamed, SizeAll, HeightAll;
    assert '"' !in NAMESPACE;
    assert ValidName("CORSConfiguration");
    RulesNamed(rules);
    HeightOfRules(rules);
    ParseInvertsRender("CORSConfiguration", NAMESPACE, Map(RuleTree, rules));
  }

  /** What parsing makes of a rendered configuration, whatever the rules. */
  lemma ParseOfRender(rules: seq<CorsRule>)
    requires forall r :: r in rules ==> r.maxAgeSeconds <= MAX_AGE
    ensures Parse(Render(rules)) == if Readable(rules) then Validate(Map(Seen, rules)) else None
  {
    hide ParseXml, Render, ReadBackAll, ChildrenNamed, ParseRules, Validate, Seen, RuleTree, Map, Readable;
    RenderedDocument(rules);
    RulesRead(rules);
  }

  predicate Plain(s: string) {
    forall i :: 0 <= i < |s| ==> Carried(s[i])
  }

  predicate AllPlain(values: seq<string>) {
    forall i :: 0 <= i < |values| ==> Plain(values[i])
  }

  /** What a rule must be like to survive: no control characters, a trimmed id, a usable age. */
  predicate Clean(rule: CorsRule) {
    && Plain(rule.id) && Trimmed(rule.id) == rule.id
    && AllPlain(rule.allowedOrigins) && AllPlain(rule.allowedMethods)
    && AllPlain(rule.allowedHeaders) && AllPlain(rule.exposeHeaders)
    && rule.maxAgeSeconds >= -1
  }

  lemma {:induction false} StripShortens(s: string)
    ensures |Strip(s)| <= |s| && (|Strip(s)| == |s| ==> Plain(s))
  {
    if s != "" {
      StripShortens(s[1..]);
    }
  }

  lemma StripKeeps(s: string)
    ensures Strip(s) == s <==> Plain(s)
  {
    StripShortens(s);
  }

  lemma {:induction false} TrimShortens(s: string)
    ensures |TrimRight(s)| <= |s|
    decreases |s|
  {
    if s != "" && IsBlank(s[|s| - 1]) {
      TrimShortens(s[..|s| - 1]);
    }
  }

  lemma IdKept(id: string)
    ensures Trimmed(Strip(id)) == id <==> Plain(id) && Trimmed(id) == id
  {
    StripShortens(id);
    TrimShortens(SkipBlanks(Strip(id)));
    StripKeeps(id);
  }

  lemma StripsKept(values: seq<string>)
    ensures Map(Strip, values) == values <==> AllPlain(values)
  {
    hide Strip, Plain;
    forall i | 0 <= i < |values| ensures Strip(values[i]) == values[i] <==> Plain(values[i]) {
      StripKeeps(values[i]);
    }
    if Map(Strip, values) == values {
      forall i | 0 <= i < |values| ensures Plain(values[i]) {
        assert Map(Strip, values)[i] == values[i];
      }
    }
  }

  lemma SeenIsSame(rule: CorsRule)
    ensures Seen(rule) == rule <==> Clean(rule)
  {
    hide Strip, Trimmed, Map, Plain, AllPlain;
    IdKept(rule.id);
    StripsKept(rule.allowedOrigins);
    StripsKept(rule.allowedMethods);
    StripsKept(rule.allowedHeaders);
    StripsKept(rule.exposeHeaders);
  }

  // ----- Validation is a normal form -----------------------------------------

  lemma CaseFolds(s: string)
    ensures ToUpper(ToUpper(s)) == ToUpper(s) && ToLower(ToLower(s)) == ToLower(s)
  {
  }

  lemma LowerPattern(s: string)
    requires Pattern(s)
    ensures Pattern(ToLower(s))
  {
    StarsLower(s);
  }

  lemma {:induction false} StarsLower(s: string)
    ensures multiset(ToLower(s))['*'] == multiset(s)['*']
  {
    if s != "" {
      StarsLower(s[1..]);
      assert s == [s[0]] + s[1..];
      assert ToLower(s) == [LowerChar(s[0])] + ToLower(s[1..]);
    }
  }

  lemma NormalIsFixed(rule: CorsRule)
    requires Acceptable(rule)
    ensures Acceptable(Normal(rule)) && Normal(Normal(rule)) == Normal(rule)
  {
    hide Pattern, AllowedMethod;
    var n := Normal(rule);
    forall m | m in n.allowedMethods ensures AllowedMethod(ToUpper(m)) && ToUpper(m) == m {
      var i :| 0 <= i < |n.allowedMethods| && n.allowedMethods[i] == m;
      CaseFolds(rule.allowedMethods[i]);
      assert rule.allowedMethods[i] in rule.allowedMethods;
    }
    forall h | h in n.allowedHeaders ensures Pattern(h) && ToLower(h) == h {
      var i :| 0 <= i < |n.allowedHeaders| && n.allowedHeaders[i] == h;
      CaseFolds(rule.allowedHeaders[i]);
      assert rule.allowedHeaders[i] in rule.allowedHeaders;
      LowerPattern(rule.allowedHeaders[i]);
    }
    assert Map(ToUpper, n.allowedMethods) == n.allowedMethods;
    assert Map(ToLower, n.allowedHeaders) == n.allowedHeaders;
  }

  /** Validating a second time changes and refuses nothing. */
  lemma ValidateIsIdempotent(input: seq<CorsRule>)
    requires Validate(input).Some?
    ensures Validate(Validate(input).value) == Validate(input)
  {
    hide Acceptable, Normal;
    var rules := Validate(input).value;
    forall i | 0 <= i < |rules| ensures Acceptable(rules[i]) && Normal(rules[i]) == rules[i] {
      assert input[i] in input && rules[i] == Normal(input[i]);
      NormalIsFixed(input[i]);
    }
    assert Map(Normal, rules) == rules;
  }

  /** A validated configuration survives rendering and parsing exactly when its rules are clean and the
      document is not too long. */
  lemma RoundTrip(input: seq<CorsRule>)
    requires Validate(input).Some?
    ensures
      var rules := Validate(input).value;
      Parse(Render(rules)) == Some(rules) <==> Readable(rules) && forall r :: r in rules ==> Clean(r)
  {
    var rules := Validate(input).value;
    ValidateIsIdempotent(input);
    hide Parse, Render, Readable, Seen, Clean;
    assert forall r :: r in rules ==> r.maxAgeSeconds <= MAX_AGE by {
      assert Validate(rules).Some?;
    }
    ParseOfRender(rules);
    SeenDecides(rules);
  }

  lemma SeenDecides(rules: seq<CorsRule>)
    requires Validate(rules) == Some(rules)
    ensures Validate(Map(Seen, rules)) == Some(rules) <==> forall r :: r in rules ==> Clean(r)
  {
    hide Validate, Clean, Seen;
    if forall r :: r in rules ==> Clean(r) {
      forall i | 0 <= i < |rules| ensures Seen(rules[i]) == rules[i] {
        assert rules[i] in rules;
        SeenIsSame(rules[i]);
      }
      assert Map(Seen, rules) == rules;
    }
    if Validate(Map(Seen, rules)) == Some(rules) {
      forall r | r in rules ensures Clean(r) {
        var i :| 0 <= i < |rules| && rules[i] == r;
        SurvivorIsClean(rules, i);
      }
    }
  }

  lemma SurvivorIsClean(rules: seq<CorsRule>, i: nat)
    requires i < |rules| && Validate(rules) == Some(rules) && Validate(Map(Seen, rules)) == Some(rules)
    ensures Clean(rules[i])
  {
    var rule := rules[i];
    assert Map(Seen, rules)[i] == Seen(rule);
    assert rule == Normal(Seen(rule)) && rule == Normal(rule);
    hide Validate, Acceptable, Strip, Trimmed;
    FoldedPlain(ToUpper, rule.allowedMethods);
    FoldedPlain(ToLower, rule.allowedHeaders);
    SeenIsSame(rule);
  }

  lemma FoldedPlain(fold: string -> string, values: seq<string>)
    requires Map(fold, Map(Strip, values)) == values
    requires forall s :: |fold(s)| == |s|
    ensures Map(Strip, values) == values
  {
    hide Strip;
    forall i | 0 <= i < |values| ensures Strip(values[i]) == values[i] {
      assert Map(fold, Map(Strip, values))[i] == fold(Strip(values[i])) == values[i];
      StripShortens(values[i]);
      StripKeeps(values[i]);
    }
  }

  // ----- What is accepted ------------------------------------------------------------------------

  /** A wildcard with two texts around it that have none. */
  predicate Around(s: string, a: string, b: string) {
    s == a + ("*" + b) && '*' !in a && '*' !in b
  }

  lemma AroundCounts(a: string, b: string)
    ensures multiset(a + ("*" + b))['*'] == multiset(a)['*'] + 1 + multiset(b)['*']
  {
  }

  lemma NoneCounts(s: string)
    ensures multiset(s)['*'] == 0 <==> '*' !in s
  {
    assert '*' in multiset(s) <==> '*' in s;
  }

  lemma SplitAtStar(s: string) returns (a: string, b: string)
    requires '*' in s
    ensures s == a + ("*" + b)
  {
    var i := IndexOf(s, '*');
    a, b := s[..i], s[i + 1..];
    hide IndexOf;
    assert s == a + ([s[i]] + b);
  }

  lemma AroundIsPattern(s: string, a: string, b: string)
    requires Around(s, a, b)
    ensures Pattern(s)
  {
    NoneCounts(a);
    NoneCounts(b);
    AroundCounts(a, b);
  }

  lemma PatternIsAround(s: string) returns (a: string, b: string)
    requires Pattern(s) && '*' in s
    ensures Around(s, a, b)
  {
    a, b := SplitAtStar(s);
    AroundCounts(a, b);
    NoneCounts(a);
    NoneCounts(b);
  }

  /** A pattern is a text without a wildcard, or two such texts around one. */
  lemma PatternSplits(s: string)
    ensures Pattern(s) <==> s != "" && ('*' !in s || exists a, b :: Around(s, a, b))
  {
    NoneCounts(s);
    hide Around;
    if '*' in s && Pattern(s) {
      var a, b := PatternIsAround(s);
    }
    if exists a, b :: Around(s, a, b) {
      var a, b :| Around(s, a, b);
      AroundIsPattern(s, a, b);
    }
  }

  /** Of a parsed document, its root named as it should be: rules that are their own normal form, and each
      age one that is asked for or none at all, so that what the console stores is what the document says. */
  lemma ParsedIsNormal(document: string)
    requires Parse(document).Some?
    ensures
      var rules := Parse(document).value;
      0 < |rules| <= 100 && Validate(rules) == Some(rules) && forall r :: r in rules ==> -1 <= r.maxAgeSeconds <= 86400
    ensures ParseXml(document).Some? && ParseXml(document).value.name == "CORSConfiguration"
  {
    hide ParseXml, Acceptable, Normal, ChildrenNamed, ParseRule;
    var nodes := ChildrenNamed(ParseXml(document).value.children, "CORSRule");
    var found := ParseRules(nodes).value;
    ParsedAges(nodes);
    ValidateIsIdempotent(found);
    var rules := Validate(found).value;
    forall i | 0 <= i < |rules| ensures -1 <= rules[i].maxAgeSeconds <= 86400 {
      assert rules[i] == Normal(found[i]) && found[i] in found;
      SameAge(found[i]);
    }
  }

  lemma SameAge(rule: CorsRule)
    ensures Normal(rule).maxAgeSeconds == rule.maxAgeSeconds
  {
  }

  lemma {:induction false} ParsedAges(nodes: seq<XmlNode>)
    requires ParseRules(nodes).Some?
    ensures forall r :: r in ParseRules(nodes).value ==> -1 <= r.maxAgeSeconds <= 86400
  {
    if nodes != [] {
      ParsedAges(nodes[1..]);
      ParsedAge(nodes[0]);
      hide ParseRule;
    }
  }

  lemma ParsedAge(node: XmlNode)
    requires ParseRule(node).Some?
    ensures -1 <= ParseRule(node).value.maxAgeSeconds <= 86400
  {
    hide ChildrenNamed, Stoll, Texts, ChildText;
  }
}
