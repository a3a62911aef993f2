/** The XML the server speaks: what the bounded parser accepts and what the writer produces, as
    functions on text. XmlParser.dfy and XmlWriter.dfy have them in the stateful form they are written in. */
module Xml {
  import opened Option
  import opened Text

  const MAX_BYTES: nat := 8 * 1024 * 1024
  const MAX_DEPTH: nat := 16
  const MAX_ELEMENTS: nat := 200000

  datatype XmlNode = XmlNode(name: string, text: string, children: seq<XmlNode>)

  // ----- Characters ----------------------------------------------------------

  predicate IsAlpha(c: char) {
    'a' <= c <= 'z' || 'A' <= c <= 'Z'
  }

  predicate IsNameStart(c: char) {
    IsAlpha(c) || c == '_' || c == ':'
  }

  predicate IsNameChar(c: char) {
    IsAlpha(c) || IsDigit(c) || c == '_' || c == ':' || c == '-' || c == '.'
  }

  predicate IsBlank(c: char) {
    c == ' ' || c == '\t' || c == '\r' || c == '\n'
  }

  // ----- Scanning: each function answers with the text still to be read --------

  function SkipBlanks(s: string): (rest: string)
    ensures |rest| <= |s|
  {
    if s != "" && IsBlank(s[0]) then SkipBlanks(s[1..]) else s
  }

  /** What follows the first `literal` behind the first `skip` characters; None if there is none. */
  function After(s: string, skip: nat, literal: string): (rest: Option<string>)
    requires skip <= |s|
    ensures rest.Some? ==> |rest.value| + skip + |literal| <= |s|
  {
    match FindText(s[skip..], literal)
    case None => None
    case Some(k) => Some(s[skip + k + |literal|..])
  }

  /** Blanks and comments. */
  function SkipMisc(s: string): (rest: Option<string>)
    ensures rest.Some? ==> |rest.value| <= |s|
    decreases |s|
  {
    var t := SkipBlanks(s);
    if !("<!--" <= t) then Some(t)
    else
      match After(t, 4, "-->")
      case None => None
      case Some(u) => SkipMisc(u)
  }

  function SkipProlog(s: string): Option<string> {
    var t := SkipBlanks(s);
    var declared := if "<?xml" <= t then After(t, 0, "?>") else Some(t);
    match declared
    case None => None
    case Some(u) =>
      match SkipMisc(u)
      case None => None
      case Some(v) => if "<!DOCTYPE" <= v then None else Some(v)
  }

  function NameLength(s: string): (n: nat)
    ensures n <= |s|
  {
    if s != "" && IsNameChar(s[0]) then 1 + NameLength(s[1..]) else 0
  }

  function ParseName(s: string): (r: Option<(string, string)>)
    ensures r.Some? ==> |r.value.1| < |s|
  {
    if s == "" || !IsNameStart(s[0]) then None
    else
      var n := NameLength(s);
      Some((s[..n], s[n..]))
  }

  /** Attributes are read and dropped; true for a self-closing tag. */
  function SkipAttributes(s: string): (r: Option<(bool, string)>)
    ensures r.Some? ==> |r.value.1| < |s|
    decreases |s|
  {
    var t := SkipBlanks(s);
    if t == "" then None
    else if t[0] == '>' then Some((false, t[1..]))
    else if "/>" <= t then Some((true, t[2..]))
    else
      match ParseName(t)
      case None => None
      case Some((_, u)) =>
        var v := SkipBlanks(u);
        if v == "" || v[0] != '=' then None
        else
          var w := SkipBlanks(v[1..]);
          if w == "" || (w[0] != '"' && w[0] != '\'') then None
          else
            var end := IndexOf(w[1..], w[0]);
            if end == |w[1..]| then None else SkipAttributes(w[end + 2..])
  }

  // ----- Entities ------------------------------------------------------------

  function RefDigit(c: char, hex: bool): int {
    if IsDigit(c) then DigitValue(c)
    else if hex && 'a' <= c <= 'f' then c as int - 'a' as int + 10
    else if hex && 'A' <= c <= 'F' then c as int - 'A' as int + 10
    else -1
  }

  function RefCode(digits: string, hex: bool, code: nat): Option<nat> {
    if digits == "" then Some(code)
    else
      var value := RefDigit(digits[0], hex);
      if value < 0 then None
      else
        var next := code * (if hex then 16 else 10) + value;
        if next > 0x10FFFF then None else RefCode(digits[1..], hex, next)
  }

  function Utf8(code: nat): string
    requires code <= 0x10FFFF
  {
    if code < 0x80 then [code as char]
    else if code < 0x800 then [(0xC0 + code / 64) as char, (0x80 + code % 64) as char]
    else if code < 0x10000 then
      [(0xE0 + code / 4096) as char, (0x80 + code / 64 % 64) as char, (0x80 + code % 64) as char]
    else
      [(0xF0 + code / 262144) as char, (0x80 + code / 4096 % 64) as char, (0x80 + code / 64 % 64) as char,
       (0x80 + code % 64) as char]
  }

  lemma {:induction false} RefCodeBound(digits: string, hex: bool, code: nat)
    requires code <= 0x10FFFF
    ensures RefCode(digits, hex, code).Some? ==> RefCode(digits, hex, code).value <= 0x10FFFF
    decreases |digits|
  {
    if digits != "" {
      var next := code * (if hex then 16 else 10) + RefDigit(digits[0], hex);
      if RefDigit(digits[0], hex) >= 0 && next <= 0x10FFFF {
        RefCodeBound(digits[1..], hex, next);
      }
    }
  }

  /** What a reference's name stands for. */
  function Reference(name: string): Option<string> {
    if name == "lt" then Some("<")
    else if name == "gt" then Some(">")
    else if name == "amp" then Some("&")
    else if name == "quot" then Some("\"")
    else if name == "apos" then Some("'")
    else if name == "" || name[0] != '#' then None
    else
      var hex := |name| > 1 && (name[1] == 'x' || name[1] == 'X');
      var digits := name[if hex then 2 else 1..];
      if digits == "" then None
      else
        RefCodeBound(digits, hex, 0);
        match RefCode(digits, hex, 0)
        case None => None
        case Some(code) => Some(Utf8(code))
  }

  /** A reference at the start of s, which begins with '&'; its ';' must be near. */
  function Entity(s: string): (r: Option<(string, string)>)
    requires s != "" && s[0] == '&'
    ensures r.Some? ==> |r.value.1| < |s|
  {
    var end := IndexOf(s, ';');
    if end == |s| || end > 12 then None
    else
      match Reference(s[1..end])
      case None => None
      case Some(text) => Some((text, s[end + 1..]))
  }

  // ----- Elements ------------------------------------------------------------

  /** An element read, what follows it, and the number of elements read so far. */
  datatype Parsed = Parsed(node: XmlNode, rest: string, count: nat)

  function ParseElement(s: string, depth: nat, count: nat): (r: Option<Parsed>)
    ensures r.Some? ==> |r.value.rest| < |s|
    decreases |s|, 0
  {
    if depth >= MAX_DEPTH || count + 1 > MAX_ELEMENTS || s == "" || s[0] != '<' then None
    else
      match ParseName(s[1..])
      case None => None
      case Some((name, t)) =>
        match SkipAttributes(t)
        case None => None
        case Some((closed, u)) =>
          if closed then Some(Parsed(XmlNode(name, "", []), u, count + 1))
          else ParseContent(u, depth, count + 1, XmlNode(name, "", []))
  }

  function ParseContent(s: string, depth: nat, count: nat, node: XmlNode): (r: Option<Parsed>)
    ensures r.Some? ==> |r.value.rest| < |s|
    decreases |s|, 1
  {
    if s == "" then None
    else if "</" <= s then Closing(s, count, node)
    else if "<!--" <= s then
      match After(s, 4, "-->")
      case None => None
      case Some(t) => ParseContent(t, depth, count, node)
    else if "<![CDATA[" <= s then
      match FindText(s[9..], "]]>")
      case None => None
      case Some(k) => ParseContent(s[9 + k + 3..], depth, count, node.(text := node.text + s[9..9 + k]))
    else if "<?" <= s then None
    else if s[0] == '<' then
      match ParseElement(s, depth + 1, count)
      case None => None
      case Some(Parsed(child, t, n)) => ParseContent(t, depth, n, node.(children := node.children + [child]))
    else if s[0] == '&' then
      match Entity(s)
      case None => None
      case Some((text, t)) => ParseContent(t, depth, count, node.(text := node.text + text))
    else ParseContent(s[1..], depth, count, node.(text := node.text + [s[0]]))
  }

  /** The end tag. Text counts on a leaf only. */
  function Closing(s: string, count: nat, node: XmlNode): (r: Option<Parsed>)
    requires "</" <= s
    ensures r.Some? ==> |r.value.rest| < |s|
  {
    match ParseName(s[2..])
    case None => None
    case Some((name, t)) =>
      var u := SkipBlanks(t);
      if name != node.name || u == "" || u[0] != '>' then None
      else Some(Parsed(if node.children != [] then node.(text := "") else node, u[1..], count))
  }

  function ParseDocument(s: string): Option<XmlNode> {
    match SkipProlog(s)
    case None => None
    case Some(t) =>
      match ParseElement(t, 0, 0)
      case None => None
      case Some(Parsed(root, u, _)) =>
        match SkipMisc(u)
        case None => None
        case Some(v) => if v == "" then Some(root) else None
  }

  function TrimRight(s: string): string {
    if s != "" && IsBlank(s[|s| - 1]) then TrimRight(s[..|s| - 1]) else s
  }

  function Trimmed(s: string): string {
    TrimRight(SkipBlanks(s))
  }

  function ParseXml(document: string): Option<XmlNode> {
    if |document| > MAX_BYTES || Trimmed(document) == "" then None else ParseDocument(document)
  }

  // ----- What a parsed document is asked for ---------------------------------

  function ChildrenNamed(nodes: seq<XmlNode>, name: string): (matches: seq<XmlNode>)
    ensures forall n :: n in matches ==> n in nodes && n.name == name
  {
    if nodes == [] then []
    else if nodes[0].name == name then [nodes[0]] + ChildrenNamed(nodes[1..], name)
    else ChildrenNamed(nodes[1..], name)
  }

  function ChildText(nodes: seq<XmlNode>, name: string): string {
    var matches := ChildrenNamed(nodes, name);
    if matches == [] then "" else Trimmed(matches[0].text)
  }
}
