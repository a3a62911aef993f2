/** The parser undoes the writer: a tree, the text the writer lays it out as, and what the bounded
    parser makes of that text. */
module XmlTree {
  import opened Option
  import opened Text
  import opened Xml

  /** What a caller of the writer means: text elements and containers. */
  datatype Tree = Leaf(name: string, text: string) | Branch(name: string, children: seq<Tree>)

  // ----- Layout --------------------------------------------------------------

  function Spaces(n: nat): string {
    seq(n, _ => ' ')
  }

  function EscapeChar(c: char): string {
    if c == '&' then "&amp;"
    else if c == '<' then "&lt;"
    else if c == '>' then "&gt;"
    else if c == '"' then "&quot;"
    else if c == '\'' then "&apos;"
    else if c as int >= 0x20 || c == '\t' || c == '\n' || c == '\r' then [c]
    else ""
  }

  function Escape(text: string): string {
    if text == "" then "" else EscapeChar(text[0]) + Escape(text[1..])
  }

  function StartTag(name: string): string {
    "<" + name + ">"
  }

  function EndTag(name: string): string {
    "</" + name + ">"
  }

  /** A tree at nesting level d, indented two spaces a level. */
  function Render(t: Tree, d: nat): string {
    match t
    case Leaf(name, text) => Spaces(2 * d) + (StartTag(name) + (Escape(text) + (EndTag(name) + "\n")))
    case Branch(name, children) =>
      Spaces(2 * d) + (StartTag(name) + ("\n" + (RenderAll(children, d + 1) + (Spaces(2 * d) + (EndTag(name) + "\n")))))
  }

  function RenderAll(ts: seq<Tree>, d: nat): string {
    if ts == [] then "" else Render(ts[0], d) + RenderAll(ts[1..], d)
  }

  const DECLARED: string := "<?xml" + " version=\"1.0\" encoding=\"UTF-8\""

  function Namespace(xmlns: string): string {
    if xmlns == "" then "" else " " + ("xmlns" + ("=" + ("\"" + (xmlns + "\""))))
  }

  /** The document around a list of trees; no attribute for an empty namespace. */
  function Document(root: string, xmlns: string, ts: seq<Tree>): string {
    DECLARED + ("?>" + ("\n" + RootText(root, xmlns, ts)))
  }

  function RootText(root: string, xmlns: string, ts: seq<Tree>): string {
    "<" + (root + (Namespace(xmlns) + (">" + ("\n" + RootBody(root, ts)))))
  }

  function RootBody(root: string, ts: seq<Tree>): string {
    RenderAll(ts, 1) + (EndTag(root) + "\n")
  }

  // ----- What is read back ---------------------------------------------------

  /** Control characters XML cannot carry are dropped. */
  predicate Carried(c: char) {
    c as int >= 0x20 || c == '\t' || c == '\n' || c == '\r'
  }

  function Strip(text: string): (r: string)
    ensures (forall i :: 0 <= i < |text| ==> Carried(text[i])) ==> r == text
  {
    if text == "" then "" else (if Carried(text[0]) then [text[0]] else "") + Strip(text[1..])
  }

  /** A container without children keeps the blanks between its tags as text. */
  function ReadBack(t: Tree, d: nat): XmlNode {
    match t
    case Leaf(name, text) => XmlNode(name, Strip(text), [])
    case Branch(name, children) =>
      XmlNode(name, if children == [] then "\n" + Spaces(2 * d) else "", ReadBackAll(children, d + 1))
  }

  function ReadBackAll(ts: seq<Tree>, d: nat): (r: seq<XmlNode>)
    ensures |r| == |ts| && forall i :: 0 <= i < |ts| ==> r[i] == ReadBack(ts[i], d)
  {
    if ts == [] then [] else [ReadBack(ts[0], d)] + ReadBackAll(ts[1..], d)
  }

  // ----- Limits --------------------------------------------------------------

  function Height(t: Tree): (n: nat)
    ensures n >= 1
  {
    match t
    case Leaf(_, _) => 1
    case Branch(_, children) => 1 + HeightAll(children)
  }

  function HeightAll(ts: seq<Tree>): nat {
    if ts == [] then 0
    else
      var rest := HeightAll(ts[1..]);
      if Height(ts[0]) > rest then Height(ts[0]) else rest
  }

  function Size(t: Tree): (n: nat)
    ensures n >= 1
  {
    match t
    case Leaf(_, _) => 1
    case Branch(_, children) => 1 + SizeAll(children)
  }

  function SizeAll(ts: seq<Tree>): nat {
    if ts == [] then 0 else Size(ts[0]) + SizeAll(ts[1..])
  }

  predicate ValidName(name: string) {
    name != "" && IsNameStart(name[0]) && forall i :: 0 <= i < |name| ==> IsNameChar(name[i])
  }

  predicate Named(t: Tree) {
    ValidName(t.name) && (t.Branch? ==> AllNamed(t.children))
  }

  predicate AllNamed(ts: seq<Tree>) {
    forall i :: 0 <= i < |ts| ==> Named(ts[i])
  }

  // ----- Reading the pieces ---------------------------------------------------

  lemma {:induction false} NameEnds(name: string, rest: string)
    requires forall i :: 0 <= i < |name| ==> IsNameChar(name[i])
    requires rest != "" && !IsNameChar(rest[0])
    ensures NameLength(name + rest) == |name|
  {
    if name == "" {
      assert name + rest == rest;
    } else {
      assert (name + rest)[1..] == name[1..] + rest;
      NameEnds(name[1..], rest);
    }
  }

  lemma NameReads(name: string, rest: string)
    requires ValidName(name) && rest != "" && !IsNameChar(rest[0])
    ensures ParseName(name + rest) == Some((name, rest))
  {
    NameEnds(name, rest);
    assert (name + rest)[..|name|] == name && (name + rest)[|name|..] == rest;
  }

  lemma StartTagReads(name: string, rest: string, depth: nat, count: nat)
    requires ValidName(name)
    ensures ParseElement(StartTag(name) + rest, depth, count)
         == if depth >= MAX_DEPTH || count + 1 > MAX_ELEMENTS then None
            else ParseContent(rest, depth, count + 1, XmlNode(name, "", []))
  {
    var s := StartTag(name) + rest;
    assert s[1..] == name + (">" + rest);
    NameReads(name, ">" + rest);
    assert (">" + rest)[1..] == rest;
  }

  lemma EndTagReads(name: string, rest: string, depth: nat, count: nat, node: XmlNode)
    requires ValidName(name) && node.name == name
    ensures ParseContent(EndTag(name) + rest, depth, count, node)
         == Some(Parsed(if node.children != [] then node.(text := "") else node, rest, count))
  {
    var s := EndTag(name) + rest;
    assert s[2..] == name + (">" + rest);
    assert s[..2] == "</";
    NameReads(name, ">" + rest);
    assert (">" + rest)[1..] == rest;
  }

  /** One step of an element's content: a plain character, a reference, a child. */
  lemma CharStep(s: string, depth: nat, count: nat, node: XmlNode)
    requires s != "" && s[0] != '<' && s[0] != '&'
    ensures ParseContent(s, depth, count, node) == ParseContent(s[1..], depth, count, node.(text := node.text + [s[0]]))
  {
  }

  lemma ReferenceStep(s: string, text: string, rest: string, depth: nat, count: nat, node: XmlNode)
    requires s != "" && s[0] == '&' && Entity(s) == Some((text, rest))
    ensures ParseContent(s, depth, count, node) == ParseContent(rest, depth, count, node.(text := node.text + text))
  {
    hide Entity;
  }

  function Adopt(child: Option<Parsed>, depth: nat, node: XmlNode): Option<Parsed> {
    match child
    case None => None
    case Some(Parsed(c, after, n)) => ParseContent(after, depth, n, node.(children := node.children + [c]))
  }

  lemma ChildStep(s: string, depth: nat, count: nat, node: XmlNode)
    requires |s| > 1 && s[0] == '<' && IsNameStart(s[1])
    ensures ParseContent(s, depth, count, node) == Adopt(ParseElement(s, depth + 1, count), depth, node)
  {
    hide ParseElement;
  }

  /** Text without markup is taken as it stands. */
  lemma {:induction false} PlainReads(text: string, rest: string, depth: nat, count: nat, node: XmlNode)
    requires '<' !in text && '&' !in text
    ensures ParseContent(text + rest, depth, count, node)
         == ParseContent(rest, depth, count, node.(text := node.text + text))
    decreases |text|
  {
    hide ParseContent;
    if text == "" {
      assert text + rest == rest && node.text + text == node.text;
    } else {
      var next := node.(text := node.text + [text[0]]);
      assert (text + rest)[1..] == text[1..] + rest;
      CharStep(text + rest, depth, count, node);
      PlainReads(text[1..], rest, depth, count, next);
      assert next.text + text[1..] == node.text + text;
    }
  }

  function EntityName(c: char): string {
    if c == '&' then "amp" else if c == '<' then "lt" else if c == '>' then "gt" else if c == '"' then "quot"
        else "apos"
  }

  lemma EscapeShape(c: char)
    requires |EscapeChar(c)| > 1
    ensures EscapeChar(c) == "&" + EntityName(c) + ";"
    ensures |EntityName(c)| <= 4 && ';' !in EntityName(c) && Reference(EntityName(c)) == Some([c])
  {
    hide RefCode, Utf8, RefDigit;
  }

  lemma EntityReads(c: char, rest: string)
    requires |EscapeChar(c)| > 1
    ensures EscapeChar(c)[0] == '&' && Entity(EscapeChar(c) + rest) == Some(([c], rest))
  {
    EscapeShape(c);
    hide EscapeChar, EntityName, Reference, IndexOf;
    var name := "&" + EntityName(c);
    var s := EscapeChar(c) + rest;
    assert s == name + [';'] + rest;
    IndexOfAfter(name, ';', rest);
    assert s[1..|name|] == EntityName(c);
  }

  lemma EscapedCharReads(c: char, rest: string, depth: nat, count: nat, node: XmlNode)
    ensures ParseContent(EscapeChar(c) + rest, depth, count, node)
         == ParseContent(rest, depth, count, node.(text := node.text + if Carried(c) then [c] else ""))
  {
    hide ParseContent;
    var e := EscapeChar(c);
    if |e| > 1 {
      EntityReads(c, rest);
      ReferenceStep(e + rest, [c], rest, depth, count, node);
      assert Carried(c);
    } else {
      PlainReads(e, rest, depth, count, node);
    }
  }

  /** Escaped text reads back as the text without its control characters. */
  lemma {:induction false} EscapedReads(text: string, rest: string, depth: nat, count: nat, node: XmlNode)
    ensures ParseContent(Escape(text) + rest, depth, count, node)
         == ParseContent(rest, depth, count, node.(text := node.text + Strip(text)))
    decreases |text|
  {
    hide ParseContent, EscapeChar, Carried;
    if text == "" {
      assert Escape(text) + rest == rest && node.text + Strip(text) == node.text;
    } else {
      var c, kept := text[0], if Carried(text[0]) then [text[0]] else "";
      var behind, next := Escape(text[1..]), node.(text := node.text + kept);
      assert Escape(text) == EscapeChar(c) + behind && Strip(text) == kept + Strip(text[1..]);
      hide Escape, Strip;
      EscapedCharReads(c, behind + rest, depth, count, node);
      EscapedReads(text[1..], rest, depth, count, next);
      assert Escape(text) + rest == EscapeChar(c) + (behind + rest);
      assert next.text + Strip(text[1..]) == node.text + Strip(text);
    }
  }

  // ----- Reading trees -------------------------------------------------------

  predicate Fits(t: Tree, depth: nat, count: nat) {
    depth + Height(t) <= MAX_DEPTH && count + Size(t) <= MAX_ELEMENTS
  }

  predicate AllFit(ts: seq<Tree>, depth: nat, count: nat) {
    depth + HeightAll(ts) <= MAX_DEPTH && count + SizeAll(ts) <= MAX_ELEMENTS
  }

  /** A rendered tree without its indentation. */
  function Bare(t: Tree, d: nat): string {
    match t
    case Leaf(name, text) => StartTag(name) + (Escape(text) + (EndTag(name) + "\n"))
    case Branch(name, children) =>
      StartTag(name) + ("\n" + (RenderAll(children, d + 1) + (Spaces(2 * d) + (EndTag(name) + "\n"))))
  }

  /** The blanks left between the trees of a rendered list. */
  function Gaps(ts: seq<Tree>, d: nat): string {
    if ts == [] then "" else Spaces(2 * d) + "\n" + Gaps(ts[1..], d)
  }

  /** What the parser should answer to a rendered tree. */
  function Answer(t: Tree, d: nat, count: nat, rest: string): Option<Parsed> {
    if Fits(t, d, count) then Some(Parsed(ReadBack(t, d), "\n" + rest, count + Size(t))) else None
  }

  function AnswerAll(ts: seq<Tree>, d: nat, count: nat, node: XmlNode, rest: string): Option<Parsed> {
    if AllFit(ts, d + 1, count) then
      ParseContent(rest, d, count + SizeAll(ts),
                   node.(text := node.text + Gaps(ts, d + 1), children := node.children + ReadBackAll(ts, d + 1)))
    else None
  }

  lemma LeafReads(t: Tree, d: nat, count: nat, rest: string)
    requires t.Leaf? && ValidName(t.name)
    ensures ParseElement(Bare(t, d) + rest, d, count) == Answer(t, d, count, rest)
  {
    hide ParseElement, ParseContent, StartTag, EndTag, Escape, Strip, ValidName;
    var name, text := t.name, t.text;
    var tail := EndTag(name) + ("\n" + rest);
    assert Bare(t, d) + rest == StartTag(name) + (Escape(text) + tail);
    StartTagReads(name, Escape(text) + tail, d, count);
    if Fits(t, d, count) {
      var blank := XmlNode(name, "", []);
      EscapedReads(text, tail, d, count + 1, blank);
      assert "" + Strip(text) == Strip(text);
      EndTagReads(name, "\n" + rest, d, count + 1, blank.(text := Strip(text)));
    }
  }

  /** Reading a rendered tree, its indentation already skipped. */
  lemma {:induction false} TreeReads(t: Tree, d: nat, count: nat, rest: string)
    requires Named(t)
    ensures ParseElement(Bare(t, d) + rest, d, count) == Answer(t, d, count, rest)
    decreases t, 0
  {
    hide ParseElement, ParseContent, RenderAll, Bare, Answer, AnswerAll, ValidName, StartTag, EndTag, Spaces;
    if t.Leaf? {
      LeafReads(t, d, count, rest);
    } else {
      if d < MAX_DEPTH && count + 1 <= MAX_ELEMENTS {
        ForestReads(t.children, d, count + 1, XmlNode(t.name, "\n", []), BranchTail(t, d, rest));
      }
      BranchReads(t, d, count, rest);
    }
  }

  /** What follows the children of a container. */
  function BranchTail(t: Tree, d: nat, rest: string): string {
    Spaces(2 * d) + (EndTag(t.name) + ("\n" + rest))
  }

  lemma BranchReads(t: Tree, d: nat, count: nat, rest: string)
    requires t.Branch? && ValidName(t.name)
    requires
      var begun, tail := XmlNode(t.name, "\n", []), BranchTail(t, d, rest);
      d < MAX_DEPTH && count + 1 <= MAX_ELEMENTS ==>
        ParseContent(RenderAll(t.children, d + 1) + tail, d, count + 1, begun)
            == AnswerAll(t.children, d, count + 1, begun, tail)
    ensures ParseElement(Bare(t, d) + rest, d, count) == Answer(t, d, count, rest)
  {
    hide *;
    BranchStart(t, d, count, rest);
    var body := RenderAll(t.children, d + 1) + BranchTail(t, d, rest);
    StartTagReads(t.name, "\n" + body, d, count);
    if d < MAX_DEPTH && count + 1 <= MAX_ELEMENTS {
      LineBreakReads(t.name, body, d, count + 1);
      BranchEnds(t, d, count, rest);
    } else {
      TooBig(t, d, count, rest);
    }
  }

  lemma BranchStart(t: Tree, d: nat, count: nat, rest: string)
    requires t.Branch?
    ensures
      var body := RenderAll(t.children, d + 1) + BranchTail(t, d, rest);
      ParseElement(Bare(t, d) + rest, d, count) == ParseElement(StartTag(t.name) + ("\n" + body), d, count)
  {
    hide *;
    BranchText(t, d, rest);
  }

  lemma LineBreakReads(name: string, rest: string, d: nat, count: nat)
    ensures ParseContent("\n" + rest, d, count, XmlNode(name, "", []))
            == ParseContent(rest, d, count, XmlNode(name, "\n", []))
  {
    hide ParseContent;
    assert "" + "\n" == "\n";
    PlainReads("\n", rest, d, count, XmlNode(name, "", []));
  }

  lemma TooBig(t: Tree, d: nat, count: nat, rest: string)
    requires d >= MAX_DEPTH || count + 1 > MAX_ELEMENTS
    ensures Answer(t, d, count, rest) == None
  {
    hide Height, Size;
  }

  lemma BranchText(t: Tree, d: nat, rest: string)
    requires t.Branch?
    ensures Bare(t, d) + rest
         == StartTag(t.name) + ("\n" + (RenderAll(t.children, d + 1) + BranchTail(t, d, rest)))
  {
    hide StartTag, EndTag, RenderAll, Spaces;
  }

  lemma BranchEnds(t: Tree, d: nat, count: nat, rest: string)
    requires t.Branch? && ValidName(t.name)
    ensures AnswerAll(t.children, d, count + 1, XmlNode(t.name, "\n", []), BranchTail(t, d, rest))
         == Answer(t, d, count, rest)
  {
    hide ParseElement, ParseContent, EndTag, ValidName, HeightAll, SizeAll, ReadBackAll;
    var name, children := t.name, t.children;
    if Fits(t, d, count) {
      var nodes := ReadBackAll(children, d + 1);
      assert [] + nodes == nodes;
      var text := "\n" + Gaps(children, d + 1);
      var filled := XmlNode(name, text, nodes);
      PlainReads(Spaces(2 * d), EndTag(name) + ("\n" + rest), d, count + 1 + SizeAll(children), filled);
      var ended := filled.(text := text + Spaces(2 * d));
      EndTagReads(name, "\n" + rest, d, count + 1 + SizeAll(children), ended);
      assert children == [] ==> text == "\n";
    }
  }

  /** Reading a rendered list of trees inside an element at depth d. */
  lemma {:induction false} ForestReads(ts: seq<Tree>, d: nat, count: nat, node: XmlNode, rest: string)
    requires AllNamed(ts) && d < MAX_DEPTH && count <= MAX_ELEMENTS
    ensures ParseContent(RenderAll(ts, d + 1) + rest, d, count, node) == AnswerAll(ts, d, count, node, rest)
    decreases ts, 1
  {
    hide ParseElement, ParseContent;
    if ts == [] {
      assert RenderAll(ts, d + 1) + rest == rest;
      assert node.text + Gaps(ts, d + 1) == node.text && node.children + ReadBackAll(ts, d + 1) == node.children;
    } else {
      var t, behind := ts[0], RenderAll(ts[1..], d + 1) + rest;
      TreeReads(t, d + 1, count, behind);
      FirstReads(ts, d, count, node, rest);
      if Fits(t, d + 1, count) {
        ForestReads(ts[1..], d, count + Size(t), Joined(t, d, node), rest);
        RestAnswers(ts, d, count, node, rest);
      }
    }
  }

  /** The element around a list once its first tree has been read. */
  function Joined(t: Tree, d: nat, node: XmlNode): XmlNode {
    node.(text := node.text + (Spaces(2 * (d + 1)) + "\n"), children := node.children + [ReadBack(t, d + 1)])
  }

  lemma FirstReads(ts: seq<Tree>, d: nat, count: nat, node: XmlNode, rest: string)
    requires ts != [] && Named(ts[0])
    requires ParseElement(Bare(ts[0], d + 1) + (RenderAll(ts[1..], d + 1) + rest), d + 1, count)
          == Answer(ts[0], d + 1, count, RenderAll(ts[1..], d + 1) + rest)
    ensures ParseContent(RenderAll(ts, d + 1) + rest, d, count, node)
         == if Fits(ts[0], d + 1, count) then
              ParseContent(RenderAll(ts[1..], d + 1) + rest, d, count + Size(ts[0]), Joined(ts[0], d, node))
            else None
  {
    hide *;
    FirstStart(ts, d, count, node, rest);
    FirstEnters(ts[0], d, count, node, RenderAll(ts[1..], d + 1) + rest);
  }

  lemma FirstStart(ts: seq<Tree>, d: nat, count: nat, node: XmlNode, rest: string)
    requires ts != []
    ensures
      var behind := RenderAll(ts[1..], d + 1) + rest;
      ParseContent(RenderAll(ts, d + 1) + rest, d, count, node)
      == ParseContent(Spaces(2 * (d + 1)) + (Bare(ts[0], d + 1) + behind), d, count, node)
  {
    hide *;
    RenderSplits(ts, d + 1, rest);
  }

  lemma FirstEnters(t: Tree, d: nat, count: nat, node: XmlNode, behind: string)
    requires Named(t)
    requires ParseElement(Bare(t, d + 1) + behind, d + 1, count) == Answer(t, d + 1, count, behind)
    ensures ParseContent(Spaces(2 * (d + 1)) + (Bare(t, d + 1) + behind), d, count, node)
         == if Fits(t, d + 1, count) then ParseContent(behind, d, count + Size(t), Joined(t, d, node)) else None
  {
    hide ParseElement, ParseContent, ReadBack, Named, Fits, RenderAll, Bare;
    var blanks, bare := Spaces(2 * (d + 1)), Bare(t, d + 1);
    PlainReads(blanks, bare + behind, d, count, node);
    var indented := node.(text := node.text + blanks);
    BareEnters(t, d + 1, behind, count, indented);
    if Fits(t, d + 1, count) {
      var grown := indented.(children := node.children + [ReadBack(t, d + 1)]);
      PlainReads("\n", behind, d, count + Size(t), grown);
      assert indented.text + "\n" == node.text + (blanks + "\n");
    }
  }

  lemma RenderSplits(ts: seq<Tree>, d: nat, rest: string)
    requires ts != []
    ensures RenderAll(ts, d) + rest == Spaces(2 * d) + (Bare(ts[0], d) + (RenderAll(ts[1..], d) + rest))
  {
    assert RenderAll(ts, d) == Render(ts[0], d) + RenderAll(ts[1..], d);
    RenderIndents(ts[0], d);
    hide RenderAll, Render, Bare, Spaces;
    var blanks, bare, others := Spaces(2 * d), Bare(ts[0], d), RenderAll(ts[1..], d);
    Associative(blanks, bare, others + rest);
    Associative(blanks + bare, others, rest);
  }

  lemma RenderIndents(t: Tree, d: nat)
    ensures Render(t, d) == Spaces(2 * d) + Bare(t, d)
  {
    hide RenderAll, Escape, StartTag, EndTag, Spaces;
  }

  lemma RestAnswers(ts: seq<Tree>, d: nat, count: nat, node: XmlNode, rest: string)
    requires ts != [] && Fits(ts[0], d + 1, count) && d < MAX_DEPTH
    ensures AnswerAll(ts[1..], d, count + Size(ts[0]), Joined(ts[0], d, node), rest)
            == AnswerAll(ts, d, count, node, rest)
  {
    var next, gap := Joined(ts[0], d, node), Spaces(2 * (d + 1)) + "\n";
    assert Gaps(ts, d + 1) == gap + Gaps(ts[1..], d + 1);
    assert ReadBackAll(ts, d + 1) == [ReadBack(ts[0], d + 1)] + ReadBackAll(ts[1..], d + 1);
    hide ParseContent, ReadBack, Spaces, Gaps, ReadBackAll;
    Associative(node.text, gap, Gaps(ts[1..], d + 1));
    Associative(node.children, [ReadBack(ts[0], d + 1)], ReadBackAll(ts[1..], d + 1));
  }

  /** Inside an element, a start tag is read as a child. */
  lemma BareEnters(t: Tree, d: nat, rest: string, count: nat, node: XmlNode)
    requires Named(t) && d > 0
    ensures ParseContent(Bare(t, d) + rest, d - 1, count, node)
         == Adopt(ParseElement(Bare(t, d) + rest, d, count), d - 1, node)
  {
    hide ParseContent, ParseElement, Escape, RenderAll, AllNamed;
    var s := Bare(t, d) + rest;
    assert s[0] == '<' && s[1] == t.name[0];
    ChildStep(s, d - 1, count, node);
  }

  // ----- Whole documents -----------------------------------------------------

  lemma {:induction false} PairFound(a: string, c: char, e: char, rest: string)
    requires e !in a && c != e
    ensures FindText(a + ([c, e] + rest), [c, e]) == Some(|a|)
  {
    var s := a + ([c, e] + rest);
    if a == "" {
      assert s == [c, e] + rest;
    } else {
      PairFound(a[1..], c, e, rest);
      assert s[1..] == a[1..] + ([c, e] + rest);
      assert s[1] != e || |a| == 1;
    }
  }

  lemma DeclarationEnds(rest: string)
    ensures Xml.After(DECLARED + ("?>" + rest), 0, "?>") == Some(rest)
  {
    var s := DECLARED + ("?>" + rest);
    assert '>' !in DECLARED;
    assert s[0..] == s;
    PairFound(DECLARED, '?', '>', rest);
    assert s == DECLARED + "?>" + rest;
  }

  lemma DeclarationBegins(rest: string)
    ensures "<?xml" <= DECLARED + rest && SkipBlanks(DECLARED + rest) == DECLARED + rest
  {
    assert DECLARED[..5] == "<?xml";
    assert (DECLARED + rest)[..5] == DECLARED[..5];
    assert (DECLARED + rest)[0] == "<?xml"[0];
  }

  lemma DeclarationSkipped(rest: string)
    requires |rest| > 1 && rest[0] == '<' && IsNameStart(rest[1])
    ensures SkipProlog(DECLARED + ("?>" + ("\n" + rest))) == Some(rest)
  {
    DeclarationBegins("?>" + ("\n" + rest));
    DeclarationEnds("\n" + rest);
    BreakSkipped(rest);
    assert SkipBlanks(rest) == rest;
    hide Xml.After, SkipBlanks;
  }

  lemma BreakSkipped(rest: string)
    ensures SkipBlanks("\n" + rest) == SkipBlanks(rest)
  {
    assert ("\n" + rest)[1..] == rest;
  }

  lemma AttributeSkipped(s: string, t: string, name: string, value: string, rest: string)
    requires ValidName(name) && '"' !in value
    requires SkipBlanks(s) == t && t == name + ("=" + ("\"" + (value + ['"'] + rest)))
    ensures SkipAttributes(s) == SkipAttributes(rest)
  {
    var w := "\"" + (value + ['"'] + rest);
    NameReads(name, "=" + w);
    assert t[0] == name[0];
    hide ParseName, IndexOf;
    assert SkipBlanks("=" + w) == "=" + w && ("=" + w)[1..] == w && SkipBlanks(w) == w;
    IndexOfAfter(value, '"', rest);
    assert w[1..] == value + ['"'] + rest;
    assert w[|value| + 2..] == rest;
  }

  lemma NamespaceSkipped(xmlns: string, rest: string)
    requires '"' !in xmlns
    ensures SkipAttributes(Namespace(xmlns) + (">" + rest)) == Some((false, rest))
  {
    var closing := ">" + rest;
    assert closing[1..] == rest;
    assert SkipAttributes(closing) == Some((false, rest));
    if xmlns == "" {
      assert Namespace(xmlns) + closing == closing;
    } else {
      var t := "xmlns" + ("=" + ("\"" + (xmlns + ['"'] + closing)));
      var s := Namespace(xmlns) + closing;
      NamespaceText(xmlns, closing);
      hide SkipAttributes, Namespace;
      assert s[1..] == t;
      AttributeSkipped(s, t, "xmlns", xmlns, closing);
    }
  }

  lemma NamespaceText(xmlns: string, rest: string)
    requires xmlns != ""
    ensures Namespace(xmlns) + rest == " " + ("xmlns" + ("=" + ("\"" + (xmlns + ['"'] + rest))))
  {
    var quoted := xmlns + "\"";
    Associative("\"", quoted, rest);
    Associative("=", "\"" + quoted, rest);
    Associative("xmlns", "=" + ("\"" + quoted), rest);
    Associative(" ", "xmlns" + ("=" + ("\"" + quoted)), rest);
  }

  lemma RootEnters(root: string, xmlns: string, ts: seq<Tree>)
    requires ValidName(root) && '"' !in xmlns
    ensures ParseElement(RootText(root, xmlns, ts), 0, 0)
         == ParseContent("\n" + RootBody(root, ts), 0, 1, XmlNode(root, "", []))
  {
    hide SkipAttributes, ParseContent, RootBody, ParseName;
    var rest := "\n" + RootBody(root, ts);
    var behind := Namespace(xmlns) + (">" + rest);
    var s := "<" + (root + behind);
    assert s[1..] == root + behind;
    assert behind[0] == '>' || behind[0] == ' ';
    NameReads(root, behind);
    NamespaceSkipped(xmlns, rest);
  }

  predicate DocumentFits(root: string, xmlns: string, ts: seq<Tree>) {
    && |Document(root, xmlns, ts)| <= MAX_BYTES
    && Fits(Branch(root, ts), 0, 0)
  }

  lemma RootBodyText(t: Tree)
    requires t.Branch?
    ensures RootBody(t.name, t.children) == RenderAll(t.children, 1) + BranchTail(t, 0, "")
  {
    hide RenderAll;
    assert BranchTail(t, 0, "") == EndTag(t.name) + "\n";
  }

  lemma ChildrenRead(t: Tree, d: nat, count: nat, rest: string)
    requires t.Branch? && ValidName(t.name) && AllNamed(t.children) && d < MAX_DEPTH && count < MAX_ELEMENTS
    ensures ParseContent(RenderAll(t.children, d + 1) + BranchTail(t, d, rest), d, count + 1, XmlNode(t.name, "\n", []))
         == Answer(t, d, count, rest)
  {
    hide ParseContent, RenderAll, BranchTail, Answer, AnswerAll, AllNamed, ValidName;
    ForestReads(t.children, d, count + 1, XmlNode(t.name, "\n", []), BranchTail(t, d, rest));
    BranchEnds(t, d, count, rest);
  }

  lemma RootBodyReads(t: Tree)
    requires t.Branch? && ValidName(t.name) && AllNamed(t.children)
    ensures ParseContent(RootBody(t.name, t.children), 0, 1, XmlNode(t.name, "\n", [])) == Answer(t, 0, 0, "")
  {
    hide ParseContent, RootBody, RenderAll, BranchTail, Answer, AllNamed, ValidName;
    RootBodyText(t);
    ChildrenRead(t, 0, 0, "");
  }

  lemma RootReads(root: string, xmlns: string, ts: seq<Tree>)
    requires ValidName(root) && '"' !in xmlns && AllNamed(ts)
    ensures ParseElement(RootText(root, xmlns, ts), 0, 0) == Answer(Branch(root, ts), 0, 0, "")
  {
    hide *;
    RootEnters(root, xmlns, ts);
    LineBreakReads(root, RootBody(root, ts), 0, 1);
    RootBodyReads(Branch(root, ts));
  }

  lemma DocumentReads(root: string, xmlns: string, ts: seq<Tree>)
    requires ValidName(root) && '"' !in xmlns && AllNamed(ts)
    ensures ParseDocument(Document(root, xmlns, ts))
         == if Fits(Branch(root, ts), 0, 0) then Some(ReadBack(Branch(root, ts), 0)) else None
  {
    var body := RootText(root, xmlns, ts);
    assert body[1] == root[0];
    hide ParseElement, ReadBack, Fits, RootText, SkipProlog, AllNamed;
    DeclarationSkipped(body);
    RootReads(root, xmlns, ts);
    BreakSkipped("");
    assert "\n" + "" == "\n";
  }

  /** parseXml reads what the writer wrote, exactly when the document is within the three limits. */
  lemma ParseInvertsRender(root: string, xmlns: string, ts: seq<Tree>)
    requires ValidName(root) && '"' !in xmlns && AllNamed(ts)
    ensures ParseXml(Document(root, xmlns, ts))
         == if DocumentFits(root, xmlns, ts) then Some(ReadBack(Branch(root, ts), 0)) else None
  {
    var document := Document(root, xmlns, ts);
    assert document[0] == '<';
    hide ParseDocument, ReadBack, Fits, Document, Trimmed;
    NotBlank(document);
    DocumentReads(root, xmlns, ts);
  }

  lemma NotBlank(s: string)
    requires s != "" && !IsBlank(s[0])
    ensures Trimmed(s) != ""
  {
    KeepsFirst(s);
  }

  lemma {:induction false} KeepsFirst(s: string)
    requires s != "" && !IsBlank(s[0])
    ensures TrimRight(s) != ""
    decreases |s|
  {
    if |s| > 1 {
      KeepsFirst(s[..|s| - 1]);
    }
  }
}
