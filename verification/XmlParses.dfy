/** The parser against the grammar: it takes exactly the documents the grammar has within the limits, and
    makes of each what it means. */
module XmlParses {
  import opened Option
  import opened Text
  import opened Xml
  import opened XmlGrammar
  import opened XmlScan
  import opened XmlReferences
  import XmlTree

  // ----- Reading what the grammar writes ---------------------------------------------------------

  /** A node with more content read into it. */
  function Grown(node: XmlNode, content: seq<Piece>): XmlNode {
    XmlNode(node.name, node.text + Characters(content), node.children + Children(content))
  }

  function Finished(node: XmlNode): XmlNode {
    if node.children != [] then node.(text := "") else node
  }

  function EndText(name: string, gap: string, rest: string): string {
    "</" + (name + (gap + (">" + rest)))
  }

  lemma GrownByNothing(node: XmlNode)
    ensures Grown(node, []) == node
  {
    assert node.text + "" == node.text && node.children + [] == node.children;
  }

  lemma GrownBy(node: XmlNode, content: seq<Piece>)
    requires content != []
    ensures
      var p := content[0];
      var next := XmlNode(node.name, node.text + PieceCharacters(p), node.children + PieceChildren(p));
      Grown(node, content) == Grown(next, content[1..])
  {
    hide PieceCharacters, PieceChildren;
    var p := content[0];
    Associative(node.text, PieceCharacters(p), Characters(content[1..]));
    Associative(node.children, PieceChildren(p), Children(content[1..]));
  }

  lemma ValueIs(e: Element)
    requires e.Full?
    ensures Value(e) == Finished(Grown(XmlNode(e.name, "", []), e.content))
  {
    assert "" + Characters(e.content) == Characters(e.content);
    assert [] + Children(e.content) == Children(e.content);
  }

  lemma EndReads(node: XmlNode, gap: string, rest: string, depth: nat, count: nat)
    requires Name(node.name) && Blanks(gap)
    ensures ParseContent(EndText(node.name, gap, rest), depth, count, node) == Some(Parsed(Finished(node), rest, count))
  {
    var s, u := EndText(node.name, gap, rest), ">" + rest;
    assert s[..2] == "</" && s[2..] == node.name + (gap + u);
    hide Name, Blanks, ParseName, SkipBlanks;
    BehindName(gap, u);
    NameReads(node.name, gap + u);
    BlanksPass(gap, u);
    assert u[1..] == rest;
  }

  lemma CharacterReads(c: char, rest: string, depth: nat, count: nat, node: XmlNode)
    requires c != '<' && c != '&'
    ensures ParseContent([c] + rest, depth, count, node)
         == ParseContent(rest, depth, count, node.(text := node.text + [c]))
  {
    hide ParseContent;
    XmlTree.CharStep([c] + rest, depth, count, node);
    assert ([c] + rest)[1..] == rest;
  }

  lemma ReferredReads(name: string, text: string, rest: string, depth: nat, count: nat, node: XmlNode)
    requires |name| <= 11 && StandsFor(name, text)
    ensures ParseContent("&" + (name + (";" + rest)), depth, count, node)
         == ParseContent(rest, depth, count, node.(text := node.text + text))
  {
    hide StandsFor, Entity, ParseContent;
    EntityReads(name, text, rest);
    XmlTree.ReferenceStep("&" + (name + (";" + rest)), text, rest, depth, count, node);
  }

  lemma DataReads(run: string, rest: string, depth: nat, count: nat, node: XmlNode)
    requires !Holds(run, "]]>")
    ensures ParseContent("<![CDATA[" + (run + ("]]>" + rest)), depth, count, node)
         == ParseContent(rest, depth, count, node.(text := node.text + run))
  {
    hide FindText, Holds;
    var s := "<![CDATA[" + (run + ("]]>" + rest));
    CommentMarker();
    MarkerReads(run, "]]>", rest);
    assert s[9..] == run + ("]]>" + rest);
    assert s[9..9 + |run|] == run && s[9 + |run| + 3..] == rest;
    DataStarts(run + ("]]>" + rest));
  }

  lemma DataStarts(rest: string)
    ensures
      var s := "<![CDATA[" + rest;
      "<![CDATA[" <= s && !("</" <= s) && !("<!--" <= s) && s != ""
  {
    var s := "<![CDATA[" + rest;
    assert s[1] == '!' && s[2] == '[';
  }

  lemma CommentReads(body: string, rest: string, depth: nat, count: nat, node: XmlNode)
    requires !Holds(body, "-->")
    ensures ParseContent("<!--" + (body + ("-->" + rest)), depth, count, node)
         == ParseContent(rest, depth, count, node)
  {
    hide After, Holds;
    var s := "<!--" + (body + ("-->" + rest));
    CommentMarker();
    assert s[4..] == body + ("-->" + rest) && s[1] == '!';
    AfterReads(s, 4, body, "-->", rest);
  }

  lemma ElementStarts(e: Element, rest: string)
    requires GoodElement(e)
    ensures var s := ElementText(e, rest); |s| > 1 && s[0] == '<' && IsNameStart(s[1])
  {
    hide Blanks, TagText, ContentText;
    NameIs(e.name);
    assert ElementText(e, rest)[1] == e.name[0];
  }

  lemma TagFollows(t: Tag, closed: bool, rest: string)
    requires GoodTag(t)
    ensures EndsName(TagText(t, TagEnd(closed) + rest))
    ensures SkipAttributes(TagText(t, TagEnd(closed) + rest)) == Some((closed, rest))
  {
    AttributesRead(t.attributes, t.gap, closed, rest);
    var s := TagText(t, TagEnd(closed) + rest);
    if t.attributes != [] {
      assert s[0] == t.attributes[0].gap[0];
      SameClasses(t.attributes[0].gap[0]);
    } else if t.gap != "" {
      assert s[0] == t.gap[0];
      SameClasses(t.gap[0]);
    } else {
      assert s == TagEnd(closed) + rest;
    }
  }

  lemma StartReads(name: string, t: Tag, closed: bool, rest: string, depth: nat, count: nat)
    requires Name(name) && GoodTag(t) && depth < MAX_DEPTH && count + 1 <= MAX_ELEMENTS
    ensures ParseElement("<" + (name + TagText(t, TagEnd(closed) + rest)), depth, count)
         == if closed then Some(Parsed(XmlNode(name, "", []), rest, count + 1))
            else ParseContent(rest, depth, count + 1, XmlNode(name, "", []))
  {
    var u := TagText(t, TagEnd(closed) + rest);
    assert ("<" + (name + u))[1..] == name + u;
    hide Name, GoodTag, TagText, SkipAttributes, ParseName, ParseContent, EndsName, TagEnd;
    TagFollows(t, closed, rest);
    NameReads(name, u);
  }

  predicate ElementFits(e: Element, depth: nat, count: nat) {
    depth + Height(e) <= MAX_DEPTH && count + Elements(e) <= MAX_ELEMENTS
  }

  predicate ContentFits(content: seq<Piece>, depth: nat, count: nat) {
    depth + 1 + ContentHeight(content) <= MAX_DEPTH && count + ContentElements(content) <= MAX_ELEMENTS
  }

  /** An element the grammar has is read as what it means, up to its end. */
  lemma {:induction false} ElementReads(e: Element, rest: string, depth: nat, count: nat)
    requires GoodElement(e) && ElementFits(e, depth, count)
    ensures ParseElement(ElementText(e, rest), depth, count) == Some(Parsed(Value(e), rest, count + Elements(e)))
  {
    hide Name, GoodTag, Blanks, TagText, ParseElement, ParseContent, ContentText;
    match e
    case Closed(name, tag) =>
      StartReads(name, tag, true, rest, depth, count);
    case Full(name, tag, content, gap) =>
      var node, end := XmlNode(name, "", []), EndText(name, gap, rest);
      StartReads(name, tag, false, ContentText(content, end), depth, count);
      ContentReads(content, gap, rest, depth, count + 1, node);
      ValueIs(e);
  }

  lemma {:induction false} ContentReads(content: seq<Piece>, gap: string, rest: string, depth: nat, count: nat,
                                        node: XmlNode)
    requires GoodContent(content) && ContentFits(content, depth, count) && Name(node.name) && Blanks(gap)
    ensures ParseContent(ContentText(content, EndText(node.name, gap, rest)), depth, count, node)
         == Some(Parsed(Finished(Grown(node, content)), rest, count + ContentElements(content)))
  {
    hide Name, Blanks, ParseContent, EndText, Finished, GoodPiece, PieceText, PieceCharacters, PieceChildren,
      PieceHeight, PieceElements, Grown;
    if content == [] {
      GrownByNothing(node);
      EndReads(node, gap, rest, depth, count);
    } else {
      var p, tail := content[0], ContentText(content[1..], EndText(node.name, gap, rest));
      var next := XmlNode(node.name, node.text + PieceCharacters(p), node.children + PieceChildren(p));
      GrownBy(node, content);
      ContentReads(content[1..], gap, rest, depth, count + PieceElements(p), next);
      PieceReads(p, tail, depth, count, node);
    }
  }

  lemma {:induction false} PieceReads(p: Piece, rest: string, depth: nat, count: nat, node: XmlNode)
    requires GoodPiece(p) && depth + 1 + PieceHeight(p) <= MAX_DEPTH && count + PieceElements(p) <= MAX_ELEMENTS
    ensures
      var next := XmlNode(node.name, node.text + PieceCharacters(p), node.children + PieceChildren(p));
      ParseContent(PieceText(p, rest), depth, count, node) == ParseContent(rest, depth, count + PieceElements(p), next)
  {
    hide ParseContent, ParseElement, ElementText, Holds, StandsFor, GoodElement, Value, Height, Elements;
    assert node.text + "" == node.text && node.children + [] == node.children;
    match p
    case Character(c) => CharacterReads(c, rest, depth, count, node);
    case Referred(name, text) => ReferredReads(name, text, rest, depth, count, node);
    case Data(run) => DataReads(run, rest, depth, count, node);
    case Comment(body) => CommentReads(body, rest, depth, count, node);
    case Child(e) =>
      ElementStarts(e, rest);
      XmlTree.ChildStep(ElementText(e, rest), depth, count, node);
      ElementReads(e, rest, depth + 1, count);
  }

  // ----- What is read is what the grammar has ------------------------------------------------------

  /** The content the text starts with was read into the node, up to its end tag. */
  predicate ContentWas(s: string, depth: nat, count: nat, node: XmlNode, parsed: Parsed, content: seq<Piece>,
                       gap: string)
  {
    && GoodContent(content) && ContentFits(content, depth, count) && Blanks(gap)
    && s == ContentText(content, EndText(node.name, gap, parsed.rest))
    && parsed.node == Finished(Grown(node, content)) && parsed.count == count + ContentElements(content)
  }

  lemma EndFound(s: string, depth: nat, count: nat, node: XmlNode) returns (gap: string)
    requires "</" <= s && Closing(s, count, node).Some? && depth < MAX_DEPTH && count <= MAX_ELEMENTS
    ensures ContentWas(s, depth, count, node, Closing(s, count, node).value, [], gap)
  {
    hide ParseName, SkipBlanks, Name, EndsName, Blanks;
    NameFound(s[2..]);
    var (name, t) := ParseName(s[2..]).value;
    gap := BlanksFound(t);
    var u := SkipBlanks(t);
    assert u == ">" + u[1..] && s == "</" + s[2..];
    GrownByNothing(node);
  }

  /** One piece ahead of content that was read. */
  lemma PieceAhead(p: Piece, s: string, t: string, depth: nat, count: nat, node: XmlNode, parsed: Parsed,
                   content: seq<Piece>, gap: string)
    requires GoodPiece(p) && s == PieceText(p, t) && depth + 1 + PieceHeight(p) <= MAX_DEPTH
    requires
      var next := XmlNode(node.name, node.text + PieceCharacters(p), node.children + PieceChildren(p));
      ContentWas(t, depth, count + PieceElements(p), next, parsed, content, gap)
    ensures ContentWas(s, depth, count, node, parsed, [p] + content, gap)
  {
    hide Blanks, Finished, EndText, GoodPiece, PieceText, PieceCharacters, PieceChildren, PieceHeight, PieceElements;
    var more := [p] + content;
    assert more[0] == p && more[1..] == content;
    GrownBy(node, more);
  }

  lemma {:induction false} ElementFound(s: string, depth: nat, count: nat) returns (e: Element)
    requires ParseElement(s, depth, count).Some?
    ensures
      var p := ParseElement(s, depth, count).value;
      && GoodElement(e) && ElementFits(e, depth, count) && s == ElementText(e, p.rest)
      && p.node == Value(e) && p.count == count + Elements(e)
    decreases |s|, 0
  {
    hide ParseName, SkipAttributes, TagText, Name, Blanks, ContentText, ParseContent, EndsName, Finished, Grown,
      Characters, Children, GoodContent;
    NameFound(s[1..]);
    var (name, t) := ParseName(s[1..]).value;
    var (closed, u) := SkipAttributes(t).value;
    var tag := TagFound(t);
    assert s == "<" + s[1..];
    if closed {
      e := Closed(name, tag);
    } else {
      var node := XmlNode(name, "", []);
      var content, gap := ContentFound(u, depth, count + 1, node);
      e := Full(name, tag, content, gap);
      ValueIs(e);
    }
  }

  /** Behind a name, attributes start with a blank. */
  lemma TagFound(s: string) returns (t: Tag)
    requires SkipAttributes(s).Some? && EndsName(s)
    ensures GoodTag(t) && var (closed, rest) := SkipAttributes(s).value; s == TagText(t, TagEnd(closed) + rest)
  {
    t := AttributesFound(s);
    hide SkipAttributes, Blanks, SkipBlanks;
    if t.attributes != [] && t.attributes[0].gap == "" {
      var a := t.attributes[0];
      NameIs(a.name);
      SameClasses(a.name[0]);
    }
  }

  lemma {:induction false} ContentFound(s: string, depth: nat, count: nat, node: XmlNode)
      returns (content: seq<Piece>, gap: string)
    requires ParseContent(s, depth, count, node).Some? && depth < MAX_DEPTH && count <= MAX_ELEMENTS
    ensures ContentWas(s, depth, count, node, ParseContent(s, depth, count, node).value, content, gap)
    decreases |s|, 2
  {
    hide ContentWas, Closing, PieceText, GoodPiece, After, FindText, Entity, ParseElement, ParseContent;
    if "</" <= s {
      content := [];
      EndIs(s, depth, count, node);
      gap := EndFound(s, depth, count, node);
    } else {
      var p, t := PieceFound(s, depth, count, node);
      var next := XmlNode(node.name, node.text + PieceCharacters(p), node.children + PieceChildren(p));
      content, gap := ContentFound(t, depth, count + PieceElements(p), next);
      PieceAhead(p, s, t, depth, count, node, ParseContent(s, depth, count, node).value, content, gap);
      content := [p] + content;
    }
  }

  lemma EndIs(s: string, depth: nat, count: nat, node: XmlNode)
    requires "</" <= s
    ensures ParseContent(s, depth, count, node) == Closing(s, count, node)
  {
    hide Closing;
  }

  /** One step through an element's content. */
  lemma {:induction false} PieceFound(s: string, depth: nat, count: nat, node: XmlNode) returns (p: Piece, t: string)
    requires ParseContent(s, depth, count, node).Some? && !("</" <= s) && depth < MAX_DEPTH && count <= MAX_ELEMENTS
    ensures |t| < |s| && GoodPiece(p) && s == PieceText(p, t)
    ensures depth + 1 + PieceHeight(p) <= MAX_DEPTH && count + PieceElements(p) <= MAX_ELEMENTS
    ensures
      var next := XmlNode(node.name, node.text + PieceCharacters(p), node.children + PieceChildren(p));
      ParseContent(s, depth, count, node) == ParseContent(t, depth, count + PieceElements(p), next)
    decreases |s|, 1
  {
    hide After, FindText, Entity, ParseElement, ParseContent, Closing, StandsFor, Holds, GoodElement, ElementText,
      DataStart, Marker;
    PieceCases(s, depth, count, node);
    CommentMarker();
    assert node.text + "" == node.text && node.children + [] == node.children;
    if "<!--" <= s {
      var body := AfterFound(s, 4, "-->");
      t := After(s, 4, "-->").value;
      p := Comment(body);
      assert s == "<!--" + s[4..];
    } else if DataStart(s) {
      var k := FindText(s[9..], "]]>").value;
      p, t := Data(s[9..9 + k]), s[9 + k + 3..];
      DataFound(s, k);
    } else if s[0] == '<' {
      var e := ElementFound(s, depth + 1, count);
      p, t := Child(e), ParseElement(s, depth + 1, count).value.rest;
    } else if s[0] == '&' {
      var name := EntityFound(s);
      p, t := Referred(name, Entity(s).value.0), Entity(s).value.1;
    } else {
      p, t := Character(s[0]), s[1..];
      assert s == [s[0]] + s[1..];
    }
  }

  lemma DataFound(s: string, k: nat)
    requires DataStart(s) && FindText(s[9..], "]]>") == Some(k)
    ensures !Holds(s[9..9 + k], "]]>") && s == "<![CDATA[" + (s[9..9 + k] + ("]]>" + s[9 + k + 3..]))
  {
    hide FindText, Holds;
    CommentMarker();
    MarkerFound(s[9..], "]]>");
    assert s[9..][..k] == s[9..9 + k] && s[9..][k + 3..] == s[9 + k + 3..];
    assert s == "<![CDATA[" + s[9..];
  }

  predicate DataStart(s: string) {
    "<![CDATA[" <= s
  }

  /** What the text at hand must be for reading to go on. */
  lemma PieceCases(s: string, depth: nat, count: nat, node: XmlNode)
    requires ParseContent(s, depth, count, node).Some? && !("</" <= s)
    ensures s != "" && (DataStart(s) ==> |s| >= 9)
    ensures
      var r := ParseContent(s, depth, count, node);
      if "<!--" <= s then After(s, 4, "-->").Some? && r == ParseContent(After(s, 4, "-->").value, depth, count, node)
      else if DataStart(s) then
        var k := FindText(s[9..], "]]>");
        k.Some? && r == ParseContent(s[9 + k.value + 3..], depth, count,
                                     node.(text := node.text + s[9..9 + k.value]))
      else if s[0] == '<' then
        var e := ParseElement(s, depth + 1, count);
        e.Some? && r == XmlTree.Adopt(e, depth, node)
      else if s[0] == '&' then
        var e := Entity(s);
        e.Some? && r == ParseContent(e.value.1, depth, count, node.(text := node.text + e.value.0))
      else r == ParseContent(s[1..], depth, count, node.(text := node.text + [s[0]]))
  {
    hide After, FindText, Entity, ParseElement, Closing;
  }

  // ----- Documents ---------------------------------------------------------------------------------

  lemma RootStarts(e: Element, rest: string)
    requires GoodElement(e)
    ensures var s := ElementText(e, rest); Begun(s) && !("<!DOCTYPE" <= s) && !("<?xml" <= s)
  {
    hide GoodElement, ElementText, IsNameStart;
    ElementStarts(e, rest);
    var s := ElementText(e, rest);
    SameClasses(s[1]);
    assert "<!--"[1] == '!' && "<!DOCTYPE"[1] == '!' && "<?xml"[1] == '?';
  }

  /** Blanks and comments behind other blanks are blanks and comments. */
  lemma Widened(gap: string, m: Misc, rest: string) returns (n: Misc)
    requires Blanks(gap) && GoodMisc(m)
    ensures GoodMisc(n) && MiscText(n, rest) == gap + MiscText(m, rest)
  {
    hide Holds;
    if m.comments == [] {
      n := Misc([], gap + m.gap);
      assert gap + m.gap + rest == gap + (m.gap + rest);
    } else {
      var (blanks, body) := m.comments[0];
      n := Misc([(gap + blanks, body)] + m.comments[1..], m.gap);
      var tail := CommentsText(m.comments[1..], m.gap + rest);
      assert n.comments[1..] == m.comments[1..];
      Associative(gap, blanks, "<!--" + (body + ("-->" + tail)));
    }
  }

  lemma {:induction false} MiscStarts(m: Misc, e: Element, rest: string)
    requires GoodMisc(m) && GoodElement(e)
    ensures !("<?xml" <= SkipBlanks(MiscText(m, ElementText(e, rest))))
  {
    hide GoodElement, ElementText, Holds, SkipBlanks;
    RootStarts(e, rest);
    var root := ElementText(e, rest);
    if m.comments == [] {
      BlanksPass(m.gap, root);
    } else {
      var (blanks, body) := m.comments[0];
      OneComment(blanks, body, CommentsText(m.comments[1..], m.gap + root));
      var t := "<!--" + (body + ("-->" + CommentsText(m.comments[1..], m.gap + root)));
      assert t[1] == '!';
    }
  }

  lemma PrologReads(d: Document)
    requires GoodDocument(d)
    ensures SkipProlog(DocumentText(d)) == Some(ElementText(d.root, MiscText(d.after, "")))
  {
    hide GoodElement, ElementText, Holds, SkipBlanks, SkipMisc, After, Blanks, GoodMisc, MiscText;
    var root := ElementText(d.root, MiscText(d.after, ""));
    var behind := MiscText(d.before, root);
    RootStarts(d.root, MiscText(d.after, ""));
    MiscRead(d.before, root);
    match d.declaration
    case Undeclared =>
      var m := Widened(d.gap, d.before, root);
      MiscStarts(m, d.root, MiscText(d.after, ""));
      MiscRead(m, root);
      MiscBlanks(DocumentText(d));
    case Declared(body) =>
      var t := "<?xml" + (body + ("?>" + behind));
      assert t[0] == '<' && "<?xml" <= t;
      assert Bare(t);
      BlanksPass(d.gap, t);
      DeclarationReads(body, behind);
  }

  lemma MiscRead(m: Misc, rest: string)
    requires GoodMisc(m) && Begun(rest)
    ensures SkipMisc(MiscText(m, rest)) == Some(rest)
  {
    hide SkipMisc;
    CommentsRead(m.comments, m.gap, rest);
  }

  /** Skipping blanks first changes nothing. */
  lemma MiscBlanks(s: string)
    ensures SkipMisc(SkipBlanks(s)) == SkipMisc(s)
  {
    hide SkipBlanks, SkipMisc, After;
    var gap := BlanksFound(s);
    BlanksPass("", SkipBlanks(s));
    assert "" + SkipBlanks(s) == SkipBlanks(s);
    SkipMiscIs(s);
    SkipMiscIs(SkipBlanks(s));
  }

  lemma DeclarationReads(body: string, rest: string)
    requires !Holds(body, "?>")
    ensures After("<?xml" + (body + ("?>" + rest)), 0, "?>") == Some(rest)
  {
    hide After, Holds;
    var s := "<?xml" + (body + ("?>" + rest));
    CommentMarker();
    BehindXml(body);
    assert s[0..] == ("<?xml" + body) + ("?>" + rest);
    AfterReads(s, 0, "<?xml" + body, "?>", rest);
  }

  lemma BehindXml(body: string)
    ensures Holds("<?xml" + body, "?>") <==> Holds(body, "?>")
  {
    var s := "<?xml" + body;
    assert s[0] == '<' && s[1] == '?' && s[2] == 'x' && s[3] == 'm' && s[4] == 'l';
    if Holds(s, "?>") {
      var i :| 0 <= i <= |s| && At(s, "?>", i);
      assert s[i..i + 2][0] == s[i] && s[i..i + 2][1] == s[i + 1];
      assert i >= 5;
      assert body[i - 5..i - 3] == s[i..i + 2];
      assert At(body, "?>", i - 5);
    }
    if Holds(body, "?>") {
      var i :| 0 <= i <= |body| && At(body, "?>", i);
      assert s[i + 5..i + 7] == body[i..i + 2];
      assert At(s, "?>", i + 5);
    }
  }

  /** A document that the grammar has within the limits is read as what it means. */
  lemma DocumentReads(d: Document)
    requires GoodDocument(d) && WithinLimits(d)
    ensures ParseXml(DocumentText(d)) == Some(Value(d.root))
  {
    hide GoodElement, ElementText, SkipProlog, SkipMisc, ParseElement, Value, Trimmed, GoodMisc, MiscText, DocumentText,
      Blanks, Height, Elements;
    var behind := MiscText(d.after, "");
    PrologReads(d);
    ElementReads(d.root, behind, 0, 0);
    assert Begun("");
    MiscRead(d.after, "");
    ElementStarts(d.root, behind);
    NotBlank(DocumentText(d));
  }

  lemma NotBlank(s: string)
    requires SkipProlog(s).Some? && SkipProlog(s).value != ""
    ensures Trimmed(s) != ""
  {
    hide SkipBlanks, After;
    var gap := BlanksFound(s);
    var t := SkipBlanks(s);
    if t == "" {
      NothingLeft();
    } else {
      XmlTree.KeepsFirst(t);
    }
  }

  lemma NothingLeft()
    ensures SkipMisc("") == Some("")
  {
  }

  lemma PrologFound(s: string) returns (gap: string, d: Declaration, m: Misc)
    requires SkipProlog(s).Some?
    ensures Blanks(gap) && GoodDeclaration(d) && GoodMisc(m)
    ensures s == gap + DeclarationText(d, MiscText(m, SkipProlog(s).value))
  {
    hide SkipBlanks, SkipMisc, After, Blanks, Holds, GoodMisc, MiscText;
    gap := BlanksFound(s);
    var t := SkipBlanks(s);
    if "<?xml" <= t {
      CommentMarker();
      var body := AfterFound(t, 0, "?>");
      var u := After(t, 0, "?>").value;
      assert t[0..] == t;
      var inner := XmlAhead(body, t, u);
      d := Declared(inner);
      m := MiscFound(u);
    } else {
      d := Undeclared;
      m := MiscFound(t);
    }
  }

  lemma XmlAhead(body: string, t: string, rest: string) returns (inner: string)
    requires "<?xml" <= t && t == body + ("?>" + rest) && !Holds(body, "?>")
    ensures !Holds(inner, "?>") && t == "<?xml" + (inner + ("?>" + rest))
  {
    assert t[0] == '<' && t[1] == '?' && t[2] == 'x' && t[3] == 'm' && t[4] == 'l';
    assert t[|body|] == '?' && t[|body| + 1] == '>';
    inner := body[5..];
    assert body == "<?xml" + inner;
    hide Holds;
    BehindXml(inner);
    Associative("<?xml", inner, "?>" + rest);
  }

  lemma DocumentFound(s: string) returns (d: Document)
    requires ParseXml(s).Some?
    ensures Writes(d, s, ParseXml(s).value)
  {
    hide GoodElement, ElementText, SkipProlog, SkipMisc, ParseElement, Value, Trimmed, GoodMisc, MiscText, Blanks,
      Height, Elements, Begun, GoodDeclaration, DeclarationText;
    var t := SkipProlog(s).value;
    var gap, declaration, before := PrologFound(s);
    var root := ElementFound(t, 0, 0);
    var u := ParseElement(t, 0, 0).value.rest;
    var after := MiscFound(u);
    d := Document(gap, declaration, before, root, after);
  }

  /** The parser takes a text, and makes this node of it, exactly when some document that the grammar has
      within the limits is written as the text and means the node. */
  lemma ParsesTheGrammar(s: string, root: XmlNode)
    ensures ParseXml(s) == Some(root) <==> exists d :: Writes(d, s, root)
  {
    hide ParseXml, GoodDocument, WithinLimits, DocumentText, Value;
    if ParseXml(s) == Some(root) {
      var d := DocumentFound(s);
    }
    if exists d :: Writes(d, s, root) {
      var d :| Writes(d, s, root);
      DocumentReads(d);
    }
  }

  /** So a text means one thing: documents within the limits that are written alike mean the same. */
  lemma WrittenAlikeMeansTheSame(c: Document, d: Document)
    requires GoodDocument(c) && WithinLimits(c) && GoodDocument(d) && WithinLimits(d)
    requires DocumentText(c) == DocumentText(d)
    ensures Value(c.root) == Value(d.root)
  {
    hide ParseXml, GoodDocument, WithinLimits, DocumentText, Value;
    DocumentReads(c);
    DocumentReads(d);
  }
}
