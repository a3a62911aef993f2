/** The scanning half of the XML parser against the grammar: what each scanner passes over is what the
    grammar has there, and it passes over all of that. */
module XmlScan {
  import opened Option
  import opened Text
  import opened Xml
  import opened XmlGrammar

  // ----- Characters and names ----------------------------------------------------------------

  lemma SameClasses(c: char)
    ensures IsNameStart(c) <==> Letter(c) || c in {'_', ':'}
    ensures IsNameChar(c) <==> NameCharacter(c)
    ensures IsBlank(c) <==> c as int in {9, 10, 13, 32}
    ensures IsNameStart(c) ==> IsNameChar(c) && !IsBlank(c) && c !in {'/', '>', '!', '?', '='}
  {
  }

  /** A text behind a name, as far as it does not go on with it. */
  predicate EndsName(rest: string) {
    rest == "" || !IsNameChar(rest[0])
  }

  lemma {:induction false} NameRun(s: string)
    ensures forall i :: 0 <= i < NameLength(s) ==> IsNameChar(s[i])
    ensures EndsName(s[NameLength(s)..])
  {
    if s != "" && IsNameChar(s[0]) {
      NameRun(s[1..]);
      assert s[1..][NameLength(s[1..])..] == s[NameLength(s)..];
    }
  }

  lemma {:induction false} NameRuns(name: string, rest: string)
    requires (forall i :: 0 <= i < |name| ==> IsNameChar(name[i])) && EndsName(rest)
    ensures NameLength(name + rest) == |name|
  {
    if name == "" {
      assert name + rest == rest;
    } else {
      assert (name + rest)[1..] == name[1..] + rest;
      NameRuns(name[1..], rest);
    }
  }

  lemma NameIs(s: string)
    ensures Name(s) <==> s != "" && IsNameStart(s[0]) && forall i :: 0 <= i < |s| ==> IsNameChar(s[i])
  {
    forall i | 0 <= i < |s| ensures IsNameChar(s[i]) <==> NameCharacter(s[i]) {
      SameClasses(s[i]);
    }
    if s != "" {
      SameClasses(s[0]);
    }
  }

  /** A name is read as far as it goes. */
  lemma NameReads(name: string, rest: string)
    requires Name(name) && EndsName(rest)
    ensures ParseName(name + rest) == Some((name, rest))
  {
    NameIs(name);
    NameRuns(name, rest);
    Behind(name, rest);
  }

  lemma Behind(a: string, b: string)
    ensures (a + b)[..|a|] == a && (a + b)[|a|..] == b
  {
  }

  lemma NameFound(s: string)
    requires ParseName(s).Some?
    ensures var (name, rest) := ParseName(s).value; Name(name) && EndsName(rest) && s == name + rest
  {
    NameRun(s);
    var n := NameLength(s);
    NameIs(s[..n]);
    assert IsNameChar(s[0]) by { SameClasses(s[0]); }
  }

  // ----- Blanks --------------------------------------------------------------------------------

  /** A text that does not start with a blank. */
  predicate Bare(s: string) {
    s == "" || !IsBlank(s[0])
  }

  lemma {:induction false} BlanksPass(gap: string, rest: string)
    requires Blanks(gap) && Bare(rest)
    ensures SkipBlanks(gap + rest) == rest
  {
    if gap == "" {
      assert gap + rest == rest;
    } else {
      SameClasses(gap[0]);
      assert (gap + rest)[1..] == gap[1..] + rest;
      BlanksPass(gap[1..], rest);
    }
  }

  lemma {:induction false} BlanksFound(s: string) returns (gap: string)
    ensures Blanks(gap) && Bare(SkipBlanks(s)) && s == gap + SkipBlanks(s)
  {
    gap := "";
    if s != "" && IsBlank(s[0]) {
      SameClasses(s[0]);
      var rest := BlanksFound(s[1..]);
      gap := [s[0]] + rest;
      assert s == [s[0]] + s[1..];
    }
  }

  // ----- Literals ------------------------------------------------------------------------------

  /** A literal that ends in a character it has nowhere else, so it cannot overlap itself. */
  predicate Marker(literal: string) {
    literal != "" && literal[|literal| - 1] !in literal[..|literal| - 1]
  }

  lemma FindSkips(s: string, literal: string)
    requires s != "" && !(literal <= s)
    ensures FindText(s, literal)
         == match FindText(s[1..], literal) case None => None case Some(k) => Some(k + 1)
  {
  }

  lemma {:induction false} MarkerReads(body: string, literal: string, rest: string)
    requires Marker(literal) && !Holds(body, literal)
    ensures FindText(body + (literal + rest), literal) == Some(|body|)
  {
    var s := body + (literal + rest);
    if body == "" {
      assert s == literal + rest && literal <= s;
    } else {
      if literal <= s {
        MarkerInside(body, literal, rest);
      }
      HoldsTail(body, literal);
      assert s[1..] == body[1..] + (literal + rest);
      hide FindText;
      MarkerReads(body[1..], literal, rest);
      FindSkips(s, literal);
    }
  }

  /** A marker in front of another cannot reach into it. */
  lemma MarkerInside(body: string, literal: string, rest: string)
    requires Marker(literal) && body != "" && literal <= body + (literal + rest)
    ensures Holds(body, literal)
  {
    var s := body + (literal + rest);
    var n := |literal|;
    assert s[n - 1] == literal[n - 1] && |body| >= 1;
    assert |body| >= n;
    assert body[0..n] == s[..n] == literal;
    assert At(body, literal, 0);
  }

  lemma HoldsWider(s: string, literal: string)
    requires s != "" && Holds(s[1..], literal)
    ensures Holds(s, literal)
  {
    var i :| 0 <= i <= |s[1..]| && At(s[1..], literal, i);
    assert s[1..][i..i + |literal|] == s[i + 1..i + 1 + |literal|];
    assert At(s, literal, i + 1);
  }

  lemma HoldsTail(s: string, literal: string)
    requires s != "" && !Holds(s, literal)
    ensures !Holds(s[1..], literal) && !At(s, literal, 0)
  {
    if Holds(s[1..], literal) {
      HoldsWider(s, literal);
    }
  }

  lemma {:induction false} MarkerFound(s: string, literal: string)
    requires FindText(s, literal).Some? && Marker(literal)
    ensures
      var k := FindText(s, literal).value;
      s == s[..k] + (literal + s[k + |literal|..]) && !Holds(s[..k], literal)
  {
    if literal <= s {
      assert s == literal + s[|literal|..] && s[..0] == "";
      assert "" + (literal + s[|literal|..]) == s;
      NothingHeld(literal);
    } else {
      MarkerFound(s[1..], literal);
      FindSkips(s, literal);
      hide FindText;
      MarkerFurther(s, literal, FindText(s[1..], literal).value);
    }
  }

  lemma MarkerFurther(s: string, literal: string, k: nat)
    requires s != "" && !(literal <= s) && literal != "" && k + |literal| < |s|
    requires s[1..] == s[1..][..k] + (literal + s[1..][k + |literal|..]) && !Holds(s[1..][..k], literal)
    ensures s == s[..k + 1] + (literal + s[k + 1 + |literal|..]) && !Holds(s[..k + 1], literal)
  {
    var body := s[1..][..k];
    assert s[..k + 1] == [s[0]] + body && s[k + 1 + |literal|..] == s[1..][k + |literal|..];
    assert s == [s[0]] + s[1..];
    Associative([s[0]], body, literal + s[k + 1 + |literal|..]);
    if Holds([s[0]] + body, literal) {
      HeldBehind(s[0], body, literal);
    }
  }

  lemma NothingHeld(literal: string)
    requires literal != ""
    ensures !Holds("", literal)
  {
  }

  lemma HeldBehind(c: char, body: string, literal: string)
    requires Holds([c] + body, literal) && !Holds(body, literal)
    ensures |literal| <= 1 + |body| && ([c] + body)[..|literal|] == literal
  {
    var s := [c] + body;
    var i :| 0 <= i <= |s| && At(s, literal, i);
    if i > 0 {
      assert body[i - 1..i - 1 + |literal|] == s[i..i + |literal|];
      assert At(body, literal, i - 1);
    }
  }

  lemma CommentMarker()
    ensures Marker("-->") && Marker("]]>") && Marker("?>")
  {
    assert "-->"[..2] == "--" && "]]>"[..2] == "]]" && "?>"[..1] == "?";
  }

  /** What stands behind the first `literal`, read and found. */
  lemma AfterReads(s: string, skip: nat, body: string, literal: string, rest: string)
    requires skip <= |s| && s[skip..] == body + (literal + rest) && Marker(literal) && !Holds(body, literal)
    ensures After(s, skip, literal) == Some(rest)
  {
    hide FindText;
    MarkerReads(body, literal, rest);
    assert s[skip + |body| + |literal|..] == s[skip..][|body| + |literal|..];
    Behind(body, literal + rest);
    Behind(literal, rest);
    assert s[skip..][|body| + |literal|..] == s[skip..][|body|..][|literal|..];
  }

  lemma AfterFound(s: string, skip: nat, literal: string) returns (body: string)
    requires skip <= |s| && After(s, skip, literal).Some? && Marker(literal)
    ensures s[skip..] == body + (literal + After(s, skip, literal).value) && !Holds(body, literal)
  {
    hide FindText;
    MarkerFound(s[skip..], literal);
    var k := FindText(s[skip..], literal).value;
    body := s[skip..][..k];
    assert s[skip + k + |literal|..] == s[skip..][k + |literal|..];
  }

  // ----- Blanks and comments -------------------------------------------------------------------

  /** A text that neither a blank nor a comment starts. */
  predicate Begun(s: string) {
    Bare(s) && !("<!--" <= s)
  }

  lemma SkipMiscIs(s: string)
    ensures
      var t := SkipBlanks(s);
      SkipMisc(s) == if !("<!--" <= t) then Some(t)
                     else if After(t, 4, "-->") == None then None else SkipMisc(After(t, 4, "-->").value)
  {
    hide SkipBlanks, After;
  }

  lemma {:induction false} CommentsRead(comments: seq<(string, string)>, gap: string, rest: string)
    requires GoodMisc(Misc(comments, gap)) && Begun(rest)
    ensures SkipMisc(CommentsText(comments, gap + rest)) == Some(rest)
    decreases |comments|
  {
    hide Blanks, Holds, Bare, SkipBlanks, After, SkipMisc;
    var s := CommentsText(comments, gap + rest);
    SkipMiscIs(s);
    if comments == [] {
      BlanksPass(gap, rest);
    } else {
      var (blanks, body) := comments[0];
      var tail := CommentsText(comments[1..], gap + rest);
      CommentsRead(comments[1..], gap, rest);
      OneComment(blanks, body, tail);
      CommentMarker();
      var t := "<!--" + (body + ("-->" + tail));
      assert t[4..] == body + ("-->" + tail);
      AfterReads(t, 4, body, "-->", tail);
    }
  }

  lemma OneComment(blanks: string, body: string, tail: string)
    requires Blanks(blanks)
    ensures
      var t := "<!--" + (body + ("-->" + tail));
      SkipBlanks(blanks + t) == t && "<!--" <= t
  {
    var t := "<!--" + (body + ("-->" + tail));
    assert t[0] == '<';
    BlanksPass(blanks, t);
  }

  lemma {:induction false} MiscFound(s: string) returns (m: Misc)
    requires SkipMisc(s).Some?
    ensures GoodMisc(m) && Begun(SkipMisc(s).value) && s == MiscText(m, SkipMisc(s).value)
    decreases |s|
  {
    hide SkipBlanks, After, SkipMisc, Blanks, Holds, Bare;
    SkipMiscIs(s);
    var t := SkipBlanks(s);
    var gap := BlanksFound(s);
    if "<!--" <= t {
      CommentMarker();
      var body := AfterFound(t, 4, "-->");
      var rest := After(t, 4, "-->").value;
      m := MiscFound(rest);
      m := Misc([(gap, body)] + m.comments, m.gap);
      assert t == "<!--" + t[4..];
    } else {
      m := Misc([], gap);
    }
  }

  // ----- Tags ------------------------------------------------------------------------------------

  /** What follows one attribute, at its name. */
  function AttributeEnd(t: string): Option<string> {
    match ParseName(t)
    case None => None
    case Some((_, u)) =>
      var v := SkipBlanks(u);
      if v == "" || v[0] != '=' then None else ValueEnd(SkipBlanks(v[1..]))
  }

  function ValueEnd(w: string): Option<string> {
    if w == "" || (w[0] != '"' && w[0] != '\'') then None
    else
      var end := IndexOf(w[1..], w[0]);
      if end == |w[1..]| then None else Some(w[end + 2..])
  }

  lemma SkipAttributesIs(s: string)
    ensures
      var t := SkipBlanks(s);
      SkipAttributes(s)
        == if t == "" then None
           else if t[0] == '>' then Some((false, t[1..]))
           else if "/>" <= t then Some((true, t[2..]))
           else if AttributeEnd(t) == None then None
           else SkipAttributes(AttributeEnd(t).value)
    ensures AttributeEnd(SkipBlanks(s)).Some? ==> |AttributeEnd(SkipBlanks(s)).value| < |s|
  {
    hide SkipBlanks, ParseName, IndexOf;
  }

  lemma ValueReads(quote: char, value: string, rest: string)
    requires quote in {'"', '\''} && quote !in value
    ensures ValueEnd([quote] + (value + ([quote] + rest))) == Some(rest)
  {
    var w := [quote] + (value + ([quote] + rest));
    assert w[1..] == value + ([quote] + rest);
    IndexOfIs(w[1..], quote, |value|);
    assert w[|value| + 2..] == rest;
  }

  lemma ValueFound(w: string) returns (quote: char, value: string)
    requires ValueEnd(w).Some?
    ensures quote in {'"', '\''} && quote !in value && w == [quote] + (value + ([quote] + ValueEnd(w).value))
  {
    quote := w[0];
    var end := IndexOf(w[1..], quote);
    value := w[1..][..end];
    assert w[1..] == value + ([quote] + w[1..][end + 1..]);
    assert w[1..][end + 1..] == w[end + 2..];
    assert w == [quote] + w[1..];
  }

  /** The text of an attribute behind its gap. */
  function Bound(a: Attribute, rest: string): string {
    a.name + (a.left + ("=" + (a.right + ([a.quote] + (a.value + ([a.quote] + rest))))))
  }

  lemma AttributeReads(a: Attribute, rest: string)
    requires GoodAttribute(a)
    ensures AttributeEnd(Bound(a, rest)) == Some(rest)
  {
    hide Name, Blanks, ValueEnd, SkipBlanks, ParseName;
    var w := [a.quote] + (a.value + ([a.quote] + rest));
    var v := "=" + (a.right + w);
    BehindName(a.left, v);
    NameReads(a.name, a.left + v);
    BlanksPass(a.left, v);
    assert v[1..] == a.right + w;
    BareQuote(a.quote);
    BlanksPass(a.right, w);
    ValueReads(a.quote, a.value, rest);
  }

  lemma BareQuote(quote: char)
    requires quote in {'"', '\''}
    ensures !IsBlank(quote)
  {
  }

  /** Blanks end a name, and so does what is no part of one. */
  lemma BehindName(gap: string, rest: string)
    requires Blanks(gap) && rest != "" && !IsNameChar(rest[0])
    ensures EndsName(gap + rest)
  {
    if gap != "" {
      SameClasses(gap[0]);
    }
  }

  lemma AttributeFound(t: string) returns (a: Attribute)
    requires AttributeEnd(t).Some?
    ensures GoodAttribute(a) && a.gap == "" && t == Bound(a, AttributeEnd(t).value)
  {
    hide Name, Blanks, ValueEnd, SkipBlanks, ParseName, EndsName;
    NameFound(t);
    var (name, u) := ParseName(t).value;
    var left := BlanksFound(u);
    var v := SkipBlanks(u);
    var right := BlanksFound(v[1..]);
    var quote, value := ValueFound(SkipBlanks(v[1..]));
    assert v == "=" + v[1..];
    a := Attribute("", name, left, right, quote, value);
    NoBlanks();
  }

  lemma NoBlanks()
    ensures Blanks("")
  {
  }

  /** How a start tag ends. */
  function TagEnd(closed: bool): string {
    if closed then "/>" else ">"
  }

  lemma {:induction false} AttributesRead(attributes: seq<Attribute>, gap: string, closed: bool, rest: string)
    requires Blanks(gap) && forall i :: 0 <= i < |attributes| ==> GoodAttribute(attributes[i])
    ensures SkipAttributes(AttributesText(attributes, gap + (TagEnd(closed) + rest))) == Some((closed, rest))
    decreases |attributes|
  {
    hide GoodAttribute, SkipAttributes, SkipBlanks, AttributeEnd, Bound, Blanks;
    var end := TagEnd(closed) + rest;
    var s := AttributesText(attributes, gap + end);
    SkipAttributesIs(s);
    if attributes == [] {
      BlanksPass(gap, end);
      assert end[|TagEnd(closed)|..] == rest;
    } else {
      var a := attributes[0];
      var tail := AttributesText(attributes[1..], gap + end);
      AttributesRead(attributes[1..], gap, closed, rest);
      AttributeReads(a, tail);
      AttributeStarts(a, tail);
    }
  }

  lemma AttributeStarts(a: Attribute, tail: string)
    requires GoodAttribute(a)
    ensures
      var t := Bound(a, tail);
      t != "" && t[0] != '>' && !("/>" <= t) && SkipBlanks(AttributeText(a, tail)) == t
  {
    hide SkipBlanks, Blanks, IsNameStart, IsBlank;
    var t := Bound(a, tail);
    NameIs(a.name);
    SameClasses(a.name[0]);
    assert t[0] == a.name[0];
    BlanksPass(a.gap, t);
  }

  lemma {:induction false} AttributesFound(s: string) returns (t: Tag)
    requires SkipAttributes(s).Some?
    ensures Blanks(t.gap) && forall i :: 0 <= i < |t.attributes| ==> GoodAttribute(t.attributes[i])
    ensures var (closed, rest) := SkipAttributes(s).value; s == TagText(t, TagEnd(closed) + rest)
    decreases |s|
  {
    hide SkipAttributes, SkipBlanks, AttributeEnd, Bound, Blanks, Name;
    SkipAttributesIs(s);
    var u := SkipBlanks(s);
    var gap := BlanksFound(s);
    if u[0] == '>' {
      t := Tag([], gap);
      assert u == ">" + u[1..];
    } else if "/>" <= u {
      t := Tag([], gap);
      assert u == "/>" + u[2..];
    } else {
      var a := AttributeFound(u);
      t := AttributesFound(AttributeEnd(u).value);
      Spaced(a, gap, AttributeEnd(u).value);
      var more := [a.(gap := gap)] + t.attributes;
      assert more[1..] == t.attributes;
      t := Tag(more, t.gap);
    }
  }

  lemma Spaced(a: Attribute, gap: string, rest: string)
    requires GoodAttribute(a) && Blanks(gap)
    ensures
      var b := a.(gap := gap);
      GoodAttribute(b) && AttributeText(b, rest) == gap + Bound(a, rest)
  {
    hide Name, Blanks;
  }

  // ----- Trimming ----------------------------------------------------------------------------------

  lemma TrimRightStep(s: string)
    ensures TrimRight(s) == if s != "" && IsBlank(s[|s| - 1]) then TrimRight(s[..|s| - 1]) else s
  {
  }

  lemma {:induction false} TrimRightIs(s: string) returns (gap: string)
    ensures Blanks(gap) && s == TrimRight(s) + gap
    ensures TrimRight(s) == "" || !IsBlank(TrimRight(s)[|TrimRight(s)| - 1])
    decreases |s|
  {
    TrimRightStep(s);
    gap := "";
    if s != "" && IsBlank(s[|s| - 1]) {
      var front, last := s[..|s| - 1], s[|s| - 1];
      hide TrimRight, IsBlank;
      gap := TrimRightIs(front);
      BlanksMore(gap, last);
      assert s == front + [last];
      Associative(TrimRight(front), gap, [last]);
      gap := gap + [last];
    } else {
      assert s + "" == s;
    }
  }

  lemma BlanksMore(gap: string, last: char)
    requires Blanks(gap) && IsBlank(last)
    ensures Blanks(gap + [last])
  {
    SameClasses(last);
  }

  /** Trimming takes blanks off both ends and nothing else, and all of them. */
  lemma TrimmedIs(s: string) returns (left: string, right: string)
    ensures Blanks(left) && Blanks(right) && s == left + (Trimmed(s) + right)
    ensures Trimmed(s) != "" ==> !IsBlank(Trimmed(s)[0]) && !IsBlank(Trimmed(s)[|Trimmed(s)| - 1])
  {
    left := BlanksFound(s);
    right := TrimRightIs(SkipBlanks(s));
    hide SkipBlanks, TrimRight, IsBlank;
    var t := SkipBlanks(s);
    assert TrimRight(t) != "" ==> TrimRight(t)[0] == t[0];
  }
}
