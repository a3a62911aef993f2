/** The bounded recursive-descent parser in its stateful form: a cursor over the document and a
    count of elements. Every method agrees with the function of the same name on the text from the
    cursor on; an exception is a None or a false. */
module XmlParser {
  import opened Option
  import opened Text
  import X = Xml

  class Parser {
    const text: string
    var pos: nat
    var elements: nat

    ghost predicate Valid()
      reads this
    {
      pos <= |text|
    }

    ghost function Rest(): string
      requires Valid()
      reads this
    {
      text[pos..]
    }

    constructor (input: string)
      ensures Valid() && text == input && pos == 0 && elements == 0
    {
      text, pos, elements := input, 0, 0;
    }

    predicate StartsWith(literal: string)
      requires Valid()
      reads this
    {
      literal <= text[pos..]
    }

    method SkipSpace()
      requires Valid()
      modifies this`pos
      ensures Valid() && Rest() == X.SkipBlanks(old(Rest())) && pos >= old(pos)
    {
      while pos < |text| && X.IsBlank(text[pos])
        invariant Valid() && pos >= old(pos)
        invariant X.SkipBlanks(Rest()) == X.SkipBlanks(old(Rest()))
      {
        assert Rest()[1..] == text[pos + 1..];
        pos := pos + 1;
      }
    }

    /** Moves behind the first `literal` at least `skip` characters on. */
    method SkipPast(skip: nat, literal: string) returns (ok: bool)
      requires Valid() && pos + skip <= |text|
      modifies this`pos
      ensures Valid()
      ensures
        match X.After(old(Rest()), skip, literal)
        case None => !ok && pos == old(pos)
        case Some(rest) => ok && Rest() == rest && pos >= old(pos) + skip + |literal|
    {
      ghost var before := Rest();
      assert before[skip..] == text[pos + skip..];
      var end := FindText(text[pos + skip..], literal);
      if end == None {
        return false;
      }
      assert before[skip + end.value + |literal|..] == text[pos + (skip + end.value + |literal|)..];
      pos := pos + (skip + end.value + |literal|);
      ok := true;
    }

    method SkipMisc() returns (ok: bool)
      requires Valid()
      modifies this`pos
      ensures Valid() && pos >= old(pos)
      ensures
        match X.SkipMisc(old(Rest()))
        case None => !ok
        case Some(rest) => ok && Rest() == rest
    {
      hide X.After;
      while true
        invariant Valid() && pos >= old(pos)
        invariant X.SkipMisc(Rest()) == X.SkipMisc(old(Rest()))
        decreases |text| - pos
      {
        ghost var before := Rest();
        SkipSpace();
        if !StartsWith("<!--") {
          return true;
        }
        var found := SkipPast(4, "-->");
        if !found {
          return false;
        }
      }
    }

    method SkipProlog() returns (ok: bool)
      requires Valid()
      modifies this`pos
      ensures Valid()
      ensures
        match X.SkipProlog(old(Rest()))
        case None => !ok
        case Some(rest) => ok && Rest() == rest
    {
      hide X.After, X.SkipBlanks, X.SkipMisc;
      SkipSpace();
      if StartsWith("<?xml") {
        var found := SkipPast(0, "?>");
        if !found {
          return false;
        }
      }
      ok := SkipMisc();
      if ok && StartsWith("<!DOCTYPE") {
        ok := false;
      }
    }

    method ParseName() returns (name: Option<string>)
      requires Valid()
      modifies this`pos
      ensures Valid() && pos >= old(pos)
      ensures
        match X.ParseName(old(Rest()))
        case None => name == None
        case Some((n, rest)) => name == Some(n) && Rest() == rest && pos > old(pos)
    {
      if pos >= |text| || !X.IsNameStart(text[pos]) {
        return None;
      }
      var start := pos;
      while pos < |text| && X.IsNameChar(text[pos])
        invariant Valid() && pos >= start
        invariant X.NameLength(text[start..]) == pos - start + X.NameLength(Rest())
      {
        assert Rest()[1..] == text[pos + 1..];
        pos := pos + 1;
      }
      assert text[start..][..pos - start] == text[start..pos] && text[start..][pos - start..] == text[pos..];
      name := Some(text[start..pos]);
    }

    /** One attribute, consumed and discarded. */
    method SkipAttribute() returns (ok: bool)
      requires Valid()
      modifies this`pos
      ensures Valid() && (ok ==> pos > old(pos))
      ensures
        match Attribute(old(Rest()))
        case None => !ok
        case Some(rest) => ok && Rest() == rest
    {
      hide X.SkipBlanks, X.ParseName, Quoted;
      var name := ParseName();
      if name == None {
        return false;
      }
      SkipSpace();
      if pos >= |text| || text[pos] != '=' {
        return false;
      }
      assert Rest()[1..] == text[pos + 1..];
      pos := pos + 1;
      SkipSpace();
      ok := SkipValue();
    }

    /** A quoted value at the cursor. */
    method SkipValue() returns (ok: bool)
      requires Valid()
      modifies this`pos
      ensures Valid() && (ok ==> pos > old(pos))
      ensures
        match Quoted(old(Rest()))
        case None => !ok
        case Some(rest) => ok && Rest() == rest
    {
      hide IndexOf;
      if pos >= |text| || (text[pos] != '"' && text[pos] != '\'') {
        return false;
      }
      ghost var quoted := Rest();
      var quote := text[pos];
      assert quoted[1..] == text[pos + 1..];
      pos := pos + 1;
      var end := IndexOf(text[pos..], quote);
      if end == |text[pos..]| {
        return false;
      }
      assert quoted[end + 2..] == text[pos + end + 1..];
      pos := pos + end + 1;
      ok := true;
    }

    /** Some(true) for a self-closing tag. */
    method SkipAttributes() returns (closed: Option<bool>)
      requires Valid()
      modifies this`pos
      ensures Valid() && (closed.Some? ==> pos > old(pos))
      ensures
        match X.SkipAttributes(old(Rest()))
        case None => closed == None
        case Some((c, rest)) => closed == Some(c) && Rest() == rest
    {
      hide X.SkipBlanks, Attribute;
      while true
        invariant Valid() && pos >= old(pos)
        invariant X.SkipAttributes(Rest()) == X.SkipAttributes(old(Rest()))
        decreases |text| - pos
      {
        AttributesUnfold(Rest());
        SkipSpace();
        if pos >= |text| {
          return None;
        }
        if text[pos] == '>' {
          assert Rest()[1..] == text[pos + 1..];
          pos := pos + 1;
          return Some(false);
        }
        if StartsWith("/>") {
          assert Rest()[2..] == text[pos + 2..];
          pos := pos + 2;
          return Some(true);
        }
        var ok := SkipAttribute();
        if !ok {
          return None;
        }
      }
    }

    /** The text of a reference at the cursor. */
    method Entity() returns (r: Option<string>)
      requires Valid() && pos < |text| && text[pos] == '&'
      modifies this`pos
      ensures Valid() && (r.Some? ==> pos > old(pos))
      ensures
        match X.Entity(old(Rest()))
        case None => r == None
        case Some((t, rest)) => r == Some(t) && Rest() == rest
    {
      var end := IndexOf(text[pos..], ';');
      if end == |text[pos..]| || end > 12 {
        return None;
      }
      var name := text[pos + 1..pos + end];
      assert Rest()[1..end] == name && Rest()[end + 1..] == text[pos + end + 1..];
      pos := pos + end + 1;
      r := Reference(name);
    }

    /** A closing tag at the cursor. */
    method Closing(node: X.XmlNode) returns (ok: bool)
      requires Valid() && StartsWith("</")
      modifies this`pos
      ensures Valid() && (ok ==> pos > old(pos))
      ensures
        match X.Closing(old(Rest()), elements, node)
        case None => !ok
        case Some(p) => ok && Rest() == p.rest && p.count == elements && p.node == Done(node)
    {
      hide X.SkipBlanks, X.ParseName;
      assert Rest()[2..] == text[pos + 2..];
      pos := pos + 2;
      var closing := ParseName();
      if closing == None || closing.value != node.name {
        return false;
      }
      SkipSpace();
      if pos >= |text| || text[pos] != '>' {
        return false;
      }
      assert Rest()[1..] == text[pos + 1..];
      pos := pos + 1;
      ok := true;
    }

    method ParseElement(depth: nat) returns (node: Option<X.XmlNode>)
      requires Valid()
      modifies this
      ensures Valid() && (node.Some? ==> pos > old(pos))
      ensures Agrees(X.ParseElement(old(Rest()), depth, old(elements)), node)
      decreases |text| - pos, 0
    {
      hide X.SkipAttributes, X.ParseName;
      if depth >= X.MAX_DEPTH {
        return None;
      }
      elements := elements + 1;
      if elements > X.MAX_ELEMENTS || pos >= |text| || text[pos] != '<' {
        return None;
      }
      assert Rest()[1..] == text[pos + 1..];
      pos := pos + 1;
      var name := ParseName();
      if name == None {
        return None;
      }
      var closed := SkipAttributes();
      if closed == None {
        return None;
      }
      if closed.value {
        return Some(X.XmlNode(name.value, "", []));
      }
      node := ParseContent(depth, X.XmlNode(name.value, "", []));
    }

    /** What the exceptions and the cursor say is what the function says. */
    ghost predicate Agrees(spec: Option<X.Parsed>, node: Option<X.XmlNode>)
      requires Valid()
      reads this
    {
      match spec
      case None => node == None
      case Some(p) => node == Some(p.node) && Rest() == p.rest && elements == p.count
    }

    /** The loop over an element's content, up to its end tag. */
    method ParseContent(depth: nat, begun: X.XmlNode) returns (node: Option<X.XmlNode>)
      requires Valid()
      modifies this
      ensures Valid() && (node.Some? ==> pos > old(pos))
      ensures Agrees(X.ParseContent(old(Rest()), depth, old(elements), begun), node)
      decreases |text| - pos, 1
    {
      hide X.After, FindText, X.Entity, X.Closing, X.ParseElement;
      var n := begun;
      while pos < |text|
        invariant Valid() && pos >= old(pos)
        invariant X.ParseContent(Rest(), depth, elements, n) == X.ParseContent(old(Rest()), depth, old(elements), begun)
        decreases |text| - pos
      {
        if text[pos] == '<' {
          if StartsWith("</") {
            var ok := Closing(n);
            return if ok then Some(Done(n)) else None;
          }
          if StartsWith("<!--") {
            var found := SkipPast(4, "-->");
            if !found {
              return None;
            }
          } else if StartsWith("<![CDATA[") {
            var run := CharacterData();
            if run == None {
              return None;
            }
            n := n.(text := n.text + run.value);
          } else {
            if StartsWith("<?") {
              return None;
            }
            var child := ParseElement(depth + 1);
            if child == None {
              return None;
            }
            n := n.(children := n.children + [child.value]);
          }
        } else if text[pos] == '&' {
          var entity := Entity();
          if entity == None {
            return None;
          }
          n := n.(text := n.text + entity.value);
        } else {
          assert Rest()[1..] == text[pos + 1..];
          n := n.(text := n.text + [text[pos]]);
          pos := pos + 1;
        }
      }
      node := None;
    }

    method CharacterData() returns (run: Option<string>)
      requires Valid() && StartsWith("<![CDATA[")
      modifies this`pos
      ensures Valid() && (run.Some? ==> pos > old(pos))
      ensures
        match FindText(old(Rest())[9..], "]]>")
        case None => run == None
        case Some(k) => run == Some(old(Rest())[9..9 + k]) && Rest() == old(Rest())[9 + k + 3..]
    {
      assert Rest()[9..] == text[pos + 9..];
      var end := FindText(text[pos + 9..], "]]>");
      if end == None {
        return None;
      }
      assert Rest()[9..9 + end.value] == text[pos + 9..pos + 9 + end.value];
      assert Rest()[9 + end.value + 3..] == text[pos + 9 + end.value + 3..];
      run := Some(text[pos + 9..pos + 9 + end.value]);
      pos := pos + 9 + end.value + 3;
    }

    method ParseDocument() returns (root: Option<X.XmlNode>)
      requires Valid() && pos == 0 && elements == 0
      modifies this
      ensures root == X.ParseDocument(text)
    {
      hide X.SkipProlog, X.ParseElement, X.SkipMisc;
      assert Rest() == text;
      var ok := SkipProlog();
      if !ok {
        return None;
      }
      root := ParseElement(0);
      if root == None {
        return;
      }
      ok := SkipMisc();
      if !ok || pos != |text| {
        root := None;
      }
    }
  }

  /** Text counts on a leaf only. */
  function Done(node: X.XmlNode): X.XmlNode {
    if node.children != [] then node.(text := "") else node
  }

  /** What follows one attribute. */
  function Attribute(t: string): (r: Option<string>)
    ensures r.Some? ==> |r.value| < |t|
  {
    match X.ParseName(t)
    case None => None
    case Some((_, u)) =>
      var v := X.SkipBlanks(u);
      if v == "" || v[0] != '=' then None else Quoted(X.SkipBlanks(v[1..]))
  }

  function Quoted(w: string): (r: Option<string>)
    ensures r.Some? ==> |r.value| < |w|
  {
    if w == "" || (w[0] != '"' && w[0] != '\'') then None
    else
      var end := IndexOf(w[1..], w[0]);
      if end == |w[1..]| then None else Some(w[end + 2..])
  }

  lemma AttributesUnfold(s: string)
    ensures
      var t := X.SkipBlanks(s);
      X.SkipAttributes(s)
      == if t == "" then None
         else if t[0] == '>' then Some((false, t[1..]))
         else if "/>" <= t then Some((true, t[2..]))
         else if Attribute(t) == None then None
         else X.SkipAttributes(Attribute(t).value)
  {
    hide X.SkipBlanks, X.ParseName, IndexOf;
  }

  method ReferenceCode(digits: string, hex: bool) returns (code: Option<nat>)
    ensures code == X.RefCode(digits, hex, 0)
  {
    var value: nat := 0;
    for i := 0 to |digits|
      invariant X.RefCode(digits[i..], hex, value) == X.RefCode(digits, hex, 0)
    {
      assert digits[i..][1..] == digits[i + 1..];
      var digit := X.RefDigit(digits[i], hex);
      if digit < 0 {
        return None;
      }
      value := value * (if hex then 16 else 10) + digit;
      if value > 0x10FFFF {
        return None;
      }
    }
    code := Some(value);
  }

  method Reference(name: string) returns (r: Option<string>)
    ensures r == X.Reference(name)
  {
    hide X.RefCode;
    if name == "lt" { return Some("<"); }
    if name == "gt" { return Some(">"); }
    if name == "amp" { return Some("&"); }
    if name == "quot" { return Some("\""); }
    if name == "apos" { return Some("'"); }
    if name == "" || name[0] != '#' {
      return None;
    }
    var hex := |name| > 1 && (name[1] == 'x' || name[1] == 'X');
    var digits := name[if hex then 2 else 1..];
    if digits == "" {
      return None;
    }
    var code := ReferenceCode(digits, hex);
    if code == None {
      return None;
    }
    X.RefCodeBound(digits, hex, 0);
    r := Some(X.Utf8(code.value));
  }

  method ParseXml(document: string) returns (root: Option<X.XmlNode>)
    ensures root == X.ParseXml(document)
  {
    if |document| > X.MAX_BYTES || X.Trimmed(document) == "" {
      return None;
    }
    var parser := new Parser(document);
    root := parser.ParseDocument();
  }
}
