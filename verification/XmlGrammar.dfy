/** The XML that the server takes, as a grammar: documents as trees of what stands in them, the text each
    is written as and the node each means. Nothing here reads text; XmlParses.dfy shows that the parser
    takes exactly these documents. Texts are given with what follows them as a last argument. */
module XmlGrammar {
  import opened Xml

  // ----- Characters ------------------------------------------------------------------------

  predicate Letter(c: char) {
    var code := c as int;
    65 <= code <= 90 || 97 <= code <= 122
  }

  predicate Digit(c: char) {
    48 <= c as int <= 57
  }

  /** A letter, '_' or ':' and then those, digits, '-' and '.'. */
  predicate Name(s: string) {
    && s != "" && (Letter(s[0]) || s[0] in {'_', ':'})
    && forall i :: 0 <= i < |s| ==> NameCharacter(s[i])
  }

  predicate NameCharacter(c: char) {
    Letter(c) || Digit(c) || c in {'_', ':', '-', '.'}
  }

  predicate Blanks(s: string) {
    forall i :: 0 <= i < |s| ==> s[i] as int in {9, 10, 13, 32}
  }

  predicate At(s: string, literal: string, i: nat) {
    i + |literal| <= |s| && s[i..i + |literal|] == literal
  }

  predicate Holds(s: string, literal: string) {
    exists i :: 0 <= i <= |s| && At(s, literal, i)
  }

  // ----- References ------------------------------------------------------------------------

  /** What a digit is worth to a base of ten or sixteen; the base itself for what is no digit of it. */
  function Worth(c: char, base: nat): nat {
    var code := c as int;
    if Digit(c) then code - 48
    else if base == 16 && 97 <= code <= 102 then code - 87
    else if base == 16 && 65 <= code <= 70 then code - 55
    else base
  }

  predicate Numeral(s: string, base: nat) {
    s != "" && forall i :: 0 <= i < |s| ==> Worth(s[i], base) < base
  }

  function Number(s: string, base: nat): nat {
    if s == "" then 0 else base * Number(s[..|s| - 1], base) + Worth(s[|s| - 1], base)
  }

  /** The UTF-8 form of a code point, section 3 of RFC 3629; surrogates are not told apart. */
  predicate Utf8Of(s: string, code: nat) {
    || (|s| == 1 && code < 0x80 && s[0] as int == code)
    || (|s| == 2 && 0x80 <= code < 0x800 && Lead(s[0], 0xC0, 32) && Trails(s)
        && code == 64 * (s[0] as int - 0xC0) + (s[1] as int - 0x80))
    || (|s| == 3 && 0x800 <= code < 0x1_0000 && Lead(s[0], 0xE0, 16) && Trails(s)
        && code == 4096 * (s[0] as int - 0xE0) + 64 * (s[1] as int - 0x80) + (s[2] as int - 0x80))
    || (|s| == 4 && 0x1_0000 <= code <= 0x10_FFFF && Lead(s[0], 0xF0, 8) && Trails(s)
        && code == 262144 * (s[0] as int - 0xF0) + 4096 * (s[1] as int - 0x80) + 64 * (s[2] as int - 0x80)
                   + (s[3] as int - 0x80))
  }

  predicate Lead(c: char, mark: nat, room: nat) {
    mark <= c as int < mark + room
  }

  predicate Trails(s: string) {
    forall i :: 1 <= i < |s| ==> 0x80 <= s[i] as int < 0xC0
  }

  /** What a reference by a name, or by a number of at most 0x10FFFF, stands for. */
  predicate StandsFor(name: string, text: string) {
    || (name, text) in {("lt", "<"), ("gt", ">"), ("amp", "&"), ("quot", "\""), ("apos", "'")}
    || (|name| > 1 && name[0] == '#' && Numeral(name[1..], 10) && Utf8Of(text, Number(name[1..], 10)))
    || (|name| > 2 && name[0] == '#' && name[1] in {'x', 'X'} && Numeral(name[2..], 16)
        && Utf8Of(text, Number(name[2..], 16)))
  }

  // ----- Tags ------------------------------------------------------------------------------

  datatype Attribute = Attribute(
    gap: string, name: string, left: string, right: string, quote: char, value: string)

  predicate GoodAttribute(a: Attribute) {
    && Blanks(a.gap) && Name(a.name) && Blanks(a.left) && Blanks(a.right)
    && a.quote in {'"', '\''} && a.quote !in a.value
  }

  function AttributeText(a: Attribute, rest: string): string {
    a.gap + (a.name + (a.left + ("=" + (a.right + ([a.quote] + (a.value + ([a.quote] + rest)))))))
  }

  /** What stands in a start tag behind its name. A blank is due before the first attribute alone. */
  datatype Tag = Tag(attributes: seq<Attribute>, gap: string)

  predicate GoodTag(t: Tag) {
    && Blanks(t.gap) && (t.attributes != [] ==> t.attributes[0].gap != "")
    && forall i :: 0 <= i < |t.attributes| ==> GoodAttribute(t.attributes[i])
  }

  function AttributesText(attributes: seq<Attribute>, rest: string): string {
    if attributes == [] then rest else AttributeText(attributes[0], AttributesText(attributes[1..], rest))
  }

  function TagText(t: Tag, rest: string): string {
    AttributesText(t.attributes, t.gap + rest)
  }

  // ----- Elements --------------------------------------------------------------------------

  datatype Piece =
    | Character(c: char)
    | Referred(name: string, text: string)
    | Data(run: string)
    | Comment(body: string)
    | Child(element: Element)

  /** The end tag is written with the name of the start tag. */
  datatype Element =
    | Closed(name: string, tag: Tag)
    | Full(name: string, tag: Tag, content: seq<Piece>, gap: string)

  predicate GoodElement(e: Element) {
    && Name(e.name) && GoodTag(e.tag)
    && match e
       case Closed(_, _) => true
       case Full(_, _, content, gap) => Blanks(gap) && GoodContent(content)
  }

  predicate GoodContent(content: seq<Piece>) {
    content != [] ==> GoodPiece(content[0]) && GoodContent(content[1..])
  }

  predicate GoodPiece(p: Piece) {
    match p
    case Character(c) => c != '<' && c != '&'
    case Referred(name, text) => |name| <= 11 && StandsFor(name, text)
    case Data(run) => !Holds(run, "]]>")
    case Comment(body) => !Holds(body, "-->")
    case Child(e) => GoodElement(e)
  }

  function ElementText(e: Element, rest: string): string {
    match e
    case Closed(name, tag) => "<" + (name + TagText(tag, "/>" + rest))
    case Full(name, tag, content, gap) =>
      "<" + (name + TagText(tag, ">" + ContentText(content, "</" + (name + (gap + (">" + rest))))))
  }

  function ContentText(content: seq<Piece>, rest: string): string {
    if content == [] then rest else PieceText(content[0], ContentText(content[1..], rest))
  }

  function PieceText(p: Piece, rest: string): string {
    match p
    case Character(c) => [c] + rest
    case Referred(name, _) => "&" + (name + (";" + rest))
    case Data(run) => "<![CDATA[" + (run + ("]]>" + rest))
    case Comment(body) => "<!--" + (body + ("-->" + rest))
    case Child(e) => ElementText(e, rest)
  }

  // ----- Meaning ---------------------------------------------------------------------------

  /** Attributes and comments mean nothing, and text counts beside no child. */
  function Value(e: Element): XmlNode {
    match e
    case Closed(name, _) => XmlNode(name, "", [])
    case Full(name, _, content, _) =>
      XmlNode(name, if Children(content) == [] then Characters(content) else "", Children(content))
  }

  function Children(content: seq<Piece>): seq<XmlNode> {
    if content == [] then [] else PieceChildren(content[0]) + Children(content[1..])
  }

  function PieceChildren(p: Piece): seq<XmlNode> {
    if p.Child? then [Value(p.element)] else []
  }

  function Characters(content: seq<Piece>): string {
    if content == [] then "" else PieceCharacters(content[0]) + Characters(content[1..])
  }

  function PieceCharacters(p: Piece): string {
    match p
    case Character(c) => [c]
    case Referred(_, text) => text
    case Data(run) => run
    case Comment(_) => ""
    case Child(_) => ""
  }

  // ----- Limits ----------------------------------------------------------------------------

  function Height(e: Element): nat {
    match e
    case Closed(_, _) => 1
    case Full(_, _, content, _) => 1 + ContentHeight(content)
  }

  function ContentHeight(content: seq<Piece>): nat {
    if content == [] then 0 else Larger(PieceHeight(content[0]), ContentHeight(content[1..]))
  }

  function PieceHeight(p: Piece): nat {
    if p.Child? then Height(p.element) else 0
  }

  function Larger(m: nat, n: nat): nat {
    if m > n then m else n
  }

  function Elements(e: Element): nat {
    match e
    case Closed(_, _) => 1
    case Full(_, _, content, _) => 1 + ContentElements(content)
  }

  function ContentElements(content: seq<Piece>): nat {
    if content == [] then 0 else PieceElements(content[0]) + ContentElements(content[1..])
  }

  function PieceElements(p: Piece): nat {
    if p.Child? then Elements(p.element) else 0
  }

  // ----- Documents -------------------------------------------------------------------------

  /** Comments with blanks before them, and blanks behind the last. */
  datatype Misc = Misc(comments: seq<(string, string)>, gap: string)

  predicate GoodMisc(m: Misc) {
    && Blanks(m.gap)
    && forall i :: 0 <= i < |m.comments| ==> Blanks(m.comments[i].0) && !Holds(m.comments[i].1, "-->")
  }

  function CommentsText(comments: seq<(string, string)>, rest: string): string {
    if comments == [] then rest
    else comments[0].0 + ("<!--" + (comments[0].1 + ("-->" + CommentsText(comments[1..], rest))))
  }

  function MiscText(m: Misc, rest: string): string {
    CommentsText(m.comments, m.gap + rest)
  }

  datatype Declaration = Undeclared | Declared(body: string)

  predicate GoodDeclaration(d: Declaration) {
    d.Declared? ==> !Holds(d.body, "?>")
  }

  function DeclarationText(d: Declaration, rest: string): string {
    match d
    case Undeclared => rest
    case Declared(body) => "<?xml" + (body + ("?>" + rest))
  }

  datatype Document = Document(gap: string, declaration: Declaration, before: Misc, root: Element, after: Misc)

  predicate GoodDocument(d: Document) {
    && Blanks(d.gap) && GoodDeclaration(d.declaration) && GoodMisc(d.before) && GoodElement(d.root) && GoodMisc(d.after)
  }

  function DocumentText(d: Document): string {
    d.gap + DeclarationText(d.declaration, MiscText(d.before, ElementText(d.root, MiscText(d.after, ""))))
  }

  predicate WithinLimits(d: Document) {
    |DocumentText(d)| <= MAX_BYTES && Height(d.root) <= MAX_DEPTH && Elements(d.root) <= MAX_ELEMENTS
  }

  /** The document is written as this text and means this node. */
  predicate Writes(d: Document, text: string, root: XmlNode) {
    GoodDocument(d) && WithinLimits(d) && DocumentText(d) == text && Value(d.root) == root
  }
}
