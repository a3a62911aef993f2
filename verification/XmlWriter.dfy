/** The stateful document writer. However its calls are nested and balanced, what `finish` returns
    is the layout of a tree, so the parser reads it back. */
module XmlWriter {
  import opened Option
  import opened Text
  import opened Xml
  import opened XmlTree

  datatype Call = Open(name: string) | Element(name: string, text: string) | Close

  datatype State = State(out: string, stack: seq<string>, finished: bool)

  // ----- The writer's text, call by call ---------------------------------------

  function Head(root: string, xmlns: string): string {
    DECLARED + ("?>" + ("\n" + ("<" + (root + (Namespace(xmlns) + (">" + "\n"))))))
  }

  function Start(root: string, xmlns: string): State {
    State(Head(root, xmlns), [root], false)
  }

  function Step(s: State, call: Call): State {
    match call
    case Open(name) =>
      s.(out := s.out + (Spaces(2 * |s.stack|) + (StartTag(name) + "\n")), stack := s.stack + [name])
    case Element(name, text) => s.(out := s.out + Render(Leaf(name, text), |s.stack|))
    case Close => CloseStep(s)
  }

  /** The root stays open until the end. */
  function CloseStep(s: State): State {
    if |s.stack| <= 1 then s
    else
      var stack := s.stack[..|s.stack| - 1];
      s.(out := s.out + (Spaces(2 * |stack|) + (EndTag(s.stack[|stack|]) + "\n")), stack := stack)
  }

  function Run(s: State, calls: seq<Call>): State {
    if calls == [] then s else Step(Run(s, calls[..|calls| - 1]), calls[|calls| - 1])
  }

  function CloseAll(s: State): State
    decreases |s.stack|
  {
    if |s.stack| <= 1 then s else CloseAll(CloseStep(s))
  }

  function Finished(s: State): State {
    if s.finished then s
    else
      var c := CloseAll(s);
      if c.stack == [] then c.(finished := true)
      else State(c.out + (EndTag(c.stack[|c.stack| - 1]) + "\n"), [], true)
  }

  // ----- The tree the calls describe -------------------------------------------

  /** An element still open, and the trees already completed inside it. */
  datatype Frame = Frame(name: string, inside: seq<Tree>)

  function Extend(frames: seq<Frame>, t: Tree): seq<Frame>
    requires frames != []
  {
    var last := |frames| - 1;
    frames[..last] + [Frame(frames[last].name, frames[last].inside + [t])]
  }

  function Fold(frames: seq<Frame>): (r: seq<Frame>)
    requires |frames| > 1
    ensures |r| == |frames| - 1
  {
    var last := |frames| - 1;
    Extend(frames[..last], Branch(frames[last].name, frames[last].inside))
  }

  function Apply(frames: seq<Frame>, call: Call): (r: seq<Frame>)
    requires frames != []
    ensures r != []
  {
    match call
    case Open(name) => frames + [Frame(name, [])]
    case Element(name, text) => Extend(frames, Leaf(name, text))
    case Close => if |frames| == 1 then frames else Fold(frames)
  }

  function ApplyAll(frames: seq<Frame>, calls: seq<Call>): (r: seq<Frame>)
    requires frames != []
    ensures r != []
  {
    if calls == [] then frames else Apply(ApplyAll(frames, calls[..|calls| - 1]), calls[|calls| - 1])
  }

  function FoldAll(frames: seq<Frame>): seq<Tree>
    requires frames != []
    decreases |frames|
  {
    if |frames| == 1 then frames[0].inside else FoldAll(Fold(frames))
  }

  /** The trees inside the root after a sequence of calls, containers left open counting as closed. */
  function Forest(root: string, calls: seq<Call>): seq<Tree> {
    FoldAll(ApplyAll([Frame(root, [])], calls))
  }

  /** The text of open elements: what is complete in each, then the start tag of the next. */
  function Laid(frames: seq<Frame>): string
    requires frames != []
  {
    var last := |frames| - 1;
    if last == 0 then RenderAll(frames[0].inside, 1)
    else Laid(frames[..last]) + (Spaces(2 * last)
                                 + (StartTag(frames[last].name) + ("\n" + RenderAll(frames[last].inside, last + 1))))
  }

  function Names(frames: seq<Frame>): (r: seq<string>)
    ensures |r| == |frames|
  {
    seq(|frames|, i requires 0 <= i < |frames| => frames[i].name)
  }

  predicate Tracks(s: State, frames: seq<Frame>, head: string) {
    && frames != [] && !s.finished
    && s.stack == Names(frames)
    && s.out == head + Laid(frames)
  }

  // ----- The text is the layout of the tree --------------------------------------

  lemma {:induction false} RenderAllGrows(ts: seq<Tree>, t: Tree, d: nat)
    ensures RenderAll(ts + [t], d) == RenderAll(ts, d) + Render(t, d)
  {
    if ts == [] {
      assert ts + [t] == [t] && RenderAll([t], d) == Render(t, d) + "";
    } else {
      assert (ts + [t])[1..] == ts[1..] + [t];
      RenderAllGrows(ts[1..], t, d);
      hide Render;
      Associative(Render(ts[0], d), RenderAll(ts[1..], d), Render(t, d));
    }
  }

  lemma LaidGrows(frames: seq<Frame>, t: Tree)
    requires frames != []
    ensures Laid(Extend(frames, t)) == Laid(frames) + Render(t, |frames|)
  {
    var last := |frames| - 1;
    var inside := frames[last].inside;
    var more := Extend(frames, t);
    RenderAllGrows(inside, t, |frames|);
    assert more[..last] == frames[..last];
    hide Render, RenderAll, StartTag, Spaces;
    if last > 0 {
      var r, one := RenderAll(inside, |frames|), Render(t, |frames|);
      var tag, blanks := StartTag(frames[last].name), Spaces(2 * last);
      assert Laid(frames) == Laid(frames[..last]) + (blanks + (tag + ("\n" + r)));
      assert Laid(more) == Laid(frames[..last]) + (blanks + (tag + ("\n" + (r + one))));
      FourLevels(Laid(frames[..last]), blanks, tag, "\n", r, one);
    }
  }

  lemma FourLevels(a: string, b: string, c: string, d: string, e: string, f: string)
    ensures a + (b + (c + (d + (e + f)))) == a + (b + (c + (d + e))) + f
  {
    Associative(d, e, f);
    Associative(c, d + e, f);
    Associative(b, c + (d + e), f);
    Associative(a, b + (c + (d + e)), f);
  }

  lemma NamesExtend(frames: seq<Frame>, t: Tree)
    requires frames != []
    ensures Names(Extend(frames, t)) == Names(frames)
  {
  }

  lemma LaidUnfolds(frames: seq<Frame>)
    requires |frames| > 1
    ensures
      var last := |frames| - 1;
      Laid(frames)
      == Laid(frames[..last]) + (Spaces(2 * last)
                                 + (StartTag(frames[last].name) + ("\n" + RenderAll(frames[last].inside, last + 1))))
  {
    hide RenderAll, StartTag, Spaces;
  }

  lemma LaidOpens(frames: seq<Frame>, name: string)
    requires frames != []
    ensures Laid(frames + [Frame(name, [])]) == Laid(frames) + (Spaces(2 * |frames|) + (StartTag(name) + "\n"))
  {
    var more := frames + [Frame(name, [])];
    LaidUnfolds(more);
    assert RenderAll([], |frames| + 1) == "";
    hide Laid, RenderAll, StartTag, Spaces;
    assert more[..|frames|] == frames && more[|frames|] == Frame(name, []);
    assert "\n" + "" == "\n";
  }

  /** Closing the innermost element turns its text into the layout of a container. */
  lemma LaidFolds(frames: seq<Frame>)
    requires |frames| > 1
    ensures
      var last := |frames| - 1;
      Laid(Fold(frames)) == Laid(frames) + (Spaces(2 * last) + (EndTag(frames[last].name) + "\n"))
  {
    var last := |frames| - 1;
    var t := Branch(frames[last].name, frames[last].inside);
    LaidGrows(frames[..last], t);
    var outer, blanks, tag := Laid(frames[..last]), Spaces(2 * last), StartTag(t.name);
    var inner, end := RenderAll(t.children, last + 1), Spaces(2 * last) + (EndTag(t.name) + "\n");
    assert Render(t, last) == blanks + (tag + ("\n" + (inner + end)));
    assert Laid(frames) == outer + (blanks + (tag + ("\n" + inner)));
    hide Laid, Render, RenderAll, StartTag, EndTag, Spaces;
    FourLevels(outer, blanks, tag, "\n", inner, end);
  }

  lemma StepTracks(s: State, frames: seq<Frame>, head: string, call: Call)
    requires Tracks(s, frames, head)
    ensures Tracks(Step(s, call), Apply(frames, call), head)
  {
    hide Laid, Render, StartTag, EndTag, Spaces, Extend;
    match call
    case Open(name) =>
      LaidOpens(frames, name);
      Associative(head, Laid(frames), Spaces(2 * |frames|) + (StartTag(name) + "\n"));
      assert Names(frames + [Frame(name, [])]) == Names(frames) + [name];
    case Element(name, text) =>
      LaidGrows(frames, Leaf(name, text));
      Associative(head, Laid(frames), Render(Leaf(name, text), |frames|));
      NamesExtend(frames, Leaf(name, text));
    case Close =>
      CloseTracks(s, frames, head);
  }

  lemma CloseTracks(s: State, frames: seq<Frame>, head: string)
    requires Tracks(s, frames, head)
    ensures Tracks(CloseStep(s), if |frames| == 1 then frames else Fold(frames), head)
  {
    if |frames| > 1 {
      var last := |frames| - 1;
      var t := Branch(frames[last].name, frames[last].inside);
      LaidFolds(frames);
      NamesExtend(frames[..last], t);
      assert Names(frames[..last]) == Names(frames)[..last];
      hide Laid, StartTag, EndTag, Spaces, Extend;
      Associative(head, Laid(frames), Spaces(2 * last) + (EndTag(frames[last].name) + "\n"));
    }
  }

  lemma {:induction false} RunTracks(root: string, xmlns: string, calls: seq<Call>)
    ensures Tracks(Run(Start(root, xmlns), calls), ApplyAll([Frame(root, [])], calls), Head(root, xmlns))
    ensures ApplyAll([Frame(root, [])], calls)[0].name == root
  {
    if calls == [] {
      assert Names([Frame(root, [])]) == [root];
      assert Head(root, xmlns) + "" == Head(root, xmlns);
    } else {
      RunTracks(root, xmlns, calls[..|calls| - 1]);
      hide Tracks, Step;
      StepTracks(Run(Start(root, xmlns), calls[..|calls| - 1]), ApplyAll([Frame(root, [])], calls[..|calls| - 1]),
                 Head(root, xmlns), calls[|calls| - 1]);
    }
  }

  lemma {:induction false} CloseAllTracks(s: State, frames: seq<Frame>, head: string)
    requires Tracks(s, frames, head)
    ensures CloseAll(s).stack == [frames[0].name] && !CloseAll(s).finished
    ensures CloseAll(s).out == head + RenderAll(FoldAll(frames), 1)
    decreases |frames|
  {
    if |frames| > 1 {
      CloseTracks(s, frames, head);
      CloseAllTracks(CloseStep(s), Fold(frames), head);
    }
  }

  lemma DocumentText(root: string, xmlns: string, ts: seq<Tree>)
    ensures Document(root, xmlns, ts) == Head(root, xmlns) + RenderAll(ts, 1) + (EndTag(root) + "\n")
  {
    hide RenderAll, EndTag, Namespace;
    var body, end, name := RenderAll(ts, 1), EndTag(root) + "\n", Namespace(xmlns);
    var tail := body + end;
    Associative(">", "\n", tail);
    Associative(name, ">" + "\n", tail);
    Associative(root, name + (">" + "\n"), tail);
    Associative("<", root + (name + (">" + "\n")), tail);
    Associative("\n", "<" + (root + (name + (">" + "\n"))), tail);
    HeadText(root, xmlns, tail);
    Associative(Head(root, xmlns), body, end);
  }

  lemma HeadText(root: string, xmlns: string, tail: string)
    ensures Head(root, xmlns) + tail
         == DECLARED + ("?>" + (("\n" + ("<" + (root + (Namespace(xmlns) + (">" + "\n"))))) + tail))
  {
    hide Namespace;
    var rest := "\n" + ("<" + (root + (Namespace(xmlns) + (">" + "\n"))));
    Associative("?>", rest, tail);
    Associative(DECLARED, "?>" + rest, tail);
  }

  lemma FinishTracked(s: State, frames: seq<Frame>, root: string, xmlns: string)
    requires Tracks(s, frames, Head(root, xmlns)) && frames[0].name == root
    ensures Finished(s).out == Document(root, xmlns, FoldAll(frames))
  {
    hide Head, Document, RenderAll, FoldAll;
    CloseAllTracks(s, frames, Head(root, xmlns));
    DocumentText(root, xmlns, FoldAll(frames));
  }

  /** Whatever was called, the finished text is the layout of the tree the calls describe. */
  lemma FinishedIsDocument(root: string, xmlns: string, calls: seq<Call>)
    ensures Finished(Run(Start(root, xmlns), calls)).out == Document(root, xmlns, Forest(root, calls))
    ensures Finished(Finished(Run(Start(root, xmlns), calls))) == Finished(Run(Start(root, xmlns), calls))
  {
    hide Run, Start, Head, Document, FoldAll, ApplyAll;
    RunTracks(root, xmlns, calls);
    FinishTracked(Run(Start(root, xmlns), calls), ApplyAll([Frame(root, [])], calls), root, xmlns);
  }

  // ----- So the parser reads it ---------------------------------------------------

  predicate NamesAreValid(calls: seq<Call>) {
    forall i :: 0 <= i < |calls| ==> calls[i].Close? || ValidName(calls[i].name)
  }

  predicate FramesAreNamed(frames: seq<Frame>) {
    forall i :: 0 <= i < |frames| ==> ValidName(frames[i].name) && AllNamed(frames[i].inside)
  }

  lemma {:induction false} ApplyNames(frames: seq<Frame>, calls: seq<Call>)
    requires frames != [] && FramesAreNamed(frames) && NamesAreValid(calls)
    ensures FramesAreNamed(ApplyAll(frames, calls))
  {
    if calls != [] {
      ApplyNames(frames, calls[..|calls| - 1]);
    }
  }

  lemma {:induction false} FoldNames(frames: seq<Frame>)
    requires frames != [] && FramesAreNamed(frames)
    ensures AllNamed(FoldAll(frames))
    decreases |frames|
  {
    if |frames| > 1 {
      FoldNames(Fold(frames));
    }
  }

  /** Any run of the writer yields a document the parser reads back as that tree, if within the limits. */
  lemma ParseReadsAnyRun(root: string, xmlns: string, calls: seq<Call>)
    requires ValidName(root) && '"' !in xmlns && NamesAreValid(calls)
    ensures
      var document := Finished(Run(Start(root, xmlns), calls)).out;
      var ts := Forest(root, calls);
      ParseXml(document) == if DocumentFits(root, xmlns, ts) then Some(ReadBack(Branch(root, ts), 0)) else None
  {
    FinishedIsDocument(root, xmlns, calls);
    ApplyNames([Frame(root, [])], calls);
    FoldNames(ApplyAll([Frame(root, [])], calls));
    ParseInvertsRender(root, xmlns, Forest(root, calls));
  }

  // ----- The class -------------------------------------------------------------------

  class Writer {
    var out: string
    var stack: seq<string>
    var finished: bool

    ghost function Current(): State
      reads this
    {
      State(out, stack, finished)
    }

    constructor (root: string, xmlns: string)
      ensures Current() == Start(root, xmlns)
    {
      var text := DECLARED + ("?>" + ("\n" + ("<" + root)));
      ghost var begun := text;
      if xmlns != "" {
        text := text + (" " + "xmlns" + "=" + "\"" + xmlns + "\"");
      }
      NamespaceFlat(xmlns);
      assert text == begun + Namespace(xmlns);
      hide Namespace, Head;
      HeadBuilt(root, xmlns);
      Associative(begun, Namespace(xmlns), ">\n");
      out, stack, finished := text + ">\n", [root], false;
    }

    method Indent()
      modifies this`out
      ensures out == old(out) + Spaces(2 * |stack|)
    {
      out := out + Spaces(2 * |stack|);
    }

    method Element(name: string, text: string)
      modifies this`out
      ensures Current() == Step(old(Current()), Call.Element(name, text))
    {
      Indent();
      ghost var begun := out;
      var escaped := XmlEscape(text);
      out := out + "<" + name + ">";
      ghost var tagged := out;
      assert tagged == begun + StartTag(name);
      out := out + escaped;
      out := out + "</" + name + ">\n";
      assert out == tagged + escaped + (EndTag(name) + "\n");
      hide Escape, StartTag, EndTag, Spaces;
      Associative(begun, StartTag(name), Escape(text));
      Associative(begun + StartTag(name), Escape(text), EndTag(name) + "\n");
      Associative(begun, StartTag(name), Escape(text) + (EndTag(name) + "\n"));
      Associative(old(out), Spaces(2 * |stack|), StartTag(name) + (Escape(text) + (EndTag(name) + "\n")));
    }

    /** Optional elements are omitted rather than written empty. */
    method ElementIfSet(name: string, text: string)
      modifies this`out
      ensures Current() == if text == "" then old(Current()) else Step(old(Current()), Call.Element(name, text))
    {
      if text != "" {
        Element(name, text);
      }
    }

    method Open(name: string)
      modifies this`out, this`stack
      ensures Current() == Step(old(Current()), Call.Open(name))
    {
      Indent();
      out := out + "<" + name + ">\n";
      stack := stack + [name];
    }

    method Close()
      modifies this`out, this`stack
      ensures Current() == Step(old(Current()), Call.Close)
    {
      if |stack| <= 1 {
        return;
      }
      var name := stack[|stack| - 1];
      stack := stack[..|stack| - 1];
      Indent();
      out := out + "</" + name + ">\n";
    }

    method Finish() returns (document: string)
      modifies this
      ensures Current() == Finished(old(Current())) && document == out
    {
      if !finished {
        while |stack| > 1
          invariant !finished && CloseAll(Current()) == CloseAll(old(Current()))
          decreases |stack|
        {
          Close();
        }
        if stack != [] {
          out := out + "</" + stack[|stack| - 1] + ">\n";
          stack := [];
        }
        finished := true;
      }
      document := out;
    }
  }

  lemma NamespaceFlat(xmlns: string)
    ensures Namespace(xmlns) == if xmlns == "" then "" else " " + "xmlns" + "=" + "\"" + xmlns + "\""
  {
    Associative("\"", xmlns, "\"");
    Associative("=", "\"", xmlns + "\"");
    Associative("xmlns", "=", "\"" + (xmlns + "\""));
    Associative(" ", "xmlns", "=" + ("\"" + (xmlns + "\"")));
    Associative(" " + "xmlns", "=", "\"" + (xmlns + "\""));
    Associative(" " + "xmlns" + "=", "\"", xmlns + "\"");
    Associative(" " + "xmlns" + "=" + "\"", xmlns, "\"");
  }

  lemma HeadBuilt(root: string, xmlns: string)
    ensures DECLARED + ("?>" + ("\n" + ("<" + root))) + (Namespace(xmlns) + ">\n") == Head(root, xmlns)
  {
    hide Namespace;
    assert ">" + "\n" == ">\n";
    var tail := Namespace(xmlns) + ">\n";
    Associative("<", root, tail);
    Associative("\n", "<" + root, tail);
    Associative("?>", "\n" + ("<" + root), tail);
    Associative(DECLARED, "?>" + ("\n" + ("<" + root)), tail);
  }

  method XmlEscape(text: string) returns (escaped: string)
    ensures escaped == Escape(text)
  {
    escaped := "";
    for i := 0 to |text|
      invariant escaped + Escape(text[i..]) == Escape(text)
    {
      Associative(escaped, EscapeChar(text[i]), Escape(text[i..][1..]));
      assert text[i..][1..] == text[i + 1..];
      escaped := escaped + EscapeChar(text[i]);
    }
    assert escaped + "" == escaped;
  }
}
