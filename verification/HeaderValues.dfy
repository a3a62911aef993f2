/** What of a header's value is signed: its words. */
module HeaderValues {
  import opened Text
  import opened SigV4

  predicate Blank(c: char) {
    c == ' ' || c == '\t'
  }

  /** How long the word is that a text starts with. */
  function WordLength(s: string): (n: nat)
    ensures n <= |s| && (n < |s| ==> Blank(s[n]))
    ensures forall i :: 0 <= i < n ==> !Blank(s[i])
  {
    if s == "" || Blank(s[0]) then 0 else 1 + WordLength(s[1..])
  }

  /** The runs without blanks in a text. */
  function Words(s: string): seq<string>
    decreases |s|
  {
    if s == "" then []
    else if Blank(s[0]) then Words(s[1..])
    else [s[..WordLength(s)]] + Words(s[WordLength(s)..])
  }

  function JoinWords(words: seq<string>): string {
    if words == [] then ""
    else if |words| == 1 then words[0]
    else words[0] + (" " + JoinWords(words[1..]))
  }

  lemma {:induction false} TrimsWord(s: string)
    ensures Trimall(s, true, false) == s[..WordLength(s)] + Trimall(s[WordLength(s)..], true, true)
  {
    if s != "" && !Blank(s[0]) {
      var n := WordLength(s);
      TrimsWord(s[1..]);
      assert s[1..][..n - 1] == s[1..n] && s[1..][n - 1..] == s[n..] && s[..n] == [s[0]] + s[1..n];
      Associative([s[0]], s[1..n], Trimall(s[n..], true, true));
    }
  }

  lemma {:induction false} TrimsWords(s: string, started: bool)
    ensures Trimall(s, started, started)
         == if Words(s) == [] then "" else (if started then " " else "") + JoinWords(Words(s))
    decreases |s|
  {
    hide WordLength;
    if s != "" {
      if Blank(s[0]) {
        TrimsWords(s[1..], started);
      } else {
        FirstWord(s);
        var n := WordLength(s);
        var word, rest := s[..n], s[n..];
        TrimsWords(rest, true);
        assert Words(s)[1..] == Words(rest);
        TrimsFirst(s, started);
        if Words(rest) == [] {
          assert word + "" == word;
        }
      }
    }
  }

  lemma FirstWord(s: string)
    requires s != "" && !Blank(s[0])
    ensures WordLength(s) > 0
  {
  }

  lemma TrimsFirst(s: string, started: bool)
    requires s != "" && !Blank(s[0])
    ensures Trimall(s, started, started)
         == (if started then " " else "") + (s[..WordLength(s)] + Trimall(s[WordLength(s)..], true, true))
  {
    TrimsWord(s);
    var tail := Trimall(s[1..], true, false);
    assert Trimall(s, true, false) == "" + [s[0]] + tail;
    Associative(if started then " " else "", [s[0]], tail);
    assert "" + [s[0]] + tail == [s[0]] + tail;
  }

  predicate Word(s: string) {
    s != "" && forall i :: 0 <= i < |s| ==> !Blank(s[i])
  }

  lemma {:induction false} AreWords(s: string)
    ensures forall w :: w in Words(s) ==> Word(w)
    decreases |s|
  {
    if s != "" {
      if Blank(s[0]) {
        AreWords(s[1..]);
      } else {
        AreWords(s[WordLength(s)..]);
      }
    }
  }

  lemma WordAhead(word: string, rest: string)
    requires Word(word) && (rest == "" || Blank(rest[0]))
    ensures Words(word + rest) == [word] + Words(rest)
  {
    var s := word + rest;
    var n := WordLength(s);
    assert n == |word| by {
      assert forall i :: 0 <= i < |word| ==> s[i] == word[i];
      assert |s| > |word| ==> s[|word|] == rest[0];
    }
    assert s[..n] == word && s[n..] == rest;
  }

  lemma BlankAhead(s: string)
    ensures Words(" " + s) == Words(s)
  {
    assert (" " + s)[1..] == s;
  }

  lemma {:induction false} WordsOfJoined(words: seq<string>)
    requires forall w :: w in words ==> Word(w)
    ensures Words(JoinWords(words)) == words
  {
    hide Word, Words;
    if words == [] {
      assert Words("") == [] by { NoWords(); }
    } else {
      assert words[0] in words;
      WordsOfJoined(words[1..]);
      var rest := if |words| == 1 then "" else " " + JoinWords(words[1..]);
      BlankAhead(JoinWords(words[1..]));
      WordAhead(words[0], rest);
      assert words[0] + "" == words[0];
      NoWords();
    }
  }

  lemma NoWords()
    ensures Words("") == []
  {
  }

  /** A value is signed as its words with one blank between, so two values are signed alike exactly when
      they have the same words. */
  lemma ValueIsItsWords(a: string, b: string)
    ensures CanonicalHeaderValue(a) == JoinWords(Words(a)) && Words(CanonicalHeaderValue(a)) == Words(a)
    ensures CanonicalHeaderValue(a) == CanonicalHeaderValue(b) <==> Words(a) == Words(b)
  {
    hide Words, Trimall;
    TrimsWords(a, false);
    TrimsWords(b, false);
    AreWords(a);
    AreWords(b);
    WordsOfJoined(Words(a));
    WordsOfJoined(Words(b));
    assert "" + JoinWords(Words(a)) == JoinWords(Words(a)) && "" + JoinWords(Words(b)) == JoinWords(Words(b));
  }

  /** Two paths are signed alike exactly when they are the same or both stand for the root. */
  lemma PathIsItself(a: string, b: string)
    ensures CanonicalUri(a) == CanonicalUri(b) <==> a == b || (a in {"", "/"} && b in {"", "/"})
  {
  }
}
