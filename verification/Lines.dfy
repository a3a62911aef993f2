/** Text as lines: what a newline separates reads back. */
module Lines {
  import opened Text

  predicate OneLine(s: string) {
    '\n' !in s
  }

  function Split(s: string): (rows: seq<string>)
    ensures rows != []
  {
    var at := IndexOf(s, '\n');
    if at == |s| then [s] else RowAhead(s[..at], Split(s[at + 1..]))
  }

  function RowAhead(row: string, rows: seq<string>): (r: seq<string>)
    ensures r != []
  {
    [row] + rows
  }

  lemma OneRow(s: string)
    requires OneLine(s)
    ensures Split(s) == [s]
  {
    IndexOfIs(s, '\n', |s|);
  }

  lemma SplitStep(s: string, at: nat)
    requires at == IndexOf(s, '\n')
    ensures Split(s) == if at == |s| then [s] else RowAhead(s[..at], Split(s[at + 1..]))
  {
    hide IndexOf, RowAhead;
  }

  /** A newline between two texts ends the last line of the one and begins the first of the other. */
  lemma {:induction false} SplitAt(a: string, b: string)
    ensures Split(a + ("\n" + b)) == Split(a) + Split(b)
    decreases |a|
  {
    hide IndexOf, Split;
    var at, tail := IndexOf(a, '\n'), "\n" + b;
    IndexOfBehind(a, '\n', tail);
    SplitStep(a, at);
    SplitStep(a + tail, at);
    if at < |a| {
      Inside(a, tail, at);
      Inside(a, tail, at + 1);
      SplitAt(a[at + 1..], b);
      Associative([a[..at]], Split(a[at + 1..]), Split(b));
    } else {
      Behind(a, '\n', b);
      assert a[..at] == a;
    }
  }

  /** One line in front of a text. */
  lemma FirstRow(row: string, rest: string)
    requires OneLine(row)
    ensures Split(row + ("\n" + rest)) == [row] + Split(rest)
  {
    OneRow(row);
    SplitAt(row, rest);
  }

  /** One line behind a text. */
  lemma LastRow(text: string, row: string)
    requires OneLine(row)
    ensures Split(text + ("\n" + row)) == Split(text) + [row]
  {
    OneRow(row);
    SplitAt(text, row);
  }

  function Join(rows: seq<string>): string
    requires rows != []
  {
    if |rows| == 1 then rows[0] else rows[0] + ("\n" + Join(rows[1..]))
  }

  /** Splitting loses nothing, so texts with the same lines are the same. */
  lemma {:induction false} JoinSplits(s: string)
    ensures Join(Split(s)) == s
    decreases |s|
  {
    var at := IndexOf(s, '\n');
    SplitStep(s, at);
    hide IndexOf, Split, Join;
    if at < |s| {
      JoinSplits(s[at + 1..]);
      JoinMore(s[..at], Split(s[at + 1..]));
      assert s == s[..at] + ([s[at]] + s[at + 1..]);
    } else {
      JoinOne(s);
    }
  }

  lemma JoinOne(row: string)
    ensures Join([row]) == row
  {
  }

  lemma JoinMore(row: string, rows: seq<string>)
    requires rows != []
    ensures Join([row] + rows) == row + ("\n" + Join(rows))
  {
    assert ([row] + rows)[1..] == rows;
  }
}
