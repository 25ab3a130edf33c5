/** The document as the extractor sees it: a sequence of complete lines.
    Every element of the coordinates pattern ends in a line break, so text after
    the last line break can never take part in a match; it is kept apart as the
    unterminated tail. */
module Lines {
  import opened Chars

  datatype Split = Split(lines: seq<string>, tail: string)

  predicate NoBreak(s: string) {
    AllIn(s, NotNewline)
  }

  /** Cuts `text` at every line break; the breaks themselves are dropped. */
  function SplitLines(text: string): (r: Split)
    ensures NoBreak(r.tail)
    ensures forall i :: 0 <= i < |r.lines| ==> NoBreak(r.lines[i])
    decreases |text|
  {
    var n := Span(text, NotNewline);
    if n == |text| then Split([], text)
    else
      var rest := SplitLines(text[n + 1..]);
      Split([text[..n]] + rest.lines, rest.tail)
  }

  /** Writes every line followed by a line break. */
  function JoinLines(lines: seq<string>): string {
    if lines == [] then "" else lines[0] + "\n" + JoinLines(lines[1..])
  }

  /** Splitting loses nothing: the lines and tail put back together are the text. */
  lemma {:induction false} JoinSplit(text: string)
    ensures JoinLines(SplitLines(text).lines) + SplitLines(text).tail == text
    decreases |text|
  {
    var n := Span(text, NotNewline);
    if n < |text| {
      var head, rest := text[..n], text[n + 1..];
      var r := SplitLines(rest);
      assert SplitLines(text).lines == [head] + r.lines && SplitLines(text).tail == r.tail;
      assert JoinLines([head] + r.lines) == head + "\n" + JoinLines(r.lines) by {
        assert ([head] + r.lines)[1..] == r.lines;
      }
      JoinSplit(rest);
      ConcatAssoc(head + "\n", JoinLines(r.lines), r.tail);
      CutAtBreak(text, n);
    }
  }

  lemma CutAtBreak(text: string, n: nat)
    requires n < |text| && text[n] == '\n'
    ensures text == text[..n] + "\n" + text[n + 1..]
  {
  }

  lemma ConcatAssoc(a: string, b: string, c: string)
    ensures (a + b) + c == a + (b + c)
  {
  }

  /** Lines without breaks, written out and split again, come back unchanged. */
  lemma {:induction false} SplitJoin(lines: seq<string>, tail: string)
    requires forall i :: 0 <= i < |lines| ==> NoBreak(lines[i])
    requires NoBreak(tail)
    ensures SplitLines(JoinLines(lines) + tail) == Split(lines, tail)
  {
    if lines == [] {
      assert JoinLines(lines) + tail == tail;
    } else {
      SplitJoin(lines[1..], tail);
      SplitJoinStep(lines, tail);
    }
  }

  lemma SplitJoinStep(lines: seq<string>, tail: string)
    requires lines != [] && NoBreak(lines[0])
    requires SplitLines(JoinLines(lines[1..]) + tail) == Split(lines[1..], tail)
    ensures SplitLines(JoinLines(lines) + tail) == Split(lines, tail)
  {
    var head := lines[0];
    var rest := JoinLines(lines[1..]) + tail;
    assert JoinLines(lines) == head + "\n" + JoinLines(lines[1..]);
    ConcatAssoc(head + "\n", JoinLines(lines[1..]), tail);
    SplitFirstLine(head, rest);
    assert [head] + lines[1..] == lines;
  }

  /** A line without breaks, then a break: the split starts with that line and
      goes on as the split of what follows. */
  lemma SplitFirstLine(head: string, rest: string)
    requires NoBreak(head)
    ensures SplitLines(head + "\n" + rest) ==
            Split([head] + SplitLines(rest).lines, SplitLines(rest).tail)
  {
    var text := head + "\n" + rest;
    ConcatAssoc(head, "\n", rest);
    SpanOfConcat(head, "\n" + rest, NotNewline);
    PrefixAndRest(head, "\n" + rest);
    assert text[..|head|] == head && text[|head| + 1..] == rest;
  }

  lemma PrefixAndRest(a: string, b: string)
    requires |b| >= 1
    ensures (a + b)[..|a|] == a && (a + b)[|a| + 1..] == b[1..]
  {
  }
}
