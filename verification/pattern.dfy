/** Matching primitives the coordinates pattern is assembled from
    (cp2kdata/block_parser/coordinates.py:4-24), each a deterministic reading of
    one piece of the verbose regular expression:
    - a row is a line of fields, each a whitespace gap `\s+` followed by a
      captured column of one shape (`\d+`, `\w+` or `[\s-]\d+\.\d+`);
    - the column-title line is literal words separated by `\s+`;
    - the banner is literal text in which every `\s` is one whitespace slot. */
module Pattern {
  import opened Chars
  import opened Wrappers
  import FixedPoint

  datatype Shape = Integer | Identifier | Signed

  /** One `\s+` gap. */
  predicate ValidGap(g: string) {
    |g| >= 1 && AllIn(g, Space)
  }

  /** A captured column: the text of a `\d+` or `\w+` group, or a signed
      fixed-point token. */
  datatype Column = Run(text: string) | Number(f: FixedPoint.Fixed)

  function ColumnText(col: Column): string {
    match col
    case Run(t) => t
    case Number(f) => FixedPoint.Format(f)
  }

  /** Whether `col` is a capture the shape's sub-expression can produce. */
  predicate Fits(col: Column, shape: Shape) {
    match shape
    case Integer => col.Run? && |col.text| >= 1 && AllIn(col.text, Digit)
    case Identifier => col.Run? && |col.text| >= 1 && AllIn(col.text, Word)
    case Signed => col.Number? && col.f.Valid()
  }

  datatype Capture = Capture(gap: string, col: Column)

  /** Reads `\s+` followed by a column of class `k` (`\d+` or `\w+`). Since `k`
      holds no whitespace, both runs are maximal. */
  function ScanRun(s: string, k: Class): (r: Option<(Capture, string)>)
    requires k == Digit || k == Word
    ensures r.Some? ==> ValidGap(r.value.0.gap) && r.value.0.col.Run?
    ensures r.Some? ==> |r.value.0.col.text| >= 1 && AllIn(r.value.0.col.text, k)
    ensures r.Some? ==> r.value.0.gap + r.value.0.col.text + r.value.1 == s
  {
    var n := Span(s, Space);
    var m := Span(s[n..], k);
    if n == 0 || m == 0 then None
    else
      assert s[n..][..m] == s[n..n + m];
      assert s == s[..n] + s[n..n + m] + s[n + m..];
      Some((Capture(s[..n], Run(s[n..n + m])), s[n + m..]))
  }

  /** Reads `\s+[\s-]\d+\.\d+`. The gap is the maximal whitespace run, except
      that a run followed by a digit gives up its last character to the sign slot,
      so a number without `-` needs at least two whitespace characters before it. */
  function ScanSigned(s: string): (r: Option<(Capture, string)>)
    ensures r.Some? ==> ValidGap(r.value.0.gap) && Fits(r.value.0.col, Signed)
    ensures r.Some? ==> r.value.0.gap + ColumnText(r.value.0.col) + r.value.1 == s
  {
    var n := Span(s, Space);
    var p := SignSlot(s);
    if p < 1 then None
    else
      var sc := FixedPoint.Scan(s[p..]);
      if sc.None? then None
      else
        var f := sc.value.0;
        var rest := sc.value.1;
        AllInPrefix(s, n, p, Space);
        Rejoin(s, p, FixedPoint.Format(f), rest);
        Some((Capture(s[..p], Number(f)), rest))
  }

  /** A text cut at `p`, whose second part is `mid + rest`, is put back together
      from its three parts. */
  lemma Rejoin(s: string, p: nat, mid: string, rest: string)
    requires p <= |s| && mid + rest == s[p..]
    ensures s[..p] + mid + rest == s
  {
    assert s == s[..p] + s[p..];
  }

  /** Where the sign slot of `\s+[\s-]` falls: on a `-` ending the whitespace
      run, otherwise on the run's last character. */
  function SignSlot(s: string): (p: int)
    ensures p <= Span(s, Space)
  {
    var n := Span(s, Space);
    if n < |s| && s[n] == '-' then n else n - 1
  }

  function ScanField(s: string, shape: Shape): (r: Option<(Capture, string)>)
    ensures r.Some? ==> ValidGap(r.value.0.gap) && Fits(r.value.0.col, shape)
    ensures r.Some? ==> r.value.0.gap + ColumnText(r.value.0.col) + r.value.1 == s
  {
    match shape
    case Integer => ScanRun(s, Digit)
    case Identifier => ScanRun(s, Word)
    case Signed => ScanSigned(s)
  }

  /** A gap and a fitting column, followed by end of line or by whitespace, are
      read back exactly. */
  lemma ScanFieldComplete(g: string, col: Column, rest: string, shape: Shape)
    requires ValidGap(g) && Fits(col, shape)
    requires rest == [] || IsSpace(rest[0])
    ensures ScanField(g + ColumnText(col) + rest, shape) == Some((Capture(g, col), rest))
  {
    match shape
    case Integer =>
      ScanRunComplete(g, col.text, rest, Digit);
    case Identifier =>
      ScanRunComplete(g, col.text, rest, Word);
    case Signed =>
      ScanSignedComplete(g, col.f, rest);
  }

  lemma ScanSignedComplete(g: string, f: FixedPoint.Fixed, rest: string)
    requires ValidGap(g) && f.Valid()
    requires rest == [] || IsSpace(rest[0])
    ensures ScanSigned(g + FixedPoint.Format(f) + rest) == Some((Capture(g, Number(f)), rest))
  {
    SignSlotComplete(g, f, rest);
    SliceAround(g, FixedPoint.Format(f), rest);
    FixedPoint.ScanFormat(f, rest);
  }

  lemma SliceAround(a: string, b: string, c: string)
    ensures (a + b + c)[..|a|] == a && (a + b + c)[|a|..] == b + c
  {
  }

  lemma SignSlotComplete(g: string, f: FixedPoint.Fixed, rest: string)
    requires ValidGap(g) && f.Valid()
    ensures SignSlot(g + FixedPoint.Format(f) + rest) == |g|
  {
    var tail := f.whole + "." + f.frac + rest;
    var s := g + FixedPoint.Format(f) + rest;
    assert s == g + ([f.sign] + tail);
    assert tail[0] == f.whole[0];
    if f.sign == '-' {
      SpanOfConcat(g, [f.sign] + tail, Space);
      assert s[|g|] == '-';
    } else {
      assert s == (g + [f.sign]) + tail;
      SpanOfConcat(g + [f.sign], tail, Space);
      assert s[|g| + 1] == f.whole[0];
    }
  }

  lemma ScanRunComplete(g: string, c: string, rest: string, k: Class)
    requires k == Digit || k == Word
    requires ValidGap(g) && |c| >= 1 && AllIn(c, k)
    requires rest == [] || IsSpace(rest[0])
    ensures ScanRun(g + c + rest, k) == Some((Capture(g, Run(c)), rest))
  {
    var s := g + c + rest;
    assert s == g + (c + rest);
    SpanOfConcat(g, c + rest, Space);
    assert s[|g|..] == c + rest;
    SpanOfConcat(c, rest, k);
    assert s[..|g|] == g;
    assert s[|g|..|g| + |c|] == c;
    assert s[|g| + |c|..] == rest;
  }

  /** The text a sequence of captures was read from. */
  function Render(cs: seq<Capture>): string {
    if cs == [] then "" else cs[0].gap + ColumnText(cs[0].col) + Render(cs[1..])
  }

  /** Capture `i` is a `\s+` gap followed by a column of shape `shapes[i]`. */
  predicate FitsAt(cs: seq<Capture>, shapes: seq<Shape>, i: nat) {
    i < |cs| && i < |shapes| && ValidGap(cs[i].gap) && Fits(cs[i].col, shapes[i])
  }

  /** One capture per shape, each fitting its shape. */
  predicate FitAll(cs: seq<Capture>, shapes: seq<Shape>) {
    |cs| == |shapes| && forall i :: 0 <= i < |cs| ==> FitsAt(cs, shapes, i)
  }

  /** Reads a whole line as the given fields in order; nothing may be left over
      (in the regular expression the last column is followed by the line break). */
  function ScanLine(s: string, shapes: seq<Shape>): (r: Option<seq<Capture>>)
    ensures r.Some? ==> FitAll(r.value, shapes) && Render(r.value) == s
  {
    if shapes == [] then
      if s == [] then Some([]) else None
    else
      match ScanField(s, shapes[0])
      case None => None
      case Some((c, rest)) =>
        match ScanLine(rest, shapes[1..])
        case None => None
        case Some(tail) =>
          ConsFits(c, tail, shapes);
          Some([c] + tail)
  }

  /** Putting a fitting capture in front of captures that fit the remaining
      shapes: the result fits, and renders as the capture followed by the rest. */
  lemma ConsFits(c: Capture, tail: seq<Capture>, shapes: seq<Shape>)
    requires |shapes| >= 1 && ValidGap(c.gap) && Fits(c.col, shapes[0])
    requires FitAll(tail, shapes[1..])
    ensures FitAll([c] + tail, shapes)
    ensures Render([c] + tail) == c.gap + ColumnText(c.col) + Render(tail)
  {
    var cs := [c] + tail;
    assert cs[1..] == tail;
    forall i | 0 <= i < |cs|
      ensures FitsAt(cs, shapes, i)
    {
      if i > 0 {
        assert FitsAt(tail, shapes[1..], i - 1);
        assert cs[i] == tail[i - 1] && shapes[i] == shapes[1..][i - 1];
      }
    }
  }

  /** Every line rendered from fitting captures is read back as those captures:
      together with `ScanLine`'s contract, a line is read as `cs` exactly when it
      is the rendering of `cs` and each capture fits its column. */
  lemma {:induction false} ScanLineComplete(cs: seq<Capture>, shapes: seq<Shape>)
    requires FitAll(cs, shapes)
    ensures ScanLine(Render(cs), shapes) == Some(cs)
  {
    if cs != [] {
      FitAllTail(cs, shapes);
      ScanLineComplete(cs[1..], shapes[1..]);
      ScanLineStep(cs, shapes);
    }
  }

  lemma FitAllTail(cs: seq<Capture>, shapes: seq<Shape>)
    requires FitAll(cs, shapes) && cs != []
    ensures FitAll(cs[1..], shapes[1..])
  {
    forall i | 0 <= i < |cs| - 1
      ensures FitsAt(cs[1..], shapes[1..], i)
    {
      assert FitsAt(cs, shapes, i + 1);
      assert cs[1..][i] == cs[i + 1] && shapes[1..][i] == shapes[i + 1];
    }
  }

  /** The first capture is read, then the rest as the rest. */
  lemma ScanLineStep(cs: seq<Capture>, shapes: seq<Shape>)
    requires FitAll(cs, shapes) && cs != []
    requires FitAll(cs[1..], shapes[1..])
    requires ScanLine(Render(cs[1..]), shapes[1..]) == Some(cs[1..])
    ensures ScanLine(Render(cs), shapes) == Some(cs)
  {
    assert FitsAt(cs, shapes, 0);
    ScanLineCons(cs[0], cs[1..], shapes);
    assert [cs[0]] + cs[1..] == cs;
  }

  lemma ScanLineCons(c: Capture, tail: seq<Capture>, shapes: seq<Shape>)
    requires |shapes| >= 1 && ValidGap(c.gap) && Fits(c.col, shapes[0])
    requires FitAll(tail, shapes[1..])
    requires ScanLine(Render(tail), shapes[1..]) == Some(tail)
    ensures ScanLine(c.gap + ColumnText(c.col) + Render(tail), shapes) == Some([c] + tail)
  {
    RenderStartsWithGap(tail, shapes[1..]);
    ScanFieldComplete(c.gap, c.col, Render(tail), shapes[0]);
  }

  lemma RenderStartsWithGap(cs: seq<Capture>, shapes: seq<Shape>)
    requires FitAll(cs, shapes)
    ensures Render(cs) == [] || IsSpace(Render(cs)[0])
  {
    if cs != [] {
      assert FitsAt(cs, shapes, 0);
      assert Render(cs) == cs[0].gap + (ColumnText(cs[0].col) + Render(cs[1..]));
    }
  }

  /** Literal words, each after a `\s+` gap, then optional trailing whitespace:
      the shape of the column-title line. */
  predicate MatchWords(s: string, words: seq<string>) {
    if words == [] then AllIn(s, Space)
    else
      var n := Span(s, Space);
      n >= 1 && words[0] <= s[n..] && MatchWords(s[n + |words[0]|..], words[1..])
  }

  function RenderWords(gaps: seq<string>, words: seq<string>): string
    requires |gaps| == |words|
  {
    if words == [] then "" else gaps[0] + words[0] + RenderWords(gaps[1..], words[1..])
  }

  /** Words the matcher can find: non-empty and not starting with whitespace. */
  predicate Literal(w: string) {
    |w| >= 1 && !IsSpace(w[0])
  }

  /** Any choice of gaps and trailing whitespace around the words matches. */
  lemma {:induction false} MatchWordsComplete(gaps: seq<string>, words: seq<string>, trailing: string)
    requires |gaps| == |words|
    requires forall i :: 0 <= i < |gaps| ==> ValidGap(gaps[i]) && Literal(words[i])
    requires AllIn(trailing, Space)
    ensures MatchWords(RenderWords(gaps, words) + trailing, words)
  {
    if words == [] {
      assert RenderWords(gaps, words) + trailing == trailing;
    } else {
      var rest := RenderWords(gaps[1..], words[1..]) + trailing;
      assert RenderWords(gaps, words) + trailing == gaps[0] + words[0] + rest;
      WordStep(gaps[0], words[0], rest);
      MatchWordsComplete(gaps[1..], words[1..], trailing);
    }
  }

  /** A word found at `n` splits the text into what precedes it, the word and
      what follows it. */
  lemma CutAroundWord(s: string, n: nat, w: string)
    requires n <= |s| && w <= s[n..]
    ensures s == s[..n] + w + s[n + |w|..]
  {
    assert s[n..] == w + s[n + |w|..];
    assert s == s[..n] + s[n..];
  }

  /** One gap and one word are consumed exactly, leaving `rest`. */
  lemma WordStep(g: string, w: string, rest: string)
    requires ValidGap(g) && Literal(w)
    ensures var s := g + w + rest;
            && Span(s, Space) == |g|
            && w <= s[|g|..]
            && s[|g| + |w|..] == rest
  {
    var s := g + w + rest;
    assert s == g + (w + rest);
    assert (w + rest)[0] == w[0];
    SpanOfConcat(g, w + rest, Space);
    assert s[|g|..] == w + rest;
  }

  /** Literal text in which every space stands for one `\s` character. */
  predicate SlotsMatch(s: string, template: string) {
    |s| == |template| &&
    forall i :: 0 <= i < |s| ==> if template[i] == ' ' then IsSpace(s[i]) else s[i] == template[i]
  }

  /** A search for `template` followed by `\s*` and the line break: the template
      may start anywhere in the line but must end it, up to trailing whitespace. */
  predicate EndsWithTemplate(line: string, template: string) {
    exists i :: 0 <= i <= |line| - |template| && TemplateEndsAt(line, template, i)
  }

  predicate TemplateEndsAt(line: string, template: string, i: nat)
    requires i + |template| <= |line|
  {
    SlotsMatch(line[i..i + |template|], template) && AllIn(line[i + |template|..], Space)
  }
}
