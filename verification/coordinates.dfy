/** The initial-atomic-coordinates extractor
    (cp2kdata/block_parser/coordinates.py).

    The source applies one regular expression, `INIT_ATOMIC_COORDINATES_RE`, to
    the whole text with `finditer`. This model reads the same pattern line by
    line: an anchor of four lines (banner, empty line, column-title line, empty
    line) followed by one row per line, stopping at the first line that is not a
    row. In the source every `\s` may also match a line break, so the regex
    additionally accepts extra blank lines between rows or inside the anchor, a
    row spread over several lines, and a banner whose leading `\s` is the
    previous line's break; the line-based reading here does not accept those. */
module Coordinates {
  import opened Chars
  import opened Wrappers
  import opened Pattern
  import opened Lines
  import FixedPoint
  import Seqs
  import Finditer

  /** Banner, line 6 of the pattern; each space is one `\s` slot. */
  const Banner: string := " MODULE QUICKSTEP:  ATOMIC COORDINATES IN angstrom"

  /** Column titles, line 8 of the pattern. */
  const TitleWords: seq<string> := ["Atom", "Kind", "Element", "X", "Y", "Z", "Z(eff)", "Mass"]

  /** Row template, lines 11-19: atom, kind, element, atomic number, x, y, z and
      two trailing numbers (effective charge and mass). */
  const RowShapes: seq<Shape> :=
    [Integer, Integer, Identifier, Integer, Signed, Signed, Signed, Signed, Signed]

  predicate IsBanner(line: string) {
    EndsWithTemplate(line, Banner)
  }

  predicate IsTitle(line: string) {
    MatchWords(line, TitleWords)
  }

  /** The four anchor lines start at index `i`. */
  predicate AnchorAt(lines: seq<string>, i: nat) {
    && i + 4 <= |lines|
    && IsBanner(lines[i])
    && lines[i + 1] == ""
    && IsTitle(lines[i + 2])
    && lines[i + 3] == ""
  }

  /** The captured groups of one row: `atom`, `kind`, `element`, `x`, `y`, `z`. */
  datatype Row = Row(atom: string, kind: string, element: string,
                     x: FixedPoint.Fixed, y: FixedPoint.Fixed, z: FixedPoint.Fixed)
  {
    predicate Valid() {
      && |atom| >= 1 && AllIn(atom, Digit)
      && |kind| >= 1 && AllIn(kind, Digit)
      && |element| >= 1 && AllIn(element, Word)
      && x.Valid() && y.Valid() && z.Valid()
    }
  }

  /** What a row line holds besides its captures: the nine whitespace gaps, the
      atomic-number column and the two trailing numeric columns. */
  datatype Layout = Layout(gaps: seq<string>, atomicNumber: string,
                           zEff: FixedPoint.Fixed, mass: FixedPoint.Fixed)
  {
    predicate Valid() {
      && |gaps| == 9
      && (forall i :: 0 <= i < 9 ==> ValidGap(gaps[i]))
      && |atomicNumber| >= 1 && AllIn(atomicNumber, Digit)
      && zEff.Valid() && mass.Valid()
    }
  }

  function Columns(r: Row, l: Layout): seq<Capture>
    requires |l.gaps| == 9
  {
    [ Capture(l.gaps[0], Run(r.atom)), Capture(l.gaps[1], Run(r.kind)),
      Capture(l.gaps[2], Run(r.element)), Capture(l.gaps[3], Run(l.atomicNumber)),
      Capture(l.gaps[4], Number(r.x)), Capture(l.gaps[5], Number(r.y)),
      Capture(l.gaps[6], Number(r.z)), Capture(l.gaps[7], Number(l.zEff)),
      Capture(l.gaps[8], Number(l.mass)) ]
  }

  /** The text of a row line (without its line break). */
  function RenderRow(r: Row, l: Layout): string
    requires |l.gaps| == 9
  {
    Render(Columns(r, l))
  }

  /** Reads one line against the row template. */
  function ParseRow(line: string): (r: Option<Row>)
    ensures r.Some? ==> r.value.Valid()
  {
    match ScanLine(line, RowShapes)
    case None => None
    case Some(cs) => Some(RowOf(cs))
  }

  /** The captured groups among the nine columns of a row line. */
  function RowOf(cs: seq<Capture>): (r: Row)
    requires FitAll(cs, RowShapes)
    ensures r.Valid()
  {
    assert FitsAt(cs, RowShapes, 0) && FitsAt(cs, RowShapes, 1) && FitsAt(cs, RowShapes, 2);
    assert FitsAt(cs, RowShapes, 4) && FitsAt(cs, RowShapes, 5) && FitsAt(cs, RowShapes, 6);
    Row(cs[0].col.text, cs[1].col.text, cs[2].col.text, cs[4].col.f, cs[5].col.f, cs[6].col.f)
  }

  /** The uncaptured part of the nine columns of a row line. */
  function LayoutOfColumns(cs: seq<Capture>): Layout
    requires FitAll(cs, RowShapes)
  {
    assert FitsAt(cs, RowShapes, 3) && FitsAt(cs, RowShapes, 7) && FitsAt(cs, RowShapes, 8);
    Layout(seq(9, i requires 0 <= i < 9 => cs[i].gap), cs[3].col.text, cs[7].col.f, cs[8].col.f)
  }

  /** The uncaptured part of a line that reads as a row. */
  function LayoutOf(line: string): Layout
    requires ScanLine(line, RowShapes).Some?
  {
    LayoutOfColumns(ScanLine(line, RowShapes).value)
  }

  /** Every valid row, laid out with any valid gaps and uncaptured columns, is
      read back as itself. */
  lemma RowRoundTrip(r: Row, l: Layout)
    requires r.Valid() && l.Valid()
    ensures ParseRow(RenderRow(r, l)) == Some(r)
  {
    var cs := Columns(r, l);
    forall i | 0 <= i < 9
      ensures FitsAt(cs, RowShapes, i)
    {
    }
    ScanLineComplete(cs, RowShapes);
  }

  /** Every line read as a row is exactly the rendering of that row with the
      line's own layout: nothing outside the template is accepted. */
  lemma RowParseSound(line: string)
    requires ParseRow(line).Some?
    ensures LayoutOf(line).Valid()
    ensures RenderRow(ParseRow(line).value, LayoutOf(line)) == line
  {
    var cs := ScanLine(line, RowShapes).value;
    assert ParseRow(line).value == RowOf(cs) && LayoutOf(line) == LayoutOfColumns(cs);
    ColumnsRebuilt(cs);
  }

  /** Splitting nine fitting columns into a row and a layout loses nothing. */
  lemma ColumnsRebuilt(cs: seq<Capture>)
    requires FitAll(cs, RowShapes)
    ensures LayoutOfColumns(cs).Valid()
    ensures Columns(RowOf(cs), LayoutOfColumns(cs)) == cs
  {
    var r := RowOf(cs);
    var l := LayoutOfColumns(cs);
    assert FitsAt(cs, RowShapes, 0) && FitsAt(cs, RowShapes, 1) && FitsAt(cs, RowShapes, 2);
    assert FitsAt(cs, RowShapes, 3) && FitsAt(cs, RowShapes, 4) && FitsAt(cs, RowShapes, 5);
    assert FitsAt(cs, RowShapes, 6) && FitsAt(cs, RowShapes, 7) && FitsAt(cs, RowShapes, 8);
    assert forall i :: 0 <= i < 9 ==> l.gaps[i] == cs[i].gap;
    var cols := Columns(r, l);
    forall i | 0 <= i < 9
      ensures cols[i] == cs[i]
    {
    }
  }

  /** The rows that follow an anchor: the longest run of leading lines that read
      as rows (the repeated row group of the pattern,
      cp2kdata/block_parser/coordinates.py:10-21). */
  function RowRun(lines: seq<string>): (rows: seq<Row>)
    ensures Seqs.IsRun(ParseRow, lines, rows)
  {
    if |lines| == 0 then
      Seqs.EmptyRun(ParseRow, lines);
      []
    else
      match ParseRow(lines[0])
      case None =>
        Seqs.EmptyRun(ParseRow, lines);
        []
      case Some(r) =>
        var tail := RowRun(lines[1..]);
        Seqs.ConsRun(ParseRow, lines, r, tail);
        [r] + tail
  }

  predicate AllValid(rows: seq<Row>) {
    forall k :: 0 <= k < |rows| ==> rows[k].Valid()
  }

  lemma RowRunValid(lines: seq<string>)
    ensures AllValid(RowRun(lines))
  {
    var rows := RowRun(lines);
    forall k | 0 <= k < |rows|
      ensures rows[k].Valid()
    {
      Seqs.RunAt(ParseRow, lines, rows, k);
    }
  }

  /** One `finditer` match: the index of its banner line and its rows. */
  datatype Match = Match(start: nat, rows: seq<Row>) {
    /** Index just past the match's last row. */
    function End(): nat {
      start + 4 + |rows|
    }
  }

  /** A match can begin at `i`: the anchor is there and at least one row follows. */
  predicate MatchableAt(lines: seq<string>, i: nat) {
    i + 4 < |lines| && AnchorAt(lines, i) && ParseRow(lines[i + 4]).Some?
  }

  predicate IsMatch(lines: seq<string>, m: Match) {
    && MatchableAt(lines, m.start)
    && m.End() <= |lines|
    && m.rows == RowRun(lines[m.start + 4..])
    && |m.rows| >= 1
    && AllValid(m.rows)
  }

  /** What a search over the lines finds at `i`: the anchor there and the rows
      after it. */
  function FoundAt(lines: seq<string>): nat -> Match {
    (i: nat) => if i + 4 <= |lines| then Match(i, RowRun(lines[i + 4..])) else Match(i, [])
  }

  function HitAt(lines: seq<string>): nat -> bool {
    (i: nat) => MatchableAt(lines, i)
  }

  function StartOf(m: Match): nat {
    m.start
  }

  function EndOf(m: Match): nat {
    m.End()
  }

  /** A match found at a matchable line is a match, and ends within the lines. */
  lemma LinesSpans(lines: seq<string>)
    ensures Finditer.Spans(|lines|, HitAt(lines), FoundAt(lines), StartOf, EndOf)
  {
    forall i | 0 <= i < |lines| && HitAt(lines)(i)
      ensures StartOf(FoundAt(lines)(i)) == i < EndOf(FoundAt(lines)(i)) <= |lines|
    {
      SpanAt(lines, i);
    }
  }

  lemma SpanAt(lines: seq<string>, i: nat)
    requires HitAt(lines)(i)
    ensures StartOf(FoundAt(lines)(i)) == i < EndOf(FoundAt(lines)(i)) <= |lines|
  {
    HitAtIs(lines, i);
    FoundAtIs(lines, i);
    AnchorRowsEnd(lines, i);
    var m := Match(i, RowRun(lines[i + 4..]));
    assert FoundAt(lines)(i) == m;
    assert StartOf(m) == i && EndOf(m) == i + 4 + |m.rows|;
  }

  /** The generic search run over the lines. */
  function Found(lines: seq<string>, from: nat): seq<Match>
    requires from <= |lines|
  {
    LinesSpans(lines);
    Finditer.Search(|lines|, HitAt(lines), FoundAt(lines), StartOf, EndOf, from)
  }

  predicate MatchFrom(lines: seq<string>, from: nat, m: Match) {
    IsMatch(lines, m) && from <= m.start
  }

  lemma FoundSound(lines: seq<string>, from: nat)
    requires from <= |lines|
    ensures forall j :: 0 <= j < |Found(lines, from)| ==> MatchFrom(lines, from, Found(lines, from)[j])
    ensures Seqs.Ordered(StartOf, EndOf, Found(lines, from))
  {
    var ms := Found(lines, from);
    LinesSpans(lines);
    Finditer.SearchSound(|lines|, HitAt(lines), FoundAt(lines), StartOf, EndOf, from);
    forall j | 0 <= j < |ms|
      ensures MatchFrom(lines, from, ms[j])
    {
      ReportedIsMatch(lines, from, ms[j]);
    }
  }

  lemma ReportedIsMatch(lines: seq<string>, from: nat, m: Match)
    requires Finditer.Reported(|lines|, HitAt(lines), FoundAt(lines), StartOf, from, m)
    ensures MatchFrom(lines, from, m)
  {
    var p := m.start;
    assert HitAt(lines)(p) && m == FoundAt(lines)(p);
    HitAtIs(lines, p);
    FoundAtIs(lines, p);
    MatchAtMatchable(lines, p);
    assert IsMatch(lines, m);
  }

  lemma HitAtIs(lines: seq<string>, i: nat)
    ensures HitAt(lines)(i) == MatchableAt(lines, i)
  {
  }

  lemma FoundAtIs(lines: seq<string>, i: nat)
    requires i + 4 <= |lines|
    ensures FoundAt(lines)(i) == Match(i, RowRun(lines[i + 4..]))
  {
  }

  /** `finditer` from line `from` on: the next matchable line starts a match,
      which consumes its anchor and rows; the search resumes after them. Each
      match holds at least one valid row; `MatchOf` says that it is a match of
      the lines. */
  function MatchesFrom(lines: seq<string>, from: nat): (ms: seq<Match>)
    requires from <= |lines|
    ensures forall j :: 0 <= j < |ms| ==> from <= ms[j].start && |ms[j].rows| >= 1 && ms[j].End() <= |lines|
    ensures AllMatchesValid(ms)
    ensures Seqs.Ordered(StartOf, EndOf, ms)
  {
    FoundSound(lines, from);
    Found(lines, from)
  }

  /** Every reported match is a match of the lines. */
  lemma MatchOf(lines: seq<string>, from: nat, j: nat)
    requires from <= |lines| && j < |MatchesFrom(lines, from)|
    ensures IsMatch(lines, MatchesFrom(lines, from)[j])
  {
    FoundSound(lines, from);
    assert MatchFrom(lines, from, Found(lines, from)[j]);
  }

  /** At a matchable line, the anchor and its row run form a match. */
  lemma MatchAtMatchable(lines: seq<string>, i: nat)
    requires MatchableAt(lines, i)
    ensures IsMatch(lines, Match(i, RowRun(lines[i + 4..])))
  {
    AnchorRowsEnd(lines, i);
    RowRunValid(lines[i + 4..]);
  }

  /** A matchable line's anchor is followed by at least one row, all within
      the lines. */
  lemma AnchorRowsEnd(lines: seq<string>, i: nat)
    requires MatchableAt(lines, i)
    ensures AnchorAt(lines, i)
    ensures var n := |RowRun(lines[i + 4..])|; 1 <= n && i + 4 + n <= |lines|
  {
    var after := lines[i + 4..];
    assert after[0] == lines[i + 4];
  }

  function Matches(lines: seq<string>): seq<Match> {
    MatchesFrom(lines, 0)
  }

  /** A search starting on a matchable line reports the match there first and
      resumes after it. */
  lemma MatchesFromAtMatchable(lines: seq<string>, i: nat)
    requires MatchableAt(lines, i)
    ensures var m := Match(i, RowRun(lines[i + 4..]));
            m.End() <= |lines| && MatchesFrom(lines, i) == [m] + MatchesFrom(lines, m.End())
  {
    LinesSpans(lines);
    HitAtIs(lines, i);
    FoundAtIs(lines, i);
    MatchAtMatchable(lines, i);
  }

  /** No match is reported exactly when no line is matchable. */
  lemma MatchesFromEmptyIff(lines: seq<string>, from: nat)
    requires from <= |lines|
    ensures MatchesFrom(lines, from) == [] <==>
            forall i :: from <= i < |lines| ==> !MatchableAt(lines, i)
  {
    LinesSpans(lines);
    Finditer.SearchEmptyIff(|lines|, HitAt(lines), FoundAt(lines), StartOf, EndOf, from);
    assert forall i :: from <= i < |lines| ==> HitAt(lines)(i) == MatchableAt(lines, i);
  }

  /** One coordinate triple: the `x`, `y`, `z` captures of a row. */
  datatype Coord = Coord(x: FixedPoint.Fixed, y: FixedPoint.Fixed, z: FixedPoint.Fixed)

  /** The extractor's triple: coordinates, kind numbers, element symbols. */
  datatype Extracted = Extracted(coords: seq<Coord>, kinds: seq<nat>, elements: seq<string>)

  function CoordOf(r: Row): Coord {
    Coord(r.x, r.y, r.z)
  }

  function CoordsOf(rows: seq<Row>): (cs: seq<Coord>)
    ensures |cs| == |rows|
  {
    seq(|rows|, k requires 0 <= k < |rows| => CoordOf(rows[k]))
  }

  /** The kind numbers of a match: each `kind` capture read as an integer. */
  function KindsOf(rows: seq<Row>): (ks: seq<nat>)
    requires AllValid(rows)
    ensures |ks| == |rows|
  {
    seq(|rows|, k requires 0 <= k < |rows| && AllValid(rows) => DigitsValue(rows[k].kind))
  }

  /** The element symbols of a match: its `element` captures, in order. */
  function ElementsOf(rows: seq<Row>): (es: seq<string>)
    ensures |es| == |rows|
  {
    seq(|rows|, k requires 0 <= k < |rows| => rows[k].element)
  }

  predicate AllMatchesValid(ms: seq<Match>) {
    forall j :: 0 <= j < |ms| ==> AllValid(ms[j].rows)
  }

  /** The body of the source's loop for one match: coordinates are appended,
      kinds and elements are replaced. */
  function Accumulate(acc: Extracted, m: Match): Extracted
    requires AllValid(m.rows)
  {
    Extracted(acc.coords + CoordsOf(m.rows), KindsOf(m.rows), ElementsOf(m.rows))
  }

  /** One step of the loop keeps the coordinates gathered so far and appends
      one per row of the match; the kinds and elements become the match's own,
      one per row. */
  lemma AccumulateSpec(acc: Extracted, m: Match)
    requires AllValid(m.rows)
    ensures var r := Accumulate(acc, m);
            && |r.coords| == |acc.coords| + |m.rows| && r.coords[..|acc.coords|] == acc.coords
            && |r.kinds| == |r.elements| == |m.rows|
            && forall k :: 0 <= k < |m.rows| ==>
                 && r.coords[|acc.coords| + k] == CoordOf(m.rows[k])
                 && r.kinds[k] == DigitsValue(m.rows[k].kind)
                 && r.elements[k] == m.rows[k].element
  {
  }

  /** The loop over all matches, in document order. */
  function Fold(acc: Extracted, ms: seq<Match>): Extracted
    requires AllMatchesValid(ms)
    decreases |ms|
  {
    if ms == [] then acc else Fold(Accumulate(acc, ms[0]), ms[1..])
  }

  /** `parse_init_atomic_coordinates` on the complete lines of a document. */
  function ExtractLines(lines: seq<string>): (r: Option<Extracted>)
    ensures r.Some? ==> |r.value.coords| >= 1 && |r.value.kinds| == |r.value.elements| >= 1
  {
    var ms := Matches(lines);
    var acc := Fold(Extracted([], [], []), ms);
    FoldSpec(Extracted([], [], []), ms);
    if acc.coords == [] then None else Some(acc)
  }

  /** `parse_init_atomic_coordinates(output_file)`: `None` exactly when no
      complete line of the text starts an anchor followed by a row. */
  function ParseInitAtomicCoordinates(text: string): (r: Option<Extracted>)
    ensures r.None? <==> NoMatchable(SplitLines(text).lines)
  {
    ExtractAbsentIff(SplitLines(text).lines);
    ExtractLines(SplitLines(text).lines)
  }

  /** Reference reading of the result: every match's coordinates, in order. */
  function AllCoords(ms: seq<Match>): seq<Coord> {
    if ms == [] then [] else CoordsOf(ms[0].rows) + AllCoords(ms[1..])
  }

  function TotalRows(ms: seq<Match>): nat {
    if ms == [] then 0 else |ms[0].rows| + TotalRows(ms[1..])
  }

  /** Rows of the matches before match `j`: where match `j`'s coordinates begin. */
  function Offset(ms: seq<Match>, j: nat): nat
    requires j <= |ms|
  {
    TotalRows(ms[..j])
  }

  lemma {:induction false} AllCoordsLength(ms: seq<Match>)
    ensures |AllCoords(ms)| == TotalRows(ms)
  {
    if ms != [] {
      AllCoordsLength(ms[1..]);
    }
  }

  /** The loop appends every match's coordinates and keeps the last match's
      kinds and elements. */
  lemma {:induction false} FoldSpec(acc: Extracted, ms: seq<Match>)
    requires AllMatchesValid(ms)
    ensures Fold(acc, ms).coords == acc.coords + AllCoords(ms)
    ensures ms == [] ==> Fold(acc, ms) == acc
    ensures ms != [] ==> Fold(acc, ms).kinds == KindsOf(ms[|ms| - 1].rows)
    ensures ms != [] ==> Fold(acc, ms).elements == ElementsOf(ms[|ms| - 1].rows)
    decreases |ms|
  {
    if ms != [] {
      FoldSpec(Accumulate(acc, ms[0]), ms[1..]);
      assert acc.coords + CoordsOf(ms[0].rows) + AllCoords(ms[1..]) ==
             acc.coords + (CoordsOf(ms[0].rows) + AllCoords(ms[1..]));
    }
  }

  /** The extractor returns `None` exactly when there is no match; otherwise it
      returns every match's coordinates in document order, and the kinds and
      elements of the last match only. */
  lemma ExtractSpec(lines: seq<string>)
    ensures var ms := Matches(lines);
            && (ExtractLines(lines).None? <==> ms == [])
            && (ms != [] ==> ExtractLines(lines) == Some(Extracted(
                  AllCoords(ms), KindsOf(ms[|ms| - 1].rows), ElementsOf(ms[|ms| - 1].rows))))
  {
    var ms := Matches(lines);
    FoldSpec(Extracted([], [], []), ms);
    AllCoordsLength(ms);
    if ms != [] {
      TotalRowsPositive(ms);
      assert [] + AllCoords(ms) == AllCoords(ms);
    }
  }

  lemma ExtractCoords(lines: seq<string>)
    requires Matches(lines) != []
    ensures ExtractLines(lines).Some? && ExtractLines(lines).value.coords == AllCoords(Matches(lines))
  {
    ExtractSpec(lines);
  }

  lemma {:induction false} TotalRowsPositive(ms: seq<Match>)
    requires forall j :: 0 <= j < |ms| ==> |ms[j].rows| >= 1
    ensures TotalRows(ms) >= |ms|
  {
    if ms != [] {
      TotalRowsPositive(ms[1..]);
    }
  }

  /** No line starts an anchor followed by a row. */
  predicate NoMatchable(lines: seq<string>) {
    forall i :: 0 <= i < |lines| ==> !MatchableAt(lines, i)
  }

  /** `None` is returned exactly when no line of the document starts an anchor
      followed by at least one row. */
  lemma ExtractAbsentIff(lines: seq<string>)
    ensures ExtractLines(lines).None? <==> NoMatchable(lines)
  {
    ExtractSpec(lines);
    MatchesFromEmptyIff(lines, 0);
  }

  /** With one block, the three outputs have that block's row count and agree
      index by index: entry `k` of each comes from the `k`-th row line after
      the anchor. */
  lemma SingleBlockAligned(lines: seq<string>)
    requires |Matches(lines)| == 1
    ensures ExtractLines(lines).Some?
    ensures var m := Matches(lines)[0];
            var r := ExtractLines(lines).value;
            && |r.coords| == |r.kinds| == |r.elements| == |m.rows|
            && forall k :: 0 <= k < |m.rows| ==>
                 && ParseRow(lines[m.start + 4 + k]) == Some(m.rows[k])
                 && r.coords[k] == CoordOf(m.rows[k])
                 && r.kinds[k] == DigitsValue(m.rows[k].kind)
                 && r.elements[k] == m.rows[k].element
  {
    var ms := Matches(lines);
    var m := ms[0];
    ExtractSpec(lines);
    assert AllCoords(ms) == CoordsOf(m.rows) + AllCoords([]);
    var r := ExtractLines(lines).value;
    assert r == Extracted(CoordsOf(m.rows), KindsOf(m.rows), ElementsOf(m.rows));
    var _ := MatchRows(lines, 0);
    AlignedRows(lines, m, r);
  }

  /** The triple built from one match's rows lines up with the rows' lines. */
  lemma AlignedRows(lines: seq<string>, m: Match, r: Extracted)
    requires m.start + 4 <= |lines| && m.rows == RowRun(lines[m.start + 4..]) && AllValid(m.rows)
    requires r == Extracted(CoordsOf(m.rows), KindsOf(m.rows), ElementsOf(m.rows))
    ensures |r.coords| == |r.kinds| == |r.elements| == |m.rows|
    ensures forall k :: 0 <= k < |m.rows| ==>
              && ParseRow(lines[m.start + 4 + k]) == Some(m.rows[k])
              && r.coords[k] == CoordOf(m.rows[k])
              && r.kinds[k] == DigitsValue(m.rows[k].kind)
              && r.elements[k] == m.rows[k].element
  {
    forall k | 0 <= k < |m.rows|
      ensures ParseRow(lines[m.start + 4 + k]) == Some(m.rows[k])
    {
      RowOfMatch(lines, m, k);
    }
  }

  /** With two or more blocks, the coordinates are all blocks' rows while kinds
      and elements are the last block's, so the coordinates are strictly more. */
  lemma MultiBlockLengths(lines: seq<string>)
    requires |Matches(lines)| >= 2
    ensures ExtractLines(lines).Some?
    ensures var ms := Matches(lines);
            var r := ExtractLines(lines).value;
            && |r.coords| == TotalRows(ms)
            && |r.kinds| == |r.elements| == |ms[|ms| - 1].rows|
            && |r.coords| > |r.kinds|
  {
    var ms := Matches(lines);
    ExtractSpec(lines);
    AllCoordsLength(ms);
    var last := |ms| - 1;
    TotalRowsSplit(ms, last);
    TotalRowsPositive(ms[..last]);
  }

  lemma {:induction false} TotalRowsSplit(ms: seq<Match>, j: nat)
    requires j < |ms|
    ensures TotalRows(ms) == TotalRows(ms[..j]) + |ms[j].rows| + TotalRows(ms[j + 1..])
  {
    if j > 0 {
      TotalRowsSplit(ms[1..], j - 1);
      assert ms[1..][..j - 1] == ms[..j][1..];
      assert ms[1..][j - 1] == ms[j];
      assert ms[1..][j..] == ms[j + 1..];
    } else {
      assert ms[1..] == ms[j + 1..];
    }
  }

  /** Row `k` of match `j` is coordinate `Offset(ms, j) + k` of the result, and
      it was read from line `start + 4 + k`: coordinates keep document order. */
  lemma {:induction false} AllCoordsAt(ms: seq<Match>, j: nat, k: nat)
    requires j < |ms| && k < |ms[j].rows|
    ensures Offset(ms, j) + k < |AllCoords(ms)|
    ensures AllCoords(ms)[Offset(ms, j) + k] == CoordOf(ms[j].rows[k])
  {
    AllCoordsLength(ms);
    TotalRowsSplit(ms, j);
    if j > 0 {
      AllCoordsAt(ms[1..], j - 1, k);
      assert ms[1..][..j - 1] == ms[..j][1..];
    } else {
      assert ms[..0] == [];
    }
  }

  lemma CoordinateOrigin(lines: seq<string>, j: nat, k: nat) returns (r: Extracted, m: Match)
    requires j < |Matches(lines)| && k < |Matches(lines)[j].rows|
    ensures ExtractLines(lines) == Some(r) && m == Matches(lines)[j]
    ensures Offset(Matches(lines), j) + k < |r.coords| && r.coords[Offset(Matches(lines), j) + k] == CoordOf(m.rows[k])
    ensures m.start + 4 + k < |lines| && ParseRow(lines[m.start + 4 + k]) == Some(m.rows[k])
  {
    r := CoordAt(lines, j, k);
    m := MatchRowAt(lines, j, k);
  }

  lemma CoordAt(lines: seq<string>, j: nat, k: nat) returns (r: Extracted)
    requires j < |Matches(lines)| && k < |Matches(lines)[j].rows|
    ensures ExtractLines(lines) == Some(r)
    ensures Offset(Matches(lines), j) + k < |r.coords|
    ensures r.coords[Offset(Matches(lines), j) + k] == CoordOf(Matches(lines)[j].rows[k])
  {
    ExtractCoords(lines);
    r := ExtractLines(lines).value;
    AllCoordsAt(Matches(lines), j, k);
  }

  lemma MatchRowAt(lines: seq<string>, j: nat, k: nat) returns (m: Match)
    requires j < |Matches(lines)| && k < |Matches(lines)[j].rows|
    ensures m == Matches(lines)[j]
    ensures m.start + 4 + k < |lines| && ParseRow(lines[m.start + 4 + k]) == Some(m.rows[k])
  {
    m := MatchRows(lines, j);
    RowOfMatch(lines, m, k);
  }

  /** Match `j` holds the row run after its anchor. */
  lemma MatchRows(lines: seq<string>, j: nat) returns (m: Match)
    requires j < |Matches(lines)|
    ensures m == Matches(lines)[j]
    ensures m.start + 4 <= |lines| && m.rows == RowRun(lines[m.start + 4..])
  {
    m := Matches(lines)[j];
    MatchOf(lines, 0, j);
  }

  /** A row run is determined by its rows: if the leading lines read as `rows`
      and the next line (if any) does not read as a row, the run is `rows`. */
  lemma RowRunIs(lines: seq<string>, rows: seq<Row>)
    requires |rows| <= |lines|
    requires forall k :: 0 <= k < |rows| ==> ParseRow(lines[k]) == Some(rows[k])
    requires |rows| < |lines| ==> ParseRow(lines[|rows|]).None?
    ensures RowRun(lines) == rows
  {
    forall k | 0 <= k < |rows|
      ensures Seqs.ReadAt(ParseRow, lines, rows, k)
    {
    }
    Seqs.RunUnique(ParseRow, lines, RowRun(lines), rows);
  }

  /** The column-title line as the engine prints it, one space before each title. */
  function TitleLine(): string {
    RenderWords(seq(|TitleWords|, _ => " "), TitleWords)
  }

  function AnchorLines(): seq<string> {
    [Banner, "", TitleLine(), ""]
  }

  function RenderRows(rows: seq<Row>, layouts: seq<Layout>): (ls: seq<string>)
    requires |rows| == |layouts|
    requires forall k :: 0 <= k < |layouts| ==> layouts[k].Valid()
    ensures |ls| == |rows|
  {
    if rows == [] then []
    else
      assert layouts[0].Valid();
      [RenderRow(rows[0], layouts[0])] + RenderRows(rows[1..], layouts[1..])
  }

  lemma RenderRowsAt(rows: seq<Row>, layouts: seq<Layout>, k: nat)
    requires |rows| == |layouts|
    requires forall k :: 0 <= k < |layouts| ==> layouts[k].Valid()
    requires k < |rows|
    ensures RenderRows(rows, layouts)[k] == RenderRow(rows[k], layouts[k])
  {
    if k > 0 {
      RenderRowsAt(rows[1..], layouts[1..], k - 1);
    }
  }

  lemma AnchorLinesAreAnchor(lines: seq<string>)
    requires |lines| >= 4 && lines[..4] == AnchorLines()
    ensures AnchorAt(lines, 0)
  {
    assert lines[0] == Banner && lines[1] == "" && lines[2] == TitleLine() && lines[3] == "" by {
      assert lines[..4][0] == lines[0] && lines[..4][2] == lines[2];
    }
    BannerIsBanner();
    TitleLineIsTitle();
  }

  /** A banner line is any text, then the banner with each of its spaces
      replaced by a whitespace character, then trailing whitespace. */
  lemma BannerComplete(pre: string, b: string, trailing: string)
    requires SlotsMatch(b, Banner) && AllIn(trailing, Space)
    ensures IsBanner(pre + b + trailing)
  {
    var line := pre + b + trailing;
    assert line[|pre|..|pre| + |Banner|] == b;
    assert line[|pre| + |Banner|..] == trailing;
    assert TemplateEndsAt(line, Banner, |pre|);
  }

  /** Conversely, every banner line splits that way. */
  lemma BannerParts(line: string) returns (pre: string, b: string, trailing: string)
    requires IsBanner(line)
    ensures line == pre + b + trailing
    ensures SlotsMatch(b, Banner) && AllIn(trailing, Space)
  {
    var i :| 0 <= i <= |line| - |Banner| && TemplateEndsAt(line, Banner, i);
    pre, b, trailing := line[..i], line[i..i + |Banner|], line[i + |Banner|..];
    assert line == line[..i] + line[i..i + |Banner|] + line[i + |Banner|..];
  }

  /** Any banner line, an empty line, a title line with any non-empty gaps and
      trailing whitespace, and an empty line form an anchor, whatever follows. */
  lemma AnchorComplete(pre: string, b: string, trailing: string,
                       gaps: seq<string>, titleTrailing: string, rest: seq<string>)
    requires SlotsMatch(b, Banner) && AllIn(trailing, Space)
    requires |gaps| == |TitleWords| && forall i :: 0 <= i < |gaps| ==> ValidGap(gaps[i])
    requires AllIn(titleTrailing, Space)
    ensures AnchorAt([pre + b + trailing, "", RenderWords(gaps, TitleWords) + titleTrailing, ""] + rest, 0)
  {
    BannerComplete(pre, b, trailing);
    TitleComplete(gaps, titleTrailing);
    AnchorOfLines(pre + b + trailing, RenderWords(gaps, TitleWords) + titleTrailing, rest);
  }

  lemma TitleComplete(gaps: seq<string>, trailing: string)
    requires |gaps| == |TitleWords| && forall i :: 0 <= i < |gaps| ==> ValidGap(gaps[i])
    requires AllIn(trailing, Space)
    ensures IsTitle(RenderWords(gaps, TitleWords) + trailing)
  {
    assert forall i :: 0 <= i < |TitleWords| ==> Literal(TitleWords[i]);
    MatchWordsComplete(gaps, TitleWords, trailing);
  }

  lemma AnchorOfLines(banner: string, title: string, rest: seq<string>)
    requires IsBanner(banner) && IsTitle(title)
    ensures AnchorAt([banner, "", title, ""] + rest, 0)
  {
    var lines := [banner, "", title, ""] + rest;
    assert lines[0] == banner && lines[1] == "" && lines[2] == title && lines[3] == "";
  }

  lemma BannerIsBanner()
    ensures IsBanner(Banner)
  {
    assert TemplateEndsAt(Banner, Banner, 0) by {
      assert Banner[0..|Banner|] == Banner;
    }
  }

  lemma TitleLineIsTitle()
    ensures IsTitle(TitleLine())
  {
    var gaps := seq(|TitleWords|, _ => " ");
    assert forall i :: 0 <= i < |gaps| ==> ValidGap(gaps[i]);
    assert forall i :: 0 <= i < |TitleWords| ==> Literal(TitleWords[i]);
    MatchWordsComplete(gaps, TitleWords, "");
    assert TitleLine() + "" == TitleLine();
  }

  /** A constructive instance of `SingleBlockAligned`: a document built from
      the anchor, a block of well-formed rows and at most one further line that
      is not a row yields exactly those rows: `N` rows in gives `N` coordinates,
      kinds and elements out, in row order. */
  lemma SingleBlockDocument(rows: seq<Row>, layouts: seq<Layout>, stop: seq<string>)
    requires |rows| >= 1 && |rows| == |layouts|
    requires forall k :: 0 <= k < |rows| ==> rows[k].Valid() && layouts[k].Valid()
    requires |stop| <= 1 && (stop != [] ==> ParseRow(stop[0]).None?)
    ensures AllValid(rows)
    ensures ExtractLines(AnchorLines() + RenderRows(rows, layouts) + stop) ==
            Some(Extracted(CoordsOf(rows), KindsOf(rows), ElementsOf(rows)))
  {
    var body := RenderRows(rows, layouts);
    var lines := AnchorLines() + body + stop;
    SplitAfterAnchor(AnchorLines(), body, stop);
    AnchorLinesAreAnchor(lines);
    RenderedRowsParse(rows, layouts, stop);
    SingleBlockExtract(lines, rows);
  }

  lemma SplitAfterAnchor(anchor: seq<string>, body: seq<string>, stop: seq<string>)
    requires |anchor| == 4
    ensures (anchor + body + stop)[..4] == anchor
    ensures (anchor + body + stop)[4..] == body + stop
  {
  }

  lemma RenderedRowsParse(rows: seq<Row>, layouts: seq<Layout>, stop: seq<string>)
    requires |rows| == |layouts|
    requires forall k :: 0 <= k < |rows| ==> rows[k].Valid() && layouts[k].Valid()
    requires |stop| <= 1 && (stop != [] ==> ParseRow(stop[0]).None?)
    ensures var after := RenderRows(rows, layouts) + stop;
            && (forall k :: 0 <= k < |rows| ==> ParseRow(after[k]) == Some(rows[k]))
            && (|after| == |rows| + 1 ==> ParseRow(after[|rows|]).None?)
  {
    var body := RenderRows(rows, layouts);
    var after := body + stop;
    forall k | 0 <= k < |rows|
      ensures ParseRow(after[k]) == Some(rows[k])
    {
      RenderRowsAt(rows, layouts, k);
      assert after[k] == body[k];
      RowRoundTrip(rows[k], layouts[k]);
    }
    assert |rows| < |after| ==> after[|rows|] == stop[0];
  }

  /** An anchor on the first line, then exactly the rows `rows` up to the end
      or to one closing non-row line: the result is those rows. */
  lemma SingleBlockExtract(lines: seq<string>, rows: seq<Row>)
    requires AnchorAt(lines, 0) && |rows| >= 1
    requires 4 + |rows| <= |lines| <= 5 + |rows|
    requires forall k :: 0 <= k < |rows| ==> ParseRow(lines[4..][k]) == Some(rows[k])
    requires |lines| == 5 + |rows| ==> ParseRow(lines[4..][|rows|]).None?
    ensures AllValid(rows)
    ensures ExtractLines(lines) == Some(Extracted(CoordsOf(rows), KindsOf(rows), ElementsOf(rows)))
  {
    RowRunIs(lines[4..], rows);
    RowRunValid(lines[4..]);
    assert lines[4..][0] == lines[4];
    assert MatchableAt(lines, 0);
    var m := Match(0, rows);
    MatchesFromEmptyIff(lines, m.End());
    MatchesFromAtMatchable(lines, 0);
    var ms := Matches(lines);
    assert ms == [m];
    ExtractSpec(lines);
    assert ms[|ms| - 1].rows == rows;
    assert AllCoords(ms) == CoordsOf(rows) + AllCoords([]);
    assert AllCoords(ms) == CoordsOf(rows);
  }

  /** The text of a document and its complete lines give the same result. */
  lemma TextReadsAsLines(lines: seq<string>, tail: string)
    requires forall i :: 0 <= i < |lines| ==> NoBreak(lines[i])
    requires NoBreak(tail)
    ensures ParseInitAtomicCoordinates(JoinLines(lines) + tail) == ExtractLines(lines)
  {
    SplitJoin(lines, tail);
  }

  predicate NoColon(s: string) {
    forall i :: 0 <= i < |s| ==> s[i] != ':'
  }

  /** The banner carries the colon of `QUICKSTEP:`. */
  lemma BannerHasColon(line: string)
    requires IsBanner(line)
    ensures !NoColon(line)
  {
    var i :| 0 <= i <= |line| - |Banner| && TemplateEndsAt(line, Banner, i);
    assert Banner[17] == ':';
    assert line[i..i + |Banner|][17] == line[i + 17];
  }

  lemma {:induction false} RenderNoColon(cs: seq<Capture>, shapes: seq<Shape>)
    requires FitAll(cs, shapes)
    ensures NoColon(Render(cs))
  {
    if cs != [] {
      FitAllTail(cs, shapes);
      RenderNoColon(cs[1..], shapes[1..]);
      var t := ColumnText(cs[0].col);
      assert FitsAt(cs, shapes, 0);
      assert NoColon(t) by {
        if cs[0].col.Number? {
          var f := cs[0].col.f;
          NoColonConcat([f.sign] + f.whole, "." + f.frac);
        }
      }
      NoColonConcat(cs[0].gap, t);
      NoColonConcat(cs[0].gap + t, Render(cs[1..]));
    }
  }

  lemma NoColonConcat(a: string, b: string)
    requires NoColon(a) && NoColon(b)
    ensures NoColon(a + b)
  {
    assert forall i :: 0 <= i < |a + b| ==> (a + b)[i] == if i < |a| then a[i] else b[i - |a|];
  }

  /** No row line contains a colon, so no row line is a banner. */
  lemma RowNotBanner(line: string)
    requires ParseRow(line).Some?
    ensures !IsBanner(line)
  {
    RenderNoColon(ScanLine(line, RowShapes).value, RowShapes);
    if IsBanner(line) {
      BannerHasColon(line);
    }
  }

  lemma {:induction false} MatchWordsNoColon(s: string, words: seq<string>)
    requires MatchWords(s, words)
    requires forall i :: 0 <= i < |words| ==> NoColon(words[i])
    ensures NoColon(s)
    decreases |words|
  {
    if words != [] {
      var n := Span(s, Space);
      var w := words[0];
      var rest := s[n + |w|..];
      MatchWordsNoColon(rest, words[1..]);
      CutAroundWord(s, n, w);
      NoColonConcat(s[..n], w);
      NoColonConcat(s[..n] + w, rest);
    }
  }

  /** The title line is not a banner. */
  lemma TitleNotBanner(line: string)
    requires IsTitle(line)
    ensures !IsBanner(line)
  {
    assert forall i :: 0 <= i < |TitleWords| ==> NoColon(TitleWords[i]);
    MatchWordsNoColon(line, TitleWords);
    if IsBanner(line) {
      BannerHasColon(line);
    }
  }

  /** No banner line lies inside a match, past its own banner. */
  lemma NoBannerInsideMatch(lines: seq<string>, m: Match, i: nat)
    requires AnchorAt(lines, m.start) && m.rows == RowRun(lines[m.start + 4..])
    requires m.start < i < m.End() <= |lines|
    ensures !IsBanner(lines[i])
  {
    if i >= m.start + 4 {
      RowOfMatch(lines, m, i - m.start - 4);
      RowNotBanner(lines[i]);
    } else {
      NoBannerInAnchor(lines, m.start, i);
    }
  }

  /** The three anchor lines after the banner are not banners. */
  lemma NoBannerInAnchor(lines: seq<string>, start: nat, i: nat)
    requires AnchorAt(lines, start) && start < i < start + 4
    ensures !IsBanner(lines[i])
  {
    if i == start + 2 {
      TitleNotBanner(lines[i]);
    } else {
      EmptyNotBanner(lines[i]);
    }
  }

  /** Row `k` of a match is read from the `k`-th line after its anchor. */
  lemma RowOfMatch(lines: seq<string>, m: Match, k: nat)
    requires m.start + 4 <= |lines| && m.rows == RowRun(lines[m.start + 4..])
    requires k < |m.rows|
    ensures m.start + 4 + k < |lines|
    ensures ParseRow(lines[m.start + 4 + k]) == Some(m.rows[k])
  {
    var after := lines[m.start + 4..];
    Seqs.RunAt(ParseRow, after, m.rows, k);
    assert after[k] == lines[m.start + 4 + k];
  }

  lemma EmptyNotBanner(line: string)
    requires line == ""
    ensures !IsBanner(line)
  {
  }

  lemma NotBannerNotMatchable(lines: seq<string>, i: nat)
    requires i < |lines| && !IsBanner(lines[i])
    ensures !MatchableAt(lines, i)
  {
  }

  /** `finditer` misses nothing: every matchable line from `from` on starts one
      of the matches. */
  lemma MatchesFromComplete(lines: seq<string>, from: nat, i: nat) returns (j: nat)
    requires from <= i && from <= |lines|
    requires MatchableAt(lines, i)
    ensures j < |MatchesFrom(lines, from)| && MatchesFrom(lines, from)[j].start == i
  {
    LinesSpans(lines);
    NoHitInsideLines(lines);
    j := Finditer.SearchComplete(|lines|, HitAt(lines), FoundAt(lines), StartOf, EndOf, from, i);
  }

  lemma NoHitInsideLines(lines: seq<string>)
    ensures Finditer.NoHitInside(|lines|, HitAt(lines), FoundAt(lines), EndOf)
  {
    forall p, q | 0 <= p < |lines| && HitAt(lines)(p) && p < q < EndOf(FoundAt(lines)(p))
      ensures !HitAt(lines)(q)
    {
      HitAtIs(lines, p);
      FoundAtIs(lines, p);
      NoMatchableInside(lines, p, q);
      HitAtIs(lines, q);
    }
  }

  /** No line inside the match found at a matchable line is matchable. */
  lemma NoMatchableInside(lines: seq<string>, p: nat, q: nat)
    requires MatchableAt(lines, p) && p < q < p + 4 + |RowRun(lines[p + 4..])|
    ensures !MatchableAt(lines, q)
  {
    AnchorRowsEnd(lines, p);
    NoBannerInsideMatch(lines, Match(p, RowRun(lines[p + 4..])), q);
    NotBannerNotMatchable(lines, q);
  }

  /** The matches start exactly at the matchable lines. */
  lemma MatchStarts(lines: seq<string>, i: nat)
    ensures (exists j :: 0 <= j < |Matches(lines)| && Matches(lines)[j].start == i) <==>
            MatchableAt(lines, i)
  {
    var ms := Matches(lines);
    if MatchableAt(lines, i) {
      var j := MatchesFromComplete(lines, 0, i);
    } else {
      forall j | 0 <= j < |ms|
        ensures ms[j].start != i
      {
        MatchOf(lines, 0, j);
      }
    }
  }
}
