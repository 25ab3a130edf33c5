/** A worked document for the coordinates extractor: three atoms of a water-like
    fragment under one anchor. */
module CoordinatesExample {
  import opened Wrappers
  import opened FixedPoint
  import opened Coordinates
  import opened Chars

  function Plain(whole: string, frac: string): Fixed {
    Fixed(' ', whole, frac)
  }

  function ExampleRows(): seq<Row> {
    [ Row("1", "1", "O", Fixed('-', "0", "500"), Plain("0", "000"), Plain("1", "234")),
      Row("2", "1", "O", Plain("0", "500"), Plain("0", "000"), Plain("1", "234")),
      Row("3", "2", "H", Plain("0", "000"), Plain("0", "000"), Plain("2", "000")) ]
  }

  function ExampleLayout(atomicNumber: string, zEff: Fixed, mass: Fixed): Layout {
    Layout(seq(9, _ => "   "), atomicNumber, zEff, mass)
  }

  function ExampleLayouts(): seq<Layout> {
    [ ExampleLayout("8", Plain("6", "0000"), Plain("15", "9994")),
      ExampleLayout("8", Plain("6", "0000"), Plain("15", "9994")),
      ExampleLayout("1", Plain("1", "0000"), Plain("1", "0080")) ]
  }

  /** The numeric triple of a coordinate. */
  function Values(c: Coord): (real, real, real)
    requires c.x.Valid() && c.y.Valid() && c.z.Valid()
  {
    (Value(c.x), Value(c.y), Value(c.z))
  }

  lemma ExampleValid()
    ensures forall k :: 0 <= k < 3 ==> ExampleRows()[k].Valid() && ExampleLayouts()[k].Valid()
  {
    var rows := ExampleRows();
    var layouts := ExampleLayouts();
    assert rows[0].Valid() && layouts[0].Valid();
    assert rows[1].Valid() && layouts[1].Valid();
    assert rows[2].Valid() && layouts[2].Valid();
  }

  lemma ExampleNumbers()
    ensures Fixed('-', "0", "500").Valid() && Value(Fixed('-', "0", "500")) == -0.5
    ensures Plain("0", "500").Valid() && Value(Plain("0", "500")) == 0.5
    ensures Plain("0", "000").Valid() && Value(Plain("0", "000")) == 0.0
    ensures Plain("1", "234").Valid() && Value(Plain("1", "234")) == 1.234
    ensures Plain("2", "000").Valid() && Value(Plain("2", "000")) == 2.0
  {
    OneDigit("0");
    OneDigit("1");
    OneDigit("2");
    ThreeDigits("500");
    ThreeDigits("000");
    ThreeDigits("234");
    assert Pow10(3) == 1000;
  }

  lemma OneDigit(s: string)
    requires |s| == 1 && AllIn(s, Digit)
    ensures DigitsValue(s) == DigitValue(s[0])
  {
    assert s[..0] == [];
  }

  lemma ThreeDigits(s: string)
    requires |s| == 3 && AllIn(s, Digit)
    ensures DigitsValue(s) == 100 * DigitValue(s[0]) + 10 * DigitValue(s[1]) + DigitValue(s[2])
  {
    var p := s[..2];
    assert p[..1] == s[..1] && p[1] == s[1] && s[..1][..0] == [];
    assert DigitsValue(s[..1]) == DigitValue(s[0]);
    assert DigitsValue(p) == 10 * DigitValue(s[0]) + DigitValue(s[1]);
  }

  lemma ExampleKinds()
    ensures AllValid(ExampleRows()) && KindsOf(ExampleRows()) == [1, 1, 2]
  {
    ExampleValid();
    var ks := KindsOf(ExampleRows());
    assert DigitsValue("1") == 1 && DigitsValue("2") == 2;
    assert ks[0] == 1 && ks[1] == 1 && ks[2] == 2;
  }

  lemma ElementsOfExample()
    ensures ElementsOf(ExampleRows()) == ["O", "O", "H"]
  {
    var es := ElementsOf(ExampleRows());
    assert es[0] == "O" && es[1] == "O" && es[2] == "H";
  }

  /** The document yields the 3x3 coordinates
      [[-0.5, 0, 1.234], [0.5, 0, 1.234], [0, 0, 2]], kinds [1, 1, 2] and
      elements ["O", "O", "H"]. */
  lemma ThreeAtomDocument()
    ensures var r := ExtractLines(AnchorLines() + RenderRows(ExampleRows(), ExampleLayouts()));
            && r.Some?
            && |r.value.coords| == 3
            && (forall k :: 0 <= k < 3 ==>
                  r.value.coords[k].x.Valid() && r.value.coords[k].y.Valid() && r.value.coords[k].z.Valid())
            && Values(r.value.coords[0]) == (-0.5, 0.0, 1.234)
            && Values(r.value.coords[1]) == (0.5, 0.0, 1.234)
            && Values(r.value.coords[2]) == (0.0, 0.0, 2.0)
            && r.value.kinds == [1, 1, 2]
            && r.value.elements == ["O", "O", "H"]
  {
    var rows := ExampleRows();
    var layouts := ExampleLayouts();
    ExampleValid();
    SingleBlockDocument(rows, layouts, []);
    var doc := AnchorLines() + RenderRows(rows, layouts);
    assert doc + [] == doc;
    ExampleNumbers();
    ExampleKinds();
    ElementsOfExample();
    var cs := CoordsOf(rows);
    assert cs[0] == CoordOf(rows[0]) && cs[1] == CoordOf(rows[1]) && cs[2] == CoordOf(rows[2]);
    var r := ExtractLines(doc);
    assert r == Some(Extracted(cs, [1, 1, 2], ["O", "O", "H"]));
    forall k | 0 <= k < 3
      ensures r.value.coords[k].x.Valid() && r.value.coords[k].y.Valid() && r.value.coords[k].z.Valid()
    {
      assert r.value.coords[k] == CoordOf(rows[k]);
    }
  }
}
