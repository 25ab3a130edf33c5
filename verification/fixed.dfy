/** The signed fixed-point column shape `[\s-]\d+\.\d+` of the coordinates rows
    (cp2kdata/block_parser/coordinates.py:15-19): a sign slot holding either a
    whitespace character or `-`, integer digits, a point, fraction digits. */
module FixedPoint {
  import opened Chars
  import opened Wrappers

  /** One captured token, kept digit for digit as the regex captured it. */
  datatype Fixed = Fixed(sign: char, whole: string, frac: string) {
    predicate Valid() {
      && (IsSpace(sign) || sign == '-')
      && |whole| >= 1 && AllIn(whole, Digit)
      && |frac| >= 1 && AllIn(frac, Digit)
    }

    predicate Negative() {
      sign == '-'
    }
  }

  /** The captured text of a token. */
  function Format(f: Fixed): string {
    [f.sign] + f.whole + "." + f.frac
  }

  /** Reads one token from the front of `s`, taking maximal digit runs as the
      greedy `\d+` does; returns the token and the text after it. */
  function Scan(s: string): (r: Option<(Fixed, string)>)
    ensures r.Some? ==> r.value.0.Valid() && Format(r.value.0) + r.value.1 == s
    ensures r.Some? ==> r.value.1 == [] || !IsDigit(r.value.1[0])
  {
    if |s| == 0 || !(IsSpace(s[0]) || s[0] == '-') then None
    else
      var w := Span(s[1..], Digit);
      if w == 0 || 1 + w >= |s| || s[1 + w] != '.' then None
      else
        var q := Span(s[2 + w..], Digit);
        if q == 0 then None
        else
          var f := Fixed(s[0], s[1..1 + w], s[2 + w..2 + w + q]);
          assert s[1..][..w] == f.whole && s[2 + w..][..q] == f.frac;
          assert s == [s[0]] + f.whole + "." + f.frac + s[2 + w + q..];
          Some((f, s[2 + w + q..]))
  }

  /** A valid token followed by anything that does not continue its digits is
      read back exactly. */
  lemma ScanFormat(f: Fixed, rest: string)
    requires f.Valid()
    requires rest == [] || !IsDigit(rest[0])
    ensures Scan(Format(f) + rest) == Some((f, rest))
  {
    FormatParts(f, rest);
  }

  /** Where the scan's cuts fall in a formatted token followed by `rest`. */
  lemma FormatParts(f: Fixed, rest: string)
    requires f.Valid()
    requires rest == [] || !IsDigit(rest[0])
    ensures var s := Format(f) + rest;
            var w := |f.whole|;
            && s[0] == f.sign && Span(s[1..], Digit) == w && 1 + w < |s| && s[1 + w] == '.'
            && Span(s[2 + w..], Digit) == |f.frac|
            && s[1..1 + w] == f.whole && s[2 + w..2 + w + |f.frac|] == f.frac
            && s[2 + w + |f.frac|..] == rest
  {
    var s := Format(f) + rest;
    var w := |f.whole|;
    assert s[1..] == f.whole + ("." + f.frac + rest);
    SpanOfConcat(f.whole, "." + f.frac + rest, Digit);
    assert s[1 + w] == '.';
    assert s[2 + w..] == f.frac + rest;
    SpanOfConcat(f.frac, rest, Digit);
    assert s[1..1 + w] == f.whole;
    assert s[2 + w..2 + w + |f.frac|] == f.frac;
    assert s[2 + w + |f.frac|..] == rest;
  }

  /** The decimal value `float()` assigns to a token, exactly (no rounding). */
  function Value(f: Fixed): (v: real)
    requires f.Valid()
  {
    var m := DigitsValue(f.whole) as real + DigitsValue(f.frac) as real / Pow10(|f.frac|) as real;
    if f.Negative() then -m else m
  }

  /** The value is the digits with the point removed, scaled down by one power of
      ten per fraction digit, negated exactly when the sign slot holds `-`. */
  lemma ValueIsScaledDigits(f: Fixed)
    requires f.Valid()
    ensures AllIn(f.whole + f.frac, Digit)
    ensures var m := DigitsValue(f.whole + f.frac) as real / Pow10(|f.frac|) as real;
            Value(f) == if f.Negative() then -m else m
  {
    DigitsValueConcat(f.whole, f.frac);
    ScaledDigits(DigitsValue(f.whole), Pow10(|f.frac|), DigitsValue(f.frac));
  }

  /** Moving the point: `x` followed by the digits of `z`, over `y`. */
  lemma ScaledDigits(x: nat, y: nat, z: nat)
    requires y >= 1
    ensures (x * y + z) as real / y as real == x as real + z as real / y as real
  {
    assert (x * y + z) as real == x as real * y as real + z as real;
    ShiftPoint(x as real, z as real, y as real);
  }

  lemma ShiftPoint(a: real, b: real, p: real)
    requires p > 0.0
    ensures (a * p + b) / p == a + b / p
  {
    var x := a + b / p;
    assert x * p == a * p + (b / p) * p;
    assert (b / p) * p == b;
  }
}
