/** Character classes of the regular expressions the extractor is built from,
    and the greedy scan that every repeated class (`\s+`, `\d+`, `\w+`) performs.
    The classes are the ASCII members of Python's Unicode classes. */
module Chars {

  /** `\s`: space, tab, line feed, carriage return, vertical tab, form feed. */
  predicate IsSpace(c: char) {
    c == ' ' || c == '\t' || c == '\n' || c == '\r' || c == '\U{B}' || c == '\U{C}'
  }

  /** `\d` */
  predicate IsDigit(c: char) {
    '0' <= c <= '9'
  }

  /** `\w`: letters, digits and underscore. */
  predicate IsWordChar(c: char) {
    IsDigit(c) || 'a' <= c <= 'z' || 'A' <= c <= 'Z' || c == '_'
  }

  datatype Class = Space | Digit | Word | NotNewline

  predicate InClass(c: char, k: Class) {
    match k
    case Space => IsSpace(c)
    case Digit => IsDigit(c)
    case Word => IsWordChar(c)
    case NotNewline => c != '\n'
  }

  predicate AllIn(s: string, k: Class) {
    forall i :: 0 <= i < |s| ==> InClass(s[i], k)
  }

  /** Length of the longest prefix of `s` made of class-`k` characters: what a
      greedy `k*` consumes. */
  function Span(s: string, k: Class): (n: nat)
    ensures n <= |s|
    ensures AllIn(s[..n], k)
    ensures n < |s| ==> !InClass(s[n], k)
  {
    if |s| == 0 || !InClass(s[0], k) then 0
    else
      var n := 1 + Span(s[1..], k);
      assert s[..n] == [s[0]] + s[1..][..n - 1];
      n
  }

  /** The greedy scan stops exactly at the end of a class-`k` token when the
      text after it starts with a character outside the class. */
  lemma {:induction false} SpanOfConcat(t: string, rest: string, k: Class)
    requires AllIn(t, k)
    requires rest == [] || !InClass(rest[0], k)
    ensures Span(t + rest, k) == |t|
  {
    if t != [] {
      assert (t + rest)[0] == t[0];
      assert (t + rest)[1..] == t[1..] + rest;
      SpanOfConcat(t[1..], rest, k);
    } else {
      assert t + rest == rest;
    }
  }

  lemma AllInPrefix(s: string, n: nat, p: nat, k: Class)
    requires p <= n <= |s| && AllIn(s[..n], k)
    ensures AllIn(s[..p], k)
  {
    assert forall i :: 0 <= i < p ==> s[..p][i] == s[..n][i];
  }

  function DigitValue(c: char): nat
    requires IsDigit(c)
  {
    c as int - '0' as int
  }

  function DigitChar(d: nat): (c: char)
    requires d < 10
    ensures IsDigit(c) && DigitValue(c) == d
  {
    ('0' as int + d) as char
  }

  /** Python's `int()` of a decimal digit string. */
  function DigitsValue(s: string): nat
    requires AllIn(s, Digit)
  {
    if s == [] then 0
    else 10 * DigitsValue(s[..|s| - 1]) + DigitValue(s[|s| - 1])
  }

  /** Canonical decimal text of a natural number: no leading zero. */
  function ShowNat(n: nat): (s: string)
    ensures |s| >= 1 && AllIn(s, Digit)
  {
    if n < 10 then [DigitChar(n)]
    else ShowNat(n / 10) + [DigitChar(n % 10)]
  }

  function Pow10(k: nat): (p: nat)
    ensures p >= 1
  {
    if k == 0 then 1 else 10 * Pow10(k - 1)
  }

  lemma {:induction false} DigitsValueOfShowNat(n: nat)
    ensures DigitsValue(ShowNat(n)) == n
  {
    if n >= 10 {
      var s := ShowNat(n);
      assert s[..|s| - 1] == ShowNat(n / 10);
      DigitsValueOfShowNat(n / 10);
    }
  }

  lemma {:induction false} LeadingDigitBound(s: string)
    requires |s| >= 1 && AllIn(s, Digit) && s[0] != '0'
    ensures DigitsValue(s) >= Pow10(|s| - 1)
  {
    if |s| > 1 {
      var p := s[..|s| - 1];
      assert p[0] == s[0];
      LeadingDigitBound(p);
    }
  }

  /** A digit string without a leading zero is the canonical text of its value. */
  lemma {:induction false} ShowNatOfDigitsValue(s: string)
    requires |s| >= 1 && AllIn(s, Digit)
    requires |s| > 1 ==> s[0] != '0'
    ensures ShowNat(DigitsValue(s)) == s
  {
    if |s| > 1 {
      var p := s[..|s| - 1];
      var c := s[|s| - 1];
      assert p[0] == s[0];
      LeadingDigitBound(p);
      ShowNatOfDigitsValue(p);
      DivMod10(DigitsValue(p), DigitValue(c));
      assert DigitChar(DigitValue(c)) == c;
      assert s == p + [c];
    }
  }

  lemma DivMod10(a: nat, d: nat)
    requires d < 10
    ensures (10 * a + d) / 10 == a && (10 * a + d) % 10 == d
  {
  }

  lemma ShiftDigit(x: nat, p: nat, y: nat, d: nat)
    ensures 10 * (x * p + y) + d == x * (10 * p) + (10 * y + d)
  {
  }

  /** Reading `a + b` as one number shifts `a` left by `|b|` decimal places. */
  lemma {:induction false} DigitsValueConcat(a: string, b: string)
    requires AllIn(a, Digit) && AllIn(b, Digit)
    ensures AllIn(a + b, Digit)
    ensures DigitsValue(a + b) == DigitsValue(a) * Pow10(|b|) + DigitsValue(b)
  {
    if b != [] {
      var b' := b[..|b| - 1];
      var c := b[|b| - 1];
      assert (a + b)[..|a + b| - 1] == a + b' && (a + b)[|a + b| - 1] == c;
      DigitsValueConcat(a, b');
      ShiftDigit(DigitsValue(a), Pow10(|b'|), DigitsValue(b'), DigitValue(c));
    } else {
      assert a + b == a;
    }
  }
}
