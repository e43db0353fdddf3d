/** Exact decimal text for a fraction, and a reader that says what number a text denotes. */
module Decimals {
  import opened Prelude

  // ---- Fractions ------------------------------------------------------------------------

  /** A fraction in lowest terms, as the source's exact arithmetic keeps it. */
  datatype Fraction = Fraction(numerator: int, denominator: nat) {
    ghost predicate Reduced() {
      denominator >= 1 && Coprime(Magnitude(), denominator)
    }

    function Magnitude(): nat { if numerator < 0 then -numerator else numerator }

    function Value(): real
      requires denominator >= 1
    {
      numerator as real / denominator as real
    }
  }

  ghost predicate Coprime(a: nat, b: nat) {
    forall d: nat :: d > 1 && Divides(d, a) ==> !Divides(d, b)
  }

  predicate Divides(d: nat, a: int)
    requires d > 0
  {
    a % d == 0
  }

  lemma DivideMultiple(d: nat, a: int, q: int)
    requires d > 0 && a == d * q
    ensures Divides(d, a) && a / d == q
  {
    var p := a / d;
    assert a == d * p + a % d;
    if p < q { MulStep(d, p, q); }
    if p > q { MulStep(d, q, p); }
  }

  lemma QuotientExists(d: nat, a: int)
    requires d > 0 && Divides(d, a)
    ensures a == d * (a / d)
  {
  }

  lemma DividesSum(d: nat, a: int, b: int, f: int)
    requires d > 0 && Divides(d, a) && Divides(d, b)
    ensures Divides(d, a + f * b)
  {
    var p, q := a / d, b / d;
    assert a + f * b == d * (p + f * q) by { SumFactors(d, p, q, f); }
    DivideMultiple(d, a + f * b, p + f * q);
  }

  lemma SumFactors(d: int, p: int, q: int, f: int)
    ensures d * p + f * (d * q) == d * (p + f * q)
  {
  }

  lemma CoprimeStep(a: nat, b: nat, q: int, r: nat)
    requires Coprime(a, b) && b == r + q * a
    ensures Coprime(r, a)
  {
    hide Divides;
    forall d: nat | d > 1 && Divides(d, r) ensures !Divides(d, a) {
      if Divides(d, a) { DividesSum(d, r, a, q); }
    }
  }

  /** Two numbers with no common divisor have a combination equal to one. */
  lemma {:induction false} Bezout(a: nat, b: nat) returns (x: int, y: int)
    requires b >= 1 && Coprime(a, b)
    ensures a * x + b * y == 1
  {
    if a == 0 {
      if b > 1 { assert Divides(b, 0) && Divides(b, b); }
      x, y := 0, 1;
    } else {
      var q, r := b / a, b % a;
      CoprimeStep(a, b, q, r);
      var x', y' := Bezout(r, a);
      x, y := y' - q * x', x';
      BezoutStep(a, b, q, r, x', y');
    }
  }

  lemma BezoutStep(a: int, b: int, q: int, r: int, x: int, y: int)
    requires b == a * q + r && r * x + a * y == 1
    ensures a * (y - q * x) + b * x == 1
  {
  }

  /** A denominator in lowest terms divides every multiple that clears the fraction. */
  lemma ReducedDenominatorDivides(f: Fraction, n: nat)
    requires f.Reduced() && Divides(f.denominator, f.Magnitude() * n)
    ensures Divides(f.denominator, n)
  {
    var a, b := f.Magnitude(), f.denominator;
    var x, y := Bezout(a, b);
    var q := (a * n) / b;
    QuotientExists(b, a * n);
    Recombine(a, b, n, q, x, y);
    DivideMultiple(b, n, q * x + n * y);
  }

  lemma Recombine(a: int, b: int, n: int, q: int, x: int, y: int)
    requires a * x + b * y == 1 && a * n == b * q
    ensures n == b * (q * x + n * y)
  {
    assert n == n * (a * x + b * y) == (a * n) * x + b * (n * y);
  }

  // ---- Powers of ten --------------------------------------------------------------------

  function Pow10(k: nat): (p: nat)
    ensures p >= 1
  {
    if k == 0 then 1 else 10 * Pow10(k - 1)
  }

  lemma {:induction false} Pow10Divides(k: nat, n: nat)
    requires k <= n
    ensures Divides(Pow10(k), Pow10(n))
    decreases n - k
  {
    if k < n {
      Pow10Divides(k, n - 1);
      var q := Pow10(n - 1) / Pow10(k);
      assert Pow10(n) == Pow10(k) * (10 * q) by { QuotientExists(Pow10(k), Pow10(n - 1)); }
      DivideMultiple(Pow10(k), Pow10(n), 10 * q);
    } else {
      DivideMultiple(Pow10(k), Pow10(n), 1);
    }
  }

  lemma DividesTransitive(a: nat, b: nat, c: nat)
    requires a > 0 && b > 0 && Divides(a, b) && Divides(b, c)
    ensures Divides(a, c)
  {
    var p, q := b / a, c / b;
    assert c == a * (p * q) by { assert c == (a * p) * q; }
    DivideMultiple(a, c, p * q);
  }

  /** What the printer can print: at most twelve digits after the point. */
  ghost predicate IsShort(f: Fraction)
    requires f.denominator >= 1
  {
    Divides(f.denominator, Pow10(12))
  }

  // ---- Text -----------------------------------------------------------------------------

  function Digit(d: nat): char
    requires d < 10
  {
    '0' + d as char
  }

  predicate IsDigit(c: char) { '0' <= c <= '9' }

  predicate AllDigits(s: string) { forall i :: 0 <= i < |s| ==> IsDigit(s[i]) }

  function DigitValue(c: char): (d: nat)
    requires IsDigit(c)
    ensures d < 10
  {
    c as nat - '0' as nat
  }

  /** The number a string of digits denotes. */
  function DigitsValue(s: string): nat
    requires AllDigits(s)
  {
    if s == [] then 0 else 10 * DigitsValue(s[..|s| - 1]) + DigitValue(s[|s| - 1])
  }

  /** str(n) for n >= 0 */
  function NatText(n: nat): (s: string)
    ensures s != [] && AllDigits(s) && DigitsValue(s) == n
  {
    var last := [Digit(n % 10)];
    if n < 10 then last
    else
      var s := NatText(n / 10) + last;
      assert s[..|s| - 1] == NatText(n / 10);
      s
  }

  function IntText(n: int): string {
    if n < 0 then "-" + NatText(-n) else NatText(n)
  }

  /** Leading zeros up to a width. */
  function ZeroPad(s: string, width: nat): (r: string)
    decreases width - |s|
  {
    if |s| >= width then s else ZeroPad("0" + s, width)
  }

  function RStrip(s: string, c: char): string {
    if s != [] && s[|s| - 1] == c then RStrip(s[..|s| - 1], c) else s
  }

  // ---- Reading a decimal ----------------------------------------------------------------

  function PointFrom(s: string, k: nat): (p: nat)
    requires k <= |s|
    ensures k <= p <= |s| && (p < |s| ==> s[p] == '.') && forall i :: k <= i < p ==> s[i] != '.'
    decreases |s| - k
  {
    if k == |s| || s[k] == '.' then k else PointFrom(s, k + 1)
  }

  /** Digits, or digits, a point and digits. */
  function ReadUnsigned(s: string): Option<real> {
    var p := PointFrom(s, 0);
    if p == |s| then
      if s != [] && AllDigits(s) then Some(DigitsValue(s) as real) else None
    else
      var whole, part := s[..p], s[p + 1..];
      if whole != [] && part != [] && AllDigits(whole) && AllDigits(part)
      then Some(DigitsValue(whole) as real + DigitsValue(part) as real / Pow10(|part|) as real)
      else None
  }

  function Read(s: string): Option<real> {
    if s != [] && s[0] == '-' then
      var r := ReadUnsigned(s[1..]);
      if r.Some? then Some(-r.value) else None
    else
      ReadUnsigned(s)
  }

  lemma {:induction false} PadKeepsValue(s: string, width: nat)
    requires AllDigits(s)
    ensures AllDigits(ZeroPad(s, width)) && DigitsValue(ZeroPad(s, width)) == DigitsValue(s)
    ensures |ZeroPad(s, width)| == if |s| >= width then |s| else width
    decreases width - |s|
  {
    if |s| < width {
      LeadingZero(s);
      PadKeepsValue("0" + s, width);
    }
  }

  lemma {:induction false} LeadingZero(s: string)
    requires AllDigits(s)
    ensures AllDigits("0" + s) && DigitsValue("0" + s) == DigitsValue(s)
  {
    var t := "0" + s;
    assert AllDigits(t);
    if s == [] {
      assert t[..0] == [];
    } else {
      LeadingZero(s[..|s| - 1]);
      assert t[..|t| - 1] == "0" + s[..|s| - 1];
    }
  }

  /** A number below 10^k has at most k digits (one, for k = 0). */
  lemma {:induction false} NatTextLength(n: nat, k: nat)
    requires n < Pow10(k) && k >= 1
    ensures |NatText(n)| <= k
  {
    if n >= 10 {
      assert Pow10(0) == 1 && Pow10(k) == 10 * Pow10(k - 1);
      NatTextLength(n / 10, k - 1);
    }
  }

  /** Dropping trailing zeros after the point keeps the value. */
  lemma {:induction false} StripKeepsValue(part: string)
    requires AllDigits(part)
    ensures AllDigits(RStrip(part, '0'))
    ensures DigitsValue(part) as real / Pow10(|part|) as real
            == DigitsValue(RStrip(part, '0')) as real / Pow10(|RStrip(part, '0')|) as real
    ensures RStrip(part, '0') == [] ==> DigitsValue(part) == 0
    ensures RStrip(part, '0') != [] ==> RStrip(part, '0')[|RStrip(part, '0')| - 1] != '0'
  {
    if part != [] && part[|part| - 1] == '0' {
      var front := part[..|part| - 1];
      StripKeepsValue(front);
      assert DigitsValue(part) == 10 * DigitsValue(front) && Pow10(|part|) == 10 * Pow10(|front|);
      TenfoldRatio(DigitsValue(front), Pow10(|front|));
    }
  }

  lemma TenfoldRatio(a: nat, b: nat)
    requires b >= 1
    ensures (10 * a) as real / (10 * b) as real == a as real / b as real
  {
    var r := a as real / b as real;
    assert r * b as real == a as real;
    assert r * (10 * b) as real == (10 * a) as real;
    RatioIs(r, 10 * a, 10 * b);
  }

  lemma RatioIs(r: real, a: nat, b: nat)
    requires b >= 1 && r * b as real == a as real
    ensures a as real / b as real == r
  {
  }

  lemma {:induction false} RStripAppend(a: string, b: string, c: char)
    ensures RStrip(a + b, c) == if RStrip(b, c) == [] then RStrip(a, c) else a + RStrip(b, c)
  {
    if b == [] {
      assert a + b == a;
    } else {
      var front := b[..|b| - 1];
      assert (a + b)[..|a + b| - 1] == a + front;
      if b[|b| - 1] == c { RStripAppend(a, front, c); }
    }
  }

  /** The two strips leave the whole part, and the fraction without its trailing zeros. */
  lemma StrippedText(sign: string, whole: string, part: string)
    requires whole != [] && AllDigits(whole) && AllDigits(part)
    ensures var short := RStrip(part, '0');
      RStrip(RStrip(sign + whole + "." + part, '0'), '.')
      == sign + Spelled(whole, short)
  {
    var short, text := RStrip(part, '0'), sign + whole;
    var head := text + ".";
    StripKeepsValue(part);
    RStripAppend(head, part, '0');
    WholeLast(sign, whole);
    StripPoint(text);
    if short != [] {
      StripNothing(head, short, '.');
      assert head + short == sign + (whole + ("." + short));
    }
  }

  lemma WholeLast(sign: string, whole: string)
    requires whole != [] && AllDigits(whole)
    ensures sign + whole != [] && IsDigit((sign + whole)[|sign + whole| - 1])
  {
  }

  /** A point after digits is stripped once, and is no trailing zero. */
  lemma StripPoint(text: string)
    requires text != [] && IsDigit(text[|text| - 1])
    ensures RStrip(text + ".", '0') == text + "." && RStrip(text + ".", '.') == text
  {
    assert (text + ".")[..|text|] == text;
    assert RStrip(text, '.') == text;
  }

  lemma StripNothing(head: string, tail: string, c: char)
    requires tail != [] && tail[|tail| - 1] != c
    ensures RStrip(head + tail, c) == head + tail
  {
  }

  /** `whole` or `whole.part`. */
  function Spelled(whole: string, part: string): string {
    whole + if part == [] then "" else "." + part
  }

  function SpelledValue(whole: string, part: string): real
    requires AllDigits(whole) && AllDigits(part)
  {
    DigitsValue(whole) as real + DigitsValue(part) as real / Pow10(|part|) as real
  }

  lemma {:induction false} PointOf(text: string, p: nat, k: nat)
    requires k <= p <= |text| && (p < |text| ==> text[p] == '.') && forall i :: k <= i < p ==> text[i] != '.'
    ensures PointFrom(text, k) == p
    decreases p - k
  {
    if k < p { PointOf(text, p, k + 1); }
  }

  lemma ReadBackUnsigned(whole: string, part: string)
    requires whole != [] && AllDigits(whole) && AllDigits(part)
    ensures ReadUnsigned(Spelled(whole, part)) == Some(SpelledValue(whole, part))
  {
    var text := Spelled(whole, part);
    assert forall i :: 0 <= i < |whole| ==> text[i] == whole[i] && IsDigit(whole[i]) && text[i] != '.';
    PointOf(text, |whole|, 0);
    if part == [] {
      assert text == whole;
      assert DigitsValue(part) == 0 && Pow10(0) == 1 && SpelledValue(whole, part) == DigitsValue(whole) as real;
    } else {
      assert text[..|whole|] == whole && text[|whole| + 1..] == part;
    }
  }

  lemma ReadBack(negative: bool, whole: string, part: string)
    requires whole != [] && AllDigits(whole) && AllDigits(part)
    ensures Read((if negative then "-" else "") + Spelled(whole, part))
            == Some(if negative then -SpelledValue(whole, part) else SpelledValue(whole, part))
  {
    hide ReadUnsigned, SpelledValue;
    ReadBackUnsigned(whole, part);
    var text := Spelled(whole, part);
    assert text[0] == whole[0] && IsDigit(whole[0]);
    var signed := (if negative then "-" else "") + text;
    if negative { assert signed[0] == '-' && signed[1..] == text; } else { assert signed == text; }
  }

  // ---- The printer ------------------------------------------------------------------------

  datatype Printed = Text(text: string) | NotShort

  lemma SplitValue(n: nat, den: nat, m: nat, scale: nat, whole: nat, part: nat)
    requires den >= 1 && m * den == scale && scale >= 1 && n * m == whole * scale + part
    ensures n as real / den as real == whole as real + part as real / scale as real
  {
    var r := whole as real + part as real / scale as real;
    assert r * scale as real == whole as real * scale as real + part as real;
    SplitArithmetic(r, n as real, den as real, m as real, scale as real, whole as real, part as real);
    RatioIs(r, n, den);
  }

  lemma SplitArithmetic(r: real, n: real, den: real, m: real, scale: real, whole: real, part: real)
    requires m * den == scale && scale >= 1.0 && n * m == whole * scale + part && r * scale == whole * scale + part
    ensures r * den == n
  {
    assert (r * den - n) * m == 0.0;
    assert m != 0.0;
  }

  function Product(a: nat, b: nat): nat { a * b }

  function Quotient(a: nat, b: nat): nat
    requires b >= 1
  {
    a / b
  }

  function Remainder(a: nat, b: nat): (r: nat)
    requires b >= 1
    ensures r < b
  {
    a % b
  }

  /** Prints a fraction exactly, or refuses it: it refuses exactly the fractions that need more
      than twelve digits, and otherwise the text denotes the very number it was given. */
  method Decimal(v: Fraction) returns (r: Printed)
    requires v.Reduced()
    ensures r.Text? <==> IsShort(v)
    ensures r.Text? ==> Read(r.text) == Some(v.Value())
  {
    hide Read, Fraction.Value, Quotient, Product, Remainder, NatText, ZeroPad, RStrip, IntText, Pow10, Divides;
    if v.denominator == 1 {
      WholeNumber(v);
      return Text(IntText(v.numerator));
    }
    var scale, digits := 1, 0;
    NextPower(0);
    while scale % v.denominator != 0
      invariant digits <= 12 && scale == Pow10(digits)
      invariant forall e :: 0 <= e < digits ==> !Divides(v.denominator, Pow10(e))
      decreases 13 - digits
    {
      DividesMeans(v.denominator, scale);
      NextPower(digits);
      scale := scale * 10;
      digits := digits + 1;
      if digits > 12 { return NotShort; }
    }
    DividesMeans(v.denominator, scale);
    Pow10Divides(digits, 12);
    DividesTransitive(v.denominator, scale, Pow10(12));
    PrintedValue(v, digits, scale);
    var sign := if v.numerator < 0 then "-" else "";
    var scaled := Product(v.Magnitude(), Quotient(scale, v.denominator));
    var whole, part := Quotient(scaled, scale), Remainder(scaled, scale);
    var text := sign + NatText(whole) + "." + ZeroPad(NatText(part), digits);
    text := RStrip(RStrip(text, '0'), '.');
    r := Text(if text != "" && text != "-" then text else "0");
  }

  lemma NextPower(k: nat)
    ensures Pow10(0) == 1 && Pow10(k + 1) == Pow10(k) * 10
  {
  }

  lemma DividesMeans(d: nat, a: int)
    requires d > 0
    ensures Divides(d, a) <==> a % d == 0
  {
  }

  lemma OneDivides(n: int)
    ensures Divides(1, n)
  {
  }

  lemma OverOne(n: nat)
    ensures n as real / 1 as real == n as real
  {
  }

  lemma WholeNumber(v: Fraction)
    requires v.denominator == 1
    ensures IsShort(v) && Read(IntText(v.numerator)) == Some(v.Value())
  {
    hide Read, Pow10, NatText, Divides, Fraction.Value;
    OneDivides(Pow10(12));
    var whole := NatText(v.Magnitude());
    ReadBack(v.numerator < 0, whole, "");
    assert Spelled(whole, "") == whole;
    assert IntText(v.numerator) == (if v.numerator < 0 then "-" else "") + whole;
    assert DigitsValue("") == 0;
    assert SpelledValue(whole, "") == v.Magnitude() as real;
    OverOne(v.Magnitude());
    NegatedRatio(v);
  }

  /** sign, whole part, point and padded fraction, with the trailing zeros and point stripped. */
  function Assembled(negative: bool, whole: nat, part: nat, digits: nat): string {
    RStrip(RStrip((if negative then "-" else "") + NatText(whole) + "." + ZeroPad(NatText(part), digits), '0'), '.')
  }

  lemma AssembledValue(negative: bool, whole: nat, part: nat, digits: nat)
    requires digits >= 1 && part < Pow10(digits)
    ensures var text, value := Assembled(negative, whole, part, digits),
      whole as real + part as real / Pow10(digits) as real;
      text != "" && text != "-" && Read(text) == Some(if negative then -value else value)
  {
    hide Read, Pow10, RStrip, ZeroPad, SpelledValue, NatText, AllDigits;
    var wholeText, partText := NatText(whole), ZeroPad(NatText(part), digits);
    PadKeepsValue(NatText(part), digits);
    NatTextLength(part, digits);
    StrippedText(if negative then "-" else "", wholeText, partText);
    StripKeepsValue(partText);
    var short := RStrip(partText, '0');
    ReadBack(negative, wholeText, short);
    SpelledRatio(wholeText, short, whole, part, Pow10(digits));
    SpelledIsText(negative, wholeText, short);
  }

  lemma SpelledIsText(negative: bool, whole: string, part: string)
    requires whole != [] && AllDigits(whole)
    ensures var text := (if negative then "-" else "") + Spelled(whole, part); text != "" && text != "-"
  {
    var body := Spelled(whole, part);
    assert body[0] == whole[0] && IsDigit(whole[0]);
    assert |"-" + body| > 1 && "" + body == body;
  }

  /** The text the printer assembles once the scale clears the denominator. */
  lemma PrintedValue(v: Fraction, digits: nat, scale: nat)
    requires v.denominator > 1 && scale == Pow10(digits) && Divides(v.denominator, scale)
    ensures var scaled := Product(v.Magnitude(), Quotient(scale, v.denominator));
      var text := Assembled(v.numerator < 0, Quotient(scaled, scale), Remainder(scaled, scale), digits);
      text != "" && text != "-" && Read(text) == Some(v.Value())
  {
    assert Pow10(0) == 1 && 1 % v.denominator == 1;
    assert digits >= 1;
    hide Quotient, Product, Remainder, Fraction.Value, Read, Pow10, Divides, Assembled;
    var m := Quotient(scale, v.denominator);
    var scaled := Product(v.Magnitude(), m);
    var whole, part := Quotient(scaled, scale), Remainder(scaled, scale);
    SplitDigits(v, scale, m, scaled, whole, part);
    AssembledValue(v.numerator < 0, whole, part, digits);
    NegatedRatio(v);
  }

  lemma SpelledRatio(wholeText: string, short: string, whole: nat, part: nat, scale: nat)
    requires AllDigits(wholeText) && AllDigits(short) && DigitsValue(wholeText) == whole && scale >= 1
    requires DigitsValue(short) as real / Pow10(|short|) as real == part as real / scale as real
    ensures SpelledValue(wholeText, short) == whole as real + part as real / scale as real
  {
  }

  lemma SplitDigits(v: Fraction, scale: nat, m: nat, scaled: nat, whole: nat, part: nat)
    requires v.denominator >= 1 && scale >= 1 && Divides(v.denominator, scale) && m == Quotient(scale, v.denominator)
    requires scaled == Product(v.Magnitude(), m) && whole == Quotient(scaled, scale) && part == Remainder(scaled, scale)
    ensures v.Magnitude() as real / v.denominator as real == whole as real + part as real / scale as real
  {
    QuotientExists(v.denominator, scale);
    SplitValue(v.Magnitude(), v.denominator, m, scale, whole, part);
  }

  lemma NegativeRatio(n: real, d: real)
    requires d >= 1.0
    ensures n / d == -((-n) / d)
  {
    assert n / d * d == n && (-n) / d * d == -n;
    assert (n / d + (-n) / d) * d == 0.0;
  }

  lemma NegatedRatio(v: Fraction)
    requires v.denominator >= 1
    ensures v.Value() == (if v.numerator < 0 then -(v.Magnitude() as real / v.denominator as real)
                          else v.Magnitude() as real / v.denominator as real)
  {
    if v.numerator < 0 {
      var n, d := v.numerator as real, v.denominator as real;
      assert v.Magnitude() as real == -n;
      NegativeRatio(n, d);
      assert v.Value() == n / d;
    }
  }

  /** A number whose hundred-thousandfold is whole always prints. */
  lemma ShortOfWhole(v: Fraction)
    requires v.Reduced() && (v.Value() * 100000.0).Floor as real == v.Value() * 100000.0
    ensures IsShort(v)
  {
    var w := (v.Value() * 100000.0).Floor;
    Cleared(v.numerator as real, v.denominator as real, v.Value(), w as real);
    assert (v.numerator * 100000) as real == (v.denominator * w) as real;
    var a: int := if v.numerator < 0 then -w else w;
    assert v.Magnitude() * 100000 == v.denominator * a;
    DivideMultiple(v.denominator, v.Magnitude() * 100000, a);
    ReducedDenominatorDivides(v, 100000);
    assert Pow10(5) == 100000;
    Pow10Divides(5, 12);
    DividesTransitive(v.denominator, 100000, Pow10(12));
  }

  lemma Cleared(n: real, d: real, v: real, w: real)
    requires d >= 1.0 && v == n / d && w == v * 100000.0
    ensures n * 100000.0 == d * w
  {
    assert v * d == n;
  }
}
