/** One value of a table cell, as pandas and openpyxl hold it, together with
    the few Python operations the report applies to a single value:
    `str()`, truthiness, `isinstance(v, (int, float))` and the numeric
    ordering used for ranking. */
module Cells {
  import opened Numbers
  import opened Strings

  /** A cell value. `Float(m, e)` is the float whose shortest `repr` is the
      decimal `m / 10^e`; `NaN` is pandas' missing value; `Inf` is the
      float infinity; `Text` is a Python `str`. */
  datatype Cell =
    | Int(i: int)
    | Float(mantissa: int, exp: nat)
    | NaN
    | Inf(negative: bool)
    | Text(s: string)

  /** `isinstance(v, (int, float))`: a value of an int64/float64 column. */
  predicate IsNumber(c: Cell) {
    !c.Text?
  }

  predicate IsFinite(c: Cell) {
    c.Int? || c.Float?
  }

  function FiniteValue(c: Cell): real
    requires IsFinite(c)
  {
    match c
    case Int(i) => i as real
    case Float(m, e) => DecimalValue(Decimal(m, e))
  }

  /** A float equal to an integer (`value == int(value)`). */
  predicate IsIntegralFloat(c: Cell) {
    c.Float? && c.mantissa % Pow10(c.exp) == 0
  }

  /** `int(value)` of an integral float. */
  function IntegralPart(c: Cell): int
    requires IsIntegralFloat(c)
  {
    c.mantissa / Pow10(c.exp)
  }

  lemma IntegralPartValue(c: Cell)
    requires IsIntegralFloat(c)
    ensures IntegralPart(c) as real == FiniteValue(c)
  {
    var p := Pow10(c.exp);
    var q := c.mantissa / p;
    assert c.mantissa == q * p;
    assert (q * p) as real == q as real * p as real;
  }

  /** The digits after the decimal point of `f / 10^e` (with `f < 10^e`),
      without trailing zeros; "0" when there are none. */
  function FractionDigits(f: nat, e: nat): (s: string)
    ensures |s| >= 1
  {
    if f == 0 then "0"
    else
      var stripped := StripTrailingZeros(ZFill(NatToString(f), e));
      if |stripped| == 0 then "0" else stripped
  }

  /** `s` without its trailing zeros. */
  function StripTrailingZeros(s: string): (r: string)
    ensures |r| <= |s| && r == s[..|r|]
    ensures |r| == 0 || r[|r| - 1] != '0'
    ensures forall i :: |r| <= i < |s| ==> s[i] == '0'
    decreases |s|
  {
    if |s| > 0 && s[|s| - 1] == '0' then StripTrailingZeros(s[..|s| - 1]) else s
  }

  /** Python's positional float text: `repr(x)`, or `f"{x:,}"` when
      `grouped`, for the float `m / 10^e`. */
  function DecimalText(m: int, e: nat, grouped: bool): (s: string)
    ensures |s| >= 1
    ensures s[0] == '-' <==> m < 0
    ensures '.' in s
  {
    var a := Abs(m);
    var whole := WholeDigits(WholePart(a, e), grouped);
    var unsigned := whole + "." + FractionDigits(FractionPart(a, e), e);
    assert unsigned[0] == whole[0] && unsigned[|whole|] == '.';
    if m < 0 then "-" + unsigned else unsigned
  }

  function WholePart(a: nat, e: nat): nat {
    NatDiv(a, Pow10(e))
  }

  function NatDiv(a: nat, p: nat): (q: nat)
    requires p > 0
  {
    a / p
  }

  function FractionPart(a: nat, e: nat): nat {
    a % Pow10(e)
  }

  /** The digits of `n`, grouped in threes when `grouped`. */
  function WholeDigits(n: nat, grouped: bool): (s: string)
    ensures |s| >= 1 && IsDigit(s[0])
    ensures StripCommas(s) == NatToString(n)
    ensures grouped ==> IsGrouped(s)
    ensures !grouped ==> AllDigits(s)
    ensures forall i :: 0 <= i < |s| ==> s[i] != '.'
  {
    if grouped then
      GroupedChars(GroupDigits(NatToString(n)));
      GroupDigits(NatToString(n))
    else
      StripCommasNoComma(NatToString(n));
      NatToString(n)
  }

  /** The fraction digits of a positive remainder `f < 10^e` are at most
      `e` digits ending in a non-zero one that, read as a number and padded
      back to `e` places, give `f`; a zero remainder is written "0". */
  lemma FractionDigitsValue(f: nat, e: nat)
    requires f < Pow10(e)
    ensures var s := FractionDigits(f, e);
            && AllDigits(s)
            && (s == "0" <==> f == 0)
            && (f > 0 ==> |s| <= e && s[|s| - 1] != '0' && DigitsValue(s) * Pow10(e - |s|) == f)
  {
    if f > 0 {
      PositiveFraction(f, e);
      var r := StripTrailingZeros(ZFill(NatToString(f), e));
      assert FractionDigits(f, e) == r;
      assert r != "0" by {
        assert r[|r| - 1] != '0';
      }
    } else {
      assert FractionDigits(f, e) == "0";
    }
  }

  /** A positive remainder's digits, padded to `e` places and stripped of
      trailing zeros, are a non-empty run that denotes it. */
  lemma PositiveFraction(f: nat, e: nat)
    requires 0 < f < Pow10(e)
    ensures var r := StripTrailingZeros(ZFill(NatToString(f), e));
            && AllDigits(r) && 0 < |r| <= e && r[|r| - 1] != '0'
            && DigitsValue(r) * Pow10(e - |r|) == f
  {
    var ds := NatToString(f);
    DigitsFit(f, e);
    ZFillValue(ds, e);
    var z := ZFill(ds, e);
    StripValue(z);
  }

  /** The digits of `f < 10^e` number at most `e`. */
  lemma DigitsFit(f: nat, e: nat)
    requires 0 < f < Pow10(e)
    ensures |NatToString(f)| <= e
  {
    var ds := NatToString(f);
    LeadingDigitBound(ds);
    if |ds| > e {
      Pow10Monotone(e, |ds| - 1);
    }
  }

  /** Padding digits with leading zeros keeps the number they denote. */
  lemma ZFillValue(ds: string, e: nat)
    requires AllDigits(ds) && |ds| <= e
    ensures |ZFill(ds, e)| == e && AllDigits(ZFill(ds, e))
    ensures DigitsValue(ZFill(ds, e)) == DigitsValue(ds)
  {
    var z := ZFill(ds, e);
    if |ds| < e {
      var pad := |z| - |ds|;
      assert z == z[..pad] + ds;
      ZerosValue(z[..pad]);
      DigitsValueConcat(z[..pad], ds);
    }
  }

  /** Dropping trailing zeros divides the number by a power of ten. */
  lemma StripValue(z: string)
    requires AllDigits(z)
    ensures var r := StripTrailingZeros(z);
            AllDigits(r) && DigitsValue(r) * Pow10(|z| - |r|) == DigitsValue(z)
  {
    var r := StripTrailingZeros(z);
    var tail := z[|r|..];
    assert z == r + tail;
    ZerosValue(tail);
    DigitsValueConcat(r, tail);
  }

  /** The text of `m / 10^e`: an optional '-', the digits of the whole part
      `|m| div 10^e` (with commas in threes when `grouped`), a point, and
      the fraction digits of `|m| mod 10^e`. */
  lemma DecimalTextParts(m: int, e: nat, grouped: bool)
    ensures var s := DecimalText(m, e, grouped);
            var body := if m < 0 then s[1..] else s;
            var k := IndexOf(body, '.');
            && k < |body|
            && StripCommas(body[..k]) == NatToString(Abs(m) / Pow10(e))
            && (grouped ==> IsGrouped(body[..k]))
            && (!grouped ==> AllDigits(body[..k]))
            && body[k + 1..] == FractionDigits(Abs(m) % Pow10(e), e)
  {
    var s := DecimalText(m, e, grouped);
    var a := Abs(m);
    var whole := WholeDigits(WholePart(a, e), grouped);
    var frac := FractionDigits(FractionPart(a, e), e);
    var unsigned := whole + "." + frac;
    assert s == if m < 0 then "-" + unsigned else unsigned;
    assert (if m < 0 then s[1..] else s) == unsigned;
    PointAfter(whole, frac);
  }

  /** In `whole + "." + frac` with no point in `whole`, the first point
      separates the two. */
  lemma PointAfter(whole: string, frac: string)
    requires forall i :: 0 <= i < |whole| ==> whole[i] != '.'
    ensures var t := whole + "." + frac;
            var k := IndexOf(t, '.');
            k == |whole| && t[..k] == whole && t[k + 1..] == frac
  {
    var t := whole + "." + frac;
    assert forall i :: 0 <= i < |whole| ==> t[i] == whole[i];
    assert t[|whole|] == '.';
    assert t[..|whole|] == whole;
    assert t[|whole| + 1..] == frac;
  }

  /** Python's `str(value)`: the digits of an int, the positional text of
      a float (always with a point), "nan", "inf" or "-inf", and a string
      itself. */
  function Repr(c: Cell): (s: string)
    ensures c.Int? ==> s == IntToString(c.i)
    ensures c.Float? ==> '.' in s && (s[0] == '-' <==> c.mantissa < 0)
    ensures c.NaN? ==> s == "nan"
    ensures c.Inf? ==> s == (if c.negative then "-inf" else "inf")
    ensures c.Text? ==> s == c.s
  {
    match c
    case Int(i) => IntToString(i)
    case Float(m, e) => DecimalText(m, e, false)
    case NaN => "nan"
    case Inf(neg) => if neg then "-inf" else "inf"
    case Text(s) => s
  }

  /** Python truthiness (`if value:`). NaN and infinities are truthy. */
  predicate Truthy(c: Cell) {
    match c
    case Int(i) => i != 0
    case Float(m, _) => m != 0
    case NaN => true
    case Inf(_) => true
    case Text(s) => s != ""
  }

  /** The sign of a number as Python compares it with 0; NaN compares false
      both ways and so has sign 0 here. */
  function Sign(c: Cell): int
    requires IsNumber(c)
  {
    match c
    case Int(i) => if i > 0 then 1 else if i < 0 then -1 else 0
    case Float(m, _) => if m > 0 then 1 else if m < 0 then -1 else 0
    case NaN => 0
    case Inf(neg) => if neg then -1 else 1
  }

  lemma SignOfFinite(c: Cell)
    requires IsFinite(c)
    ensures Sign(c) > 0 <==> FiniteValue(c) > 0.0
    ensures Sign(c) < 0 <==> FiniteValue(c) < 0.0
  {
    if c.Float? {
      var p := Pow10(c.exp) as real;
      assert p > 0.0;
      assert FiniteValue(c) == c.mantissa as real / p;
    }
  }

  /** `a <= b` on the non-missing numbers, infinities at the ends. */
  predicate NumLe(a: Cell, b: Cell)
    requires IsNumber(a) && !a.NaN? && IsNumber(b) && !b.NaN?
  {
    if a.Inf? then a.negative || (b.Inf? && !b.negative)
    else if b.Inf? then !b.negative
    else FiniteValue(a) <= FiniteValue(b)
  }

  /** Any two non-missing numbers are ordered one way or the other. */
  lemma NumLeTotal(a: Cell, b: Cell)
    requires IsNumber(a) && !a.NaN? && IsNumber(b) && !b.NaN?
    ensures NumLe(a, b) || NumLe(b, a)
  {
  }

  lemma NumLeTransitive(a: Cell, b: Cell, c: Cell)
    requires IsNumber(a) && !a.NaN? && IsNumber(b) && !b.NaN? && IsNumber(c) && !c.NaN?
    requires NumLe(a, b) && NumLe(b, c)
    ensures NumLe(a, c)
  {
  }
}
