/** The string side of the report: decimal digits, Python's `str(int)` and
    `f"{n:,}"`, comma stripping and the inverse parse, `str.zfill`, and
    case-insensitive substring search. Characters are Unicode code points,
    as Python's `str` counts them. */
module Strings {
  import opened Numbers
  import opened Options

  predicate IsDigit(c: char) {
    '0' <= c <= '9'
  }

  predicate AllDigits(s: string) {
    forall i :: 0 <= i < |s| ==> IsDigit(s[i])
  }

  function DigitChar(d: nat): (c: char)
    requires d < 10
    ensures IsDigit(c)
  {
    (d + 48) as char
  }

  function DigitValue(c: char): (d: nat)
    requires IsDigit(c)
    ensures d < 10
  {
    c as int - 48
  }

  /** The number a string of decimal digits denotes ("" denotes 0). */
  function DigitsValue(s: string): nat
    requires AllDigits(s)
    decreases |s|
  {
    if |s| == 0 then 0 else DigitsValue(s[..|s| - 1]) * 10 + DigitValue(s[|s| - 1])
  }

  /** The digits of `a + b` denote `a`'s number shifted left by `b`'s
      length, plus `b`'s. */
  lemma {:induction false} DigitsValueConcat(a: string, b: string)
    requires AllDigits(a) && AllDigits(b)
    ensures AllDigits(a + b)
    ensures DigitsValue(a + b) == DigitsValue(a) * Pow10(|b|) + DigitsValue(b)
    decreases |b|
  {
    if |b| == 0 {
      assert a + b == a;
    } else {
      var front := b[..|b| - 1];
      var d := DigitValue(b[|b| - 1]);
      DigitsValueConcat(a, front);
      assert (a + b)[..|a + b| - 1] == a + front;
      assert (a + b)[|a + b| - 1] == b[|b| - 1];
      assert DigitsValue(a + b) == DigitsValue(a + front) * 10 + d;
      assert DigitsValue(b) == DigitsValue(front) * 10 + d;
      assert Pow10(|b|) == 10 * Pow10(|front|);
      ShiftDigit(DigitsValue(a), DigitsValue(front), Pow10(|front|), d);
    }
  }

  lemma ShiftDigit(x: int, y: int, p: int, d: int)
    ensures (x * p + y) * 10 + d == x * (10 * p) + (y * 10 + d)
  {
  }

  /** A string of zeros denotes 0. */
  lemma {:induction false} ZerosValue(z: string)
    requires AllZeros(z)
    ensures AllDigits(z) && DigitsValue(z) == 0
    decreases |z|
  {
    if |z| > 0 {
      ZerosValue(z[..|z| - 1]);
    }
  }

  /** Digits that do not start with '0' denote at least `10^(length - 1)`. */
  lemma LeadingDigitBound(s: string)
    requires |s| >= 1 && AllDigits(s) && s[0] != '0'
    ensures DigitsValue(s) >= Pow10(|s| - 1)
  {
    DigitsValueConcat([s[0]], s[1..]);
    assert [s[0]] + s[1..] == s;
    assert [s[0]][..0] == [];
    assert DigitsValue([s[0]]) >= 1;
  }

  /** Python's `str(n)` for `n >= 0`: the shortest decimal spelling. Reading
      the digits back gives `n`. */
  function NatToString(n: nat): (s: string)
    ensures |s| >= 1 && AllDigits(s)
    ensures |s| > 1 ==> s[0] != '0'
    ensures s == "0" <==> n == 0
    ensures DigitsValue(s) == n
    decreases n
  {
    if n < 10 then [DigitChar(n)]
    else
      var front := NatToString(n / 10);
      var s := front + [DigitChar(n % 10)];
      assert s[..|s| - 1] == front;
      s
  }

  /** Python's `str(n)`. */
  function IntToString(n: int): (s: string)
    ensures |s| >= 1
    ensures s[0] == '-' <==> n < 0
  {
    if n < 0 then "-" + NatToString(-n) else NatToString(n)
  }

  /** `s.replace(",", "")`. */
  function StripCommas(s: string): (r: string)
    ensures forall i :: 0 <= i < |r| ==> r[i] != ','
    ensures |r| <= |s|
    decreases |s|
  {
    if |s| == 0 then ""
    else (if s[0] == ',' then "" else [s[0]]) + StripCommas(s[1..])
  }

  lemma {:induction false} StripCommasConcat(a: string, b: string)
    ensures StripCommas(a + b) == StripCommas(a) + StripCommas(b)
    decreases |a|
  {
    if |a| == 0 {
      assert a + b == b;
    } else {
      assert (a + b)[1..] == a[1..] + b;
      StripCommasConcat(a[1..], b);
    }
  }

  lemma {:induction false} StripCommasNoComma(s: string)
    requires forall i :: 0 <= i < |s| ==> s[i] != ','
    ensures StripCommas(s) == s
    decreases |s|
  {
    if |s| > 0 {
      StripCommasNoComma(s[1..]);
    }
  }

  /** A non-empty run of digits split into groups of three from the right
      by single commas; only the leftmost group may be shorter (1 to 3). */
  predicate IsGrouped(s: string)
    decreases |s|
  {
    if |s| <= 3 then 1 <= |s| && AllDigits(s)
    else
      && |s| >= 5
      && s[|s| - 4] == ','
      && AllDigits(s[|s| - 3..])
      && IsGrouped(s[..|s| - 4])
  }

  /** Grouped digits hold only digits and commas. */
  lemma {:induction false} GroupedChars(s: string)
    requires IsGrouped(s)
    ensures forall i :: 0 <= i < |s| ==> IsDigit(s[i]) || s[i] == ','
    decreases |s|
  {
    if |s| > 3 {
      var front := s[..|s| - 4];
      GroupedChars(front);
      forall i | 0 <= i < |s| ensures IsDigit(s[i]) || s[i] == ',' {
        if i < |s| - 4 {
          assert s[i] == front[i];
        } else if i > |s| - 4 {
          assert s[i] == s[|s| - 3..][i - (|s| - 3)];
        }
      }
    }
  }

  /** Inserts a comma before every group of three digits counted from the
      right. */
  function GroupDigits(ds: string): (r: string)
    requires |ds| >= 1 && AllDigits(ds)
    ensures IsGrouped(r)
    ensures StripCommas(r) == ds
    ensures |r| >= |ds|
    ensures |ds| <= 3 ==> r == ds
    ensures r[0] == ds[0]
    decreases |ds|
  {
    if |ds| <= 3 then
      StripCommasNoComma(ds);
      ds
    else
      var front := GroupDigits(ds[..|ds| - 3]);
      var back := ds[|ds| - 3..];
      GroupedStep(front, back);
      StripStep(front, back);
      assert ds == ds[..|ds| - 3] + back;
      front + "," + back
  }

  lemma GroupedStep(front: string, back: string)
    requires IsGrouped(front)
    requires |back| == 3 && AllDigits(back)
    ensures IsGrouped(front + "," + back)
  {
    var r := front + "," + back;
    assert r[..|r| - 4] == front;
    assert r[|r| - 3..] == back;
  }

  lemma StripStep(front: string, back: string)
    requires forall i :: 0 <= i < |back| ==> back[i] != ','
    ensures StripCommas(front + "," + back) == StripCommas(front) + back
  {
    StripCommasConcat(front + ",", back);
    StripCommasConcat(front, ",");
    StripCommasComma();
    assert StripCommas(front) + "" == StripCommas(front);
    StripCommasNoComma(back);
  }

  lemma StripCommasComma()
    ensures StripCommas(",") == ""
  {
    assert ","[1..] == "";
  }

  /** An optional minus sign followed by digits grouped in threes. */
  predicate CommaForm(s: string) {
    if |s| > 0 && s[0] == '-' then IsGrouped(s[1..]) else IsGrouped(s)
  }

  /** Python's `f"{n:,}"` for an integer: the sign, then the decimal digits
      of |n| grouped in threes by commas. Removing the commas gives back
      `str(n)`. */
  function FormatThousands(n: int): (s: string)
    ensures |s| >= 1
    ensures s[0] == '-' <==> n < 0
    ensures CommaForm(s)
    ensures StripCommas(s) == IntToString(n)
    ensures s == "0" <==> n == 0
  {
    if n < 0 then
      var g := GroupDigits(NatToString(-n));
      StripCommasConcat("-", g);
      assert ("-" + g)[1..] == g;
      "-" + g
    else
      GroupDigits(NatToString(n))
  }

  /** Position of the first `c` in `s`, or `|s|` when there is none. */
  function IndexOf(s: string, c: char): (k: nat)
    ensures k <= |s|
    ensures forall i :: 0 <= i < k ==> s[i] != c
    ensures k < |s| ==> s[k] == c
  {
    if |s| == 0 then 0
    else if s[0] == c then 0
    else 1 + IndexOf(s[1..], c)
  }

  /** `pandas.to_numeric` on one string, for plain decimal literals: an
      optional sign, digits, and an optional point followed by digits, with
      at least one digit in all. Anything else is unparsable (`None`). */
  function ParseNumber(s: string): (r: Option<Decimal>)
    ensures |s| == 0 ==> r == None
    ensures |s| > 0 && AllDigits(s) ==> r == Some(Decimal(DigitsValue(s), 0))
    ensures r.Some? ==> exists i :: 0 <= i < |s| && IsDigit(s[i])
  {
    if |s| > 0 && (s[0] == '-' || s[0] == '+') then
      var rest := ParseUnsigned(s[1..]);
      assert rest.Some? ==> exists i :: 0 <= i < |s| && IsDigit(s[i]) by {
        if rest.Some? {
          var i :| 0 <= i < |s[1..]| && IsDigit(s[1..][i]);
          assert s[i + 1] == s[1..][i];
        }
      }
      match rest
      case None => None
      case Some(d) => Some(if s[0] == '-' then Decimal(-d.mantissa, d.exp) else d)
    else
      ParseUnsigned(s)
  }

  /** An unsigned decimal literal: digits with an optional point, at least
      one digit in all. */
  function ParseUnsigned(body: string): (r: Option<Decimal>)
    ensures |body| > 0 && AllDigits(body) ==> r == Some(Decimal(DigitsValue(body), 0))
    ensures r.Some? ==> exists i :: 0 <= i < |body| && IsDigit(body[i])
  {
    var k := IndexOf(body, '.');
    var whole := body[..k];
    var frac := if k < |body| then body[k + 1..] else "";
    assert AllDigits(body) ==> k == |body| && whole + frac == body;
    if AllDigits(whole) && AllDigits(frac) && |whole| + |frac| > 0 then
      var j := if |whole| > 0 then 0 else k + 1;
      assert IsDigit(body[j]) by {
        if |whole| > 0 { assert body[0] == whole[0]; } else { assert body[k + 1] == frac[0]; }
      }
      Some(Decimal(DigitsValue(whole + frac), |frac|))
    else None
  }

  /** `str(n)` parses back to `n`. */
  lemma ParseIntToString(n: int)
    ensures ParseNumber(IntToString(n)) == Some(Decimal(n, 0))
  {
    if n < 0 {
      var s := IntToString(n);
      assert s[1..] == NatToString(-n);
    }
  }

  /** The writer's comma form of `n`, with its commas stripped, parses back
      to `n`. */
  lemma ParseFormatThousands(n: int)
    ensures ParseNumber(StripCommas(FormatThousands(n))) == Some(Decimal(n, 0))
  {
    ParseIntToString(n);
  }

  predicate HasSign(s: string) {
    |s| > 0 && (s[0] == '+' || s[0] == '-')
  }

  predicate AllZeros(s: string) {
    forall i :: 0 <= i < |s| ==> s[i] == '0'
  }

  function Zeros(k: nat): (z: string)
    ensures |z| == k && AllZeros(z)
  {
    seq(k, _ => '0')
  }

  /** Python's `str.zfill(width)`: pads with '0' on the left up to `width`
      characters; a leading sign stays in front of the padding, and a string
      already `width` long or longer is returned unchanged. */
  function ZFill(s: string, width: nat): (r: string)
    ensures |r| == Max(|s|, width)
    ensures |s| >= width ==> r == s
    ensures |s| < width && !HasSign(s) ==>
              r[|r| - |s|..] == s && AllZeros(r[..|r| - |s|])
    ensures |s| < width && HasSign(s) ==>
              r[0] == s[0] && r[|r| - |s| + 1..] == s[1..] && AllZeros(r[1..|r| - |s| + 1])
  {
    if |s| >= width then s
    else if HasSign(s) then
      var r := [s[0]] + Zeros(width - |s|) + s[1..];
      assert r[1..|r| - |s| + 1] == Zeros(width - |s|);
      r
    else
      var r := Zeros(width - |s|) + s;
      assert r[..|r| - |s|] == Zeros(width - |s|);
      r
  }

  /** Case folding for ASCII letters; other characters are left as they
      are. */
  function LowerChar(c: char): char {
    if 'A' <= c <= 'Z' then (c as int + 32) as char else c
  }

  function Lower(s: string): (r: string)
    ensures |r| == |s|
    ensures forall i :: 0 <= i < |s| ==> r[i] == LowerChar(s[i])
  {
    seq(|s|, i requires 0 <= i < |s| => LowerChar(s[i]))
  }

  predicate IsPrefix(needle: string, hay: string) {
    |needle| <= |hay| && hay[..|needle|] == needle
  }

  /** Left-to-right scan for an occurrence of `needle` inside `hay`. */
  predicate Contains(hay: string, needle: string)
    decreases |hay|
  {
    IsPrefix(needle, hay) || (|hay| > 0 && Contains(hay[1..], needle))
  }

  /** `needle` occurs in `hay` starting at position `i`. */
  predicate OccursAt(hay: string, needle: string, i: int) {
    0 <= i <= |hay| - |needle| && hay[i..i + |needle|] == needle
  }

  /** The scan finds `needle` exactly when it occurs at some position. */
  lemma {:induction false} ContainsIff(hay: string, needle: string)
    ensures Contains(hay, needle) <==> exists i :: OccursAt(hay, needle, i)
    decreases |hay|
  {
    if IsPrefix(needle, hay) {
      assert OccursAt(hay, needle, 0);
    }
    if |hay| > 0 {
      ContainsIff(hay[1..], needle);
      if Contains(hay[1..], needle) {
        var i :| OccursAt(hay[1..], needle, i);
        assert hay[i + 1..i + 1 + |needle|] == hay[1..][i..i + |needle|];
        assert OccursAt(hay, needle, i + 1);
      }
      if exists i :: OccursAt(hay, needle, i) {
        var i :| OccursAt(hay, needle, i);
        if i > 0 {
          assert hay[1..][i - 1..i - 1 + |needle|] == hay[i..i + |needle|];
          assert OccursAt(hay[1..], needle, i - 1);
        }
      }
    } else {
      if exists i :: OccursAt(hay, needle, i) {
        var i :| OccursAt(hay, needle, i);
        assert |needle| == 0 && hay[..0] == needle;
      }
    }
  }
}
