/** Integer helpers for the report's money arithmetic: powers of ten, exact
    decimals, and Python's `round()` applied to an exact quotient. */
module Numbers {

  function Abs(n: int): nat {
    if n < 0 then -n else n
  }

  function Max(a: int, b: int): int {
    if a < b then b else a
  }

  function Min(a: int, b: int): int {
    if a < b then a else b
  }

  function Pow10(k: nat): (r: nat)
    ensures r >= 1
  {
    if k == 0 then 1 else 10 * Pow10(k - 1)
  }

  lemma Pow10Add(a: nat, b: nat)
    ensures Pow10(a + b) == Pow10(a) * Pow10(b)
    decreases a
  {
    if a > 0 {
      Pow10Add(a - 1, b);
      assert Pow10(a + b) == 10 * Pow10(a - 1 + b);
    }
  }

  lemma Pow10Monotone(a: nat, b: nat)
    requires a <= b
    ensures Pow10(a) <= Pow10(b)
  {
    Pow10Add(a, b - a);
    assert Pow10(b) == Pow10(a) * Pow10(b - a);
  }

  /** The real of a product is the product of the reals. */
  lemma CastMul(a: int, b: int)
    ensures (a * b) as real == a as real * b as real
  {
  }

  /** Dividing twice is dividing by the product. */
  lemma DivDiv(x: real, p: real, q: real)
    requires p != 0.0 && q != 0.0
    ensures x / p / q == x / (p * q)
  {
  }

  /** One hundred million (10^8), the size of the Korean unit 억. */
  const Eok: nat := 100_000_000

  lemma EokIsPow10()
    ensures Pow10(8) == Eok
  {
    assert Pow10(1) == 10;
    assert Pow10(2) == 100;
    assert Pow10(4) == 10_000;
  }

  /** An exact decimal number `mantissa / 10^exp`. A Python float is
      represented by the decimal its shortest `repr` prints. */
  datatype Decimal = Decimal(mantissa: int, exp: nat)

  function DecimalValue(d: Decimal): real {
    d.mantissa as real / Pow10(d.exp) as real
  }

  /** `q` is the integer nearest to `n / d`, ties going to the even
      neighbour: the result of Python's `round(n / d)` on exact numbers. */
  predicate RoundsHalfEven(n: int, d: int, q: int)
    requires d > 0
  {
    && 2 * Abs(n - q * d) <= d
    && (2 * Abs(n - q * d) == d ==> q % 2 == 0)
  }

  function RAbs(x: real): real {
    if x < 0.0 then -x else x
  }

  /** `q` is the integer nearest to the real `x`, ties going to the even
      neighbour: Python's `round(x)`. */
  predicate NearestEven(x: real, q: int) {
    && 2.0 * RAbs(x - q as real) <= 1.0
    && (2.0 * RAbs(x - q as real) == 1.0 ==> q % 2 == 0)
  }

  /** The integer statement of rounding agrees with rounding the exact
      quotient. */
  lemma RoundsHalfEvenIsNearest(n: int, d: int, q: int)
    requires d > 0
    ensures RoundsHalfEven(n, d, q) <==> NearestEven(n as real / d as real, q)
  {
    ScaledError(n, d, q);
    TwiceAgainst(Abs(n - q * d), RAbs(n as real / d as real - q as real), d);
  }

  /** The integer remainder `n - q*d` is the real error `n/d - q` scaled
      by `d`. */
  lemma ScaledError(n: int, d: int, q: int)
    requires d > 0
    ensures Abs(n - q * d) as real == RAbs(n as real / d as real - q as real) * d as real
  {
    var dr := d as real;
    var err := n as real / dr - q as real;
    assert n as real / dr * dr == n as real;
    assert (q * d) as real == q as real * dr;
    assert (n - q * d) as real == err * dr;
  }

  /** Twice an error `a = e * d` reaches `d` exactly when twice `e`
      reaches 1. */
  lemma TwiceAgainst(a: int, e: real, d: int)
    requires d > 0 && a as real == e * d as real
    ensures 2 * a <= d <==> 2.0 * e <= 1.0
    ensures 2 * a == d <==> 2.0 * e == 1.0
  {
    var r := d as real;
    var x := 2.0 * e - 1.0;
    assert (2 * a - d) as real == x * r;
    if x > 0.0 {
      assert x * r > 0.0;
    } else if x < 0.0 {
      assert x * r < 0.0;
    }
  }

  /** Python's `round(n / d)` for a positive divisor, computed exactly. */
  function RoundHalfEven(n: int, d: int): (q: int)
    requires d > 0
    ensures RoundsHalfEven(n, d, q)
  {
    var f := n / d;
    var rem := n % d;
    assert n == f * d + rem;
    if 2 * rem < d then f
    else if 2 * rem > d then f + 1
    else if f % 2 == 0 then f
    else f + 1
  }

  /** The rounding is determined by its specification: no other integer is
      nearest-with-ties-to-even. */
  lemma RoundHalfEvenUnique(n: int, d: int, q: int)
    requires d > 0
    requires RoundsHalfEven(n, d, q)
    ensures q == RoundHalfEven(n, d)
  {
    var p := RoundHalfEven(n, d);
    if q < p {
      MulGap(q, p, d);
      assert false;
    } else if p < q {
      MulGap(p, q, d);
      assert false;
    }
  }

  /** Multiples of `d` at distinct factors are at least `d` apart, and at
      least `2 * d` apart unless the factors are neighbours. */
  lemma MulGap(lo: int, hi: int, d: int)
    requires lo < hi && d > 0
    ensures hi * d - lo * d >= d
    ensures hi - lo >= 2 ==> hi * d - lo * d >= 2 * d
  {
    var k := hi - lo;
    Distribute(hi, lo, d);
    MulAtLeast(k, d);
  }

  lemma Distribute(a: int, b: int, d: int)
    ensures a * d - b * d == (a - b) * d
  {
  }

  /** `k` copies of a positive `d` are at least `k` when counted in `d`s:
      at least `d` for `k >= 1` and at least `2 * d` for `k >= 2`. */
  lemma {:induction false} MulAtLeast(k: nat, d: int)
    requires d > 0
    ensures k >= 1 ==> k * d >= d
    ensures k >= 2 ==> k * d >= 2 * d
    decreases k
  {
    if k > 1 {
      MulAtLeast(k - 1, d);
      assert k * d == (k - 1) * d + d;
    }
  }
}
