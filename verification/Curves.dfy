/** The reward curves of libraries/chain/util/reward.cpp. */
module Curves {
  import opened Arithmetic

  datatype Curve = Quadratic | QuadraticCuration | Linear | SquareRoot

  function Pow2(n: nat): (p: nat)
    ensures p > 0
  {
    if n == 0 then 1 else 2 * Pow2(n - 1)
  }

  /** Position of the highest set bit. */
  function Msb(x: nat): (m: nat)
    requires x > 0
    ensures Pow2(m) <= x < Pow2(m + 1)
  {
    if x < 2 then 0 else 1 + Msb(x / 2)
  }

  /** Quotient, rounded down. */
  function Ratio(n: nat, d: nat): (q: nat)
    requires d > 0
    ensures q * d <= n < (q + 1) * d
  {
    QuotientBounds(n, d);
    n / d
  }

  /**
    approx_sqrt: half the exponent, and the mantissa shifted with it.  The
    source's bitwise ors join disjoint bits (SqrtMantissaFits), so they are sums.
   */
  function ApproxSqrt(x: nat): nat
  {
    if x == 0 then 0
    else
      var m := Msb(x);
      var z := m / 2;
      Pow2(z) + ((if m % 2 == 1 then Pow2(z) else 0) + Ratio(x - Pow2(m), Pow2(m - z))) / 2
  }

  const TWO_64: nat := 0x1_0000_0000_0000_0000

  function SquareGain(r: nat, s: nat): nat
  {
    assert (r + s) * (r + s) == r * r + 2 * (r * s) + s * s;
    (r + s) * (r + s) - s * s
  }

  /** evaluate_reward_curve */
  function Evaluate(c: Curve, rshares: nat, constant: nat): nat
    requires constant > 0
  {
    match c
    case Quadratic => SquareGain(rshares, constant)
    case QuadraticCuration => Ratio(rshares * TWO_64, 2 * constant + rshares)
    case Linear => rshares
    case SquareRoot => ApproxSqrt(rshares)
  }

  // ------------------------------------------------------------- monotonicity

  lemma {:induction false} Pow2Adds(a: nat, b: nat)
    ensures Pow2(a + b) == Pow2(a) * Pow2(b)
  {
    if a > 0 {
      Pow2Adds(a - 1, b);
      assert Pow2(a + b) == 2 * Pow2(a - 1 + b);
    }
  }

  lemma {:induction false} Pow2Monotone(a: nat, b: nat)
    requires a <= b
    ensures Pow2(a) <= Pow2(b)
  {
    if a < b {
      Pow2Monotone(a, b - 1);
    }
  }

  lemma MsbMonotone(x: nat, y: nat)
    requires 0 < x <= y
    ensures Msb(x) <= Msb(y)
  {
    if Msb(y) < Msb(x) {
      Pow2Monotone(Msb(y) + 1, Msb(x));
    }
  }

  /** The shifted mantissa stays below the leading bit of the result. */
  lemma SqrtMantissaFits(x: nat)
    requires x > 0
    ensures var m := Msb(x); Ratio(x - Pow2(m), Pow2(m - m / 2)) < Pow2(m / 2)
  {
    var m := Msb(x);
    var z := m / 2;
    Pow2Adds(z, m - z);
    var rest := x - Pow2(m);
    assert rest < Pow2(m) == Pow2(z) * Pow2(m - z);
    QuotientBounds(rest, Pow2(m - z));
    QuotientBelow(rest, Pow2(m - z), Pow2(z));
  }

  /** The value the curve takes at 2^m. */
  ghost function SqrtBase(m: nat): nat
  {
    Pow2(m / 2) + (if m % 2 == 1 then Pow2(m / 2) else 0) / 2
  }

  lemma {:induction false} SqrtBaseMonotone(a: nat, b: nat)
    requires a <= b
    ensures SqrtBase(a) <= SqrtBase(b)
  {
    if a < b {
      SqrtBaseMonotone(a, b - 1);
      if b % 2 == 1 {
        assert (b - 1) / 2 == b / 2;
      } else {
        assert b / 2 == (b - 1) / 2 + 1;
      }
    }
  }

  lemma Halves(p: nat, lo: nat)
    requires lo < p
    ensures p <= p + lo / 2 <= p + p / 2
    ensures p + p / 2 <= p + (p + lo) / 2 <= 2 * p
  {
  }

  lemma NextPower(z: nat)
    ensures Pow2(z + 1) == 2 * Pow2(z)
  {
  }

  lemma SqrtBracket(x: nat)
    requires x > 0
    ensures SqrtBase(Msb(x)) <= ApproxSqrt(x) <= SqrtBase(Msb(x) + 1)
  {
    hide Msb, Ratio, Pow2;
    var m := Msb(x);
    SqrtMantissaFits(x);
    Halves(Pow2(m / 2), Ratio(x - Pow2(m), Pow2(m - m / 2)));
    NextPower(m / 2);
    if m % 2 == 0 {
      assert (m + 1) / 2 == m / 2 && (m + 1) % 2 == 1;
    } else {
      assert (m + 1) / 2 == m / 2 + 1 && (m + 1) % 2 == 0;
    }
  }

  lemma SqrtMonotone(x: nat, y: nat)
    requires x <= y
    ensures ApproxSqrt(x) <= ApproxSqrt(y)
  {
    if 0 < x {
      MsbMonotone(x, y);
      if Msb(x) == Msb(y) {
        var m := Msb(x);
        QuotientMonotone(x - Pow2(m), y - Pow2(m), Pow2(m - m / 2));
      } else {
        SqrtBracket(x);
        SqrtBracket(y);
        SqrtBaseMonotone(Msb(x) + 1, Msb(y));
      }
    }
  }

  lemma SquareMonotone(x: nat, y: nat)
    requires x <= y
    ensures x * x <= y * y
  {
    MulMono(x, y, x);
    MulMono(x, y, y);
  }

  /** Every curve is monotone, so a larger vote never lowers the total weight. */
  lemma CurveMonotone(c: Curve, x: nat, y: nat, constant: nat)
    requires constant > 0 && x <= y
    ensures Evaluate(c, x, constant) <= Evaluate(c, y, constant)
  {
    match c {
      case Quadratic =>
        SquareMonotone(x + constant, y + constant);
      case QuadraticCuration =>
        var B := TWO_64;
        MulMono(x, y, 2 * constant);
        assert x * (2 * constant + y) <= y * (2 * constant + x);
        MulMono(x * (2 * constant + y), y * (2 * constant + x), B);
        assert (x * B) * (2 * constant + y) == (x * (2 * constant + y)) * B;
        assert (y * B) * (2 * constant + x) == (y * (2 * constant + x)) * B;
        FractionMonotone(x * B, 2 * constant + x, y * B, 2 * constant + y);
      case Linear =>
      case SquareRoot => SqrtMonotone(x, y);
    }
  }

  // ------------------------------------------------------------- what the curves compute

  /**
    The square of the shifted rshares less that of the shift, a saturating fraction of 2^64, or the
    rshares themselves.
   */
  lemma CurveValues(rshares: nat, constant: nat)
    requires constant > 0
    ensures Evaluate(Quadratic, rshares, constant) + constant * constant == (rshares + constant) * (rshares + constant)
    ensures var v := Evaluate(QuadraticCuration, rshares, constant);
      v * (2 * constant + rshares) <= rshares * TWO_64 < (v + 1) * (2 * constant + rshares)
    ensures Evaluate(Linear, rshares, constant) == rshares
    ensures Evaluate(SquareRoot, rshares, constant) == ApproxSqrt(rshares)
  {
  }

  /** The square of y exceeds x by an eighth of x at most, and that of y + 1 exceeds x. */
  ghost predicate SquareRootOf(x: nat, y: nat)
  {
    8 * (y * y) <= 9 * x && x < (y + 1) * (y + 1)
  }

  /** The approximate square root is a square root. */
  lemma SqrtAccurate(x: nat)
    requires x > 0
    ensures SquareRootOf(x, ApproxSqrt(x))
  {
    hide *;
    var m := Msb(x);
    SqrtMantissaFits(x);
    if m % 2 == 0 {
      EvenParts(x, m / 2);
      EvenAccurate(x, Pow2(m / 2), x - Pow2(m), Ratio(x - Pow2(m), Pow2(m / 2)));
    } else {
      OddParts(x, m / 2);
      OddAccurate(x, Pow2(m / 2), x - Pow2(m), Ratio(x - Pow2(m), 2 * Pow2(m / 2)));
    }
  }

  lemma EvenParts(x: nat, z: nat)
    requires x > 0 && Msb(x) == 2 * z
    ensures Pow2(2 * z) == Pow2(z) * Pow2(z)
    ensures ApproxSqrt(x) == Pow2(z) + Ratio(x - Pow2(2 * z), Pow2(z)) / 2
  {
    hide Ratio, Msb;
    Pow2Adds(z, z);
    assert 2 * z - z == z && z + z == 2 * z;
  }

  lemma OddParts(x: nat, z: nat)
    requires x > 0 && Msb(x) == 2 * z + 1
    ensures Pow2(2 * z + 1) == Pow2(z) * (2 * Pow2(z)) && Pow2(2 * z + 1 - z) == 2 * Pow2(z)
    ensures ApproxSqrt(x) == Pow2(z) + (Pow2(z) + Ratio(x - Pow2(2 * z + 1), 2 * Pow2(z))) / 2
  {
    hide Ratio, Msb, Pow2;
    NextPower(z);
    Pow2Adds(z, z + 1);
    assert 2 * z + 1 - z == z + 1 && z + (z + 1) == 2 * z + 1;
  }

  lemma SquareOfSum(a: int, b: int)
    ensures (a + b) * (a + b) == a * a + 2 * (b * a) + b * b
  {
  }

  lemma EvenAccurate(x: nat, p: nat, rest: nat, t: nat)
    requires p > 0 && x == p * p + rest && t * p <= rest < (t + 1) * p && t < p
    ensures SquareRootOf(x, p + t / 2)
  {
    var h := t / 2;
    MulMono(2 * h, t, p);
    MulMono(t + 1, 2 * h + 2, p);
    EvenLower(p, h);
    EvenUpper(p, h);
  }

  /** With h at most half of p. */
  lemma EvenLower(p: nat, h: nat)
    requires 2 * h <= p
    ensures 8 * ((p + h) * (p + h)) <= 9 * (p * p + 2 * h * p)
  {
    SquareOfSum(p, h);
    MulMono(2 * h, p, h);
    MulMono(0, h, p);
    assert 2 * h * h == 2 * (h * h) && 2 * h * p == 2 * (h * p) && p * h == h * p;
    MulMono(2 * h, p, p);
  }

  lemma EvenUpper(p: nat, h: nat)
    ensures p * p + (2 * h + 2) * p <= (p + h + 1) * (p + h + 1)
  {
    SquareOfSum(p, h + 1);
    MulMono(0, h + 1, h + 1);
    assert (2 * h + 2) * p == 2 * ((h + 1) * p);
  }

  lemma OddAccurate(x: nat, p: nat, rest: nat, t: nat)
    requires p > 0 && x == p * (2 * p) + rest && t * (2 * p) <= rest < (t + 1) * (2 * p) && t < p
    ensures SquareRootOf(x, p + (p + t) / 2)
  {
    var y := p + (p + t) / 2;
    Doubled(p, p);
    Doubled(t, p);
    Doubled(t + 1, p);
    OddLower(p, t, y);
    OddUpper(p, t + 1, y + 1);
  }

  lemma Doubled(a: nat, b: nat)
    ensures a * (2 * b) == 2 * (a * b)
  {
  }

  lemma OddLower(p: nat, t: nat, y: nat)
    requires t < p && 2 * y <= 3 * p + t
    ensures 8 * (y * y) <= 9 * (2 * (p * p) + 2 * (t * p))
  {
    SquareMonotone(2 * y, 3 * p + t);
    DoubleSquare(y);
    SquareOfSum(3 * p, t);
    TripleSquare(p, t);
    MulMono(t, p, t);
    assert p * t == t * p;
  }

  lemma OddUpper(p: nat, u: nat, y: nat)
    requires u <= p && 3 * p + u <= 2 * y
    ensures 2 * (p * p) + 2 * (u * p) <= y * y
  {
    SquareMonotone(3 * p + u, 2 * y);
    DoubleSquare(y);
    SquareOfSum(3 * p, u);
    TripleSquare(p, u);
    SquareOfSum(p, 0 - u);
    assert (0 - u) * p == 0 - u * p && (0 - u) * (0 - u) == u * u;
    SquareOfInt(p - u);
  }

  lemma DoubleSquare(y: nat)
    ensures (2 * y) * (2 * y) == 4 * (y * y)
  {
  }

  lemma TripleSquare(p: nat, u: nat)
    ensures (3 * p) * (3 * p) == 9 * (p * p) && u * (3 * p) == 3 * (u * p)
  {
  }

  lemma SquareOfInt(a: int)
    ensures 0 <= a * a
  {
  }

  // ------------------------------------------------------------- 128-bit arithmetic

  const TWO_128: nat := 0x1_0000_0000_0000_0000_0000_0000_0000_0000

  ghost function Wrap(x: int): (r: nat)
    ensures 0 <= x < TWO_128 ==> r == x
  {
    x % TWO_128
  }

  /**
    The curves with every sum, product and difference cut to 128 bits; the curation curve takes the
    low half of rshares.
   */
  ghost function EvaluateWrapped(c: Curve, rshares: nat, constant: nat): nat
    requires constant > 0
  {
    match c
    case Quadratic =>
      var sum := Wrap(rshares + constant);
      Wrap(Wrap(sum * sum) - Wrap(constant * constant))
    case QuadraticCuration =>
      var d := Wrap(Wrap(constant * 2) + rshares);
      if d == 0 then 0 else Ratio((rshares % TWO_64) * TWO_64, d)
    case Linear => rshares
    case SquareRoot => ApproxSqrt(rshares)
  }

  /** For a signed 64-bit number of rshares, and a constant of no more, nothing is cut off. */
  lemma CurveFits(c: Curve, rshares: nat, constant: nat)
    requires rshares < TWO_64 / 2 && 0 < constant < TWO_64 / 2
    ensures EvaluateWrapped(c, rshares, constant) == Evaluate(c, rshares, constant)
  {
    hide Ratio, ApproxSqrt;
    match c {
      case Quadratic => QuadraticFits(rshares, constant);
      case QuadraticCuration =>
        var d := 2 * constant + rshares;
        assert Wrap(Wrap(constant * 2) + rshares) == d && rshares % TWO_64 == rshares;
      case Linear =>
      case SquareRoot =>
    }
  }

  lemma QuadraticFits(rshares: nat, constant: nat)
    requires rshares < TWO_64 / 2 && 0 < constant < TWO_64 / 2
    ensures EvaluateWrapped(Quadratic, rshares, constant) == Evaluate(Quadratic, rshares, constant)
  {
    SquareMonotone(rshares + constant, TWO_64 - 1);
    SquareMonotone(constant, rshares + constant);
  }
}
