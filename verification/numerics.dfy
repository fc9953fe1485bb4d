/**
 * Real-number groundwork shared by the orbit model: the constant pi, Python's
 * floating-point modulo, and the transcendental functions numpy supplies.
 *
 * numpy's sin, cos, arccos and sqrt are foreign code; the model receives them as
 * a `Transcendentals` value and relies only on the facts stated by its `Valid()`.
 */
module Numerics {
  import opened Constants

  function Abs(x: real): real { if x < 0.0 then -x else x }

  function Max(a: int, b: int): int { if a < b then b else a }

  /** Python's `x % m` for a positive modulus: the remainder has the sign of `m`. */
  function PyMod(x: real, m: real): (r: real)
    requires m > 0.0
    ensures 0.0 <= r < m
  {
    var f := (x / m).Floor as real;
    DivFloorBounds(x, m, f);
    x - m * f
  }

  /** `m * f` is the largest multiple of `m` not above `x`, for `f` the floor of `x / m`. */
  lemma DivFloorBounds(x: real, m: real, f: real)
    requires m > 0.0
    requires f == (x / m).Floor as real
    ensures m * f <= x < m * f + m
  {
    MulBounds(x, m, f);
  }

  lemma MulBounds(x: real, m: real, f: real)
    requires m > 0.0
    requires f <= x / m < f + 1.0
    ensures m * f <= x < m * f + m
  {
    var q := x / m;
    ScaleLower(f, q, m);
    ScaleUpper(q, f + 1.0, m);
    assert m * q == x;
    assert m * (f + 1.0) == m * f + m;
  }

  /** Multiplying by a positive factor keeps a non-strict order, both ways. */
  lemma ScaleLower(lo: real, q: real, m: real)
    requires m > 0.0
    ensures lo <= q <==> m * lo <= m * q
  {
  }

  /** Multiplying by a positive factor keeps a strict order, both ways. */
  lemma ScaleUpper(q: real, hi: real, m: real)
    requires m > 0.0
    ensures q < hi <==> m * q < m * hi
  {
  }

  /**
   * A square is never negative. The square is passed as `p` so that callers
   * keep it as an ordinary real rather than a product of a variable with itself.
   */
  lemma SquareNonNegative(x: real, p: real)
    requires p == x * x
    ensures 0.0 <= p
  {
    if x > 0.0 {
      ProductPositive(x, x, p);
    } else if x < 0.0 {
      ProductPositive(-x, -x, p);
    }
  }

  /** A square is positive away from zero. */
  lemma SquarePositive(x: real, p: real)
    requires x != 0.0 && p == x * x
    ensures 0.0 < p
  {
    if x > 0.0 {
      ProductPositive(x, x, p);
    } else {
      ProductPositive(-x, -x, p);
    }
  }

  /** A non-negative root of a positive number is positive. */
  lemma RootPositive(n: real, d: real)
    requires 0.0 <= n && n * n == d && 0.0 < d
    ensures 0.0 < n
  {
    ZeroSquared(n);
  }

  lemma ZeroSquared(n: real)
    ensures n == 0.0 ==> n * n == 0.0
  {
  }

  /** `MulPositive` for a product already named `p`. */
  lemma ProductPositive(a: real, b: real, p: real)
    requires 0.0 < a && 0.0 < b && p == a * b
    ensures 0.0 < p
  {
    MulPositive(a, b);
  }

  /** The sign rule for a product of two positive reals. */
  lemma MulPositive(a: real, b: real)
    requires 0.0 < a && 0.0 < b
    ensures 0.0 < a * b
  {
    ScaleLower(0.0, b, a);
  }

  /** Shifting the numerator by the denominator adds one to the quotient. */
  lemma DivShiftByDenominator(t: real, d: real)
    requires d != 0.0
    ensures (t + d) / d == t / d + 1.0
  {
    assert ((t + d) / d) * d == t + d;
    assert (t / d + 1.0) * d == t + d;
    var q1 := (t + d) / d;
    var q2 := t / d + 1.0;
    assert (q1 - q2) * d == 0.0;
    if q1 != q2 {
      if d > 0.0 {
        if q1 > q2 { MulPositive(q1 - q2, d); } else { MulPositive(q2 - q1, d); }
      } else {
        if q1 > q2 { MulPositive(q1 - q2, -d); } else { MulPositive(q2 - q1, -d); }
      }
    }
  }

  /** The sign rule for a product of two non-negative reals. */
  lemma MulNonNegative(a: real, b: real)
    requires 0.0 <= a && 0.0 <= b
    ensures 0.0 <= a * b
  {
  }

  /** Equal multiples of a positive number have equal factors. */
  lemma CancelPositive(a: real, b: real, m: real)
    requires m > 0.0 && a * m == b * m
    ensures a == b
  {
    ScaleLower(a, b, m);
    ScaleLower(b, a, m);
  }

  /** p e s has the sign of s when p > 0 and e >= 0, and is zero when e is. */
  lemma NumeratorSign(p: real, e: real, s: real)
    requires 0.0 < p && 0.0 <= e
    ensures s >= 0.0 ==> p * e * s >= 0.0
    ensures s <= 0.0 ==> p * e * s <= 0.0
    ensures e == 0.0 ==> p * e * s == 0.0
  {
    MulNonNegative(p, e);
    if s >= 0.0 {
      MulNonNegative(p * e, s);
    } else {
      MulNonNegative(p * e, -s);
      assert (p * e) * (-s) == -(p * e * s);
    }
  }

  /** A quotient by a positive number has the sign of its numerator. */
  lemma QuotientSign(n: real, d: real)
    requires 0.0 < d
    ensures n >= 0.0 ==> n / d >= 0.0
    ensures n <= 0.0 ==> n / d <= 0.0
    ensures n == 0.0 ==> n / d == 0.0
  {
    var q := n / d;
    assert q * d == n;
    ScaleLower(0.0, q, d);
    ScaleLower(q, 0.0, d);
  }

  /** Scaling a value of [-1, 1] by a non-negative `k` lands in [-k, k]. */
  lemma ScaledUnitBound(k: real, c: real)
    requires 0.0 <= k
    requires -1.0 <= c <= 1.0
    ensures -k <= k * c <= k
  {
    MulNonNegative(k, 1.0 - c);
    MulNonNegative(k, 1.0 + c);
    assert k * (1.0 - c) == k - k * c;
    assert k * (1.0 + c) == k + k * c;
  }

  /** Scaling a value of [-1, 1] by any `k` gives at most |k| in magnitude. */
  lemma AbsScaledBound(k: real, c: real)
    requires -1.0 <= c <= 1.0
    ensures Abs(k * c) <= Abs(k)
  {
    if k >= 0.0 {
      ScaledUnitBound(k, c);
    } else {
      MulNonNegative(0.0 - k, 1.0 - c);
      MulNonNegative(0.0 - k, 1.0 + c);
      assert (0.0 - k) * (1.0 - c) == k * c - k;
      assert (0.0 - k) * (1.0 + c) == 0.0 - k - k * c;
    }
  }

  /** A quotient by a positive denominator compares with +-1 as the numerator with +-d. */
  lemma QuotientInUnitRange(n: real, d: real)
    requires d > 0.0
    requires -d <= n <= d
    ensures -1.0 <= n / d <= 1.0
  {
    var q := n / d;
    assert n == d * q;
    ScaleLower(-1.0, q, d);
    ScaleLower(q, 1.0, d);
    assert d * 1.0 == d && d * -1.0 == -d;
    assert -1.0 <= q;
    assert q <= 1.0;
  }

  /** Dividing a non-negative numerator by a larger positive denominator gives less. */
  lemma DivAntitone(p: real, d1: real, d2: real)
    requires 0.0 <= p
    requires 0.0 < d1 <= d2
    ensures p / d2 <= p / d1
  {
    var q1 := p / d1;
    var q2 := p / d2;
    assert q1 * d1 == p && q2 * d2 == p;
    assert 0.0 <= q2 by {
      ScaleLower(0.0, q2, d2);
    }
    assert q2 * d1 <= q2 * d2 by {
      MulNonNegative(q2, d2 - d1);
      assert q2 * (d2 - d1) == q2 * d2 - q2 * d1;
    }
    ScaleLower(q2, q1, d1);
    assert d1 * q2 == q2 * d1 && d1 * q1 == q1 * d1;
  }

  /** A positive quotient when numerator and denominator are positive. */
  lemma DivPositive(p: real, d: real)
    requires 0.0 < p && 0.0 < d
    ensures 0.0 < p / d
  {
    var q := p / d;
    assert q * d == p;
    ScaleLower(0.0, q, d);
  }

  /** Adding a whole number of periods does not change the remainder. */
  lemma PyModShift(x: real, m: real, k: int)
    requires m > 0.0
    ensures PyMod(x + (k as real) * m, m) == PyMod(x, m)
  {
    var q := x / m;
    var q' := (x + (k as real) * m) / m;
    assert q' == q + k as real;
    var f := q.Floor;
    assert (f + k) as real <= q' < (f + k) as real + 1.0;
    assert q'.Floor == f + k;
  }

  /** On [0, m) the remainder is the value itself. */
  lemma PyModOfReduced(x: real, m: real)
    requires m > 0.0
    requires 0.0 <= x < m
    ensures PyMod(x, m) == x
  {
    var q := x / m;
    assert m * q == x;
    ScaleLower(0.0, q, m);
    ScaleUpper(q, 1.0, m);
    assert m * 0.0 == 0.0 && m * 1.0 == m;
    assert 0.0 <= q;
    assert q < 1.0;
    assert q.Floor == 0;
  }

  /**
   * numpy's `sin`, `cos`, `arccos` and `sqrt`, taken as exact real functions.
   * `Valid()` states everything the model assumes of them.
   */
  datatype Transcendentals = Transcendentals(
    sin: real -> real,
    cos: real -> real,
    arccos: real -> real,
    sqrt: real -> real)
  {
    ghost predicate Valid() {
      (forall x :: -1.0 <= sin(x) <= 1.0) &&
      (forall x :: -1.0 <= cos(x) <= 1.0) &&
      (forall x :: OnUnitCircle(x)) &&
      (forall x :: -1.0 <= x <= 1.0 ==> 0.0 <= arccos(x) <= PI) &&
      (forall x :: 0.0 <= x ==> IsSquareRoot(x))
    }

    /**
     * sin^2 x + cos^2 x = 1. Kept as a named fact, so that a proof states
     * `OnUnitCircle(x)` for the angles it needs.
     */
    ghost predicate OnUnitCircle(x: real) {
      sin(x) * sin(x) + cos(x) * cos(x) == 1.0
    }

    /** `sqrt(x)` is the non-negative root of x; named for the same reason. */
    ghost predicate IsSquareRoot(x: real) {
      0.0 <= sqrt(x) && sqrt(x) * sqrt(x) == x
    }
  }

  /**
   * `numpy.linspace(start, stop, count)`: `count` evenly spaced values, the step
   * being (stop - start) / (count - 1); numpy writes `stop` itself into the last
   * slot when there are two or more values.
   */
  function Linspace(start: real, stop: real, count: nat): (r: seq<real>)
    ensures |r| == count
    ensures count >= 1 ==> r[0] == start
    ensures count >= 2 ==> r[count - 1] == stop
    ensures count >= 2 ==> forall i :: 0 <= i < count - 1 ==>
      r[i + 1] - r[i] == (stop - start) / ((count - 1) as real)
  {
    if count <= 1 then seq(count, i => start)
    else
      var step := (stop - start) / ((count - 1) as real);
      var r := seq(count, i requires 0 <= i < count => if i == count - 1 then stop else start + (i as real) * step);
      assert r[count - 1] - r[count - 2] == step by {
        assert ((count - 1) as real) * step == stop - start;
        assert ((count - 2) as real) * step == ((count - 1) as real) * step - step;
      }
      assert forall i :: 0 <= i < count - 2 ==> r[i + 1] - r[i] == step by {
        forall i | 0 <= i < count - 2 ensures r[i + 1] - r[i] == step {
          assert ((i + 1) as real) * step == (i as real) * step + step;
        }
      }
      r
  }
}
