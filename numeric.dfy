/** Shared numeric vocabulary: the errors the routines raise, a result type,
    integer powers over the reals, exact binomial coefficients and the
    absolute value. */
module Numeric {

  /** The exceptions raised by the approximation routines, one per cause. */
  datatype Error =
    | InvalidInterval      // ValueError: interval start is not below its end
    | DegenerateInterval   // ValueError: mapping a point y != a out of [a, a]
    | NegativeDegree       // ValueError: Bernstein degree below zero
    | NonPositiveDegree    // ValueError: Bernstein degree not positive
    | NegativeSampleCount  // ValueError: negative number of grid samples
    | LengthMismatch       // ValueError: x and y node lists differ in length
    | EmptySequence        // ValueError: min/max of an empty node list
    | NegativeDimensions   // ValueError: array created with a negative size
    | ZeroDivision         // ZeroDivisionError
    | IndexOutOfRange      // IndexError

  datatype Result<+T> = Ok(value: T) | Err(error: Error)

  /** x^k with 0^0 = 1, as Python's `**` gives for an integer exponent. */
  function Pow(x: real, k: nat): real
  {
    if k == 0 then 1.0 else x * Pow(x, k - 1)
  }

  /** Exact binomial coefficient, zero above the diagonal (math.comb). */
  function Binom(n: nat, k: nat): nat
  {
    if k == 0 then 1 else if n == 0 then 0 else Binom(n - 1, k - 1) + Binom(n - 1, k)
  }

  function Abs(x: real): (r: real)
    ensures r >= 0.0
    ensures r == x || r == -x
  {
    if x < 0.0 then -x else x
  }

  /** p / q where q is nonzero.  Every division the routines perform is
      guarded by a check that raises on a zero divisor before the value is
      used, so the value chosen for q == 0 never reaches a result. */
  function Quot(p: real, q: real): (r: real)
    ensures q != 0.0 ==> r * q == p
    ensures p == 0.0 ==> r == 0.0
  {
    if q == 0.0 then 0.0 else p / q
  }

  lemma QuotSelf(q: real)
    requires q != 0.0
    ensures Quot(q, q) == 1.0
  {
  }

  lemma {:induction false} PowOne(k: nat)
    ensures Pow(1.0, k) == 1.0
  {
    if k > 0 { PowOne(k - 1); }
  }

  lemma {:induction false} PowZero(k: nat)
    requires k > 0
    ensures Pow(0.0, k) == 0.0
  {
  }

  lemma {:induction false} PowAdd(x: real, i: nat, j: nat)
    ensures Pow(x, i + j) == Pow(x, i) * Pow(x, j)
  {
    if i > 0 {
      PowAdd(x, i - 1, j);
      assert Pow(x, i + j) == x * Pow(x, i - 1 + j);
    }
  }

  lemma {:induction false} PowMul(x: real, y: real, k: nat)
    ensures Pow(x * y, k) == Pow(x, k) * Pow(y, k)
  {
    if k > 0 {
      PowMul(x, y, k - 1);
      var px, py := Pow(x, k - 1), Pow(y, k - 1);
      assert Pow(x * y, k) == (x * y) * (px * py);
      assert (x * y) * (px * py) == (x * px) * (y * py);
    }
  }

  lemma {:induction false} BinomDiagonal(n: nat)
    ensures Binom(n, n) == 1
  {
    if n > 0 { BinomDiagonal(n - 1); BinomAbove(n - 1, n); }
  }

  lemma {:induction false} BinomAbove(n: nat, k: nat)
    requires k > n
    ensures Binom(n, k) == 0
  {
    if n > 0 { BinomAbove(n - 1, k - 1); BinomAbove(n - 1, k); }
  }

  /** Multiplication of reals commutes. */
  lemma MulCommutes(p: real, q: real)
    ensures p * q == q * p
  {
  }

  lemma MulOne(t: real, d: real)
    requires t == 1.0
    ensures t * d == d
  {
  }

  lemma MulZero(t: real, d: real)
    requires t == 0.0
    ensures t * d == 0.0
  {
  }

  lemma MulNonnegative(p: real, q: real)
    requires p >= 0.0 && q >= 0.0
    ensures p * q >= 0.0
  {
  }

  /** Scaling by a factor in [0, 1] stays between 0 and the scaled value. */
  lemma MulBetween(d: real, x: real)
    requires 0.0 <= d && 0.0 <= x <= 1.0
    ensures 0.0 <= d * x <= d
  {
    MulNonnegative(d, x);
    MulNonnegative(d, 1.0 - x);
    assert d * (1.0 - x) == d - d * x;
  }

  /** A part of a positive whole is a fraction in [0, 1]. */
  lemma UnitFraction(p: real, d: real)
    requires 0.0 <= p <= d && d > 0.0
    ensures 0.0 <= p / d <= 1.0
  {
    assert p / d * d == p;
  }
}
