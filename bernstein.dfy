/** The Bernstein approximation of a function on an arbitrary interval [a, b]:
    the evaluation point is mapped affinely onto [0, 1], the function is
    pulled back onto [0, 1], and the degree-n Bernstein sum of the pulled-back
    function is accumulated term by term.  Root version of the routine. */
module Bernstein {
  import opened Numeric
  import opened BernsteinBasis

  /** Affine map [a, b] -> [0, 1]; a degenerate interval [a, a] only admits y == a. */
  function MapToUnit(y: real, a: real, b: real): (r: Result<real>)
    ensures r.Ok? <==> a != b || y == a
    ensures a == b && y == a ==> r == Ok(0.0)
    ensures a == b && y != a ==> r == Err(DegenerateInterval)
    ensures a != b ==> r.Ok? && r.value * (b - a) == y - a
  {
    if a == b then
      if y == a then Ok(0.0) else Err(DegenerateInterval)
    else
      Ok((y - a) / (b - a))
  }

  /** Affine map [0, 1] -> [a, b]. */
  function MapFromUnit(x: real, a: real, b: real): (r: real)
    ensures x == 0.0 ==> r == a
    ensures x == 1.0 ==> r == b
  {
    a + (b - a) * x
  }

  /** The unit interval is mapped into [a, b]. */
  lemma MapBetween(x: real, a: real, b: real)
    requires a <= b && 0.0 <= x <= 1.0
    ensures a <= MapFromUnit(x, a, b) <= b
  {
    MulNonnegative(b - a, x);
    MulNonnegative(b - a, 1.0 - x);
    assert (b - a) * (1.0 - x) == (b - a) - (b - a) * x;
  }

  /** Unmapping a mapped point gives the point back. */
  lemma MapRoundTrip(y: real, a: real, b: real)
    requires a != b
    ensures MapToUnit(y, a, b).Ok?
    ensures MapFromUnit(MapToUnit(y, a, b).value, a, b) == y
  {
  }

  /** Mapping an unmapped point gives the point back. */
  lemma UnmapRoundTrip(x: real, a: real, b: real)
    requires a != b
    ensures MapToUnit(MapFromUnit(x, a, b), a, b) == Ok(x)
  {
    var r := MapToUnit(MapFromUnit(x, a, b), a, b);
    assert r.value * (b - a) == MapFromUnit(x, a, b) - a == (b - a) * x;
    CancelFactor(r.value, x, b - a);
  }

  lemma CancelFactor(p: real, q: real, d: real)
    requires d != 0.0 && p * d == d * q
    ensures p == q
  {
    assert (p - q) * d == 0.0;
  }

  /** A point outside [a, b] is mapped outside [0, 1]. */
  lemma OutsideMapsOutside(y: real, a: real, b: real)
    requires a < b && !(a <= y <= b)
    ensures MapToUnit(y, a, b).value < 0.0 || MapToUnit(y, a, b).value > 1.0
  {
    var x := MapToUnit(y, a, b).value;
    if y < a {
      NegativeQuotient(x, y - a, b - a);
    } else {
      NegativeQuotient(1.0 - x, b - y, b - a);
    }
  }

  lemma NegativeQuotient(q: real, p: real, d: real)
    requires d > 0.0 && p < 0.0 && q * d == p
    ensures q < 0.0
  {
    assert q == p / d;
  }

  /** The function pulled back onto [0, 1]: t |-> f(a + (b - a) t). */
  function Transformed(f: real -> real, a: real, b: real): real -> real
  {
    t => f(MapFromUnit(t, a, b))
  }

  /** The value the routine computes for a valid interval and degree n >= 1. */
  function Approx(f: real -> real, y: real, n: nat, a: real, b: real): real
    requires a < b && 1 <= n
  {
    Value(Transformed(f, a, b), n, MapToUnit(y, a, b).value)
  }

  /** The Bernstein approximation interpolates f at the left end of the interval. */
  lemma ApproxAtStart(f: real -> real, n: nat, a: real, b: real)
    requires a < b && 1 <= n
    ensures Approx(f, a, n, a, b) == f(a)
  {
    assert MapToUnit(a, a, b).value == 0.0;
    assert MapFromUnit(0.0, a, b) == a;
    assert Transformed(f, a, b)(0.0) == f(a);
    ValueAtZero(Transformed(f, a, b), n);
  }

  /** The Bernstein approximation interpolates f at the right end of the interval. */
  lemma ApproxAtEnd(f: real -> real, n: nat, a: real, b: real)
    requires a < b && 1 <= n
    ensures Approx(f, b, n, a, b) == f(b)
  {
    var x := MapToUnit(b, a, b);
    assert x.Ok? && x.value * (b - a) == b - a;
    assert (b - a) * 1.0 == b - a;
    CancelFactor(x.value, 1.0, b - a);
    assert MapFromUnit(1.0, a, b) == b;
    assert Transformed(f, a, b)(1.0) == f(b);
    ValueAtOne(Transformed(f, a, b), n);
  }

  /** A constant function is reproduced exactly, at every evaluation point. */
  lemma ApproxConstant(f: real -> real, c: real, y: real, n: nat, a: real, b: real)
    requires a < b && 1 <= n
    requires forall t :: f(t) == c
    ensures Approx(f, y, n, a, b) == c
  {
    ConstantReproduced(Transformed(f, a, b), c, n, MapToUnit(y, a, b).value);
  }

  /** aprox_berstein_on_interval: rejects a >= b before anything else; a degree
      of 0 divides by zero at k / n in the first iteration; a negative degree
      runs no iteration and returns 0.0; y outside [a, b] is not rejected. */
  method AproxBersteinOnInterval(f: real -> real, y: real, n: int, a: real, b: real) returns (r: Result<real>)
    ensures a >= b ==> r == Err(InvalidInterval)
    ensures a < b && n == 0 ==> r == Err(ZeroDivision)
    ensures a < b && n < 0 ==> r == Ok(0.0)
    ensures a < b && n >= 1 ==> r == Ok(Approx(f, y, n, a, b))
  {
    if a >= b {
      return Err(InvalidInterval);
    }
    var x := MapToUnit(y, a, b).value;
    var g := Transformed(f, a, b);
    var sum := 0.0;
    var k := 0;
    while k < n + 1
      invariant 0 <= k && (n >= 0 ==> k <= n + 1)
      invariant n == 0 ==> k == 0
      invariant n >= 1 ==> sum == PartialSum(g, n, x, k)
      invariant n < 0 ==> sum == 0.0
    {
      var binomial := Binom(n, k);
      var basis := Pow(x, k) * Pow(1.0 - x, n - k);
      if n == 0 {
        return Err(ZeroDivision);
      }
      var term := g(k as real / n as real) * binomial as real * basis;
      assert term == Terms(g, n, x)(k);
      sum := sum + term;
      k := k + 1;
    }
    return Ok(sum);
  }

  /** calculeaza_eroarea_abs: the absolute difference of the two values. */
  function AbsError(approx: real, exact: real): (r: real)
    ensures r >= 0.0
    ensures r >= exact - approx && r >= approx - exact
    ensures r == exact - approx || r == approx - exact
    ensures r == 0.0 <==> approx == exact
  {
    Abs(exact - approx)
  }

  lemma AbsErrorSymmetric(p: real, q: real)
    ensures AbsError(p, q) == AbsError(q, p)
  {
  }
}
