/** The array form of the Bernstein approximation on [0, 1] and the
    general-interval driver that samples it on an evenly spaced grid. */
module BernsteinArray {
  import opened Numeric
  import opened BernsteinBasis
  import opened Grid
  import Bernstein

  /** The term added at sample x, grouped as the vectorised code groups it:
      f(k/n) * ((C(n,k) * x^k) * (1-x)^(n-k)). */
  lemma GroupedTerm(g: real -> real, n: nat, k: nat, x: real)
    requires 1 <= n && k <= n
    ensures g(k as real / n as real) * (Binom(n, k) as real * Pow(x, k) * Pow(1.0 - x, n - k))
         == Terms(g, n, x)(k)
  {
    Regroup(g(k as real / n as real), Binom(n, k) as real, Pow(x, k), Pow(1.0 - x, n - k));
  }

  lemma Regroup(p: real, q: real, s: real, t: real)
    ensures p * (q * s * t) == p * q * (s * t)
  {
  }

  /** The in-place vector update acc += f(k/n) * C(n,k) * x^k * (1-x)^(n-k),
      one sample at a time. */
  method AddTerm(acc: array<real>, g: real -> real, n: nat, k: nat, xs: seq<real>)
    requires 1 <= n && k <= n && acc.Length == |xs|
    modifies acc
    ensures forall j :: 0 <= j < |xs| ==> acc[j] == old(acc[j]) + Terms(g, n, xs[j])(k)
  {
    var fk := g(k as real / n as real);
    var binom := Binom(n, k) as real;
    var j := 0;
    while j < |xs|
      invariant 0 <= j <= |xs|
      invariant forall i :: 0 <= i < j ==> acc[i] == old(acc[i]) + Terms(g, n, xs[i])(k)
      invariant forall i :: j <= i < |xs| ==> acc[i] == old(acc[i])
    {
      GroupedTerm(g, n, k, xs[j]);
      acc[j] := acc[j] + fk * (binom * Pow(xs[j], k) * Pow(1.0 - xs[j], n - k));
      j := j + 1;
    }
  }

  /** bernstein_polynomial_on_0_1: a fresh zero array the length of xs, to which
      the k-th term is added at every sample, for k = 0 .. n.  A degree of 0
      divides by zero at k / n; a negative degree leaves the zeros. */
  method BernsteinPolynomialOnUnit(g: real -> real, n: int, xs: seq<real>) returns (r: Result<array<real>>)
    ensures n == 0 ==> r == Err(ZeroDivision)
    ensures n != 0 ==> r.Ok? && fresh(r.value) && r.value.Length == |xs|
    ensures n < 0 && r.Ok? ==> forall j :: 0 <= j < |xs| ==> r.value[j] == 0.0
    ensures n >= 1 && r.Ok? ==> forall j :: 0 <= j < |xs| ==> r.value[j] == Value(g, n, xs[j])
  {
    var acc := new real[|xs|](_ => 0.0);
    var k := 0;
    while k < n + 1
      invariant 0 <= k && (n >= 0 ==> k <= n + 1)
      invariant n == 0 ==> k == 0
      invariant acc.Length == |xs|
      invariant n < 0 ==> forall j :: 0 <= j < |xs| ==> acc[j] == 0.0
      invariant n >= 1 ==> forall j :: 0 <= j < |xs| ==> acc[j] == PartialSum(g, n, xs[j], k)
    {
      if n == 0 {
        return Err(ZeroDivision);
      }
      AddTerm(acc, g, n, k, xs);
      k := k + 1;
    }
    return Ok(acc);
  }

  /** The function pulled back onto [0, 1] as the driver builds it: t |-> f(a + t (b - a)). */
  function Pullback(f: real -> real, a: real, b: real): real -> real
  {
    t => f(a + t * (b - a))
  }

  /** The evaluation points a + t (b - a) over the unit grid of num points. */
  function Points(a: real, b: real, num: nat): (r: seq<real>)
    ensures |r| == num
    ensures num >= 1 ==> r[0] == a
    ensures num >= 2 ==> r[num - 1] == b
  {
    var r := seq(num, (i: int) requires 0 <= i < num => a + Linspace(0.0, 1.0, num)[i] * (b - a));
    assert num >= 1 ==> r[0] == a by {
      if num >= 1 { MulZero(Linspace(0.0, 1.0, num)[0], b - a); }
    }
    assert num >= 2 ==> r[num - 1] == b by {
      if num >= 2 { MulOne(Linspace(0.0, 1.0, num)[num - 1], b - a); }
    }
    r
  }

  /** The evaluation points are strictly increasing when a < b. */
  lemma PointsIncreasing(a: real, b: real, num: nat, i: nat, j: nat)
    requires a < b && i < j < num
    ensures Points(a, b, num)[i] < Points(a, b, num)[j]
  {
    LinspaceIncreasing(0.0, 1.0, num, i, j);
    assert Points(a, b, num)[i] == a + Linspace(0.0, 1.0, num)[i] * (b - a);
    assert Points(a, b, num)[j] == a + Linspace(0.0, 1.0, num)[j] * (b - a);
    Stretch(Linspace(0.0, 1.0, num)[i], Linspace(0.0, 1.0, num)[j], a, b);
  }

  lemma Stretch(s: real, t: real, a: real, b: real)
    requires s < t && a < b
    ensures a + s * (b - a) < a + t * (b - a)
  {
    MulNonnegative(t - s, b - a);
    assert (t - s) * (b - a) == t * (b - a) - s * (b - a);
    assert (t - s) * (b - a) != 0.0;
  }

  /** The three arrays the driver returns. */
  datatype Sampled = Sampled(points: seq<real>, approx: seq<real>, original: seq<real>)

  /** bernstein_approximation_general_interval without the parsing of the
      function text: the guards on the interval and the degree, the unit
      grid, the Bernstein values on it, the points in [a, b] and f at them. */
  method BernsteinApproximationGeneralInterval(f: real -> real, a: real, b: real, n: int, num: int)
    returns (r: Result<Sampled>)
    ensures a >= b ==> r == Err(InvalidInterval)
    ensures a < b && n <= 0 ==> r == Err(NonPositiveDegree)
    ensures a < b && n >= 1 && num < 0 ==> r == Err(NegativeSampleCount)
    ensures a < b && n >= 1 && num >= 0 ==>
      r.Ok? && r.value.points == Points(a, b, num) &&
      |r.value.approx| == num && |r.value.original| == num &&
      (forall i :: 0 <= i < num ==>
        r.value.approx[i] == Value(Pullback(f, a, b), n, Linspace(0.0, 1.0, num)[i]) &&
        r.value.original[i] == f(r.value.points[i]))
  {
    if a >= b {
      return Err(InvalidInterval);
    }
    if n <= 0 {
      return Err(NonPositiveDegree);
    }
    if num < 0 {
      return Err(NegativeSampleCount);
    }
    var g := Pullback(f, a, b);
    var ts := Linspace(0.0, 1.0, num);
    var values := BernsteinPolynomialOnUnit(g, n, ts);
    var approx := values.value[..];
    var xs := seq(num, (i: int) requires 0 <= i < num => a + ts[i] * (b - a));
    var original := seq(num, (i: int) requires 0 <= i < num => f(xs[i]));
    return Ok(Sampled(xs, approx, original));
  }

  /** The approximation at the first sample (t = 0) is f(a). */
  lemma SampledAtStart(f: real -> real, a: real, b: real, n: nat, num: nat)
    requires 1 <= n && 1 <= num
    ensures Value(Pullback(f, a, b), n, Linspace(0.0, 1.0, num)[0]) == f(a)
  {
    ValueAtZero(Pullback(f, a, b), n);
    assert Pullback(f, a, b)(0.0) == f(a + 0.0 * (b - a));
  }

  /** The approximation at the last sample (t = 1) is f(b). */
  lemma SampledAtEnd(f: real -> real, a: real, b: real, n: nat, num: nat)
    requires 1 <= n && 2 <= num
    ensures Value(Pullback(f, a, b), n, Linspace(0.0, 1.0, num)[num - 1]) == f(b)
  {
    ValueAtOne(Pullback(f, a, b), n);
    assert Pullback(f, a, b)(1.0) == f(a + 1.0 * (b - a));
  }

  /** A constant function is reproduced at every sample. */
  lemma SampledConstant(f: real -> real, c: real, a: real, b: real, n: nat, num: nat, i: nat)
    requires 1 <= n && i < num
    requires forall t :: f(t) == c
    ensures Value(Pullback(f, a, b), n, Linspace(0.0, 1.0, num)[i]) == c
  {
    ConstantReproduced(Pullback(f, a, b), c, n, Linspace(0.0, 1.0, num)[i]);
  }

  /** Entry j of the array form is the scalar routine's value at the point
      a + t_j (b - a) of [a, b]. */
  lemma SampledAgreesWithScalar(f: real -> real, a: real, b: real, n: nat, t: real)
    requires a < b && 1 <= n
    ensures Value(Pullback(f, a, b), n, t) == Bernstein.Approx(f, a + t * (b - a), n, a, b)
  {
    Bernstein.UnmapRoundTrip(t, a, b);
    MapCommutes(t, a, b);
    forall s
      ensures Pullback(f, a, b)(s) == Bernstein.Transformed(f, a, b)(s)
    {
      MapCommutes(s, a, b);
      assert Bernstein.Transformed(f, a, b)(s) == f(Bernstein.MapFromUnit(s, a, b));
    }
    ValueExtensional(Pullback(f, a, b), Bernstein.Transformed(f, a, b), n, t);
  }

  lemma MapCommutes(s: real, a: real, b: real)
    ensures Bernstein.MapFromUnit(s, a, b) == a + s * (b - a)
  {
    MulCommutes(b - a, s);
  }
}
