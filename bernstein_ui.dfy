/** The user-interface copy of the Bernstein routine.  Its interval maps are
    textually the same as the root ones (Bernstein.MapToUnit and
    Bernstein.MapFromUnit model both); the routine itself differs on the
    degree: a negative degree is rejected and degree 0 returns f(a). */
module BernsteinUI {
  import opened Numeric
  import opened BernsteinBasis
  import opened Bernstein

  /** aprox_berstein_on_interval (user-interface version).  The out-parameter
      `warned` is true exactly when the warning about y lying outside [a, b]
      is printed; the printed text itself is not modelled. */
  method AproxBersteinOnInterval(f: real -> real, y: real, n: int, a: real, b: real)
    returns (r: Result<real>, warned: bool)
    ensures a >= b ==> r == Err(InvalidInterval) && !warned
    ensures a < b ==> (warned <==> !(a <= y <= b))
    ensures a < b && n < 0 ==> r == Err(NegativeDegree)
    ensures a < b && n == 0 ==> r == Ok(f(a))
    ensures a < b && n >= 1 ==> r == Ok(Approx(f, y, n, a, b))
  {
    if a >= b {
      return Err(InvalidInterval), false;
    }
    warned := !(a <= y && y <= b);
    var x := MapToUnit(y, a, b).value;
    var g := Transformed(f, a, b);
    if n < 0 {
      return Err(NegativeDegree), warned;
    }
    if n == 0 {
      assert MapFromUnit(0.0, a, b) == a;
      return Ok(g(0.0)), warned;
    }
    var sum := 0.0;
    var k := 0;
    while k < n + 1
      invariant 0 <= k <= n + 1
      invariant sum == PartialSum(g, n, x, k)
    {
      var binomial := Binom(n, k);
      var basis := Pow(x, k) * Pow(1.0 - x, n - k);
      var term := g(k as real / n as real) * binomial as real * basis;
      assert term == Terms(g, n, x)(k);
      sum := sum + term;
      k := k + 1;
    }
    return Ok(sum), warned;
  }
}
