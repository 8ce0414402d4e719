/** Lagrange interpolation in product form, the routine named
    `lagrange_derivative` (which evaluates sum_i y_i L_i(x)^(n-2), not a
    derivative), and the maximum interpolation error over a 1000-point grid. */
module Lagrange {
  import opened Numeric
  import opened Series
  import opened Grid

  /** No node occurs twice. */
  predicate Distinct(xs: seq<real>)
  {
    forall p, q :: 0 <= p < |xs| && 0 <= q < |xs| && p != q ==> xs[p] != xs[q]
  }

  /** The factor (x - x_j) / (x_i - x_j) of the i-th basis polynomial; one at j == i. */
  function BasisFactor(xs: seq<real>, i: nat, x: real): nat -> real
  {
    (j: nat) => if i < |xs| && j < |xs| && j != i then Quot(x - xs[j], xs[i] - xs[j]) else 1.0
  }

  /** The i-th Lagrange basis polynomial L_i at x. */
  function Basis(xs: seq<real>, i: nat, x: real): real
  {
    Prod(BasisFactor(xs, i, x), |xs|)
  }

  function InterpTerms(xs: seq<real>, ys: seq<real>, x: real): nat -> real
  {
    (i: nat) => if i < |xs| && i < |ys| then ys[i] * Basis(xs, i, x) else 0.0
  }

  /** The interpolating polynomial sum_i y_i L_i(x). */
  function Interp(xs: seq<real>, ys: seq<real>, x: real): real
  {
    RowSum(InterpTerms(xs, ys, x), |xs|)
  }

  // ---------------------------------------------------------------------
  // lagrange_interpolation

  /** Node i differs from every other node. */
  predicate RowDistinct(xs: seq<real>, i: nat)
  {
    forall q :: 0 <= q < |xs| && q != i && i < |xs| ==> xs[i] != xs[q]
  }

  lemma RowsGiveDistinct(xs: seq<real>)
    requires forall p :: 0 <= p < |xs| ==> RowDistinct(xs, p)
    ensures Distinct(xs)
  {
    forall p, q | 0 <= p < |xs| && 0 <= q < |xs| && p != q
      ensures xs[p] != xs[q]
    {
      assert RowDistinct(xs, p);
    }
  }

  /** One step of the inner loop: multiplying in the j-th factor. */
  lemma BasisStep(xs: seq<real>, i: nat, x: real, j: nat, y: real, term: real)
    requires i < |xs| && j < |xs| && term == y * Prod(BasisFactor(xs, i, x), j)
    requires j != i ==> xs[i] - xs[j] != 0.0
    ensures (if j != i then term * ((x - xs[j]) / (xs[i] - xs[j])) else term)
         == y * Prod(BasisFactor(xs, i, x), j + 1)
  {
    var w := BasisFactor(xs, i, x);
    ProdLast(w, j);
    var p := Prod(w, j);
    if j != i {
      assert w(j) == (x - xs[j]) / (xs[i] - xs[j]);
      MulAssoc(y, p, w(j));
    }
  }

  lemma MulAssoc(y: real, p: real, f: real)
    ensures (y * p) * f == y * (p * f)
  {
  }

  /** One pass of the inner loop's body: the j-th factor is multiplied in,
      except at j == i; a node equal to x_i divides by zero. */
  method MultiplyFactor(xs: seq<real>, i: nat, x: real, j: nat, y: real, term: real) returns (r: Result<real>)
    requires i < |xs| && j < |xs| && term == y * Prod(BasisFactor(xs, i, x), j)
    ensures r.Err? <==> j != i && xs[i] == xs[j]
    ensures r.Err? ==> r == Err(ZeroDivision)
    ensures r.Ok? ==> r.value == y * Prod(BasisFactor(xs, i, x), j + 1)
  {
    if i != j && xs[i] - xs[j] == 0.0 {
      return Err(ZeroDivision);
    }
    BasisStep(xs, i, x, j, y, term);
    var t := term;
    if i != j {
      t := term * ((x - xs[j]) / (xs[i] - xs[j]));
    }
    return Ok(t);
  }

  /** The inner loop of lagrange_interpolation: y times the factors of L_i,
      failing on the first node equal to x_i. */
  method ScaledBasis(xs: seq<real>, i: nat, y: real, x: real) returns (r: Result<real>)
    requires i < |xs|
    ensures RowDistinct(xs, i) ==> r == Ok(y * Basis(xs, i, x))
    ensures !RowDistinct(xs, i) ==> r == Err(ZeroDivision)
  {
    var term := y;
    var j := 0;
    while j < |xs|
      invariant 0 <= j <= |xs|
      invariant term == y * Prod(BasisFactor(xs, i, x), j)
      invariant forall q :: 0 <= q < j && q != i ==> xs[i] != xs[q]
    {
      var step := MultiplyFactor(xs, i, x, j, y, term);
      if step.Err? {
        return step;
      }
      term := step.value;
      j := j + 1;
    }
    assert term == y * Basis(xs, i, x);
    return Ok(term);
  }

  /** lagrange_interpolation: the double loop accumulating y_i times the
      factors (x - x_j) / (x_i - x_j); a repeated node divides by zero. */
  method LagrangeInterpolation(xs: seq<real>, ys: seq<real>, x: real) returns (r: Result<real>)
    ensures |xs| != |ys| ==> r == Err(LengthMismatch)
    ensures |xs| == |ys| && Distinct(xs) ==> r == Ok(Interp(xs, ys, x))
    ensures |xs| == |ys| && !Distinct(xs) ==> r == Err(ZeroDivision)
  {
    if |xs| != |ys| {
      return Err(LengthMismatch);
    }
    var n := |xs|;
    var result := 0.0;
    var i := 0;
    while i < n
      invariant 0 <= i <= n
      invariant result == RowSum(InterpTerms(xs, ys, x), i)
      invariant forall p :: 0 <= p < i ==> RowDistinct(xs, p)
    {
      var term := ScaledBasis(xs, i, ys[i], x);
      if term.Err? {
        assert !Distinct(xs);
        return term;
      }
      RowSumLast(InterpTerms(xs, ys, x), i);
      result := result + term.value;
      i := i + 1;
    }
    RowsGiveDistinct(xs);
    return Ok(result);
  }

  /** L_i is one at its own node. */
  lemma BasisAtOwnNode(xs: seq<real>, i: nat)
    requires Distinct(xs) && i < |xs|
    ensures Basis(xs, i, xs[i]) == 1.0
  {
    var w := BasisFactor(xs, i, xs[i]);
    forall j: nat | j < |xs|
      ensures w(j) == 1.0
    {
      if j != i { QuotSelf(xs[i] - xs[j]); }
    }
    ProdOnes(w, |xs|);
  }

  /** L_i vanishes at every other node. */
  lemma BasisAtOtherNode(xs: seq<real>, i: nat, k: nat)
    requires i < |xs| && k < |xs| && i != k
    ensures Basis(xs, i, xs[k]) == 0.0
  {
    assert xs[k] - xs[k] == 0.0;
    ProdZero(BasisFactor(xs, i, xs[k]), |xs|, k);
  }

  /** With distinct nodes the interpolant reproduces every data value. */
  lemma InterpAtNode(xs: seq<real>, ys: seq<real>, k: nat)
    requires |xs| == |ys| && Distinct(xs) && k < |xs|
    ensures Interp(xs, ys, xs[k]) == ys[k]
  {
    var u := InterpTerms(xs, ys, xs[k]);
    forall j: nat | j < |xs| && j != k
      ensures u(j) == 0.0
    {
      BasisAtOtherNode(xs, j, k);
    }
    BasisAtOwnNode(xs, k);
    RowSumSingle(u, |xs|, k);
  }

  /** No nodes give 0; one node gives its value everywhere. */
  lemma InterpFewNodes(x0: real, y0: real, x: real)
    ensures Interp([], [], x) == 0.0
    ensures Interp([x0], [y0], x) == y0
  {
    var xs, ys := [x0], [y0];
    var w := BasisFactor(xs, 0, x);
    ProdLast(w, 0);
    assert w(0) == 1.0;
    assert Basis(xs, 0, x) == 1.0;
    RowSumLast(InterpTerms(xs, ys, x), 0);
    assert InterpTerms(xs, ys, x)(0) == y0 * 1.0;
  }

  /** Two distinct nodes give the straight line through them. */
  lemma InterpTwoNodes(x0: real, x1: real, y0: real, y1: real, x: real)
    requires x0 != x1
    ensures Interp([x0, x1], [y0, y1], x) == y0 + (y1 - y0) * (x - x0) / (x1 - x0)
  {
    var xs, ys := [x0, x1], [y0, y1];
    var w0, w1 := BasisFactor(xs, 0, x), BasisFactor(xs, 1, x);
    ProdLast(w0, 0);
    ProdLast(w0, 1);
    ProdLast(w1, 0);
    ProdLast(w1, 1);
    assert w0(0) == 1.0 && w0(1) == (x - x1) / (x0 - x1);
    assert w1(0) == (x - x0) / (x1 - x0) && w1(1) == 1.0;
    var l0, l1 := Basis(xs, 0, x), Basis(xs, 1, x);
    assert l0 == 1.0 * 1.0 * ((x - x1) / (x0 - x1));
    assert l1 == 1.0 * ((x - x0) / (x1 - x0)) * 1.0;
    var u := InterpTerms(xs, ys, x);
    RowSumLast(u, 0);
    RowSumLast(u, 1);
    assert u(0) == y0 * l0 && u(1) == y1 * l1;
    Line(x0, x1, y0, y1, x);
  }

  lemma Line(x0: real, x1: real, y0: real, y1: real, x: real)
    requires x0 != x1
    ensures 0.0 + y0 * (1.0 * 1.0 * ((x - x1) / (x0 - x1))) + y1 * (1.0 * ((x - x0) / (x1 - x0)) * 1.0)
         == y0 + (y1 - y0) * (x - x0) / (x1 - x0)
  {
    var d := x1 - x0;
    assert (x - x1) / (x0 - x1) == (x1 - x) / d;
    assert y0 * ((x1 - x) / d) + y1 * ((x - x0) / d) == (y0 * (x1 - x) + y1 * (x - x0)) / d;
    assert y0 + (y1 - y0) * (x - x0) / d == (y0 * d + (y1 - y0) * (x - x0)) / d;
  }

  // ---------------------------------------------------------------------
  // lagrange_derivative

  /** The numerator factors x - x_k for k other than i and j; one otherwise. */
  function DerivNum(xs: seq<real>, i: nat, j: nat, x: real): nat -> real
  {
    (k: nat) => if k < |xs| && k != i && k != j then x - xs[k] else 1.0
  }

  /** The denominator factors x_i - x_k for k other than i and j; one otherwise. */
  function DerivDen(xs: seq<real>, i: nat, j: nat): nat -> real
  {
    (k: nat) => if i < |xs| && k < |xs| && k != i && k != j then xs[i] - xs[k] else 1.0
  }

  /** The quotient the routine multiplies into the i-th term for j != i. */
  function DerivFactor(xs: seq<real>, i: nat, x: real): nat -> real
  {
    (j: nat) => if j < |xs| && j != i then Quot(Prod(DerivNum(xs, i, j, x), |xs|), Prod(DerivDen(xs, i, j), |xs|)) else 1.0
  }

  /** The product of the quotients of row i. */
  function RowProduct(xs: seq<real>, i: nat, x: real): real
  {
    Prod(DerivFactor(xs, i, x), |xs|)
  }

  /** The power of L_i in the i-th term: n - 2, and 0 for fewer than two nodes. */
  function DerivPower(n: nat): nat
  {
    if n >= 2 then n - 2 else 0
  }

  function DerivTerms(xs: seq<real>, ys: seq<real>, x: real): nat -> real
  {
    (i: nat) => if i < |xs| && i < |ys| then ys[i] * Pow(Basis(xs, i, x), DerivPower(|xs|)) else 0.0
  }

  /** What lagrange_derivative computes: sum_i y_i L_i(x)^(n-2). */
  function DerivativeValue(xs: seq<real>, ys: seq<real>, x: real): real
  {
    RowSum(DerivTerms(xs, ys, x), |xs|)
  }

  /** The denominator for the pair (p, q) has no zero factor. */
  predicate PairNonzero(xs: seq<real>, p: nat, q: nat)
  {
    forall k :: 0 <= k < |xs| && k != p && k != q && p < |xs| ==> xs[p] != xs[k]
  }

  /** Row p of the denominators is nonzero for every q < qmax. */
  predicate DenomsNonzero(xs: seq<real>, p: nat, qmax: nat)
  {
    forall q: nat :: q < qmax && q != p ==> PairNonzero(xs, p, q)
  }

  /** The i-th term of the routine is y_i L_i(x)^(n-2), once the denominators
      of row i are known to be nonzero. */
  lemma DerivTermClosed(xs: seq<real>, ys: seq<real>, i: nat, x: real)
    requires |xs| == |ys| && i < |xs| && DenomsNonzero(xs, i, |xs|)
    ensures ys[i] * RowProduct(xs, i, x) == DerivTerms(xs, ys, x)(i)
  {
    RowProductClosed(xs, i, x);
  }

  /** The product of the quotients of row i is L_i(x)^(n-2). */
  lemma RowProductClosed(xs: seq<real>, i: nat, x: real)
    requires i < |xs| && DenomsNonzero(xs, i, |xs|)
    ensures RowProduct(xs, i, x) == Pow(Basis(xs, i, x), DerivPower(|xs|))
  {
    forall j: nat | j < |xs|
      ensures DerivFactor(xs, i, x)(j) == Outer(BasisFactor(xs, i, x), i, |xs|)(j)
    {
      if j != i {
        DerivQuotient(xs, i, j, x);
      }
    }
    ProdEqual(DerivFactor(xs, i, x), Outer(BasisFactor(xs, i, x), i, |xs|), |xs|);
    DoubleProduct(BasisFactor(xs, i, x), i, |xs|);
    assert Exponent(i, |xs|) == DerivPower(|xs|);
  }

  lemma DerivQuotient(xs: seq<real>, i: nat, j: nat, x: real)
    requires i < |xs| && j < |xs| && i != j && DenomsNonzero(xs, i, |xs|)
    ensures Quot(Prod(DerivNum(xs, i, j, x), |xs|), Prod(DerivDen(xs, i, j), |xs|))
         == Prod(Drop(BasisFactor(xs, i, x), j), |xs|)
  {
    var n := |xs|;
    var a, b := DerivNum(xs, i, j, x), DerivDen(xs, i, j);
    var q := Drop(BasisFactor(xs, i, x), j);
    forall k: nat | k < n
      ensures b(k) != 0.0
    {
      if k != i && k != j { assert PairNonzero(xs, i, j); }
    }
    forall k: nat | k < n
      ensures q(k) == a(k) / b(k)
    {
    }
    ProdQuotient(q, a, b, n);
  }

  /** A zero denominator product has a zero factor, i.e. a repeated node. */
  lemma ZeroDenominator(xs: seq<real>, i: nat, j: nat)
    requires i < |xs| && j < |xs| && i != j
    requires Prod(DerivDen(xs, i, j), |xs|) == 0.0
    ensures exists k :: 0 <= k < |xs| && k != i && k != j && xs[i] == xs[k]
  {
    var b := DerivDen(xs, i, j);
    ProdZeroFactor(b, |xs|);
    var k: nat :| k < |xs| && b(k) == 0.0;
    assert xs[i] == xs[k];
  }

  /** With three or more nodes, nonzero denominators everywhere mean distinct nodes. */
  lemma DenomsGiveDistinct(xs: seq<real>)
    requires |xs| >= 3
    requires forall p :: 0 <= p < |xs| ==> DenomsNonzero(xs, p, |xs|)
    ensures Distinct(xs)
  {
    forall p, k | 0 <= p < |xs| && 0 <= k < |xs| && p != k
      ensures xs[p] != xs[k]
    {
      var q: nat := if p != 0 && k != 0 then 0 else if p != 1 && k != 1 then 1 else 2;
      assert DenomsNonzero(xs, p, |xs|);
      assert PairNonzero(xs, p, q);
    }
  }

  /** A zero denominator needs three nodes, two of them equal. */
  lemma DenomsOfDistinct(xs: seq<real>, p: nat)
    requires p < |xs| && !DenomsNonzero(xs, p, |xs|)
    ensures !Distinct(xs) && |xs| >= 3
  {
    var q: nat :| q < |xs| && q != p && !PairNonzero(xs, p, q);
    var k :| 0 <= k < |xs| && k != p && k != q && xs[p] == xs[k];
  }

  /** The innermost loop of lagrange_derivative: the products over k other
      than i and j of x - x_k and of x_i - x_k. */
  method DerivParts(xs: seq<real>, i: nat, j: nat, x: real) returns (numerator: real, denominator: real)
    requires i < |xs|
    ensures numerator == Prod(DerivNum(xs, i, j, x), |xs|)
    ensures denominator == Prod(DerivDen(xs, i, j), |xs|)
  {
    numerator := 1.0;
    denominator := 1.0;
    var k := 0;
    while k < |xs|
      invariant 0 <= k <= |xs|
      invariant numerator == Prod(DerivNum(xs, i, j, x), k)
      invariant denominator == Prod(DerivDen(xs, i, j), k)
    {
      ProdLast(DerivNum(xs, i, j, x), k);
      ProdLast(DerivDen(xs, i, j), k);
      if k != i && k != j {
        numerator := numerator * (x - xs[k]);
        denominator := denominator * (xs[i] - xs[k]);
      }
      k := k + 1;
    }
  }

  /** One step of the middle loop: multiplying in the j-th quotient. */
  lemma DerivStep(xs: seq<real>, i: nat, x: real, j: nat, y: real, term: real, num: real, den: real)
    requires i < |xs| && j < |xs| && term == y * Prod(DerivFactor(xs, i, x), j)
    requires j != i ==> num == Prod(DerivNum(xs, i, j, x), |xs|) && den == Prod(DerivDen(xs, i, j), |xs|) && den != 0.0
    ensures (if j != i then term * (num / den) else term) == y * Prod(DerivFactor(xs, i, x), j + 1)
  {
    var w := DerivFactor(xs, i, x);
    ProdLast(w, j);
    if j != i {
      assert w(j) == num / den;
      MulAssoc(y, Prod(w, j), w(j));
    }
  }

  /** A zero denominator in row i. */
  lemma RowFails(xs: seq<real>, i: nat, j: nat, den: real)
    requires i < |xs| && j < |xs| && i != j
    requires den == Prod(DerivDen(xs, i, j), |xs|) && den == 0.0
    ensures !DenomsNonzero(xs, i, |xs|)
  {
    ZeroDenominator(xs, i, j);
    assert !PairNonzero(xs, i, j);
  }

  /** A nonzero denominator in row i extends the checked columns. */
  lemma RowExtends(xs: seq<real>, i: nat, j: nat, den: real)
    requires i < |xs| && j < |xs| && DenomsNonzero(xs, i, j)
    requires j != i ==> den == Prod(DerivDen(xs, i, j), |xs|) && den != 0.0
    ensures DenomsNonzero(xs, i, j + 1)
  {
    if j != i {
      NonzeroRow(xs, i, j);
    }
  }

  /** One pass of the middle loop of lagrange_derivative: for j != i the
      quotient of the two products is multiplied into the term, and a zero
      denominator divides by zero. */
  method MultiplyQuotient(xs: seq<real>, i: nat, j: nat, y: real, x: real, term: real) returns (r: Result<real>)
    requires i < |xs| && j < |xs| && term == y * Prod(DerivFactor(xs, i, x), j)
    requires DenomsNonzero(xs, i, j)
    ensures r.Ok? ==> r.value == y * Prod(DerivFactor(xs, i, x), j + 1) && DenomsNonzero(xs, i, j + 1)
    ensures r.Err? ==> r == Err(ZeroDivision) && !DenomsNonzero(xs, i, |xs|)
  {
    if i == j {
      DerivStep(xs, i, x, j, y, term, 1.0, 1.0);
      RowExtends(xs, i, j, 1.0);
      return Ok(term);
    }
    var numerator, denominator := DerivParts(xs, i, j, x);
    if denominator == 0.0 {
      RowFails(xs, i, j, denominator);
      return Err(ZeroDivision);
    }
    DerivStep(xs, i, x, j, y, term, numerator, denominator);
    RowExtends(xs, i, j, denominator);
    return Ok(term * (numerator / denominator));
  }

  /** The middle loop of lagrange_derivative: y times the quotients for every
      j != i, failing on the first zero denominator. */
  method DerivRow(xs: seq<real>, i: nat, y: real, x: real) returns (r: Result<real>)
    requires i < |xs|
    ensures DenomsNonzero(xs, i, |xs|) ==> r == Ok(y * RowProduct(xs, i, x))
    ensures !DenomsNonzero(xs, i, |xs|) ==> r == Err(ZeroDivision)
  {
    var term := y;
    var j := 0;
    while j < |xs|
      invariant 0 <= j <= |xs|
      invariant term == y * Prod(DerivFactor(xs, i, x), j)
      invariant DenomsNonzero(xs, i, j)
    {
      var next := MultiplyQuotient(xs, i, j, y, x, term);
      if next.Err? {
        return next;
      }
      term := next.value;
      j := j + 1;
    }
    assert term == y * RowProduct(xs, i, x);
    return Ok(term);
  }

  /** lagrange_derivative: for each i and each j != i, the products over k
      other than i and j of x - x_k and of x_i - x_k, and their quotient
      multiplied into the i-th term.  A zero denominator divides by zero,
      which happens exactly when three or more nodes include a repeat. */
  method LagrangeDerivative(xs: seq<real>, ys: seq<real>, x: real) returns (r: Result<real>)
    ensures |xs| != |ys| ==> r == Err(LengthMismatch)
    ensures |xs| == |ys| && (Distinct(xs) || |xs| <= 2) ==> r == Ok(DerivativeValue(xs, ys, x))
    ensures |xs| == |ys| && !Distinct(xs) && |xs| >= 3 ==> r == Err(ZeroDivision)
  {
    if |xs| != |ys| {
      return Err(LengthMismatch);
    }
    var n := |xs|;
    var result := 0.0;
    var i := 0;
    while i < n
      invariant 0 <= i <= n
      invariant result == RowSum(DerivTerms(xs, ys, x), i)
      invariant forall p :: 0 <= p < i ==> DenomsNonzero(xs, p, n)
    {
      var term := DerivRow(xs, i, ys[i], x);
      if term.Err? {
        DenomsOfDistinct(xs, i);
        return term;
      }
      DerivTermClosed(xs, ys, i, x);
      RowSumLast(DerivTerms(xs, ys, x), i);
      result := result + term.value;
      i := i + 1;
    }
    if n >= 3 {
      DenomsGiveDistinct(xs);
    }
    return Ok(result);
  }

  /** Extending the checked rows of denominators by one column. */
  lemma NonzeroRow(xs: seq<real>, i: nat, j: nat)
    requires i < |xs| && j < |xs| && i != j && DenomsNonzero(xs, i, j)
    requires Prod(DerivDen(xs, i, j), |xs|) != 0.0
    ensures DenomsNonzero(xs, i, j + 1)
  {
    forall k | 0 <= k < |xs| && k != i && k != j
      ensures xs[i] != xs[k]
    {
      ProdFactorNonzero(DerivDen(xs, i, j), |xs|, k);
    }
    assert PairNonzero(xs, i, j);
  }

  /** One node: the routine returns y_0. */
  lemma DerivativeSingleNode(x0: real, y0: real, x: real)
    ensures DerivativeValue([x0], [y0], x) == y0
  {
    var u := DerivTerms([x0], [y0], x);
    RowSumLast(u, 0);
    assert u(0) == y0 * Pow(Basis([x0], 0, x), 0);
  }

  /** Two nodes, even equal ones: the routine returns y_0 + y_1 for every x. */
  lemma DerivativeTwoNodes(x0: real, x1: real, y0: real, y1: real, x: real)
    ensures DerivativeValue([x0, x1], [y0, y1], x) == y0 + y1
  {
    var xs, ys := [x0, x1], [y0, y1];
    var u := DerivTerms(xs, ys, x);
    RowSumLast(u, 0);
    RowSumLast(u, 1);
    assert u(0) == y0 * Pow(Basis(xs, 0, x), 0);
    assert u(1) == y1 * Pow(Basis(xs, 1, x), 0);
  }

  /** Three nodes: the routine returns the interpolant itself. */
  lemma DerivativeThreeNodes(xs: seq<real>, ys: seq<real>, x: real)
    requires |xs| == 3 && |ys| == 3
    ensures DerivativeValue(xs, ys, x) == Interp(xs, ys, x)
  {
    forall i: nat | i < 3
      ensures DerivTerms(xs, ys, x)(i) == InterpTerms(xs, ys, x)(i)
    {
      assert Pow(Basis(xs, i, x), 1) == Basis(xs, i, x) * 1.0;
    }
    RowSumEqual(DerivTerms(xs, ys, x), InterpTerms(xs, ys, x), 3);
  }

  /** The value is not a derivative: for the constant data 1, 1 on nodes 0, 1
      (whose interpolant has derivative 0) it is 2. */
  lemma DerivativeOfConstantData(x: real)
    ensures DerivativeValue([0.0, 1.0], [1.0, 1.0], x) == 2.0
  {
    DerivativeTwoNodes(0.0, 1.0, 1.0, 1.0, x);
  }

  // ---------------------------------------------------------------------
  // calculate_error

  /** |interpolant - target| at x. */
  function SampleError(xs: seq<real>, ys: seq<real>, f: real -> real, x: real): (e: real)
    ensures e >= 0.0
    ensures e == 0.0 <==> Interp(xs, ys, x) == f(x)
  {
    Abs(Interp(xs, ys, x) - f(x))
  }

  /** The errors at the 1000 grid points. */
  function Errors(xs: seq<real>, ys: seq<real>, f: real -> real): (e: seq<real>)
    requires |xs| > 0
    ensures |e| == Samples
  {
    seq(Samples, (t: int) requires 0 <= t < Samples => SampleError(xs, ys, f, ErrorGrid(xs)[t]))
  }

  /** What calculate_error returns: the largest sample error, or 0.0. */
  function MaxError(xs: seq<real>, ys: seq<real>, f: real -> real): (m: real)
    requires |xs| > 0
    ensures m >= 0.0
    ensures forall t :: 0 <= t < Samples ==> SampleError(xs, ys, f, ErrorGrid(xs)[t]) <= m
    ensures exists t :: 0 <= t < Samples && m == SampleError(xs, ys, f, ErrorGrid(xs)[t])
  {
    var e := Errors(xs, ys, f);
    var m := RunningMax(e, Samples);
    assert forall t :: 0 <= t < Samples ==> e[t] == SampleError(xs, ys, f, ErrorGrid(xs)[t]);
    assert m == 0.0 ==> m == e[0];
    m
  }

  /** calculate_error: the running maximum of the interpolation error over the
      grid, starting from 0.0.  min and max of no nodes raise. */
  method CalculateError(xs: seq<real>, ys: seq<real>, f: real -> real) returns (r: Result<real>)
    ensures |xs| != |ys| ==> r == Err(LengthMismatch)
    ensures |xs| == |ys| && |xs| == 0 ==> r == Err(EmptySequence)
    ensures |xs| == |ys| && |xs| > 0 && !Distinct(xs) ==> r == Err(ZeroDivision)
    ensures |xs| == |ys| && |xs| > 0 && Distinct(xs) ==> r == Ok(MaxError(xs, ys, f))
  {
    if |xs| != |ys| {
      return Err(LengthMismatch);
    }
    if |xs| == 0 {
      return Err(EmptySequence);
    }
    var grid := ErrorGrid(xs);
    ghost var errors := Errors(xs, ys, f);
    var maxError := 0.0;
    var s := 0;
    while s < Samples
      invariant 0 <= s <= Samples
      invariant maxError == RunningMax(errors, s)
      invariant s > 0 ==> Distinct(xs)
    {
      var x := grid[s];
      var interpolated := LagrangeInterpolation(xs, ys, x);
      if interpolated.Err? {
        return interpolated;
      }
      var error := Abs(interpolated.value - f(x));
      assert error == errors[s];
      if error > maxError {
        maxError := error;
      }
      s := s + 1;
    }
    return Ok(maxError);
  }
}
