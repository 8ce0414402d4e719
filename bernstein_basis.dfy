/** The degree-n Bernstein sum on the unit interval,
      B(g, n, x) = sum_{k=0}^{n} C(n,k) x^k (1-x)^(n-k) g(k/n),
    with the term written in the order the routines evaluate it, and the
    classical facts about it: interpolation of both endpoints and exact
    reproduction of constants (through the binomial theorem). */
module BernsteinBasis {
  import opened Numeric
  import opened Series

  // ---------------------------------------------------------------------
  // The Bernstein sum.

  /** The k-th term: g(k/n) * C(n,k) * (x^k * (1-x)^(n-k)). */
  function Term(g: real -> real, n: nat, x: real, k: nat): real
    requires 1 <= n && k <= n
  {
    g(k as real / n as real) * Binom(n, k) as real * (Pow(x, k) * Pow(1.0 - x, n - k))
  }

  /** The terms as a function of k; zero outside 0 .. n. */
  function Terms(g: real -> real, n: nat, x: real): nat -> real
  {
    (k: nat) => if 1 <= n && k <= n then Term(g, n, x, k) else 0.0
  }

  /** The accumulator after the terms k = 0 .. m-1 have been added. */
  function PartialSum(g: real -> real, n: nat, x: real, m: nat): real
  {
    RowSum(Terms(g, n, x), m)
  }

  /** The Bernstein polynomial of g of degree n >= 1, evaluated at x. */
  function Value(g: real -> real, n: nat, x: real): real
    requires 1 <= n
  {
    PartialSum(g, n, x, n + 1)
  }

  /** At x = 0 every term but the first carries a factor 0^k with k >= 1. */
  lemma ValueAtZero(g: real -> real, n: nat)
    requires 1 <= n
    ensures Value(g, n, 0.0) == g(0.0)
  {
    var u := Terms(g, n, 0.0);
    forall k | 1 <= k < n + 1
      ensures u(k) == 0.0
    {
      PowZero(k);
      assert Term(g, n, 0.0, k) == g(k as real / n as real) * Binom(n, k) as real * (0.0 * Pow(1.0, n - k));
    }
    RowSumFirstOnly(u, n + 1);
    PowOne(n);
    assert Term(g, n, 0.0, 0) == g(0.0) * 1.0 * (1.0 * Pow(1.0, n));
  }

  /** At x = 1 every term but the last carries a factor 0^(n-k) with n-k >= 1. */
  lemma ValueAtOne(g: real -> real, n: nat)
    requires 1 <= n
    ensures Value(g, n, 1.0) == g(1.0)
  {
    var u := Terms(g, n, 1.0);
    forall k: nat | k < n
      ensures u(k) == 0.0
    {
      PowZero(n - k);
      assert Term(g, n, 1.0, k) == g(k as real / n as real) * Binom(n, k) as real * (Pow(1.0, k) * 0.0);
    }
    RowSumZeroPrefix(u, n);
    PowOne(n);
    BinomDiagonal(n);
    assert n as real / n as real == 1.0;
    assert Term(g, n, 1.0, n) == g(1.0) * 1.0 * (1.0 * Pow(0.0, 0));
  }

  // ---------------------------------------------------------------------
  // The binomial theorem, sum_{k=0}^{n} C(n,k) x^k y^(n-k) = (x + y)^n.

  /** C(n,k) x^k y^(n-k), and 0 above the diagonal. */
  function Weight(n: nat, k: nat, x: real, y: real): real
  {
    if k <= n then Binom(n, k) as real * (Pow(x, k) * Pow(y, n - k)) else 0.0
  }

  /** Row n of the binomial expansion, as a function of k. */
  function Row(n: nat, x: real, y: real): nat -> real
  {
    (k: nat) => Weight(n, k, x, y)
  }

  /** Pascal's rule on a single weight. */
  lemma WeightPascal(n: nat, m: nat, x: real, y: real)
    requires 1 <= m <= n + 1
    ensures Weight(n + 1, m, x, y) == y * Weight(n, m, x, y) + x * Weight(n, m - 1, x, y)
  {
    var c1 := Binom(n, m - 1) as real;
    var px := Pow(x, m - 1);
    var py := Pow(y, n - (m - 1));
    assert Binom(n + 1, m) == Binom(n, m - 1) + Binom(n, m);
    assert Weight(n, m - 1, x, y) == c1 * (px * py);
    if m <= n {
      var c2 := Binom(n, m) as real;
      var qy := Pow(y, n - m);
      assert py == y * qy;
      assert Weight(n, m, x, y) == c2 * ((x * px) * qy);
      assert Weight(n + 1, m, x, y) == (c1 + c2) * ((x * px) * py);
      PascalArith(c1, c2, x, px, y, qy);
    } else {
      BinomAbove(n, m);
      assert Weight(n + 1, m, x, y) == (c1 + 0.0) * ((x * px) * 1.0);
      assert py == 1.0;
    }
  }

  lemma PascalArith(c1: real, c2: real, x: real, px: real, y: real, qy: real)
    ensures (c1 + c2) * ((x * px) * (y * qy)) == y * (c2 * ((x * px) * qy)) + x * (c1 * (px * (y * qy)))
  {
  }

  /** Moves an affine relation onto equal terms. */
  lemma Transfer(a: real, b: real, c: real, a': real, b': real, c': real, x: real, y: real)
    requires a == y * b + x * c && a' == a && b' == b && c' == c
    ensures a' == y * b' + x * c'
  {
  }

  /** Pascal's rule between rows n-1 and n, at every inner position. */
  lemma RowPascal(n: nat, x: real, y: real)
    requires 1 <= n
    ensures forall k {:trigger Row(n, x, y)(k)} :: 1 <= k <= n ==>
      Row(n, x, y)(k) == y * Row(n - 1, x, y)(k) + x * Row(n - 1, x, y)(k - 1)
  {
    forall k | 1 <= k <= n
      ensures Row(n, x, y)(k) == y * Row(n - 1, x, y)(k) + x * Row(n - 1, x, y)(k - 1)
    {
      WeightPascal(n - 1, k, x, y);
      Transfer(Weight(n, k, x, y), Weight(n - 1, k, x, y), Weight(n - 1, k - 1, x, y),
               Row(n, x, y)(k), Row(n - 1, x, y)(k), Row(n - 1, x, y)(k - 1), x, y);
    }
  }

  lemma Collect(total: real, ys: real, xs: real, a: real, b: real, p: real, x: real, y: real)
    requires total == ys + xs && ys == y * a && xs == x * b && a == p && b == p
    ensures total == (x + y) * p
  {
  }

  /** Row n as y times row n-1 plus x times row n-1 shifted right. */
  lemma RowSplit(n: nat, x: real, y: real)
    requires 1 <= n
    ensures forall k: nat {:trigger Row(n, x, y)(k)} :: k <= n ==>
      Row(n, x, y)(k) == Scaled(Row(n - 1, x, y), y)(k) + Shifted(Row(n - 1, x, y), x)(k)
  {
    RowPascalFirst(n, x, y);
    RowPascal(n, x, y);
    forall k: nat | k <= n
      ensures Row(n, x, y)(k) == Scaled(Row(n - 1, x, y), y)(k) + Shifted(Row(n - 1, x, y), x)(k)
    {
      if k > 0 {
        assert Shifted(Row(n - 1, x, y), x)(k) == x * Row(n - 1, x, y)(k - 1);
      }
    }
  }

  lemma RowPascalFirst(n: nat, x: real, y: real)
    requires 1 <= n
    ensures Row(n, x, y)(0) == y * Row(n - 1, x, y)(0)
  {
    assert Row(n, x, y)(0) == 1.0 * (1.0 * Pow(y, n));
    assert Row(n - 1, x, y)(0) == 1.0 * (1.0 * Pow(y, n - 1));
  }

  /** k |-> x * v(k - 1), and 0 at k = 0. */
  function Shifted(v: nat -> real, x: real): nat -> real
  {
    (k: nat) => if k == 0 then 0.0 else x * v(k - 1)
  }

  /** c * v(k) as a function of k. */
  function Scaled(v: nat -> real, c: real): nat -> real
  {
    (k: nat) => c * v(k)
  }

  lemma {:induction false} RowSumScaled(v: nat -> real, c: real, m: nat)
    ensures RowSum(Scaled(v, c), m) == c * RowSum(v, m)
  {
    if m > 0 {
      RowSumScaled(v, c, m - 1);
      ScaleStep(RowSum(Scaled(v, c), m), RowSum(Scaled(v, c), m - 1), Scaled(v, c)(m - 1),
                c, RowSum(v, m - 1), v(m - 1), RowSum(v, m));
    }
  }

  lemma {:induction false} RowSumShifted(v: nat -> real, x: real, m: nat)
    ensures RowSum(Shifted(v, x), m + 1) == x * RowSum(v, m)
  {
    if m > 0 {
      RowSumShifted(v, x, m - 1);
      ScaleStep(RowSum(Shifted(v, x), m + 1), RowSum(Shifted(v, x), m), Shifted(v, x)(m),
                x, RowSum(v, m - 1), v(m - 1), RowSum(v, m));
    }
  }

  /** sum (y * v) + sum (x * v shifted right) == (x + y) * sum v, when v(n) == 0. */
  lemma SplitSums(v: nat -> real, n: nat, x: real, y: real, p: real)
    requires v(n) == 0.0 && RowSum(v, n) == p
    ensures RowSum(Scaled(v, y), n + 1) + RowSum(Shifted(v, x), n + 1) == (x + y) * p
  {
    RowSumScaled(v, y, n + 1);
    RowSumShifted(v, x, n);
    assert RowSum(v, n + 1) == p;
    Collect(RowSum(Scaled(v, y), n + 1) + RowSum(Shifted(v, x), n + 1), RowSum(Scaled(v, y), n + 1),
            RowSum(Shifted(v, x), n + 1), RowSum(v, n + 1), RowSum(v, n), p, x, y);
  }

  /** With u = y * v + (x * v shifted right), the sums satisfy
      RowSum(u, n+1) == (x + y) * RowSum(v, n) when v(n) == 0. */
  lemma RowStep(u: nat -> real, v: nat -> real, n: nat, x: real, y: real, p: real)
    requires forall k: nat {:trigger u(k)} :: k <= n ==> u(k) == Scaled(v, y)(k) + Shifted(v, x)(k)
    requires v(n) == 0.0 && RowSum(v, n) == p
    ensures RowSum(u, n + 1) == (x + y) * p
  {
    RowSumAdd(u, Scaled(v, y), Shifted(v, x), n + 1);
    SplitSums(v, n, x, y, p);
  }

  /** One step of the binomial theorem: row n from row n-1. */
  lemma BinomialStep(n: nat, x: real, y: real)
    requires 1 <= n
    requires RowSum(Row(n - 1, x, y), n) == Pow(x + y, n - 1)
    ensures RowSum(Row(n, x, y), n + 1) == Pow(x + y, n)
  {
    RowSplit(n, x, y);
    assert Row(n - 1, x, y)(n) == 0.0;
    RowStep(Row(n, x, y), Row(n - 1, x, y), n, x, y, Pow(x + y, n - 1));
  }

  lemma {:induction false} BinomialTheorem(n: nat, x: real, y: real)
    ensures RowSum(Row(n, x, y), n + 1) == Pow(x + y, n)
  {
    if n == 0 {
      assert Row(0, x, y)(0) == 1.0 * (1.0 * 1.0);
    } else {
      BinomialTheorem(n - 1, x, y);
      BinomialStep(n, x, y);
    }
  }

  /** The Bernstein basis polynomials of degree n sum to one. */
  lemma PartitionOfUnity(n: nat, x: real)
    ensures RowSum(Row(n, x, 1.0 - x), n + 1) == 1.0
  {
    BinomialTheorem(n, x, 1.0 - x);
    assert x + (1.0 - x) == 1.0;
    PowOne(n);
  }

  lemma TermOfConstant(g: real -> real, c: real, n: nat, x: real, k: nat)
    requires 1 <= n && k <= n
    requires forall t :: g(t) == c
    ensures Terms(g, n, x)(k) == c * Row(n, x, 1.0 - x)(k)
  {
    var b := Binom(n, k) as real;
    var p := Pow(x, k) * Pow(1.0 - x, n - k);
    assert Row(n, x, 1.0 - x)(k) == b * p;
    assert g(k as real / n as real) == c;
    Scale(Terms(g, n, x)(k), g(k as real / n as real), c, b, p, Row(n, x, 1.0 - x)(k));
  }

  lemma Scale(term: real, gt: real, c: real, b: real, p: real, w: real)
    requires term == gt * b * p && gt == c && w == b * p
    ensures term == c * w
  {
  }

  /** The Bernstein sum depends on g only through its values. */
  lemma ValueExtensional(g: real -> real, h: real -> real, n: nat, x: real)
    requires 1 <= n
    requires forall t :: g(t) == h(t)
    ensures Value(g, n, x) == Value(h, n, x)
  {
    forall k: nat | k < n + 1
      ensures Terms(g, n, x)(k) == Terms(h, n, x)(k)
    {
      assert g(k as real / n as real) == h(k as real / n as real);
    }
    RowSumEqual(Terms(g, n, x), Terms(h, n, x), n + 1);
  }

  /** A constant function is reproduced exactly, at every x. */
  lemma ConstantReproduced(g: real -> real, c: real, n: nat, x: real)
    requires 1 <= n
    requires forall t :: g(t) == c
    ensures Value(g, n, x) == c
  {
    forall k: nat | k < n + 1
      ensures Terms(g, n, x)(k) == c * Row(n, x, 1.0 - x)(k)
    {
      TermOfConstant(g, c, n, x, k);
    }
    RowSumScale(Terms(g, n, x), Row(n, x, 1.0 - x), c, n + 1);
    PartitionOfUnity(n, x);
  }
}
