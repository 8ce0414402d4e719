/** Finite sums and products of a sequence of reals given as a function of
    its index, accumulated left to right as the loops of the routines do, and
    the algebra the approximation proofs need about them. */
module Series {
  import opened Numeric

  // ---------------------------------------------------------------------
  // Sums.

  /** u(0) + ... + u(m-1), added in that order. */
  function RowSum(u: nat -> real, m: nat): real
  {
    if m == 0 then 0.0 else RowSum(u, m - 1) + u(m - 1)
  }

  lemma RowSumLast(u: nat -> real, m: nat)
    ensures RowSum(u, m + 1) == RowSum(u, m) + u(m)
  {
  }

  lemma {:induction false} RowSumScale(u: nat -> real, v: nat -> real, c: real, m: nat)
    requires forall k: nat {:trigger u(k)} :: k < m ==> u(k) == c * v(k)
    ensures RowSum(u, m) == c * RowSum(v, m)
  {
    if m > 0 {
      RowSumScale(u, v, c, m - 1);
      ScaleStep(RowSum(u, m), RowSum(u, m - 1), u(m - 1), c, RowSum(v, m - 1), v(m - 1), RowSum(v, m));
    }
  }

  lemma ScaleStep(total: real, prev: real, term: real, c: real, s: real, w: real, r: real)
    requires total == prev + term && prev == c * s && term == c * w && r == s + w
    ensures total == c * r
  {
  }

  /** A sum whose terms vanish below index `lo` is zero. */
  lemma {:induction false} RowSumZeroPrefix(u: nat -> real, lo: nat)
    requires forall k: nat {:trigger u(k)} :: k < lo ==> u(k) == 0.0
    ensures RowSum(u, lo) == 0.0
  {
    if lo > 0 { RowSumZeroPrefix(u, lo - 1); }
  }

  /** A sum whose terms vanish from index 1 on is its first term. */
  lemma {:induction false} RowSumFirstOnly(u: nat -> real, m: nat)
    requires 1 <= m
    requires forall k {:trigger u(k)} :: 1 <= k < m ==> u(k) == 0.0
    ensures RowSum(u, m) == u(0)
  {
    if m > 1 { RowSumFirstOnly(u, m - 1); }
  }

  lemma {:induction false} RowSumAdd(u: nat -> real, a: nat -> real, b: nat -> real, m: nat)
    requires forall k: nat {:trigger u(k)} :: k < m ==> u(k) == a(k) + b(k)
    ensures RowSum(u, m) == RowSum(a, m) + RowSum(b, m)
  {
    if m > 0 { RowSumAdd(u, a, b, m - 1); }
  }

  lemma {:induction false} RowSumEqual(u: nat -> real, v: nat -> real, m: nat)
    requires forall k: nat {:trigger u(k)} :: k < m ==> u(k) == v(k)
    ensures RowSum(u, m) == RowSum(v, m)
  {
    if m > 0 { RowSumEqual(u, v, m - 1); }
  }


  /** A sum with only one nonzero term is that term. */
  lemma {:induction false} RowSumSingle(u: nat -> real, m: nat, k: nat)
    requires k < m
    requires forall j: nat {:trigger u(j)} :: j < m && j != k ==> u(j) == 0.0
    ensures RowSum(u, m) == u(k)
  {
    if m - 1 == k {
      RowSumZeroPrefix(u, k);
    } else {
      RowSumSingle(u, m - 1, k);
    }
  }

  // ---------------------------------------------------------------------
  // Products.

  /** u(0) * ... * u(m-1), multiplied in that order. */
  function Prod(u: nat -> real, m: nat): real
  {
    if m == 0 then 1.0 else Prod(u, m - 1) * u(m - 1)
  }

  lemma ProdLast(u: nat -> real, m: nat)
    ensures Prod(u, m + 1) == Prod(u, m) * u(m)
  {
  }

  lemma {:induction false} ProdEqual(u: nat -> real, v: nat -> real, m: nat)
    requires forall k: nat {:trigger u(k)} :: k < m ==> u(k) == v(k)
    ensures Prod(u, m) == Prod(v, m)
  {
    if m > 0 { ProdEqual(u, v, m - 1); }
  }

  lemma {:induction false} ProdOnes(u: nat -> real, m: nat)
    requires forall k: nat {:trigger u(k)} :: k < m ==> u(k) == 1.0
    ensures Prod(u, m) == 1.0
  {
    if m > 0 { ProdOnes(u, m - 1); }
  }

  /** A zero factor makes the product zero. */
  lemma {:induction false} ProdZero(u: nat -> real, m: nat, k: nat)
    requires k < m && u(k) == 0.0
    ensures Prod(u, m) == 0.0
  {
    if m - 1 != k { ProdZero(u, m - 1, k); }
  }

  /** Every factor of a nonzero product is nonzero. */
  lemma {:induction false} ProdFactorNonzero(u: nat -> real, m: nat, k: nat)
    requires k < m && Prod(u, m) != 0.0
    ensures u(k) != 0.0
  {
    assert Prod(u, m) == Prod(u, m - 1) * u(m - 1);
    if k < m - 1 {
      ProdFactorNonzero(u, m - 1, k);
    }
  }

  /** A zero product has a zero factor. */
  lemma {:induction false} ProdZeroFactor(u: nat -> real, m: nat)
    requires Prod(u, m) == 0.0
    ensures exists k: nat :: k < m && u(k) == 0.0
  {
    if m > 0 && u(m - 1) != 0.0 {
      ZeroProduct(Prod(u, m - 1), u(m - 1));
      ProdZeroFactor(u, m - 1);
    }
  }

  lemma ZeroProduct(p: real, q: real)
    requires p * q == 0.0 && q != 0.0
    ensures p == 0.0
  {
    assert p == p * q / q;
  }

  /** Without a zero factor the product is not zero. */
  lemma {:induction false} ProdNonzero(u: nat -> real, m: nat)
    requires forall k: nat {:trigger u(k)} :: k < m ==> u(k) != 0.0
    ensures Prod(u, m) != 0.0
  {
    if m > 0 {
      ProdNonzero(u, m - 1);
      NonzeroProduct(Prod(u, m - 1), u(m - 1));
    }
  }

  lemma NonzeroProduct(p: real, q: real)
    requires p != 0.0 && q != 0.0
    ensures p * q != 0.0
  {
    assert p * q / q == p;
  }

  /** The product of factorwise products. */
  lemma {:induction false} ProdMul(u: nat -> real, a: nat -> real, b: nat -> real, m: nat)
    requires forall k: nat {:trigger u(k)} :: k < m ==> u(k) == a(k) * b(k)
    ensures Prod(u, m) == Prod(a, m) * Prod(b, m)
  {
    if m > 0 {
      ProdMul(u, a, b, m - 1);
      MulStep(Prod(u, m - 1), u(m - 1), Prod(a, m - 1), a(m - 1), Prod(b, m - 1), b(m - 1));
    }
  }

  lemma MulStep(pu: real, u: real, pa: real, a: real, pb: real, b: real)
    requires pu == pa * pb && u == a * b
    ensures pu * u == (pa * a) * (pb * b)
  {
  }

  /** The product of factorwise quotients is the quotient of the products. */
  lemma {:induction false} ProdQuotient(q: nat -> real, a: nat -> real, b: nat -> real, m: nat)
    requires forall k: nat {:trigger b(k)} :: k < m ==> b(k) != 0.0
    requires forall k: nat {:trigger q(k)} :: k < m ==> q(k) == a(k) / b(k)
    ensures Prod(b, m) != 0.0 && Prod(q, m) == Prod(a, m) / Prod(b, m)
  {
    ProdNonzero(b, m);
    if m > 0 {
      ProdQuotient(q, a, b, m - 1);
      QuotStep(Prod(q, m - 1), q(m - 1), Prod(a, m - 1), a(m - 1), Prod(b, m - 1), b(m - 1));
    }
  }

  lemma QuotStep(pq: real, q: real, pa: real, a: real, pb: real, b: real)
    requires pb != 0.0 && b != 0.0 && pq == pa / pb && q == a / b
    ensures pq * q == (pa * a) / (pb * b)
  {
    NonzeroProduct(pb, b);
  }

  /** The number of indices j < m other than i. */
  function Others(i: nat, m: nat): (r: nat)
    ensures r == m || r + 1 == m
    ensures r == m <==> m <= i
  {
    if m > i then m - 1 else m
  }

  /** A constant on every index but i, and one at i, multiplies to a power. */
  lemma {:induction false} ProdMaskedConst(u: nat -> real, c: real, i: nat, m: nat)
    requires forall k: nat {:trigger u(k)} :: k < m ==> u(k) == (if k != i then c else 1.0)
    ensures Prod(u, m) == Pow(c, Others(i, m))
  {
    if m > 0 {
      ProdMaskedConst(u, c, i, m - 1);
    }
  }

  /** w with its j-th factor replaced by one. */
  function Drop(w: nat -> real, j: nat): nat -> real
  {
    (k: nat) => if k != j then w(k) else 1.0
  }

  /** For j != i the product of w(0 .. n-1) without its j-th factor; one at j == i. */
  function Outer(w: nat -> real, i: nat, n: nat): nat -> real
  {
    (j: nat) => if j != i then Prod(Drop(w, j), n) else 1.0
  }

  /** Others(i, n) - 1, and 0 when there are no other indices. */
  function Exponent(i: nat, n: nat): nat
  {
    if Others(i, n) >= 1 then Others(i, n) - 1 else 0
  }

  lemma OuterFactors(w: nat -> real, i: nat, m: nat)
    ensures forall j: nat {:trigger Outer(w, i, m + 1)(j)} :: j < m ==>
      Outer(w, i, m + 1)(j) == Outer(w, i, m)(j) * (if j != i then w(m) else 1.0)
  {
    forall j: nat | j < m
      ensures Outer(w, i, m + 1)(j) == Outer(w, i, m)(j) * (if j != i then w(m) else 1.0)
    {
      if j != i {
        assert Prod(Drop(w, j), m + 1) == Prod(Drop(w, j), m) * Drop(w, j)(m);
      }
    }
  }

  /** Multiplying every factor but the i-th by the same c. */
  lemma ProdMaskedScale(u: nat -> real, v: nat -> real, c: real, i: nat, m: nat)
    requires forall j: nat {:trigger u(j)} :: j < m ==> u(j) == v(j) * (if j != i then c else 1.0)
    ensures Prod(u, m) == Prod(v, m) * Pow(c, Others(i, m))
  {
    var mask := (j: nat) => if j != i then c else 1.0;
    ProdMul(u, v, mask, m);
    ProdMaskedConst(mask, c, i, m);
  }

  lemma OuterStep(w: nat -> real, i: nat, m: nat)
    ensures Prod(Outer(w, i, m + 1), m) == Prod(Outer(w, i, m), m) * Pow(w(m), Others(i, m))
  {
    OuterFactors(w, i, m);
    ProdMaskedScale(Outer(w, i, m + 1), Outer(w, i, m), w(m), i, m);
  }

  lemma LastOuter(w: nat -> real, i: nat, m: nat)
    ensures Outer(w, i, m + 1)(m) == if m != i then Prod(w, m) else 1.0
  {
    if m != i {
      assert Prod(Drop(w, m), m + 1) == Prod(Drop(w, m), m) * 1.0;
      ProdEqual(Drop(w, m), w, m);
    }
  }

  /** With w(i) == 1: the product over j != i of the product of w without its
      j-th factor is the full product raised to the number of other indices
      minus one -- every factor w(k), k != i, is missed exactly once. */
  lemma {:induction false} DoubleProduct(w: nat -> real, i: nat, n: nat)
    requires w(i) == 1.0
    ensures Prod(Outer(w, i, n), n) == Pow(Prod(w, n), Exponent(i, n))
  {
    if n > 0 {
      DoubleProduct(w, i, n - 1);
      DoubleStep(w, i, n - 1);
    }
  }

  /** The facts one step of DoubleProduct combines, from m factors to m + 1. */
  predicate StepFacts(w: nat -> real, i: nat, m: nat)
  {
    && Prod(Outer(w, i, m + 1), m + 1) == Prod(Outer(w, i, m + 1), m) * Outer(w, i, m + 1)(m)
    && Prod(Outer(w, i, m + 1), m) == Prod(Outer(w, i, m), m) * Pow(w(m), Others(i, m))
    && Outer(w, i, m + 1)(m) == (if m != i then Prod(w, m) else 1.0)
    && Prod(w, m + 1) == Prod(w, m) * w(m)
  }

  lemma DoubleStep(w: nat -> real, i: nat, m: nat)
    requires w(i) == 1.0
    requires Prod(Outer(w, i, m), m) == Pow(Prod(w, m), Exponent(i, m))
    ensures Prod(Outer(w, i, m + 1), m + 1) == Pow(Prod(w, m + 1), Exponent(i, m + 1))
  {
    OuterStep(w, i, m);
    LastOuter(w, i, m);
    ProdLast(Outer(w, i, m + 1), m);
    ProdLast(w, m);
    assert StepFacts(w, i, m);
    if m == i {
      DoubleStepSkipped(w, i, m);
    } else if Others(i, m) == 0 {
      DoubleStepFirst(w, i, m);
    } else {
      DoubleStepGeneral(w, i, m);
    }
  }

  lemma DoubleStepSkipped(w: nat -> real, i: nat, m: nat)
    requires w(i) == 1.0 && m == i && StepFacts(w, i, m)
    requires Prod(Outer(w, i, m), m) == Pow(Prod(w, m), Exponent(i, m))
    ensures Prod(Outer(w, i, m + 1), m + 1) == Pow(Prod(w, m + 1), Exponent(i, m + 1))
  {
    StepAtSkipped(Prod(Outer(w, i, m + 1), m + 1), Prod(Outer(w, i, m + 1), m), Outer(w, i, m + 1)(m),
                  Prod(Outer(w, i, m), m), Prod(w, m), w(m), Prod(w, m + 1), Others(i, m), Exponent(i, m));
  }

  lemma DoubleStepFirst(w: nat -> real, i: nat, m: nat)
    requires w(i) == 1.0 && m != i && Others(i, m) == 0 && StepFacts(w, i, m)
    requires Prod(Outer(w, i, m), m) == Pow(Prod(w, m), Exponent(i, m))
    ensures Prod(Outer(w, i, m + 1), m + 1) == Pow(Prod(w, m + 1), Exponent(i, m + 1))
  {
    assert Prod(w, m) == 1.0 by {
      if m == 1 { assert Prod(w, m) == 1.0 * w(0); }
    }
    StepAtFirst(Prod(Outer(w, i, m + 1), m + 1), Prod(Outer(w, i, m + 1), m), Outer(w, i, m + 1)(m),
                Prod(Outer(w, i, m), m), Prod(w, m), w(m), Prod(w, m + 1));
  }

  lemma DoubleStepGeneral(w: nat -> real, i: nat, m: nat)
    requires w(i) == 1.0 && m != i && Others(i, m) >= 1 && StepFacts(w, i, m)
    requires Prod(Outer(w, i, m), m) == Pow(Prod(w, m), Exponent(i, m))
    ensures Prod(Outer(w, i, m + 1), m + 1) == Pow(Prod(w, m + 1), Exponent(i, m + 1))
  {
    StepGeneral(Prod(Outer(w, i, m + 1), m + 1), Prod(Outer(w, i, m + 1), m), Outer(w, i, m + 1)(m),
                Prod(Outer(w, i, m), m), Prod(w, m), w(m), Prod(w, m + 1), Others(i, m));
  }

  lemma StepAtSkipped(fn: real, pm: real, last: real, fm: real, W: real, wm: real, wn: real, c: nat, e: nat)
    requires fn == pm * last && pm == fm * Pow(wm, c) && fm == Pow(W, e) && wn == W * wm
    requires wm == 1.0 && last == 1.0
    ensures fn == Pow(wn, e)
  {
    PowOne(c);
  }

  lemma StepAtFirst(fn: real, pm: real, last: real, fm: real, W: real, wm: real, wn: real)
    requires fn == pm * last && pm == fm * Pow(wm, 0) && fm == Pow(W, 0) && wn == W * wm
    requires last == W && W == 1.0
    ensures fn == Pow(wn, 0)
  {
  }

  lemma StepGeneral(fn: real, pm: real, last: real, fm: real, W: real, wm: real, wn: real, c: nat)
    requires 1 <= c
    requires fn == pm * last && pm == fm * Pow(wm, c) && fm == Pow(W, c - 1) && wn == W * wm
    requires last == W
    ensures fn == Pow(wn, c)
  {
    PowMul(W, wm, c);
    Regroup(fn, fm, Pow(wm, c), W, Pow(W, c), Pow(wn, c));
  }

  lemma Regroup(f: real, p1: real, p2: real, w: real, pc: real, target: real)
    requires f == p1 * p2 * w && pc == w * p1 && target == pc * p2
    ensures f == target
  {
  }

  // ---------------------------------------------------------------------
  // Running maximum

  /** The maximum of 0.0 and e[0], ..., e[s-1], built up as a loop
      `m = max(m, e[t])` starting from 0.0 builds it. */
  function RunningMax(e: seq<real>, s: nat): (m: real)
    requires s <= |e|
    ensures m >= 0.0
    ensures forall t :: 0 <= t < s ==> e[t] <= m
    ensures m == 0.0 || exists t :: 0 <= t < s && m == e[t]
  {
    if s == 0 then 0.0
    else
      var p := RunningMax(e, s - 1);
      if e[s - 1] > p then e[s - 1] else p
  }
}
