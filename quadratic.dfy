/** The quadratic spline.  Its linear system, as written, has one row and
    one column per segment (n of each for n + 1 nodes), but the interior
    loop writes the entry right of the diagonal in every interior row, which
    in the last one is column n: the assembly raises for three or more
    nodes, and the other node counts fail too.  The corrected system has one
    unknown per node, (n + 1) x (n + 1), which is also what the formula for
    the linear coefficients b expects of the solution c.  The solver itself
    (numpy.linalg.solve) is not modelled: the evaluation takes c as given. */
module QuadraticSpline {
  import opened Numeric
  import opened Series
  import opened Spline

  /** numpy.diff: the widths of the segments. */
  function Steps(xs: seq<real>): (h: seq<real>)
    ensures |xs| >= 1 ==> |h| == |xs| - 1
    ensures |xs| == 0 ==> |h| == 0
    ensures forall k :: 0 <= k < |h| ==> h[k] == xs[k + 1] - xs[k]
  {
    if |xs| <= 1 then [] else seq(|xs| - 1, (k: int) requires 0 <= k < |xs| - 1 => xs[k + 1] - xs[k])
  }

  // ---------------------------------------------------------------------
  // As written

  /** What quadratic_spline as written returns, by node count: it raises
      for every count but two, and with two nodes it returns only when there
      are no evaluation points, and then the empty array. */
  function AsWrittenOutcome(xs: seq<real>, ys: seq<real>, vs: seq<real>): (r: Result<seq<Num>>)
    ensures |vs| > 0 ==> r.Err?
    ensures r.Ok? ==> |xs| == 2 && r.value == []
  {
    if |xs| == 0 then Err(NegativeDimensions)
    else if |xs| != 2 then Err(IndexOutOfRange)
    else if |ys| >= 3 then Err(LengthMismatch)
    else if |vs| == 0 then Ok([])
    else Err(IndexOutOfRange)
  }

  /** quadratic_spline as written.  n = |xs| - 1 segments give an n x n
      matrix: n < 0 fails in numpy.zeros, n == 0 fails at A[0, 0], and for
      n >= 2 the last interior row writes A[n-1, n].  Only n == 1 assembles;
      its solution is c = [0], whose slices c[:-1] and c[1:] are empty, so b
      broadcasts to an empty array (or fails to broadcast against three or
      more data values) and b[i] raises for any evaluation point.  Values
      written before a raise are discarded with the matrix, so the division
      in rhs is modelled by Quot there. */
  method QuadraticSplineAsWritten(xs: seq<real>, ys: seq<real>, vs: seq<real>) returns (r: Result<seq<Num>>)
    ensures r == AsWrittenOutcome(xs, ys, vs)
    ensures |xs| == 0 ==> r == Err(NegativeDimensions)
    ensures |xs| == 1 || |xs| >= 3 ==> r == Err(IndexOutOfRange)
    ensures |xs| == 2 && |ys| >= 3 ==> r == Err(LengthMismatch)
    ensures |xs| == 2 && |ys| <= 2 && |vs| == 0 ==> r == Ok([])
    ensures |xs| == 2 && |ys| <= 2 && |vs| > 0 ==> r == Err(IndexOutOfRange)
  {
    var n := |xs| - 1;
    var h := Steps(xs);
    if n < 0 {
      return Err(NegativeDimensions);
    }
    var A := new real[n, n]((p, q) => 0.0);
    var rhs := new real[n](p => 0.0);
    var i := 1;
    while i < n
      invariant 1 <= i
      invariant n >= 2 ==> i <= n - 1
      invariant A.Length0 == n && A.Length1 == n && rhs.Length == n
      invariant n >= 1 ==> rhs[0] == 0.0
      modifies A, rhs
    {
      A[i, i - 1] := h[i - 1];
      A[i, i] := 2.0 * (h[i - 1] + h[i]);
      if i + 1 >= n {
        return Err(IndexOutOfRange);
      }
      A[i, i + 1] := h[i];
      if i + 1 >= |ys| {
        return Err(IndexOutOfRange);
      }
      rhs[i] := 6.0 * (Quot(ys[i + 1] - ys[i], h[i]) - Quot(ys[i] - ys[i - 1], h[i - 1]));
      i := i + 1;
    }
    if n == 0 {
      return Err(IndexOutOfRange);
    }
    A[0, 0] := 1.0;
    A[n - 1, n - 1] := 1.0;
    // Here n == 1: the system is [[1]] c = [0].
    var c := [rhs[0] / A[0, 0]];
    assert c == [0.0];
    if |ys| >= 3 {
      return Err(LengthMismatch);
    }
    var b: seq<real> := [];
    if |vs| == 0 {
      return Ok([]);
    }
    return Err(IndexOutOfRange);
  }

  // ---------------------------------------------------------------------
  // Corrected assembly

  /** The assembled system. */
  datatype System = System(A: array2<real>, rhs: array<real>)

  /** Entry (p, q) of the corrected (n + 1) x (n + 1) matrix: rows 0 and n are
      the natural end conditions, interior rows the continuity equations. */
  function SystemEntry(xs: seq<real>, p: nat, q: nat): real
  {
    if p >= |xs| || q >= |xs| then 0.0
    else if p == 0 || p == |xs| - 1 then (if q == p then 1.0 else 0.0)
    else if q + 1 == p then xs[p] - xs[p - 1]
    else if q == p then 2.0 * ((xs[p] - xs[p - 1]) + (xs[p + 1] - xs[p]))
    else if q == p + 1 then xs[p + 1] - xs[p]
    else 0.0
  }

  /** Entry p of the corrected right-hand side; zero in the end rows. */
  function RhsEntry(xs: seq<real>, ys: seq<real>, p: nat): real
  {
    if 1 <= p && p + 1 < |xs| && p + 1 < |ys| then
      6.0 * (Quot(ys[p + 1] - ys[p], xs[p + 1] - xs[p]) - Quot(ys[p] - ys[p - 1], xs[p] - xs[p - 1]))
    else 0.0
  }

  /** The interior rows divide by every segment width. */
  predicate InteriorStepsNonzero(xs: seq<real>)
  {
    |xs| >= 3 ==> forall k :: 0 <= k < |xs| - 1 ==> xs[k + 1] - xs[k] != 0.0
  }

  predicate Assembled(xs: seq<real>, ys: seq<real>, s: System)
    reads s.A, s.rhs
  {
    s.A.Length0 == |xs| && s.A.Length1 == |xs| && s.rhs.Length == |xs| &&
    (forall p, q :: 0 <= p < |xs| && 0 <= q < |xs| ==> s.A[p, q] == SystemEntry(xs, p, q)) &&
    (forall p :: 0 <= p < |xs| ==> s.rhs[p] == RhsEntry(xs, ys, p))
  }

  /** The working state after the interior rows 1 .. i - 1 are written:
      those rows hold their entries, everything else is still zero. */
  predicate RowsWritten(A: array2<real>, rhs: array<real>, xs: seq<real>, ys: seq<real>, i: nat)
    reads A, rhs
  {
    A.Length0 == |xs| && A.Length1 == |xs| && rhs.Length == |xs| &&
    (forall p, q :: 0 <= p < |xs| && 0 <= q < |xs| ==>
      A[p, q] == (if 1 <= p < i then SystemEntry(xs, p, q) else 0.0)) &&
    (forall p :: 0 <= p < |xs| ==> rhs[p] == (if 1 <= p < i then RhsEntry(xs, ys, p) else 0.0))
  }

  /** Interior row i written in place: its three band entries and its
      right-hand side. */
  method WriteRow(A: array2<real>, rhs: array<real>, xs: seq<real>, ys: seq<real>, i: nat)
    requires 1 <= i && i + 1 < |xs| && |ys| == |xs|
    requires xs[i] - xs[i - 1] != 0.0 && xs[i + 1] - xs[i] != 0.0
    requires RowsWritten(A, rhs, xs, ys, i)
    modifies A, rhs
    ensures RowsWritten(A, rhs, xs, ys, i + 1)
  {
    var hPrev, hNext := xs[i] - xs[i - 1], xs[i + 1] - xs[i];
    A[i, i - 1] := hPrev;
    A[i, i] := 2.0 * (hPrev + hNext);
    A[i, i + 1] := hNext;
    rhs[i] := 6.0 * ((ys[i + 1] - ys[i]) / hNext - (ys[i] - ys[i - 1]) / hPrev);
  }

  /** The two end rows, written once every interior row is. */
  method WriteEnds(A: array2<real>, rhs: array<real>, xs: seq<real>, ys: seq<real>, i: nat)
    requires |xs| >= 1 && (i == |xs| - 1 || (i == 1 && |xs| == 1))
    requires RowsWritten(A, rhs, xs, ys, i)
    modifies A
    ensures Assembled(xs, ys, System(A, rhs))
  {
    var n := |xs| - 1;
    A[0, 0] := 1.0;
    A[n, n] := 1.0;
  }

  /** The corrected assembly: an (n + 1) x (n + 1) system, the interior rows
      written in a loop, then the two end rows.  A zero segment width in an
      interior row is reported as ZeroDivision: numpy's float division would
      give inf or nan there instead, so this error is a choice of the model. */
  method AssembleCorrected(xs: seq<real>, ys: seq<real>) returns (r: Result<System>)
    ensures |ys| != |xs| ==> r == Err(LengthMismatch)
    ensures |ys| == |xs| && |xs| == 0 ==> r == Err(IndexOutOfRange)
    ensures |ys| == |xs| && |xs| >= 1 && !InteriorStepsNonzero(xs) ==> r == Err(ZeroDivision)
    ensures |ys| == |xs| && |xs| >= 1 && InteriorStepsNonzero(xs) ==>
      r.Ok? && fresh(r.value.A) && fresh(r.value.rhs) && Assembled(xs, ys, r.value)
  {
    if |ys| != |xs| {
      return Err(LengthMismatch);
    }
    if |xs| == 0 {
      return Err(IndexOutOfRange);
    }
    var m := |xs|;
    var n := m - 1;
    var h := Steps(xs);
    var A := new real[m, m]((p, q) => 0.0);
    var rhs := new real[m](p => 0.0);
    var i := 1;
    while i < n
      invariant 1 <= i <= (if n >= 1 then n else 1)
      invariant i >= 2 ==> forall k :: 0 <= k <= i - 1 && k < n ==> xs[k + 1] - xs[k] != 0.0
      invariant RowsWritten(A, rhs, xs, ys, i)
      modifies A, rhs
    {
      if h[i - 1] == 0.0 || h[i] == 0.0 {
        return Err(ZeroDivision);
      }
      WriteRow(A, rhs, xs, ys, i);
      i := i + 1;
    }
    WriteEnds(A, rhs, xs, ys, i);
    return Ok(System(A, rhs));
  }

  // ---------------------------------------------------------------------
  // Properties of the corrected system

  /** Row p of the matrix applied to c. */
  function RowValue(xs: seq<real>, p: nat, c: seq<real>): real
  {
    RowSum((q: nat) => if q < |c| then SystemEntry(xs, p, q) * c[q] else 0.0, |xs|)
  }

  /** c solves the corrected system. */
  predicate Solves(xs: seq<real>, ys: seq<real>, c: seq<real>)
  {
    |c| == |xs| && forall p: nat :: p < |xs| ==> RowValue(xs, p, c) == RhsEntry(xs, ys, p)
  }

  /** The end rows force the natural end conditions c_0 = 0 and c_n = 0. */
  lemma EndConditions(xs: seq<real>, ys: seq<real>, c: seq<real>)
    requires |xs| >= 1 && Solves(xs, ys, c)
    ensures c[0] == 0.0 && c[|xs| - 1] == 0.0
  {
    EndRow(xs, ys, c, 0);
    EndRow(xs, ys, c, |xs| - 1);
  }

  lemma EndRow(xs: seq<real>, ys: seq<real>, c: seq<real>, p: nat)
    requires Solves(xs, ys, c) && p < |xs| && (p == 0 || p == |xs| - 1)
    ensures c[p] == 0.0
  {
    var u := (q: nat) => if q < |c| then SystemEntry(xs, p, q) * c[q] else 0.0;
    forall q: nat | q < |xs| && q != p
      ensures u(q) == 0.0
    {
      assert SystemEntry(xs, p, q) == 0.0;
    }
    RowSumSingle(u, |xs|, p);
    assert RowValue(xs, p, c) == RhsEntry(xs, ys, p);
  }

  /** On increasing nodes every interior row is strictly diagonally dominant
      with positive entries (that the system then has a unique solution is
      not proved here). */
  lemma InteriorDominant(xs: seq<real>, p: nat)
    requires StrictlyIncreasing(xs) && 1 <= p && p + 1 < |xs|
    ensures 0.0 < SystemEntry(xs, p, p - 1) && 0.0 < SystemEntry(xs, p, p + 1)
    ensures SystemEntry(xs, p, p - 1) + SystemEntry(xs, p, p + 1) < SystemEntry(xs, p, p)
  {
    assert xs[p - 1] < xs[p] < xs[p + 1];
  }

  // ---------------------------------------------------------------------
  // Evaluation for a given solution c

  /** The coefficient b_i of a segment [x0, x1] with data y0, y1 and
      curvatures c0, c1 at its ends. */
  function Slope(x0: real, x1: real, y0: real, y1: real, c0: real, c1: real): real
    requires x1 - x0 != 0.0
  {
    (y1 - y0) / (x1 - x0) - (x1 - x0) / 6.0 * (2.0 * c0 + c1)
  }

  /** a_i + b_i dx + c_i dx^2 / 2 at v on one segment, with a_i = y0 and
      dx = v - x0; a segment of width zero gives a non-finite value. */
  function SegmentPoint(x0: real, x1: real, y0: real, y1: real, c0: real, c1: real, v: real): Num
  {
    if x1 - x0 == 0.0 then NonFinite
    else Finite(y0 + Slope(x0, x1, y0, y1, c0, c1) * (v - x0) + c0 * ((v - x0) * (v - x0)) / 2.0)
  }

  /** The evaluation on the segment linear_spline would also use. */
  function QuadraticAt(xs: seq<real>, ys: seq<real>, c: seq<real>, v: real): (r: Result<Num>)
    ensures r.Ok? <==> |xs| >= 2 && |ys| == |xs| && |c| == |xs|
    ensures r.Err? ==> r == Err(IndexOutOfRange)
  {
    if |xs| < 2 || |ys| != |xs| || |c| != |xs| then Err(IndexOutOfRange)
    else
      var i := Segment(xs, v);
      Ok(SegmentPoint(xs[i], xs[i + 1], ys[i], ys[i + 1], c[i], c[i + 1], v))
  }

  /** quadratic_spline with the corrected system, on an array of points. */
  function QuadraticSpline(xs: seq<real>, ys: seq<real>, c: seq<real>, vs: seq<real>): Result<seq<Num>>
  {
    MapPoints(v => QuadraticAt(xs, ys, c, v), vs)
  }

  /** For well-formed data the value is that of the clipped segment. */
  lemma QuadraticOnSegment(xs: seq<real>, ys: seq<real>, c: seq<real>, v: real)
    requires |xs| >= 2 && |ys| == |xs| && |c| == |xs|
    ensures 0 <= Segment(xs, v) <= |xs| - 2
    ensures var i := Segment(xs, v);
      QuadraticAt(xs, ys, c, v) == Ok(SegmentPoint(xs[i], xs[i + 1], ys[i], ys[i + 1], c[i], c[i + 1], v))
  {
  }

  /** The spline passes through the first data point. */
  lemma QuadraticAtFirstNode(xs: seq<real>, ys: seq<real>, c: seq<real>)
    requires StrictlyIncreasing(xs) && |xs| >= 2 && |ys| == |xs| && |c| == |xs|
    ensures QuadraticAt(xs, ys, c, xs[0]) == Ok(Finite(ys[0]))
  {
    QuadraticOnSegment(xs, ys, c, xs[0]);
    SearchAtNode(xs, 0);
    assert Segment(xs, xs[0]) == 0;
    assert xs[0] < xs[1];
    StartPoint(xs[0], xs[1], ys[0], ys[1], c[0], c[1]);
  }

  /** A segment's quadratic starts at its left data value. */
  lemma StartPoint(x0: real, x1: real, y0: real, y1: real, c0: real, c1: real)
    requires x1 - x0 != 0.0
    ensures SegmentPoint(x0, x1, y0, y1, c0, c1, x0) == Finite(y0)
  {
    ZeroOffset(y0, Slope(x0, x1, y0, y1, c0, c1), c0, x0 - x0);
  }

  lemma ZeroOffset(y: real, b: real, c: real, dx: real)
    requires dx == 0.0
    ensures y + b * dx + c * (dx * dx) / 2.0 == y
  {
  }

  /** At node k >= 1 the value is y_k + h^2 (c_{k-1} - c_k) / 6 with h the
      width of segment k - 1: without a cubic term the spline meets its data
      only where consecutive curvatures agree. */
  lemma QuadraticAtNode(xs: seq<real>, ys: seq<real>, c: seq<real>, k: nat)
    requires StrictlyIncreasing(xs) && |ys| == |xs| && |c| == |xs| && 1 <= k < |xs|
    ensures QuadraticAt(xs, ys, c, xs[k])
         == Ok(Finite(ys[k] + (xs[k] - xs[k - 1]) * (xs[k] - xs[k - 1]) * (c[k - 1] - c[k]) / 6.0))
  {
    QuadraticOnSegment(xs, ys, c, xs[k]);
    SearchAtNode(xs, k);
    assert Segment(xs, xs[k]) == k - 1;
    assert QuadraticAt(xs, ys, c, xs[k]) == Ok(SegmentPoint(xs[k - 1], xs[k], ys[k - 1], ys[k], c[k - 1], c[k], xs[k]));
    assert xs[k - 1] < xs[k];
    EndPoint(xs[k - 1], xs[k], ys[k - 1], ys[k], c[k - 1], c[k]);
    assert SegmentPoint(xs[k - 1], xs[k], ys[k - 1], ys[k], c[k - 1], c[k], xs[k])
        == Finite(ys[k] + (xs[k] - xs[k - 1]) * (xs[k] - xs[k - 1]) * (c[k - 1] - c[k]) / 6.0);
  }

  /** At its right end a segment's quadratic misses the data value by
      h^2 (c0 - c1) / 6. */
  lemma EndPoint(x0: real, x1: real, y0: real, y1: real, c0: real, c1: real)
    requires x1 - x0 != 0.0
    ensures SegmentPoint(x0, x1, y0, y1, c0, c1, x1) == Finite(y1 + (x1 - x0) * (x1 - x0) * (c0 - c1) / 6.0)
  {
    NodeArith(y0, y1, c0, c1, x1 - x0, Slope(x0, x1, y0, y1, c0, c1));
  }

  lemma NodeArith(y0: real, y1: real, c0: real, c1: real, h: real, b: real)
    requires h != 0.0 && b == (y1 - y0) / h - h / 6.0 * (2.0 * c0 + c1)
    ensures y0 + b * h + c0 * (h * h) / 2.0 == y1 + h * h * (c0 - c1) / 6.0
  {
    assert (y1 - y0) / h * h == y1 - y0;
    assert b * h == (y1 - y0) / h * h - h / 6.0 * (2.0 * c0 + c1) * h;
    assert h / 6.0 * (2.0 * c0 + c1) * h == h * h * (2.0 * c0 + c1) / 6.0;
  }

  /** With zero curvatures the spline is the linear spline. */
  lemma QuadraticFlat(xs: seq<real>, ys: seq<real>, c: seq<real>, v: real)
    requires |xs| >= 2 && |ys| == |xs| && |c| == |xs|
    requires forall k :: 0 <= k < |c| ==> c[k] == 0.0
    ensures QuadraticAt(xs, ys, c, v) == LinearSplineAt(xs, ys, v)
  {
    LinearOnSegment(xs, ys, v);
    QuadraticOnSegment(xs, ys, c, v);
    var i := Segment(xs, v);
    FlatPoint(xs[i], xs[i + 1], ys[i], ys[i + 1], c[i], c[i + 1], v);
  }

  /** A segment with zero curvature at both ends is the line through them. */
  lemma FlatPoint(x0: real, x1: real, y0: real, y1: real, c0: real, c1: real, v: real)
    requires c0 == 0.0 && c1 == 0.0
    ensures SegmentPoint(x0, x1, y0, y1, c0, c1, v) == LinePoint(x0, x1, y0, y1, v)
  {
    if x1 - x0 != 0.0 {
      FlatValue(Slope(x0, x1, y0, y1, c0, c1), y1 - y0, v - x0, x1 - x0);
    }
  }

  lemma FlatValue(b: real, a: real, d: real, h: real)
    requires h != 0.0 && b == a / h
    ensures b * d == a * d / h
  {
  }
}
