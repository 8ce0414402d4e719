/** The linear spline as numpy evaluates it: each evaluation point picks a
    segment with searchsorted (side 'left') minus one, clipped to the valid
    segments, and is interpolated on the line through that segment's ends.
    Indexing follows numpy: negative indices count from the end and an index
    outside the array raises.  A zero-width segment divides by zero, which
    numpy turns into an infinity or a NaN rather than an exception. */
module Spline {
  import opened Numeric

  /** A float64 result: a real number, or an infinity or NaN. */
  datatype Num = Finite(v: real) | NonFinite

  predicate Sorted(xs: seq<real>)
  {
    forall p, q :: 0 <= p <= q < |xs| ==> xs[p] <= xs[q]
  }

  predicate StrictlyIncreasing(xs: seq<real>)
  {
    forall p, q :: 0 <= p < q < |xs| ==> xs[p] < xs[q]
  }

  /** numpy.searchsorted(xs, v) with side 'left': the first index whose node
      is at least v, or |xs| when there is none. */
  function SearchSortedLeft(xs: seq<real>, v: real): (i: nat)
    ensures i <= |xs|
    ensures forall k :: 0 <= k < i ==> xs[k] < v
    ensures i < |xs| ==> v <= xs[i]
  {
    if |xs| == 0 then 0
    else if v <= xs[0] then 0
    else 1 + SearchSortedLeft(xs[1..], v)
  }

  /** The number of nodes strictly less than v. */
  function CountLess(xs: seq<real>, v: real): nat
  {
    if |xs| == 0 then 0
    else (if xs[0] < v then 1 else 0) + CountLess(xs[1..], v)
  }

  lemma {:induction false} CountNone(xs: seq<real>, v: real)
    requires forall k :: 0 <= k < |xs| ==> v <= xs[k]
    ensures CountLess(xs, v) == 0
  {
    if |xs| > 0 {
      assert forall k :: 0 <= k < |xs| - 1 ==> xs[1..][k] == xs[k + 1];
      CountNone(xs[1..], v);
    }
  }

  /** On sorted nodes the search result is the number of nodes below v. */
  lemma {:induction false} SearchIsCount(xs: seq<real>, v: real)
    requires Sorted(xs)
    ensures SearchSortedLeft(xs, v) == CountLess(xs, v)
  {
    if |xs| > 0 {
      var tail := xs[1..];
      assert forall k :: 0 <= k < |tail| ==> tail[k] == xs[k + 1];
      if v <= xs[0] {
        CountNone(tail, v);
      } else {
        SearchIsCount(tail, v);
      }
    }
  }

  /** The search result is the only index with its two defining properties. */
  lemma SearchUnique(xs: seq<real>, v: real, i: nat)
    requires i <= |xs|
    requires forall k :: 0 <= k < i ==> xs[k] < v
    requires i < |xs| ==> v <= xs[i]
    ensures SearchSortedLeft(xs, v) == i
  {
  }

  /** With strictly increasing nodes, searching a node finds its own index. */
  lemma SearchAtNode(xs: seq<real>, k: nat)
    requires StrictlyIncreasing(xs) && k < |xs|
    ensures SearchSortedLeft(xs, xs[k]) == k
  {
    SearchUnique(xs, xs[k], k);
  }

  /** A point in (x_i, x_{i+1}] is preceded by exactly the nodes 0..i. */
  lemma SearchInside(xs: seq<real>, i: nat, v: real)
    requires Sorted(xs) && i + 1 < |xs| && xs[i] < v <= xs[i + 1]
    ensures SearchSortedLeft(xs, v) == i + 1
  {
    SearchUnique(xs, v, i + 1);
  }

  /** numpy.clip(i, lo, hi), that is minimum(maximum(i, lo), hi); for lo > hi
      every value becomes hi. */
  function Clip(i: int, lo: int, hi: int): (r: int)
    ensures lo <= hi ==> lo <= r <= hi
    ensures lo <= i <= hi ==> r == i
    ensures lo > hi ==> r == hi
    ensures i < lo <= hi ==> r == lo
    ensures lo <= hi < i ==> r == hi
  {
    var m := if i < lo then lo else i;
    if m > hi then hi else m
  }

  /** The segment linear_spline uses for v. */
  function Segment(xs: seq<real>, v: real): int
  {
    Clip(SearchSortedLeft(xs, v) - 1, 0, |xs| - 2)
  }

  /** The segment is the number of nodes below v, minus one, clipped to
      0 .. |xs| - 2. */
  lemma SegmentIsCount(xs: seq<real>, v: real)
    requires Sorted(xs)
    ensures Segment(xs, v) == Clip(CountLess(xs, v) - 1, 0, |xs| - 2)
  {
    SearchIsCount(xs, v);
  }

  /** numpy indexing of a one-dimensional array. */
  function PyIndex(s: seq<real>, i: int): (r: Result<real>)
    ensures r.Ok? <==> -|s| <= i < |s|
    ensures 0 <= i < |s| ==> r == Ok(s[i])
    ensures -|s| <= i < 0 ==> r == Ok(s[|s| + i])
  {
    if 0 <= i < |s| then Ok(s[i])
    else if -|s| <= i < 0 then Ok(s[|s| + i])
    else Err(IndexOutOfRange)
  }

  /** The line through (x0, y0) and (x1, y1) at v; no line for x0 == x1. */
  function LinePoint(x0: real, x1: real, y0: real, y1: real, v: real): Num
  {
    if x1 - x0 == 0.0 then NonFinite
    else Finite(y0 + (y1 - y0) * (v - x0) / (x1 - x0))
  }

  /** linear_spline at one evaluation point. */
  function LinearSplineAt(xs: seq<real>, ys: seq<real>, v: real): (r: Result<Num>)
    ensures |xs| >= 2 && |ys| == |xs| ==> r.Ok?
    ensures |xs| == 0 ==> r == Err(IndexOutOfRange)
    ensures |xs| == 1 && |ys| >= 1 ==> r == Ok(NonFinite)
  {
    var i := Segment(xs, v);
    var x0, x1 := PyIndex(xs, i), PyIndex(xs, i + 1);
    var y0, y1 := PyIndex(ys, i), PyIndex(ys, i + 1);
    if x0.Err? || x1.Err? || y0.Err? || y1.Err? then Err(IndexOutOfRange)
    else Ok(LinePoint(x0.value, x1.value, y0.value, y1.value, v))
  }

  /** For well-formed data the value is the line through the ends of the
      clipped segment. */
  lemma LinearOnSegment(xs: seq<real>, ys: seq<real>, v: real)
    requires |xs| >= 2 && |ys| == |xs|
    ensures 0 <= Segment(xs, v) <= |xs| - 2
    ensures var i := Segment(xs, v);
      LinearSplineAt(xs, ys, v) == Ok(LinePoint(xs[i], xs[i + 1], ys[i], ys[i + 1], v))
  {
    var i := Segment(xs, v);
    assert PyIndex(xs, i) == Ok(xs[i]) && PyIndex(xs, i + 1) == Ok(xs[i + 1]);
    assert PyIndex(ys, i) == Ok(ys[i]) && PyIndex(ys, i + 1) == Ok(ys[i + 1]);
  }

  /** A pointwise evaluator applied to an array of evaluation points, as
      numpy's vectorised arithmetic applies it: element by element, and one
      index out of range makes the whole call raise. */
  function MapPoints(g: real -> Result<Num>, vs: seq<real>): (r: Result<seq<Num>>)
    ensures r.Ok? <==> forall j :: 0 <= j < |vs| ==> g(vs[j]).Ok?
    ensures r.Ok? ==> |r.value| == |vs|
    ensures r.Ok? ==> forall j :: 0 <= j < |vs| ==> r.value[j] == g(vs[j]).value
    ensures r.Err? ==> r == Err(IndexOutOfRange)
  {
    if |vs| == 0 then Ok([])
    else
      var head := g(vs[0]);
      var rest := MapPoints(g, vs[1..]);
      assert forall j :: 0 < j < |vs| ==> vs[1..][j - 1] == vs[j];
      if head.Err? || rest.Err? then Err(IndexOutOfRange)
      else Ok([head.value] + rest.value)
  }

  /** linear_spline on an array of evaluation points. */
  function LinearSpline(xs: seq<real>, ys: seq<real>, vs: seq<real>): Result<seq<Num>>
  {
    MapPoints(v => LinearSplineAt(xs, ys, v), vs)
  }

  /** With well-formed data every evaluation point gets a value, entry j
      being the scalar result at vs[j]. */
  lemma LinearElementwise(xs: seq<real>, ys: seq<real>, vs: seq<real>)
    requires |xs| >= 2 && |ys| == |xs|
    ensures LinearSpline(xs, ys, vs).Ok?
    ensures |LinearSpline(xs, ys, vs).value| == |vs|
    ensures forall j :: 0 <= j < |vs| ==> LinearSpline(xs, ys, vs).value[j] == LinearSplineAt(xs, ys, vs[j]).value
  {
  }

  /** With strictly increasing nodes the spline passes through every node. */
  lemma LinearAtNode(xs: seq<real>, ys: seq<real>, k: nat)
    requires StrictlyIncreasing(xs) && |xs| >= 2 && |ys| == |xs| && k < |xs|
    ensures LinearSplineAt(xs, ys, xs[k]) == Ok(Finite(ys[k]))
  {
    LinearOnSegment(xs, ys, xs[k]);
    SearchAtNode(xs, k);
    if k == 0 {
      assert Segment(xs, xs[0]) == 0;
      assert xs[0] < xs[1];
      LineAtStart(xs[0], xs[1], ys[0], ys[1]);
    } else {
      assert Segment(xs, xs[k]) == k - 1;
      assert xs[k - 1] < xs[k];
      LineAtEnd(xs[k - 1], xs[k], ys[k - 1], ys[k]);
    }
  }

  lemma LineAtStart(x0: real, x1: real, y0: real, y1: real)
    requires x0 < x1
    ensures LinePoint(x0, x1, y0, y1, x0) == Finite(y0)
  {
  }

  lemma LineAtEnd(x0: real, x1: real, y0: real, y1: real)
    requires x0 < x1
    ensures LinePoint(x0, x1, y0, y1, x1) == Finite(y1)
  {
    assert (y1 - y0) * (x1 - x0) / (x1 - x0) == y1 - y0;
  }

  /** Between two consecutive nodes the value lies between their data values. */
  lemma LinearBetween(xs: seq<real>, ys: seq<real>, i: nat, v: real)
    requires StrictlyIncreasing(xs) && |ys| == |xs| && i + 1 < |xs|
    requires xs[i] <= v <= xs[i + 1]
    ensures LinearSplineAt(xs, ys, v).Ok? && LinearSplineAt(xs, ys, v).value.Finite?
    ensures var r := LinearSplineAt(xs, ys, v).value.v;
      (ys[i] <= r <= ys[i + 1]) || (ys[i + 1] <= r <= ys[i])
  {
    if v == xs[i] {
      LinearAtNode(xs, ys, i);
    } else {
      SearchInside(xs, i, v);
      assert Segment(xs, v) == i;
      LineBetween(xs[i], xs[i + 1], ys[i], ys[i + 1], v);
    }
  }

  lemma LineBetween(x0: real, x1: real, y0: real, y1: real, v: real)
    requires x0 < x1 && x0 <= v <= x1
    ensures LinePoint(x0, x1, y0, y1, v).Finite?
    ensures var r := LinePoint(x0, x1, y0, y1, v).v;
      (y0 <= r <= y1) || (y1 <= r <= y0)
  {
    var t := (v - x0) / (x1 - x0);
    UnitFraction(v - x0, x1 - x0);
    assert (y1 - y0) * (v - x0) / (x1 - x0) == (y1 - y0) * t;
    if y0 <= y1 {
      MulBetween(y1 - y0, t);
    } else {
      MulBetween(y0 - y1, t);
    }
  }

  /** Left of the first node the first segment's line is extended. */
  lemma LinearBeforeFirst(xs: seq<real>, ys: seq<real>, v: real)
    requires StrictlyIncreasing(xs) && |xs| >= 2 && |ys| == |xs| && v < xs[0]
    ensures LinearSplineAt(xs, ys, v) == Ok(Finite(ys[0] + (ys[1] - ys[0]) * (v - xs[0]) / (xs[1] - xs[0])))
  {
    LinearOnSegment(xs, ys, v);
    SearchUnique(xs, v, 0);
    assert Segment(xs, v) == 0;
    assert LinearSplineAt(xs, ys, v) == Ok(LinePoint(xs[0], xs[1], ys[0], ys[1], v));
    assert xs[0] < xs[1];
    LineValue(xs[0], xs[1], ys[0], ys[1], v);
  }

  /** Right of the last node the last segment's line is extended. */
  lemma LinearAfterLast(xs: seq<real>, ys: seq<real>, v: real)
    requires StrictlyIncreasing(xs) && |xs| >= 2 && |ys| == |xs| && v > xs[|xs| - 1]
    ensures LinearSplineAt(xs, ys, v)
         == Ok(Finite(ys[|xs| - 2] + (ys[|xs| - 1] - ys[|xs| - 2]) * (v - xs[|xs| - 2]) / (xs[|xs| - 1] - xs[|xs| - 2])))
  {
    LastSegment(xs, ys, v);
    LineValue(xs[|xs| - 2], xs[|xs| - 1], ys[|xs| - 2], ys[|xs| - 1], v);
  }

  lemma LastSegment(xs: seq<real>, ys: seq<real>, v: real)
    requires StrictlyIncreasing(xs) && |xs| >= 2 && |ys| == |xs| && v > xs[|xs| - 1]
    ensures xs[|xs| - 2] < xs[|xs| - 1]
    ensures LinearSplineAt(xs, ys, v) == Ok(LinePoint(xs[|xs| - 2], xs[|xs| - 1], ys[|xs| - 2], ys[|xs| - 1], v))
  {
    LinearOnSegment(xs, ys, v);
    assert forall k :: 0 <= k < |xs| ==> xs[k] <= xs[|xs| - 1];
    SearchUnique(xs, v, |xs|);
    assert Segment(xs, v) == |xs| - 2;
  }

  lemma LineValue(x0: real, x1: real, y0: real, y1: real, v: real)
    requires x1 - x0 != 0.0
    ensures LinePoint(x0, x1, y0, y1, v) == Finite(y0 + (y1 - y0) * (v - x0) / (x1 - x0))
  {
  }
}
