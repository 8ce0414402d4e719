/** The spline error routine: the target and the chosen spline are compared
    on the 1000-point grid from the smallest to the largest node, and the
    largest absolute difference is returned, as numpy.max(numpy.abs(...))
    computes it.  An infinity or NaN among the samples makes the maximum
    non-finite.  The quadratic spline is the one as written, which raises on
    the grid, so the routine raises for that type. */
module SplineError {
  import opened Numeric
  import opened Grid
  import opened Spline
  import opened QuadraticSpline

  /** The pointwise splines the type string selects, at one point: "linear",
      and anything other than "linear" and "quadratic" the cubic spline,
      which is scipy's and is a parameter. */
  function Evaluate(xs: seq<real>, ys: seq<real>, kind: string,
                    cubic: real -> Result<Num>, v: real): Result<Num>
  {
    if kind == "linear" then LinearSplineAt(xs, ys, v)
    else cubic(v)
  }

  /** The selected spline as a pointwise evaluator. */
  function Evaluator(xs: seq<real>, ys: seq<real>, kind: string,
                     cubic: real -> Result<Num>): real -> Result<Num>
  {
    v => Evaluate(xs, ys, kind, cubic, v)
  }

  /** |f(v) - y| for one sample; an infinity or NaN stays non-finite. */
  function AbsError(f: real -> real, v: real, y: Num): (e: Num)
    ensures e.Finite? <==> y.Finite?
    ensures e.Finite? ==> e.v >= 0.0 && (e.v == 0.0 <==> f(v) == y.v)
  {
    match y
    case Finite(w) => Finite(Abs(f(v) - w))
    case NonFinite => NonFinite
  }

  /** numpy.max of a non-empty float array: the largest element, or a
      non-finite value as soon as one element is. */
  function NumMax(e: seq<Num>): (m: Num)
    requires |e| > 0
    ensures m.Finite? <==> forall k :: 0 <= k < |e| ==> e[k].Finite?
    ensures m.Finite? ==> forall k :: 0 <= k < |e| ==> e[k].v <= m.v
    ensures m.Finite? ==> exists k :: 0 <= k < |e| && e[k] == m
  {
    if |e| == 1 then e[0]
    else
      var front := e[..|e| - 1];
      assert forall k :: 0 <= k < |e| - 1 ==> front[k] == e[k];
      var p := NumMax(front);
      var x := e[|e| - 1];
      if p.NonFinite? || x.NonFinite? then NonFinite
      else if x.v > p.v then x
      else p
  }

  /** The sample at grid point j is finite and its error is at most m. */
  predicate SampleBelow(f: real -> real, grid: seq<real>, g: real -> Result<Num>, j: int, m: real)
    requires 0 <= j < |grid|
  {
    var y := g(grid[j]);
    y.Ok? && y.value.Finite? && Abs(f(grid[j]) - y.value.v) <= m
  }

  /** The sample at grid point j is finite and its error is m. */
  predicate SampleEquals(f: real -> real, grid: seq<real>, g: real -> Result<Num>, j: int, m: real)
    requires 0 <= j < |grid|
  {
    var y := g(grid[j]);
    y.Ok? && y.value.Finite? && Abs(f(grid[j]) - y.value.v) == m
  }

  /** numpy.max(numpy.abs(f(grid) - g(grid))) for a non-empty grid. */
  function MaxAbsError(f: real -> real, grid: seq<real>, g: real -> Result<Num>): (r: Result<Num>)
    requires |grid| > 0
    ensures r.Ok? <==> forall j :: 0 <= j < |grid| ==> g(grid[j]).Ok?
    ensures r.Ok? && r.value.Finite? ==> r.value.v >= 0.0
    ensures r.Ok? ==> (r.value.Finite? <==> forall j :: 0 <= j < |grid| ==> g(grid[j]).value.Finite?)
    ensures r.Ok? && r.value.Finite? ==> forall j :: 0 <= j < |grid| ==> SampleBelow(f, grid, g, j, r.value.v)
    ensures r.Ok? && r.value.Finite? ==>
      exists j :: 0 <= j < |grid| && SampleEquals(f, grid, g, j, r.value.v)
  {
    var values := MapPoints(g, grid);
    if values.Err? then Err(values.error)
    else
      var errors := seq(|grid|, (j: int) requires 0 <= j < |grid| => AbsError(f, grid[j], values.value[j]));
      var m := NumMax(errors);
      assert forall j :: 0 <= j < |grid| ==> values.value[j] == g(grid[j]).value;
      assert forall j :: 0 <= j < |grid| ==> (errors[j].Finite? <==> g(grid[j]).value.Finite?);
      if m.Finite? then
        assert forall j :: 0 <= j < |grid| ==> SampleBelow(f, grid, g, j, m.v) by {
          forall j | 0 <= j < |grid| ensures SampleBelow(f, grid, g, j, m.v) {
            assert errors[j].v <= m.v;
          }
        }
        var k :| 0 <= k < |grid| && errors[k] == m;
        assert SampleEquals(f, grid, g, k, m.v);
        Ok(m)
      else Ok(m)
  }

  /** calculate_error for a spline type.  min and max of no nodes raise; an
      evaluation that raises makes the whole call raise.  The quadratic
      spline as written raises on any non-empty set of points, so for that
      type the call always raises, with the spline's own error. */
  function CalculateError(xs: seq<real>, ys: seq<real>, kind: string, f: real -> real,
                          cubic: real -> Result<Num>): (r: Result<Num>)
    ensures |xs| == 0 ==> r == Err(EmptySequence)
    ensures |xs| > 0 && kind == "quadratic" ==>
      r == (if |xs| == 2 && |ys| >= 3 then Err(LengthMismatch) else Err(IndexOutOfRange))
    ensures |xs| > 0 && kind != "quadratic" ==>
      (r.Ok? <==> forall j :: 0 <= j < Samples ==> Evaluate(xs, ys, kind, cubic, ErrorGrid(xs)[j]).Ok?)
    ensures r.Ok? ==> |xs| > 0 && kind != "quadratic"
    ensures r.Ok? && r.value.Finite? ==> r.value.v >= 0.0
    ensures r.Ok? && r.value.Finite? ==> forall j :: 0 <= j < Samples ==>
      SampleBelow(f, ErrorGrid(xs), Evaluator(xs, ys, kind, cubic), j, r.value.v)
    ensures r.Ok? && r.value.Finite? ==>
      exists j :: 0 <= j < Samples && SampleEquals(f, ErrorGrid(xs), Evaluator(xs, ys, kind, cubic), j, r.value.v)
  {
    if |xs| == 0 then Err(EmptySequence)
    else if kind == "quadratic" then Err(AsWrittenOutcome(xs, ys, ErrorGrid(xs)).error)
    else MaxAbsError(f, ErrorGrid(xs), Evaluator(xs, ys, kind, cubic))
  }

  /** With strictly increasing nodes and one value per node the linear
      spline's error is a finite number and bounds every sampled error. */
  lemma LinearErrorFinite(xs: seq<real>, ys: seq<real>, f: real -> real, cubic: real -> Result<Num>)
    requires StrictlyIncreasing(xs) && |xs| >= 2 && |ys| == |xs|
    ensures var r := CalculateError(xs, ys, "linear", f, cubic);
      r.Ok? && r.value.Finite? && r.value.v >= 0.0 &&
      (forall j :: 0 <= j < Samples ==> SampleBelow(f, ErrorGrid(xs), Evaluator(xs, ys, "linear", cubic), j, r.value.v)) &&
      (exists j :: 0 <= j < Samples && SampleEquals(f, ErrorGrid(xs), Evaluator(xs, ys, "linear", cubic), j, r.value.v))
  {
    var grid := ErrorGrid(xs);
    var g := Evaluator(xs, ys, "linear", cubic);
    forall j | 0 <= j < |grid|
      ensures g(grid[j]).Ok? && g(grid[j]).value.Finite?
    {
      LinearFinite(xs, ys, grid[j]);
    }
  }

  /** On strictly increasing nodes no segment has width zero, so the linear
      spline is finite everywhere. */
  lemma LinearFinite(xs: seq<real>, ys: seq<real>, v: real)
    requires StrictlyIncreasing(xs) && |xs| >= 2 && |ys| == |xs|
    ensures LinearSplineAt(xs, ys, v).Ok? && LinearSplineAt(xs, ys, v).value.Finite?
  {
    LinearOnSegment(xs, ys, v);
    var i := Segment(xs, v);
    assert xs[i] < xs[i + 1];
  }
}
