/** Evenly spaced sample grids, as numpy.linspace builds them with the
    endpoint included, over the reals. */
module Grid {

  /** num points from lo to hi inclusive; one point is just lo. */
  function Linspace(lo: real, hi: real, num: nat): (r: seq<real>)
    ensures |r| == num
    ensures num >= 1 ==> r[0] == lo
    ensures num >= 2 ==> r[num - 1] == hi
  {
    if num == 1 then [lo]
    else seq(num, (i: int) requires 0 <= i < num => lo + (i as real) * (hi - lo) / ((num - 1) as real))
  }

  /** For lo < hi the grid is strictly increasing. */
  lemma LinspaceIncreasing(lo: real, hi: real, num: nat, i: nat, j: nat)
    requires lo < hi && i < j < num
    ensures Linspace(lo, hi, num)[i] < Linspace(lo, hi, num)[j]
  {
    var d := hi - lo;
    var m := (num - 1) as real;
    QuotientIncreasing(i as real, j as real, d, m);
  }

  lemma QuotientIncreasing(p: real, q: real, d: real, m: real)
    requires p < q && d > 0.0 && m > 0.0
    ensures p * d / m < q * d / m
  {
    assert p * d < q * d;
  }

  /** For lo <= hi every grid point lies in [lo, hi]. */
  lemma LinspaceBounds(lo: real, hi: real, num: nat, i: nat)
    requires lo <= hi && i < num
    ensures lo <= Linspace(lo, hi, num)[i] <= hi
  {
    if num > 1 {
      FractionBetween(i as real, (num - 1) as real, hi - lo);
    }
  }

  lemma FractionBetween(p: real, m: real, d: real)
    requires 0.0 <= p <= m && m > 0.0 && d >= 0.0
    ensures 0.0 <= p * d / m <= d
  {
    assert p * d <= m * d;
    assert m * d / m == d;
  }

  /** The smallest node, as Python's min and numpy.min give it. */
  function SeqMin(s: seq<real>): (r: real)
    requires |s| > 0
    ensures r in s
    ensures forall k :: 0 <= k < |s| ==> r <= s[k]
  {
    if |s| == 1 then s[0]
    else
      var m := SeqMin(s[..|s| - 1]);
      assert forall k :: 0 <= k < |s| - 1 ==> s[..|s| - 1][k] == s[k];
      if s[|s| - 1] < m then s[|s| - 1] else m
  }

  /** The largest node, as Python's max and numpy.max give it. */
  function SeqMax(s: seq<real>): (r: real)
    requires |s| > 0
    ensures r in s
    ensures forall k :: 0 <= k < |s| ==> s[k] <= r
  {
    if |s| == 1 then s[0]
    else
      var m := SeqMax(s[..|s| - 1]);
      assert forall k :: 0 <= k < |s| - 1 ==> s[..|s| - 1][k] == s[k];
      if s[|s| - 1] > m then s[|s| - 1] else m
  }

  /** The number of points both error routines sample. */
  const Samples: nat := 1000

  /** The error grid: 1000 points from the smallest to the largest node. */
  function ErrorGrid(xs: seq<real>): (g: seq<real>)
    requires |xs| > 0
    ensures |g| == Samples
    ensures g[0] == SeqMin(xs) && g[Samples - 1] == SeqMax(xs)
  {
    Linspace(SeqMin(xs), SeqMax(xs), Samples)
  }
}
