/**
 * The per-group statistics pandas computes over a price column: `mean`,
 * `std` (sample, divisor n - 1) and `count`, all of which skip nulls. Prices
 * are exact reals here; the variance stands for `std`, which is its square root.
 */
module Stats {
  import opened Wrappers

  /** The non-null values, in order. */
  function Present(vs: seq<Option<real>>): (xs: seq<real>)
    ensures |xs| <= |vs|
    decreases |vs|
  {
    if vs == [] then []
    else
      var n := |vs| - 1;
      Present(vs[..n]) + (if vs[n].Some? then [vs[n].value] else [])
  }

  function Sum(xs: seq<real>): real
    decreases |xs|
  {
    if xs == [] then 0.0 else Sum(xs[..|xs| - 1]) + xs[|xs| - 1]
  }

  function Mean(xs: seq<real>): real
    requires |xs| > 0
  {
    Sum(xs) / |xs| as real
  }

  /** The sum of squared distances of the values from c. */
  function SquaredDeviations(xs: seq<real>, c: real): real
    decreases |xs|
  {
    if xs == [] then 0.0
    else
      var d := xs[|xs| - 1] - c;
      SquaredDeviations(xs[..|xs| - 1], c) + d * d
  }

  function SampleVariance(xs: seq<real>): real
    requires |xs| >= 2
  {
    SquaredDeviations(xs, Mean(xs)) / (|xs| - 1) as real
  }

  /** One aggregate row's statistics; a statistic pandas leaves as NaN is None. */
  datatype Summary = Summary(mean: Option<real>, variance: Option<real>, count: nat)

  /**
   * The count is the number of non-null values; the mean needs one of them
   * and the standard deviation two.
   */
  function Summarize(vs: seq<Option<real>>): (s: Summary)
    ensures s.count == |Present(vs)|
    ensures s.mean.Some? <==> s.count >= 1
    ensures s.variance.Some? <==> s.count >= 2
  {
    var xs := Present(vs);
    Summary(
      if |xs| >= 1 then Some(Mean(xs)) else None,
      if |xs| >= 2 then Some(SampleVariance(xs)) else None,
      |xs|)
  }

  /** A group of one priced listing: its mean is that price and its std is undefined. */
  lemma SummaryOfOne(p: real)
    ensures Summarize([Some(p)]) == Summary(Some(p), None, 1)
  {
    assert [Some(p)][..0] == [];
    assert Present([Some(p)]) == [p];
    assert [p][..0] == [];
    assert Sum([p]) == p;
  }

  /** With no null among the values, the count is the number of values. */
  lemma {:induction false} PresentAll(vs: seq<Option<real>>)
    requires forall i :: 0 <= i < |vs| ==> vs[i].Some?
    ensures |Present(vs)| == |vs|
    decreases |vs|
  {
    if vs != [] {
      PresentAll(vs[..|vs| - 1]);
    }
  }

  lemma {:induction false} SumBounds(xs: seq<real>, lo: real, hi: real)
    requires forall i :: 0 <= i < |xs| ==> lo <= xs[i] <= hi
    ensures |xs| as real * lo <= Sum(xs) <= |xs| as real * hi
    decreases |xs|
  {
    if xs != [] {
      SumBounds(xs[..|xs| - 1], lo, hi);
    }
  }

  /** The mean lies between any lower and upper bound of the values. */
  lemma MeanWithin(xs: seq<real>, lo: real, hi: real)
    requires |xs| > 0
    requires forall i :: 0 <= i < |xs| ==> lo <= xs[i] <= hi
    ensures lo <= Mean(xs) <= hi
  {
    SumBounds(xs, lo, hi);
    var n := |xs| as real;
    assert Mean(xs) * n == Sum(xs);
  }

  lemma {:induction false} SquaredDeviationsNonNegative(xs: seq<real>, c: real)
    ensures SquaredDeviations(xs, c) >= 0.0
    decreases |xs|
  {
    if xs != [] {
      SquaredDeviationsNonNegative(xs[..|xs| - 1], c);
      var d := xs[|xs| - 1] - c;
      assert d * d >= 0.0;
    }
  }

  /** The variance behind `std` is never negative, so its square root exists. */
  lemma VarianceNonNegative(vs: seq<Option<real>>)
    ensures Summarize(vs).variance.Some? ==> Summarize(vs).variance.value >= 0.0
  {
    var xs := Present(vs);
    if |xs| >= 2 {
      SquaredDeviationsNonNegative(xs, Mean(xs));
    }
  }
}
