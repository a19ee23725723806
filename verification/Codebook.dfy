/** The scalar quantizer of src/index/codebook.rs. f32 is a set of representable
    reals with its rounding and its successor; midpoints are exact, as the source's
    f64 midpoint of two adjacent centroids is. */
module Codebook {
  import opened LinearAlgebra

  /** The representable values, rounding to nearest, and the next value up. */
  datatype Grid = Grid(representable: real -> bool, nearest: real -> real, nextUp: real -> real) {
    /** What IEEE guarantees between two representable values. */
    ghost predicate Valid() {
      && (forall lo: real, x: real, hi: real :: representable(lo) && representable(hi) && lo <= x <= hi ==>
            representable(nearest(x)))
      && (forall x: real, r: real :: representable(nearest(x)) && representable(r) ==>
          Abs(nearest(x) - x) <= Abs(r - x))
      && (forall r: real, hi: real :: representable(r) && representable(hi) && r < hi ==>
            representable(nextUp(r)) && r < nextUp(r) <= hi)
    }
  }

  /** The midpoint rounded to nearest, then stepped up if that landed below it. */
  function ThresholdBetween(g: Grid, lower: real, upper: real): real {
    var midpoint := (lower + upper) / 2.0;
    var nearest := g.nearest(midpoint);
    if nearest < midpoint then g.nextUp(nearest) else nearest
  }

  ghost predicate IsLeastAtOrAbove(g: Grid, t: real, x: real) {
    g.representable(t) && t >= x && forall r: real :: g.representable(r) && r >= x ==> t <= r
  }

  /** Round-then-step-up yields the least representable value at or above the exact midpoint. */
  lemma ThresholdIsLeast(g: Grid, lower: real, upper: real)
    requires g.Valid() && g.representable(lower) && g.representable(upper) && lower < upper
    ensures IsLeastAtOrAbove(g, ThresholdBetween(g, lower, upper), (lower + upper) / 2.0)
  {
    var midpoint := (lower + upper) / 2.0;
    var nearest := g.nearest(midpoint);
    assert g.representable(nearest);
    if nearest < midpoint {
      var t := g.nextUp(nearest);
      assert g.representable(t) && nearest < t;
      assert Abs(nearest - midpoint) <= Abs(t - midpoint);
    } else {
      forall r: real | g.representable(r) && r >= midpoint
        ensures nearest <= r
      {
        assert Abs(nearest - midpoint) <= Abs(r - midpoint);
      }
    }
  }

  ghost predicate Ascending(s: seq<real>) {
    forall i, j :: 0 <= i < j < |s| ==> s[i] < s[j]
  }

  datatype LloydMaxCodebook = LloydMaxCodebook(centroids: seq<real>, thresholds: seq<real>) {
    /** Built by FromCentroids from strictly ascending representable centroids. */
    ghost predicate Valid(g: Grid) {
      && g.Valid() && |centroids| > 0
      && (forall i :: 0 <= i < |centroids| ==> g.representable(centroids[i]))
      && Ascending(centroids)
      && this == FromCentroids(g, centroids)
    }

    /** The number of thresholds at or below `x`; every threshold is compared. */
    function Encode(x: real): (index: nat)
      ensures index <= |thresholds|
    {
      AtOrBelow(thresholds, x)
    }

    function Decode(index: nat): real
      requires index < |centroids|
    {
      centroids[index]
    }
  }

  function AtOrBelow(thresholds: seq<real>, x: real): (count: nat)
    ensures count <= |thresholds|
  {
    if thresholds == [] then 0
    else AtOrBelow(thresholds[..|thresholds| - 1], x) + if x >= thresholds[|thresholds| - 1] then 1 else 0
  }

  function FromCentroids(g: Grid, centroids: seq<real>): LloydMaxCodebook
    requires |centroids| > 0
  {
    LloydMaxCodebook(
      centroids,
      seq(|centroids| - 1, k requires 0 <= k < |centroids| - 1 => ThresholdBetween(g, centroids[k], centroids[k + 1])))
  }

  lemma {:induction false} AtOrBelowSplits(thresholds: seq<real>, x: real)
    requires Ascending(thresholds)
    ensures forall k :: 0 <= k < |thresholds| ==> (x >= thresholds[k] <==> k < AtOrBelow(thresholds, x))
  {
    if thresholds != [] {
      var n := |thresholds| - 1;
      AtOrBelowSplits(thresholds[..n], x);
      if n > 0 && x >= thresholds[n] {
        assert x >= thresholds[..n][n - 1];
      }
    }
  }

  /** Threshold k is the least representable value at or above the midpoint of centroids k and k+1. */
  ghost predicate Separates(book: LloydMaxCodebook, g: Grid, k: nat)
    requires k < |book.thresholds| == |book.centroids| - 1
  {
    && IsLeastAtOrAbove(g, book.thresholds[k], (book.centroids[k] + book.centroids[k + 1]) / 2.0)
    && book.centroids[k] < book.thresholds[k] <= book.centroids[k + 1]
  }

  lemma ThresholdSeparates(book: LloydMaxCodebook, g: Grid, k: nat)
    requires book.Valid(g) && k < |book.thresholds|
    ensures |book.thresholds| == |book.centroids| - 1 && Separates(book, g, k)
  {
    hide Grid.Valid;
    ThresholdIsLeast(g, book.centroids[k], book.centroids[k + 1]);
  }

  /** A representable value reaches the threshold exactly when it reaches the midpoint. */
  lemma ThresholdActsAsMidpoint(book: LloydMaxCodebook, g: Grid, k: nat, x: real)
    requires book.Valid(g) && k < |book.thresholds| && g.representable(x)
    ensures |book.thresholds| == |book.centroids| - 1
    ensures x >= book.thresholds[k] <==> x >= (book.centroids[k] + book.centroids[k + 1]) / 2.0
  {
    hide Grid.Valid;
    ThresholdSeparates(book, g, k);
  }

  lemma ThresholdsAscend(book: LloydMaxCodebook, g: Grid)
    requires book.Valid(g)
    ensures |book.thresholds| == |book.centroids| - 1 && Ascending(book.thresholds)
  {
    forall i, j | 0 <= i < j < |book.thresholds|
      ensures book.thresholds[i] < book.thresholds[j]
    {
      ThresholdSeparates(book, g, i);
      ThresholdSeparates(book, g, j);
      assert book.centroids[i + 1] <= book.centroids[j];
    }
  }

  /** Counting thresholds finds the nearest centroid of every representable x, the upper one on a tie. */
  lemma EncodeIsNearest(book: LloydMaxCodebook, g: Grid, x: real, j: nat)
    requires book.Valid(g) && g.representable(x) && j < |book.centroids|
    ensures var i := book.Encode(x);
            && i < |book.centroids|
            && Abs(x - book.centroids[i]) <= Abs(x - book.centroids[j])
            && (Abs(x - book.centroids[i]) == Abs(x - book.centroids[j]) ==> j <= i)
  {
    hide Grid.Valid, FromCentroids, AtOrBelow;
    ThresholdsAscend(book, g);
    AtOrBelowSplits(book.thresholds, x);
    var c, t, i := book.centroids, book.thresholds, book.Encode(x);
    if j < i {
      ThresholdActsAsMidpoint(book, g, i - 1, x);
      assert x >= t[i - 1];
      assert c[j] <= c[i - 1];
    } else if i < j {
      ThresholdActsAsMidpoint(book, g, i, x);
      assert !(x >= t[i]);
      assert c[i + 1] <= c[j];
    }
  }

  /** Every centroid is its own code's value. */
  lemma DecodeUndoesEncode(book: LloydMaxCodebook, g: Grid, k: nat)
    requires book.Valid(g) && k < |book.centroids|
    ensures book.Encode(book.Decode(k)) == k
  {
    hide Grid.Valid;
    var x := book.centroids[k];
    EncodeIsNearest(book, g, x, k);
    var i := book.Encode(x);
    assert Abs(x - book.centroids[i]) <= Abs(x - x) == 0.0;
  }
}
