/** The legacy codec of src/index/turbo_codec.rs: per-dimension centroids, the same packed
    codes, and a score that adds gamma times the raw signed projection. */
module LegacyCodec {
  import opened LinearAlgebra
  import opened BitPacking
  import opened Wrappers

  const CENTROIDS_PER_DIM := 4

  datatype EncodedTurboVector = EncodedTurboVector(idx: seq<Byte>, qjl: seq<Byte>, gamma: real)

  /** `centroids[i]` are dimension i's centroids, `perDim` of them; `projection` holds the rows of S, `inputDim` wide.
      */
  datatype Assets = Assets(centroids: seq<seq<real>>, perDim: nat, projection: seq<Vec>, inputDim: nat) {
    /** What constructing the tables checks. */
    ghost predicate WellShaped() {
      && (forall i :: 0 <= i < |centroids| ==> |centroids[i]| == perDim)
      && (forall j :: 0 <= j < |projection| ==> |projection[j]| == inputDim)
    }

    /** The tables fit vectors of dimension `d`. */
    ghost predicate Valid(d: nat) {
      && perDim == CENTROIDS_PER_DIM && |centroids| == d &&
          (forall i :: 0 <= i < d ==> |centroids[i]| == CENTROIDS_PER_DIM)
      && inputDim == d && |projection| == d && (forall j :: 0 <= j < d ==> |projection[j]| == d)
    }
  }

  datatype AssetError = DimensionMismatch(expected: nat, actual: nat) |
      InvalidLayout(expectedValues: nat, actualValues: nat)

  /** `validate_codec_inputs`: the first check that fails, if any. */
  function Mismatch(assets: Assets, d: nat): (e: Option<AssetError>)
    ensures assets.WellShaped() ==> (e.None? <==> assets.Valid(d))
  {
    if |assets.centroids| != d then Some(DimensionMismatch(d, |assets.centroids|))
    else if assets.perDim != CENTROIDS_PER_DIM then Some(InvalidLayout(CENTROIDS_PER_DIM, assets.perDim))
    else if assets.inputDim != d then Some(DimensionMismatch(d, assets.inputDim))
    else if |assets.projection| != d then Some(DimensionMismatch(d, |assets.projection|))
    else None
  }

  datatype EncodeResult = Encoded(code: EncodedTurboVector) | Rejected(error: AssetError)

  ghost predicate IsNearest(candidates: seq<real>, value: real, best: nat) {
    && best < |candidates|
    && (forall k :: 0 <= k < |candidates| ==> Abs(value - candidates[best]) <= Abs(value - candidates[k]))
    && (forall k :: 0 <= k < best ==> Abs(value - candidates[best]) < Abs(value - candidates[k]))
  }

  /** The nearest centroid, the first on a tie. */
  method NearestCentroid(candidates: seq<real>, value: real) returns (best: nat)
    requires |candidates| > 0
    ensures IsNearest(candidates, value, best)
  {
    best := 0;
    var bestDistance := Abs(value - candidates[0]);
    for k := 1 to |candidates|
      invariant best < k && bestDistance == Abs(value - candidates[best])
      invariant IsNearest(candidates[..k], value, best)
    {
      var distance := Abs(value - candidates[k]);
      if distance < bestDistance {
        best, bestDistance := k, distance;
      }
    }
    assert candidates[..|candidates|] == candidates;
  }

  /** The centroids the packed indices name. */
  ghost function Decoded(centroids: seq<seq<real>>, idx: seq<Byte>): (c: Vec)
    requires |centroids| <= 4 * |idx|
    requires forall i :: 0 <= i < |centroids| ==> |centroids[i]| == CENTROIDS_PER_DIM
    ensures |c| == |centroids| && forall i :: 0 <= i < |c| ==> c[i] == centroids[i][Value2(IdxAt(idx, i))]
  {
    seq(|centroids|, i requires 0 <= i < |centroids| => centroids[i][Value2(IdxAt(idx, i))])
  }

  /** The first `n` indices name nearest centroids and the other slots are clear. */
  ghost predicate PacksNearest(idx: seq<Byte>, assets: Assets, x: Vec, n: nat)
    requires assets.Valid(|x|) && n <= |x|
  {
    && |idx| == IdxLen(|x|)
    && (forall i :: 0 <= i < n ==> IsNearest(assets.centroids[i], x[i], Value2(IdxAt(idx, i))))
    && (forall i :: n <= i < 4 * |idx| ==> IdxAt(idx, i) == 0)
  }

  ghost predicate PacksSigns(qjl: seq<Byte>, assets: Assets, residual: Vec, n: nat)
    requires assets.Valid(|residual|) && n <= |residual|
  {
    && |qjl| == SignsLen(|residual|)
    && (forall j :: 0 <= j < n ==> (SignAt(qjl, j) <==> Dot(assets.projection[j], residual) >= 0.0))
    && (forall j :: n <= j < 8 * |qjl| ==> !SignAt(qjl, j))
  }

  method PackIndices(assets: Assets, vector: Vec) returns (idx: array<Byte>, residual: array<real>)
    requires assets.Valid(|vector|)
    ensures PacksNearest(idx[..], assets, vector, |vector|)
    ensures residual[..] == Minus(vector, 1.0, Decoded(assets.centroids, idx[..]))
  {
    hide IdxAt, Value2, IsNearest;
    var d := |vector|;
    idx := NewIdx(d);
    residual := new real[d](_ => 0.0);
    for dim := 0 to d
      invariant PacksNearest(idx[..], assets, vector, dim)
      invariant forall i :: 0 <= i < dim ==> residual[i] == vector[i] - assets.centroids[i][Value2(IdxAt(idx[..], i))]
    {
      var index := NearestCentroid(assets.centroids[dim], vector[dim]);
      WriteIdx(idx, dim, Code2(index));
      residual[dim] := vector[dim] - assets.centroids[dim][index];
    }
  }

  method PackSigns(assets: Assets, residual: Vec) returns (qjl: array<Byte>)
    requires assets.Valid(|residual|)
    ensures PacksSigns(qjl[..], assets, residual, |residual|)
  {
    hide SignAt, DotTo;
    qjl := NewSigns(|residual|);
    for j := 0 to |residual|
      invariant PacksSigns(qjl[..], assets, residual, j)
    {
      WriteSignBit(qjl, j, Dot(assets.projection[j], residual) >= 0.0);
    }
  }

  /** `e` is the legacy code of `x`. */
  ghost predicate IsCodeOf(assets: Assets, sqrt: real -> real, x: Vec, e: EncodedTurboVector)
    requires assets.Valid(|x|)
  {
    && PacksNearest(e.idx, assets, x, |x|)
    && var residual := Minus(x, 1.0, Decoded(assets.centroids, e.idx));
      PacksSigns(e.qjl, assets, residual, |x|) && e.gamma == Norm(sqrt, residual)
  }

  /** Rejects tables of other dimensions, and otherwise yields the vector's code. */
  method EncodeVector(assets: Assets, sqrt: real -> real, vector: Vec) returns (r: EncodeResult)
    requires assets.WellShaped()
    ensures r.Encoded? <==> assets.Valid(|vector|)
    ensures r.Encoded? ==> IsCodeOf(assets, sqrt, vector, r.code)
    ensures |assets.centroids| != |vector| ==> r == Rejected(DimensionMismatch(|vector|, |assets.centroids|))
    ensures |assets.centroids| == |vector| && assets.perDim != 4 ==> r == Rejected(InvalidLayout(4, assets.perDim))
    ensures |assets.centroids| == |vector| && assets.perDim == 4 && r.Rejected? ==>
        r.error == DimensionMismatch(|vector|, if assets.inputDim != |vector| then assets.inputDim
                                               else |assets.projection|)
  {
    var mismatch := Mismatch(assets, |vector|);
    if mismatch.Some? {
      return Rejected(mismatch.value);
    }
    var idx, residual := PackIndices(assets, vector);
    var left := residual[..];
    var qjl := PackSigns(assets, left);
    r := Encoded(EncodedTurboVector(idx[..], qjl[..], Norm(sqrt, left)));
  }

  /** <q, c[idx]> + gamma*<S*q, z> over the packed codes. */
  ghost function ScoreOf(assets: Assets, query: Vec, e: EncodedTurboVector): real
    requires assets.Valid(|query|) && |e.idx| == IdxLen(|query|) && |e.qjl| == SignsLen(|query|)
  {
    Dot(query, Decoded(assets.centroids, e.idx)) + e.gamma * Dot(Projected(assets, query), DecodedSigns(e.qjl, |query|))
  }

  /** S*q */
  function Projected(assets: Assets, query: Vec): (p: Vec)
    requires assets.Valid(|query|)
    ensures |p| == |query| && forall j :: 0 <= j < |p| ==> p[j] == Dot(assets.projection[j], query)
  {
    seq(|query|, j requires 0 <= j < |query| => Dot(assets.projection[j], query))
  }

  /** Reads the packed indices dimension by dimension. */
  method CentroidTerm(assets: Assets, query: Vec, idx: seq<Byte>) returns (sum: real)
    requires assets.Valid(|query|) && |idx| == IdxLen(|query|)
    ensures sum == Dot(query, Decoded(assets.centroids, idx))
  {
    hide Value2, SlotOf;
    ghost var c := Decoded(assets.centroids, idx);
    sum := 0.0;
    for dim := 0 to |query|
      invariant sum == DotTo(query, c, dim)
    {
      sum := sum + query[dim] * assets.centroids[dim][Value2(IdxAt(idx, dim))];
    }
  }

  /** Reads the packed sign bits row by row. */
  method SignedTerm(projected: Vec, qjl: seq<Byte>) returns (sum: real)
    requires |qjl| == SignsLen(|projected|)
    ensures sum == Dot(projected, DecodedSigns(qjl, |projected|))
  {
    hide BitOf;
    ghost var z := DecodedSigns(qjl, |projected|);
    sum := 0.0;
    for dim := 0 to |projected|
      invariant sum == DotTo(projected, z, dim)
    {
      sum := sum + projected[dim] * if SignAt(qjl, dim) then 1.0 else -1.0;
    }
  }

  method Score(assets: Assets, query: Vec, e: EncodedTurboVector) returns (score: real)
    requires assets.Valid(|query|) && |e.idx| == IdxLen(|query|) && |e.qjl| == SignsLen(|query|)
    ensures score == ScoreOf(assets, query, e)
  {
    hide DotTo, Decoded;
    var centroidTerm := CentroidTerm(assets, query, e.idx);
    var qjlTerm := SignedTerm(Projected(assets, query), e.qjl);
    score := centroidTerm + e.gamma * qjlTerm;
  }

  /** Scoring a vector's own packed code: the error is the signed sketch minus the residual's inner product. */
  lemma ScoreError(assets: Assets, sqrt: real -> real, x: Vec, query: Vec, e: EncodedTurboVector)
    requires |x| == |query| && assets.Valid(|x|) && IsCodeOf(assets, sqrt, x, e)
    ensures ScoreOf(assets, query, e) - Dot(query, x)
            == e.gamma * Dot(Projected(assets, query), DecodedSigns(e.qjl, |query|)) - Dot(query,
                Minus(x, 1.0, Decoded(assets.centroids, e.idx)))
  {
    hide DotTo, IsNearest;
    DotMinus(query, x, 1.0, Decoded(assets.centroids, e.idx));
  }
}
