/** The TurboQuant_prod codec of src/index/turbo_prod.rs with the QJL sketch of
    src/index/qjl.rs, over exact reals: encoding, query preparation, scoring of the
    packed code, and the exact error of the score. */
module TurboProd {
  import opened LinearAlgebra
  import opened BitPacking
  import opened Codebook
  import opened HaarRotation

  const CENTROIDS := 4

  /** What encoding and scoring share: Pi's columns, the codebook, the rows of S, sqrt(pi/2)/m. */
  datatype Codec = Codec(d: nat, cols: seq<Vec>, book: LloydMaxCodebook, rows: seq<Vec>, sqrt: real -> real,
      scale: real) {
    ghost predicate Shape() {
      && |cols| == d && Shaped(cols, d)
      && |book.centroids| == CENTROIDS && |book.thresholds| == CENTROIDS - 1
      && (forall j :: 0 <= j < |rows| ==> |rows[j]| == d)
    }

    ghost predicate Valid() {
      Shape() && IsSqrt(sqrt) && Orthonormal(cols, d) && scale >= 0.0
    }
  }

  /** `idx` and `signs` packed, with gamma = |r'| and norm = |x|. */
  datatype EncodedTurboProd = EncodedTurboProd(idx: seq<Byte>, signs: seq<Byte>, gamma: real, norm: real)

  datatype Result<T> = Success(value: T) | DimensionMismatch(expected: nat, actual: nat)

  // ----- what a code means -----

  /** x/|x|, or zero for a zero vector. */
  function UnitVector(x: Vec, norm: real): (u: Vec)
    ensures |u| == |x| && (norm == 0.0 ==> u == Zero(|x|))
  {
    seq(|x|, i requires 0 <= i < |x| => if norm == 0.0 then 0.0 else x[i] / norm)
  }

  /** The centroids the packed indices name. */
  ghost function DecodedIdx(book: LloydMaxCodebook, idx: seq<Byte>, d: nat): (c: Vec)
    requires |book.centroids| == CENTROIDS && d <= 4 * |idx|
    ensures |c| == d && forall i :: 0 <= i < d ==> c[i] == book.centroids[Value2(IdxAt(idx, i))]
  {
    seq(d, i requires 0 <= i < d => book.centroids[Value2(IdxAt(idx, i))])
  }

  /** S*v */
  ghost function Project(rows: seq<Vec>, v: Vec): (p: Vec)
    requires forall j :: 0 <= j < |rows| ==> |rows[j]| == |v|
    ensures |p| == |rows| && forall j :: 0 <= j < |rows| ==> p[j] == Dot(rows[j], v)
  {
    seq(|rows|, j requires 0 <= j < |rows| => Dot(rows[j], v))
  }

  /** Every index packed at its slot, none beyond `d`. */
  ghost predicate PacksIndices(idx: seq<Byte>, d: nat, book: LloydMaxCodebook, v: Vec)
    requires |book.thresholds| < 4 && d <= |v|
  {
    && |idx| == IdxLen(|v|) && d <= 4 * |idx|
    && (forall i :: 0 <= i < d ==> IdxAt(idx, i) == Code2(book.Encode(v[i])))
    && (forall i :: d <= i < 4 * |idx| ==> IdxAt(idx, i) == 0)
  }

  /** Bit j is the sign of p_j (zero counts as positive) for j < n; every other bit is clear. */
  ghost predicate PacksSigns(signs: seq<Byte>, n: nat, p: Vec)
    requires n <= |p|
  {
    && |signs| == SignsLen(|p|) && n <= 8 * |signs|
    && (forall j :: 0 <= j < n ==> (SignAt(signs, j) <==> p[j] >= 0.0))
    && (forall j :: n <= j < 8 * |signs| ==> !SignAt(signs, j))
  }

  /** r', what quantizing leaves of the rotated unit vector. */
  ghost function ResidualOf(codec: Codec, x: Vec, code: EncodedTurboProd): (residual: Vec)
    requires codec.Shape() && |x| == codec.d <= 4 * |code.idx|
    ensures |residual| == codec.d
  {
    Minus(MatVec(codec.cols, codec.d, UnitVector(x, code.norm)), 1.0, DecodedIdx(codec.book, code.idx, codec.d))
  }

  /** `e` is the code of `x`. */
  ghost predicate IsCodeOf(codec: Codec, x: Vec, e: EncodedTurboProd)
    requires codec.Shape() && |x| == codec.d
  {
    var rotated := MatVec(codec.cols, codec.d, UnitVector(x, e.norm));
    && e.norm == Norm(codec.sqrt, x)
    && PacksIndices(e.idx, codec.d, codec.book, rotated)
    && var residual := ResidualOf(codec, x, e);
      && PacksSigns(e.signs, |codec.rows|, Project(codec.rows, residual))
      && e.gamma == Norm(codec.sqrt, residual)
  }

  // ----- encoding -----

  /** Quantizes each coordinate of `residual` in place to what the codebook leaves, packing the indices. */
  method QuantizeInPlace(book: LloydMaxCodebook, residual: array<real>) returns (idx: array<Byte>)
    requires |book.centroids| == CENTROIDS && |book.thresholds| == CENTROIDS - 1
    modifies residual
    ensures fresh(idx)
    ensures PacksIndices(idx[..], residual.Length, book, old(residual[..]))
    ensures residual[..] == Minus(old(residual[..]), 1.0, DecodedIdx(book, idx[..], residual.Length))
  {
    hide IdxAt, Value2;
    var d := residual.Length;
    ghost var v := residual[..];
    idx := NewIdx(d);
    for i := 0 to d
      invariant PacksIndices(idx[..], i, book, v)
      invariant forall k :: 0 <= k < i ==> residual[k] == v[k] - book.centroids[Value2(IdxAt(idx[..], k))]
      invariant forall k :: i <= k < d ==> residual[k] == v[k]
    {
      var index := book.Encode(residual[i]);
      WriteIdx(idx, i, Code2(index));
      residual[i] := residual[i] - book.Decode(index);
    }
  }

  /** sign(S*residual), bit j least significant first in byte j/8. */
  method EncodeSigns(rows: seq<Vec>, residual: array<real>) returns (signs: array<Byte>)
    requires forall j :: 0 <= j < |rows| ==> |rows[j]| == residual.Length
    ensures fresh(signs)
    ensures PacksSigns(signs[..], |rows|, Project(rows, residual[..]))
  {
    hide SignAt;
    signs := NewSigns(|rows|);
    for j := 0 to |rows|
      invariant PacksSigns(signs[..], j, Project(rows, residual[..]))
    {
      var product := 0.0;
      for i := 0 to residual.Length
        invariant product == DotTo(rows[j], residual[..], i)
      {
        product := product + rows[j][i] * residual[i];
      }
      WriteSignBit(signs, j, product >= 0.0);
    }
  }

  method SumSquares(v: array<real>) returns (sum: real)
    ensures sum == Dot(v[..], v[..])
  {
    sum := 0.0;
    for i := 0 to v.Length
      invariant sum == DotTo(v[..], v[..], i)
    {
      sum := sum + v[i] * v[i];
    }
  }

  /** Encodes a document vector. */
  method Encode(rotation: Rotation, ghost codec: Codec, book: LloydMaxCodebook, rows: seq<Vec>, sqrt: real -> real,
      vector: array<real>)
    returns (r: Result<EncodedTurboProd>)
    requires rotation.Valid() && codec.Shape()
    requires codec == Codec(rotation.matrix.Length0, rotation.Cols(), book, rows, sqrt, codec.scale)
    ensures r.Success? <==> vector.Length == codec.d
    ensures r.DimensionMismatch? ==> r.expected == codec.d && r.actual == vector.Length
    ensures r.Success? ==> IsCodeOf(codec, vector[..], r.value)
  {
    hide DotTo, MatVecTo;
    var d := rotation.matrix.Length0;
    if vector.Length != d {
      return DimensionMismatch(d, vector.Length);
    }
    var squares := SumSquares(vector);
    var norm := sqrt(squares);
    var unit := new real[d](i requires 0 <= i < d reads vector => if norm == 0.0 then 0.0 else vector[i] / norm);
    assert unit[..] == UnitVector(vector[..], norm);
    var residual := new real[d];
    rotation.Rotate(unit, residual);
    ghost var rotated := residual[..];
    var idx := QuantizeInPlace(book, residual);
    var residualSquares := SumSquares(residual);
    var signs := EncodeSigns(rows, residual);
    r := Success(EncodedTurboProd(idx[..], signs[..], sqrt(residualSquares), norm));
  }

  // ----- scoring -----

  /** `lut[i][k]` is y'_i*c_k; `projected` is S*y'. */
  datatype PreparedQuery = PreparedQuery(lut: seq<seq<real>>, projected: Vec, scale: real)

  /** One table row: a rotated query coordinate times every centroid. */
  function Products(value: real, centroids: seq<real>): (row: seq<real>)
    ensures |row| == |centroids| && forall k :: 0 <= k < |centroids| ==> row[k] == value * centroids[k]
  {
    seq(|centroids|, k requires 0 <= k < |centroids| => value * centroids[k])
  }

  ghost predicate IsTable(lut: seq<seq<real>>, y: Vec, centroids: seq<real>) {
    |lut| == |y| && forall i :: 0 <= i < |lut| ==> lut[i] == Products(y[i], centroids)
  }

  ghost predicate IsPreparedFor(codec: Codec, y: Vec, q: PreparedQuery)
    requires codec.Shape() && |y| == codec.d
  {
    var rotated := MatVec(codec.cols, codec.d, y);
    && IsTable(q.lut, rotated, codec.book.centroids)
    && q.projected == Project(codec.rows, rotated)
    && q.scale == codec.scale
  }

  /** All the per-query work; the result holds no matrix. */
  method PrepareQuery(rotation: Rotation, codec: Codec, query: array<real>) returns (r: Result<PreparedQuery>)
    requires rotation.Valid() && codec.Shape() && codec.d == rotation.matrix.Length0 && codec.cols == rotation.Cols()
    ensures r.Success? <==> query.Length == codec.d
    ensures r.DimensionMismatch? ==> r.expected == codec.d && r.actual == query.Length
    ensures r.Success? ==> IsPreparedFor(codec, query[..], r.value)
  {
    var d := codec.d;
    if query.Length != d {
      return DimensionMismatch(d, query.Length);
    }
    var rotated := new real[d];
    rotation.Rotate(query, rotated);
    var y := rotated[..];
    var lut := seq(d, i requires 0 <= i < d => Products(y[i], codec.book.centroids));
    var projected := seq(|codec.rows|, j requires 0 <= j < |codec.rows| => Dot(codec.rows[j], y));
    r := Success(PreparedQuery(lut, projected, codec.scale));
  }

  /** Looking up the packed index adds y_i times the centroid it names. */
  lemma LookUpStep(lut: seq<seq<real>>, idx: seq<Byte>, y: Vec, book: LloydMaxCodebook, b: nat, slot: nat)
    requires IsTable(lut, y, book.centroids) && |book.centroids| == CENTROIDS
    requires |idx| == IdxLen(|lut|) && slot < 4 && 4 * b + slot < |lut|
    ensures b < |idx|
    ensures var i, c := 4 * b + slot, DecodedIdx(book, idx, |lut|);
            DotTo(y, c, i + 1) == DotTo(y, c, i) + lut[i][Value2(SlotOf(idx[b], slot))]
  {
    hide DotTo, SlotOf, Value2, IsTable;
    var i := 4 * b + slot;
    assert i / 4 == b && i % 4 == slot;
    var k := Value2(SlotOf(idx[b], slot));
    TableEntry(lut, y, book.centroids, i, k);
    var c := DecodedIdx(book, idx, |lut|);
    assert c[i] == book.centroids[k];
    SameProduct(y[i], c[i], book.centroids[k], lut[i][k]);
    DotToStep(y, c, i);
  }

  lemma SameProduct(value: real, x: real, y: real, product: real)
    requires x == y && product == value * y
    ensures value * x == product
  {
  }

  lemma TableEntry(lut: seq<seq<real>>, y: Vec, centroids: seq<real>, i: nat, k: nat)
    requires IsTable(lut, y, centroids) && i < |lut| && k < |centroids|
    ensures |lut| == |y| && k < |lut[i]| && lut[i][k] == y[i] * centroids[k]
  {
  }

  /** Adds the products byte `b` selects. */
  method LookUpByte(lut: seq<seq<real>>, idx: seq<Byte>, b: nat, chunk: nat, before: real,
                    ghost y: Vec, ghost c: Vec, ghost book: LloydMaxCodebook) returns (mse: real)
    requires |idx| == IdxLen(|lut|) && |book.centroids| == CENTROIDS && |y| == |lut| && IsTable(lut, y, book.centroids)
    requires c == DecodedIdx(book, idx, |lut|)
    requires chunk <= 4 && 4 * b + chunk <= |lut| && b < |idx|
    requires before == DotTo(y, c, 4 * b)
    ensures mse == DotTo(y, c, 4 * b + chunk)
  {
    hide DotTo, SlotOf, Value2, Products, DecodedIdx;
    mse := before;
    for slot := 0 to chunk
      invariant mse == DotTo(y, c, 4 * b + slot)
    {
      LookUpStep(lut, idx, y, book, b, slot);
      mse := mse + lut[4 * b + slot][Value2(SlotOf(idx[b], slot))];
    }
  }

  /** The sum of the looked-up products, four coordinates a byte. */
  method LookUp(lut: seq<seq<real>>, idx: seq<Byte>, ghost y: Vec, ghost c: Vec, ghost book: LloydMaxCodebook)
      returns (mse: real)
    requires |idx| == IdxLen(|lut|) && |book.centroids| == CENTROIDS && |y| == |lut| && IsTable(lut, y, book.centroids)
    requires c == DecodedIdx(book, idx, |lut|)
    ensures mse == Dot(y, c)
  {
    hide DotTo, IsTable, DecodedIdx;
    DotToEmpty(y, c);
    mse := 0.0;
    for b := 0 to |idx|
      invariant mse == DotTo(y, c, if 4 * b <= |lut| then 4 * b else |lut|)
    {
      mse := LookUpByte(lut, idx, b, ChunkLen(|lut|, 4 * b, 4), mse, y, c, book);
    }
  }

  lemma SignedStep(projected: Vec, signs: seq<Byte>, b: nat, bit: nat)
    requires |signs| == SignsLen(|projected|) && bit < 8 && 8 * b + bit < |projected|
    ensures b < |signs|
    ensures var j, z := 8 * b + bit, DecodedSigns(signs, |projected|);
            DotTo(projected, z, j + 1) ==
                DotTo(projected, z, j) + if BitOf(signs[b], bit) then projected[j] else -projected[j]
  {
    hide DotTo, BitOf;
    var j := 8 * b + bit;
    DotToStep(projected, DecodedSigns(signs, |projected|), j);
    assert j / 8 == b && j % 8 == bit;
  }

  method SignedSumByte(projected: Vec, signs: seq<Byte>, b: nat, chunk: nat, before: real) returns (sum: real)
    requires |signs| == SignsLen(|projected|) && chunk <= 8 && 8 * b + chunk <= |projected| && b < |signs|
    requires before == DotTo(projected, DecodedSigns(signs, |projected|), 8 * b)
    ensures sum == DotTo(projected, DecodedSigns(signs, |projected|), 8 * b + chunk)
  {
    hide DotTo, BitOf, DecodedSigns;
    sum := before;
    for bit := 0 to chunk
      invariant sum == DotTo(projected, DecodedSigns(signs, |projected|), 8 * b + bit)
    {
      SignedStep(projected, signs, b, bit);
      sum := sum + if BitOf(signs[b], bit) then projected[8 * b + bit] else -projected[8 * b + bit];
    }
  }

  /** The sum of z_j*p_j, eight rows a byte. */
  method SignedSum(projected: Vec, signs: seq<Byte>) returns (sum: real)
    requires |signs| == SignsLen(|projected|)
    ensures sum == Dot(projected, DecodedSigns(signs, |projected|))
  {
    hide DotTo, DecodedSigns;
    DotToEmpty(projected, DecodedSigns(signs, |projected|));
    sum := 0.0;
    for b := 0 to |signs|
      invariant sum == DotTo(projected, DecodedSigns(signs, |projected|),
          if 8 * b <= |projected| then 8 * b else |projected|)
    {
      sum := SignedSumByte(projected, signs, b, ChunkLen(|projected|, 8 * b, 8), sum);
    }
  }

  datatype ScoreBreakdown = ScoreBreakdown(mseTerm: real, qjlTerm: real, norm: real) {
    function Total(): real {
      norm * (mseTerm + qjlTerm)
    }
  }

  /** The projections added where the sign bit is set and subtracted where it is clear. */
  ghost function SignedTotal(projected: Vec, signs: seq<Byte>, n: nat): real
    requires n <= |projected| && n <= 8 * |signs|
  {
    if n == 0 then 0.0
    else SignedTotal(projected, signs, n - 1) + if SignAt(signs, n - 1) then projected[n - 1] else -projected[n - 1]
  }

  /** The table entries the packed indices select, added up. */
  ghost function TableTotal(lut: seq<seq<real>>, idx: seq<Byte>, n: nat): real
    requires n <= |lut| && n <= 4 * |idx| && forall i :: 0 <= i < |lut| ==> |lut[i]| == CENTROIDS
  {
    if n == 0 then 0.0 else TableTotal(lut, idx, n - 1) + lut[n - 1][Value2(IdxAt(idx, n - 1))]
  }

  lemma {:induction false} SignedTotalIsDot(projected: Vec, signs: seq<Byte>, n: nat)
    requires n <= |projected| <= 8 * |signs|
    ensures SignedTotal(projected, signs, n) == DotTo(projected, DecodedSigns(signs, |projected|), n)
  {
    hide SignAt;
    if n > 0 {
      SignedTotalIsDot(projected, signs, n - 1);
      var z := DecodedSigns(signs, |projected|)[n - 1];
      assert projected[n - 1] * z == if SignAt(signs, n - 1) then projected[n - 1] else -projected[n - 1];
    }
  }

  lemma {:induction false} TableTotalIsDot(lut: seq<seq<real>>, idx: seq<Byte>, y: Vec, book: LloydMaxCodebook, n: nat)
    requires IsTable(lut, y, book.centroids) && |book.centroids| == CENTROIDS && n <= |lut| <= 4 * |idx|
    ensures TableTotal(lut, idx, n) == DotTo(y, DecodedIdx(book, idx, |lut|), n)
  {
    hide IsTable, IdxAt, Value2, Products;
    TableIsWide(lut, y, book.centroids);
    if n > 0 {
      TableTotalIsDot(lut, idx, y, book, n - 1);
      TableEntry(lut, y, book.centroids, n - 1, Value2(IdxAt(idx, n - 1)));
    } else {
      TableIsWide(lut, y, book.centroids);
    }
  }

  lemma TableIsWide(lut: seq<seq<real>>, y: Vec, centroids: seq<real>)
    requires IsTable(lut, y, centroids)
    ensures |lut| == |y| && forall i :: 0 <= i < |lut| ==> |lut[i]| == |centroids|
  {
  }

  /** Scores packed bytes through the table. */
  method Score(codec: Codec, ghost y: Vec, q: PreparedQuery, code: EncodedTurboProd) returns (s: ScoreBreakdown)
    requires codec.Shape() && |y| == codec.d && IsPreparedFor(codec, y, q)
    requires |code.idx| == IdxLen(codec.d) && |code.signs| == SignsLen(|codec.rows|)
    ensures s == ScoreOf(codec, y, code)
    ensures |q.projected| <= 8 * |code.signs|
    ensures s.qjlTerm == code.gamma * q.scale * SignedTotal(q.projected, code.signs, |q.projected|)
    ensures |q.lut| <= 4 * |code.idx| && forall i :: 0 <= i < |q.lut| ==> |q.lut[i]| == CENTROIDS
    ensures s.mseTerm == TableTotal(q.lut, code.idx, |q.lut|)
    ensures s.norm == code.norm
  {
    hide DotTo, MatVec, DecodedIdx, DecodedSigns, Project, Products, SignedTotal, TableTotal;
    TableIsWide(q.lut, MatVec(codec.cols, codec.d, y), codec.book.centroids);
    TableTotalIsDot(q.lut, code.idx, MatVec(codec.cols, codec.d, y), codec.book, |q.lut|);
    SignedTotalIsDot(q.projected, code.signs, |q.projected|);
    var mse := LookUp(q.lut, code.idx, MatVec(codec.cols, codec.d, y), DecodedIdx(codec.book, code.idx, codec.d),
        codec.book);
    var signed := SignedSum(q.projected, code.signs);
    s := ScoreBreakdown(mse, code.gamma * q.scale * signed, code.norm);
  }

  /** The plain formula: <y', c[idx]> and gamma*scale*<S*y', z>. */
  ghost function ScoreOf(codec: Codec, y: Vec, code: EncodedTurboProd): ScoreBreakdown
    requires codec.Shape() && |y| == codec.d
    requires |code.idx| == IdxLen(codec.d) && |code.signs| == SignsLen(|codec.rows|)
  {
    var rotated := MatVec(codec.cols, codec.d, y);
    ScoreBreakdown(
      Dot(rotated, DecodedIdx(codec.book, code.idx, codec.d)),
      code.gamma * codec.scale * Dot(Project(codec.rows, rotated), DecodedSigns(code.signs, |codec.rows|)),
      code.norm)
  }

  // ----- the error of the score -----

  lemma ErrorInTerms(codec: Codec, x: Vec, y: Vec, code: EncodedTurboProd)
    requires codec.Valid() && |x| == |y| == codec.d && IsCodeOf(codec, x, code)
    ensures var s := ScoreOf(codec, y, code);
            s.Total() - Dot(y, x) ==
                code.norm * (s.qjlTerm - Dot(MatVec(codec.cols, codec.d, y), ResidualOf(codec, x, code)))
  {
    hide DotTo, MatVecTo;
    var d := codec.d;
    var u := UnitVector(x, code.norm);
    var rotatedY, rotatedU := MatVec(codec.cols, d, y), MatVec(codec.cols, d, u);
    var c := DecodedIdx(codec.book, code.idx, d);
    ScaledUnit(codec.sqrt, x, y, code.norm);
    OrthonormalKeepsDot(codec.cols, d, y, u);
    DotMinus(rotatedY, rotatedU, 1.0, c);
    var s := ScoreOf(codec, y, code);
    Distribute(code.norm, s.mseTerm, s.qjlTerm, Dot(y, u), Dot(rotatedY, Minus(rotatedU, 1.0, c)));
  }

  /** The error is the norm times how far the sketch is from the residual's true inner product. */
  lemma ScoreError(codec: Codec, x: Vec, y: Vec, code: EncodedTurboProd)
    requires codec.Valid() && |x| == |y| == codec.d && IsCodeOf(codec, x, code)
    ensures
      var rotated := MatVec(codec.cols, codec.d, y);
      ScoreOf(codec, y, code).Total() - Dot(y, x)
      == code.norm
         * (code.gamma * codec.scale * Dot(Project(codec.rows, rotated), DecodedSigns(code.signs, |codec.rows|))
            - Dot(rotated, ResidualOf(codec, x, code)))
  {
    hide ScoreOf, DotTo, MatVec, Project, DecodedSigns, ResidualOf, IsCodeOf;
    CodeFits(codec, x, code);
    ErrorInTerms(codec, x, y, code);
    QjlTermIs(codec, y, code);
  }

  lemma CodeFits(codec: Codec, x: Vec, code: EncodedTurboProd)
    requires codec.Shape() && |x| == codec.d && IsCodeOf(codec, x, code)
    ensures |code.idx| == IdxLen(codec.d) && |code.signs| == SignsLen(|codec.rows|)
  {
  }

  lemma Distribute(norm: real, mse: real, qjl: real, exact: real, rest: real)
    requires rest == exact - mse
    ensures norm * (mse + qjl) - norm * exact == norm * (qjl - rest)
  {
  }

  lemma MulDiv(x: real, norm: real)
    requires norm != 0.0
    ensures norm * (x / norm) == x
  {
  }

  /** <y,x> == |x|*<y,x/|x|>, also for the zero vector. */
  lemma ScaledUnit(sqrt: real -> real, x: Vec, y: Vec, norm: real)
    requires IsSqrt(sqrt) && |x| == |y| && norm == Norm(sqrt, x)
    ensures Dot(y, x) == norm * Dot(y, UnitVector(x, norm))
  {
    var u := UnitVector(x, norm);
    NormSquared(sqrt, x);
    if norm == 0.0 {
      DotToSquareNonNegative(x, |x|);
      assert Dot(x, x) == 0.0;
      DotToZero(y, x, |x|);
    } else {
      forall i | 0 <= i < |x|
        ensures x[i] == Lin(norm, u, 0.0, u)[i]
      {
        MulDiv(x[i], norm);
      }
      assert x == Lin(norm, u, 0.0, u);
      DotLin(y, norm, u, 0.0, u);
    }
  }

  function SumAbs(v: Vec): (sum: real)
    ensures sum >= 0.0
  {
    if v == [] then 0.0 else SumAbs(v[..|v| - 1]) + Abs(v[|v| - 1])
  }

  lemma {:induction false} SignedSumBound(p: Vec, z: Vec, n: nat)
    requires n <= |p| == |z| && forall j :: 0 <= j < |z| ==> z[j] == 1.0 || z[j] == -1.0
    ensures Abs(DotTo(p, z, n)) <= SumAbs(p[..n])
  {
    if n > 0 {
      SignedSumBound(p, z, n - 1);
      assert p[..n][..n - 1] == p[..n - 1];
      assert p[n - 1] * z[n - 1] == p[n - 1] || p[n - 1] * z[n - 1] == -p[n - 1];
    }
  }

  lemma AbsProduct(a: real, b: real, bound: real)
    requires a >= 0.0 && Abs(b) <= bound
    ensures Abs(a * b) <= a * bound
  {
    if a > 0.0 && Abs(b) < bound {
      MulPositive(a, bound - Abs(b), a * bound - a * Abs(b));
    }
  }

  lemma SignedDotBound(p: Vec, signs: seq<Byte>)
    requires |p| <= 8 * |signs|
    ensures Abs(Dot(p, DecodedSigns(signs, |p|))) <= SumAbs(p)
  {
    SignedSumBound(p, DecodedSigns(signs, |p|), |p|);
    assert p[..|p|] == p;
  }

  lemma {:induction false} OwnSigns(p: Vec, z: Vec, n: nat)
    requires n <= |p| == |z| && forall j :: 0 <= j < |z| ==> z[j] == if p[j] >= 0.0 then 1.0 else -1.0
    ensures DotTo(p, z, n) == SumAbs(p[..n])
  {
    if n > 0 {
      OwnSigns(p, z, n - 1);
      assert p[..n][..n - 1] == p[..n - 1];
      assert p[n - 1] * z[n - 1] == Abs(p[n - 1]);
    }
  }

  /** A query along the code's own residual attains the bound, with a positive sign. */
  lemma SketchOfResidual(codec: Codec, x: Vec, y: Vec, code: EncodedTurboProd)
    requires codec.Valid() && |x| == |y| == codec.d && IsCodeOf(codec, x, code)
    requires MatVec(codec.cols, codec.d, y) == ResidualOf(codec, x, code)
    ensures
      ScoreOf(codec, y, code).qjlTerm
      == code.gamma * codec.scale * SumAbs(Project(codec.rows, ResidualOf(codec, x, code)))
    ensures ScoreOf(codec, y, code).qjlTerm >= 0.0
  {
    hide DotTo, MatVec, UnitVector, DecodedIdx, ResidualOf, Orthonormal, SumAbs, SignAt;
    var p := Project(codec.rows, ResidualOf(codec, x, code));
    OwnSigns(p, DecodedSigns(code.signs, |p|), |p|);
    assert p[..|p|] == p;
    NormSquared(codec.sqrt, ResidualOf(codec, x, code));
    NonNegativeProduct(code.gamma, codec.scale, SumAbs(p));
  }

  lemma NonNegativeProduct(a: real, b: real, c: real)
    requires a >= 0.0 && b >= 0.0 && c >= 0.0
    ensures a * b * c >= 0.0
  {
    if a > 0.0 && b > 0.0 && c > 0.0 {
      MulPositive(a, b, a * b);
      MulPositive(a * b, c, a * b * c);
    }
  }

  /** Both terms of the score are linear in the query. */
  lemma ScoreIsLinear(codec: Codec, code: EncodedTurboProd, a: real, x: Vec, b: real, y: Vec)
    requires codec.Shape() && |x| == |y| == codec.d
    requires |code.idx| == IdxLen(codec.d) && |code.signs| == SignsLen(|codec.rows|)
    ensures
      var s, t, u := ScoreOf(codec, Lin(a, x, b, y), code), ScoreOf(codec, x, code), ScoreOf(codec, y, code);
      s.mseTerm == a * t.mseTerm + b * u.mseTerm && s.qjlTerm == a * t.qjlTerm + b * u.qjlTerm
  {
    hide DotTo, MatVecTo, MatVec, DecodedIdx, DecodedSigns, Project;
    var d, l := codec.d, Lin(a, x, b, y);
    var rx, ry, rl := MatVec(codec.cols, d, x), MatVec(codec.cols, d, y), MatVec(codec.cols, d, l);
    MatVecLin(codec.cols, d, a, x, b, y);
    DotLin(DecodedIdx(codec.book, code.idx, d), a, rx, b, ry);
    ProjectLin(codec.rows, a, rx, b, ry);
    var z := DecodedSigns(code.signs, |codec.rows|);
    DotLin(z, a, Project(codec.rows, rx), b, Project(codec.rows, ry));
    ScaleLin(code.gamma * codec.scale, a, Dot(Project(codec.rows, rx), z), b, Dot(Project(codec.rows, ry), z));
  }

  lemma ScaleLin(c: real, a: real, x: real, b: real, y: real)
    ensures c * (a * x + b * y) == a * (c * x) + b * (c * y)
  {
  }

  lemma MatVecLin(cols: seq<Vec>, d: nat, a: real, x: Vec, b: real, y: Vec)
    requires Shaped(cols, d) && |x| == |y| == |cols|
    ensures MatVec(cols, d, Lin(a, x, b, y)) == Lin(a, MatVec(cols, d, x), b, MatVec(cols, d, y))
  {
    hide DotTo, MatVecTo;
    var l := Lin(a, x, b, y);
    forall i | 0 <= i < d
      ensures MatVec(cols, d, l)[i] == Lin(a, MatVec(cols, d, x), b, MatVec(cols, d, y))[i]
    {
      var row := seq(|cols|, j requires 0 <= j < |cols| => cols[j][i]);
      MatVecToEntry(cols, d, l, |l|, i, row);
      MatVecToEntry(cols, d, x, |x|, i, row);
      MatVecToEntry(cols, d, y, |y|, i, row);
      DotToLin(row, a, x, b, y, |x|);
    }
  }

  lemma ProjectLin(rows: seq<Vec>, a: real, x: Vec, b: real, y: Vec)
    requires |x| == |y| && forall j :: 0 <= j < |rows| ==> |rows[j]| == |x|
    ensures Project(rows, Lin(a, x, b, y)) == Lin(a, Project(rows, x), b, Project(rows, y))
  {
    forall j | 0 <= j < |rows|
      ensures Project(rows, Lin(a, x, b, y))[j] == Lin(a, Project(rows, x), b, Project(rows, y))[j]
    {
      DotLin(rows[j], a, x, b, y);
    }
  }

  lemma QjlTermBound(codec: Codec, x: Vec, y: Vec, code: EncodedTurboProd)
    requires codec.Valid() && |x| == |y| == codec.d && IsCodeOf(codec, x, code)
    ensures Abs(ScoreOf(codec, y, code).qjlTerm) <=
        code.gamma * (codec.scale * SumAbs(Project(codec.rows, MatVec(codec.cols, codec.d, y))))
  {
    hide DotTo, MatVec, Project, SumAbs, UnitVector, DecodedIdx, DecodedSigns, ResidualOf, Orthonormal, Abs;
    var p := Project(codec.rows, MatVec(codec.cols, codec.d, y));
    NormSquared(codec.sqrt, ResidualOf(codec, x, code));
    SignedDotBound(p, code.signs);
    SketchBound(code.gamma, codec.scale, Dot(p, DecodedSigns(code.signs, |p|)), SumAbs(p),
        ScoreOf(codec, y, code).qjlTerm);
  }

  lemma ResidualBound(codec: Codec, x: Vec, y: Vec, code: EncodedTurboProd)
    requires codec.Valid() && |x| == |y| == codec.d && IsCodeOf(codec, x, code)
    ensures Abs(Dot(MatVec(codec.cols, codec.d, y), ResidualOf(codec, x, code))) <= Norm(codec.sqrt, y) * code.gamma
  {
    hide DotTo, MatVecTo;
    CauchySchwarz(codec.sqrt, MatVec(codec.cols, codec.d, y), ResidualOf(codec, x, code));
    OrthonormalKeepsDot(codec.cols, codec.d, y, y);
  }

  /** |score - <y,x>| <= |x|*gamma*(scale*sum|p_j| + |y|). */
  lemma ScoreErrorBound(codec: Codec, x: Vec, y: Vec, code: EncodedTurboProd)
    requires codec.Valid() && |x| == |y| == codec.d && IsCodeOf(codec, x, code)
    ensures Abs(ScoreOf(codec, y, code).Total() - Dot(y, x))
            <= code.norm * (code.gamma * (codec.scale * SumAbs(Project(codec.rows, MatVec(codec.cols, codec.d, y))) +
                Norm(codec.sqrt, y)))
  {
    hide DotTo, MatVecTo, Project, SumAbs, ScoreOf, UnitVector, DecodedIdx, Orthonormal;
    ErrorInTerms(codec, x, y, code);
    NormSquared(codec.sqrt, x);
    QjlTermBound(codec, x, y, code);
    ResidualBound(codec, x, y, code);
    var rotated := MatVec(codec.cols, codec.d, y);
    CombineBounds(code.norm, code.gamma, codec.scale * SumAbs(Project(codec.rows, rotated)), Norm(codec.sqrt, y),
                  ScoreOf(codec, y, code).qjlTerm, Dot(rotated, ResidualOf(codec, x, code)));
  }

  lemma QjlTermIs(codec: Codec, y: Vec, code: EncodedTurboProd)
    requires codec.Shape() && |y| == codec.d
    requires |code.idx| == IdxLen(codec.d) && |code.signs| == SignsLen(|codec.rows|)
    ensures
      ScoreOf(codec, y, code).qjlTerm
      == code.gamma * codec.scale
         * Dot(Project(codec.rows, MatVec(codec.cols, codec.d, y)), DecodedSigns(code.signs, |codec.rows|))
  {
  }

  lemma SketchBound(gamma: real, scale: real, signed: real, sum: real, qjl: real)
    requires gamma >= 0.0 && scale >= 0.0 && Abs(signed) <= sum && qjl == gamma * scale * signed
    ensures Abs(qjl) <= gamma * (scale * sum)
  {
    AbsProduct(scale, signed, sum);
    AbsProduct(gamma, scale * signed, scale * sum);
    assert qjl == gamma * (scale * signed);
  }

  lemma CombineBounds(norm: real, gamma: real, a: real, b: real, qjl: real, exact: real)
    requires norm >= 0.0 && Abs(qjl) <= gamma * a && Abs(exact) <= b * gamma
    ensures Abs(norm * (qjl - exact)) <= norm * (gamma * (a + b))
  {
    assert gamma * (a + b) == gamma * a + b * gamma;
    AbsProduct(norm, qjl - exact, gamma * (a + b));
  }

  /** A zero vector scores 0 against every query. */
  lemma ZeroScoresZero(codec: Codec, y: Vec, code: EncodedTurboProd)
    requires codec.Valid() && |y| == codec.d && IsCodeOf(codec, Zero(codec.d), code)
    ensures ScoreOf(codec, y, code).Total() == 0.0
  {
    hide MatVecTo;
    DotToZero(Zero(codec.d), Zero(codec.d), codec.d);
    NormSquared(codec.sqrt, Zero(codec.d));
    SquareSign(code.norm, code.norm * code.norm);
    assert code.norm == 0.0;
  }
}
