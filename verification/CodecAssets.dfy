/** The codec asset files of a release: the legacy centroid table and projection (src/index/assets.rs) and the rotation,
    codebook and QJL matrix of the v4 codec. Every f32 stands as its bits. */
module CodecAssets {
  import opened Wrappers
  import opened Bytes

  datatype CentroidTable = CentroidTable(dim: nat, centroidsPerDim: nat, values: seq<nat>)

  datatype ProjectionMatrix = ProjectionMatrix(inputDim: nat, outputDim: nat, values: seq<nat>)

  datatype Rotation = Rotation(dim: nat, seed: nat, generatorVersion: nat, matrix: seq<nat>)

  datatype Codebook = Codebook(dim: nat, bits: nat, centroids: seq<nat>)

  datatype QjlMatrix = QjlMatrix(dim: nat, qjlDim: nat, seed: nat, generatorVersion: nat, values: seq<nat>)

  // ----- values -----

  /** `parse_values`: exactly `first * second` four-byte values. */
  function ParseValues(data: seq<byte>, first: nat, second: nat): Option<seq<nat>> {
    if first == 0 || second == 0 || |data| % 4 != 0 || |data| / 4 != first * second then None
    else Some(ParsedWords(data))
  }

  lemma ValuesReadBack(values: seq<nat>, first: nat, second: nat)
    requires AllU32(values) && |values| == first * second && first > 0 && second > 0
    ensures ParseValues(Words(values), first, second) == Some(values)
  {
    WordsReadBack(values);
  }

  // ----- legacy assets -----

  predicate CentroidsFit(t: CentroidTable) {
    0 < t.dim < U32_LIMIT && 0 < t.centroidsPerDim < U32_LIMIT && |t.values| == t.dim * t.centroidsPerDim
  }

  function CentroidBytes(t: CentroidTable): seq<byte> {
    Le(t.dim, 4) + (Le(t.centroidsPerDim, 4) + Words(t.values))
  }

  function ReadCentroids(b: seq<byte>): Option<CentroidTable> {
    if |b| <= 8 then None
    else
      match ParseValues(b[8..], LeValue(b[0..4]), LeValue(b[4..8]))
      case None => None
      case Some(values) => Some(CentroidTable(LeValue(b[0..4]), LeValue(b[4..8]), values))
  }

  lemma CentroidsReadBack(t: CentroidTable)
    requires CentroidsFit(t) && AllU32(t.values)
    ensures ReadCentroids(CentroidBytes(t)) == Some(t)
  {
    TwoFields(t.dim, t.centroidsPerDim, Words(t.values));
    ValuesReadBack(t.values, t.dim, t.centroidsPerDim);
    WordsSize(t.values);
    NonEmptyProduct(t.dim, t.centroidsPerDim);
  }

  predicate ProjectionFits(p: ProjectionMatrix) {
    0 < p.inputDim < U32_LIMIT && 0 < p.outputDim < U32_LIMIT && |p.values| == p.outputDim * p.inputDim
  }

  function ProjectionBytes(p: ProjectionMatrix): seq<byte> {
    Le(p.inputDim, 4) + (Le(p.outputDim, 4) + Words(p.values))
  }

  function ReadProjection(b: seq<byte>): Option<ProjectionMatrix> {
    if |b| <= 8 then None
    else
      match ParseValues(b[8..], LeValue(b[4..8]), LeValue(b[0..4]))
      case None => None
      case Some(values) => Some(ProjectionMatrix(LeValue(b[0..4]), LeValue(b[4..8]), values))
  }

  lemma ProjectionReadsBack(p: ProjectionMatrix)
    requires ProjectionFits(p) && AllU32(p.values)
    ensures ReadProjection(ProjectionBytes(p)) == Some(p)
  {
    TwoFields(p.inputDim, p.outputDim, Words(p.values));
    ValuesReadBack(p.values, p.outputDim, p.inputDim);
    WordsSize(p.values);
    NonEmptyProduct(p.outputDim, p.inputDim);
  }

  lemma NonEmptyProduct(a: nat, b: nat)
    requires a > 0 && b > 0
    ensures a * b > 0
  {
  }

  lemma TwoFields(m: nat, n: nat, rest: seq<byte>)
    requires m < U32_LIMIT && n < U32_LIMIT
    ensures
      var b := Le(m, 4) + (Le(n, 4) + rest);
      |b| == 8 + |rest| && LeValue(b[0..4]) == m && LeValue(b[4..8]) == n && b[8..] == rest
  {
    hide Le, LeValue;
    var b := Le(m, 4) + (Le(n, 4) + rest);
    assert b[0..4] == Le(m, 4) && b[4..8] == Le(n, 4) && b[8..] == rest;
    U32ReadsBack(m);
    U32ReadsBack(n);
  }

  // ----- v4 assets -----

  predicate RotationFits(r: Rotation) {
    0 < r.dim < U32_LIMIT && r.seed < U64_LIMIT && r.generatorVersion < U32_LIMIT && |r.matrix| == r.dim * r.dim
  }

  function RotationBytes(r: Rotation): seq<byte> {
    Ascii("TQRT") + (Le(r.dim, 4) + (Le(r.seed, 8) + (Le(r.generatorVersion, 4) + Words(r.matrix))))
  }

  function ReadRotation(b: seq<byte>): Option<Rotation> {
    if |b| < 20 || b[0..4] != Ascii("TQRT") then None
    else
      match ParseValues(b[20..], LeValue(b[4..8]), LeValue(b[4..8]))
      case None => None
      case Some(matrix) => Some(Rotation(LeValue(b[4..8]), LeValue(b[8..16]), LeValue(b[16..20]), matrix))
  }

  lemma RotationReadsBack(r: Rotation)
    requires RotationFits(r) && AllU32(r.matrix)
    ensures ReadRotation(RotationBytes(r)) == Some(r)
  {
    hide Le, LeValue, Words, Ascii;
    RotationFields(Ascii("TQRT"), r, Words(r.matrix));
    U32ReadsBack(r.dim);
    U64ReadsBack(r.seed);
    U32ReadsBack(r.generatorVersion);
    ValuesReadBack(r.matrix, r.dim, r.dim);
  }

  lemma RotationFields(magic: seq<byte>, r: Rotation, rest: seq<byte>)
    requires |magic| == 4
    ensures
      var b := magic + (Le(r.dim, 4) + (Le(r.seed, 8) + (Le(r.generatorVersion, 4) + rest)));
      && |b| >= 20 && b[0..4] == magic && b[4..8] == Le(r.dim, 4) && b[8..16] == Le(r.seed, 8)
      && b[16..20] == Le(r.generatorVersion, 4) && b[20..] == rest
  {
    hide Le;
    var d := Le(r.generatorVersion, 4) + rest;
    var c := Le(r.seed, 8) + d;
    var a := Le(r.dim, 4) + c;
    var b := magic + a;
    assert b[4..] == a && a[4..] == c && c[8..] == d && d[4..] == rest;
    assert b[8..] == c && b[16..] == d && b[20..] == rest;
  }

  /** The order of finite f32 values by their bits; both zeros are equal. */
  function F32Key(bits: nat): int {
    if bits >= 0x8000_0000 then -(bits - 0x8000_0000) else bits
  }

  predicate Finite(bits: nat) {
    (bits / 0x80_0000) % 256 != 255
  }

  ghost predicate AscendingFinite(centroids: seq<nat>) {
    && (forall i :: 0 <= i < |centroids| ==> Finite(centroids[i]))
    && (forall i :: 0 <= i < |centroids| - 1 ==> F32Key(centroids[i]) < F32Key(centroids[i + 1]))
  }

  function CentroidCount(bits: nat): nat {
    match bits case 1 => 2 case 2 => 4 case 3 => 8 case 4 => 16 case _ => 0
  }

  ghost predicate CodebookFits(c: Codebook) {
    0 < c.dim < U32_LIMIT && 1 <= c.bits <= 4 && |c.centroids| == CentroidCount(c.bits) && AscendingFinite(c.centroids)
  }

  function CodebookBytes(c: Codebook): seq<byte> {
    Ascii("TQCB") + (Le(c.dim, 4) + (Le(c.bits, 4) + Words(c.centroids)))
  }

  ghost function ReadCodebook(b: seq<byte>): Option<Codebook> {
    if |b| < 12 || b[0..4] != Ascii("TQCB") || LeValue(b[4..8]) == 0 || !(1 <= LeValue(b[8..12]) <= 4) then None
    else
      match ParseValues(b[12..], CentroidCount(LeValue(b[8..12])), 1)
      case None => None
      case Some(centroids) =>
        if AscendingFinite(centroids) then Some(Codebook(LeValue(b[4..8]), LeValue(b[8..12]), centroids)) else None
  }

  lemma CodebookReadsBack(c: Codebook)
    requires CodebookFits(c) && AllU32(c.centroids)
    ensures ReadCodebook(CodebookBytes(c)) == Some(c)
  {
    hide Le, LeValue, Words, Ascii;
    var fields := Le(c.dim, 4) + (Le(c.bits, 4) + Words(c.centroids));
    var b := Ascii("TQCB") + fields;
    TwoFields(c.dim, c.bits, Words(c.centroids));
    assert b[0..4] == Ascii("TQCB") && b[4..] == fields;
    assert b[4..8] == fields[0..4] && b[8..12] == fields[4..8] && b[12..] == fields[8..];
    ValuesReadBack(c.centroids, CentroidCount(c.bits), 1);
  }

  predicate QjlFits(q: QjlMatrix) {
    0 < q.dim < U32_LIMIT && 0 < q.qjlDim < U32_LIMIT && q.seed < U64_LIMIT && q.generatorVersion < U32_LIMIT &&
        |q.values| == q.qjlDim * q.dim
  }

  function QjlBytes(q: QjlMatrix): seq<byte> {
    Ascii("TQJL") + (Le(q.dim, 4) + (Le(q.qjlDim, 4) + (Le(q.seed, 8) + (Le(q.generatorVersion, 4) + Words(q.values)))))
  }

  function ReadQjl(b: seq<byte>): Option<QjlMatrix> {
    if |b| < 24 || b[0..4] != Ascii("TQJL") then None
    else
      match ParseValues(b[24..], LeValue(b[8..12]), LeValue(b[4..8]))
      case None => None
      case Some(values) =>
          Some(QjlMatrix(LeValue(b[4..8]), LeValue(b[8..12]), LeValue(b[12..20]), LeValue(b[20..24]), values))
  }

  lemma QjlReadsBack(q: QjlMatrix)
    requires QjlFits(q) && AllU32(q.values)
    ensures ReadQjl(QjlBytes(q)) == Some(q)
  {
    hide Le, LeValue, Words, Ascii;
    QjlFields(Ascii("TQJL"), q, Words(q.values));
    U32ReadsBack(q.dim);
    U32ReadsBack(q.qjlDim);
    U64ReadsBack(q.seed);
    U32ReadsBack(q.generatorVersion);
    ValuesReadBack(q.values, q.qjlDim, q.dim);
  }

  lemma QjlFields(magic: seq<byte>, q: QjlMatrix, rest: seq<byte>)
    requires |magic| == 4
    ensures
      var b := magic + (Le(q.dim, 4) + (Le(q.qjlDim, 4) + (Le(q.seed, 8) + (Le(q.generatorVersion, 4) + rest))));
      && |b| >= 24 && b[0..4] == magic && b[4..8] == Le(q.dim, 4) && b[8..12] == Le(q.qjlDim, 4) &&
          b[12..20] == Le(q.seed, 8)
      && b[20..24] == Le(q.generatorVersion, 4) && b[24..] == rest
  {
    hide Le;
    var e := Le(q.generatorVersion, 4) + rest;
    var d := Le(q.seed, 8) + e;
    var c := Le(q.qjlDim, 4) + d;
    var a := Le(q.dim, 4) + c;
    var b := magic + a;
    assert b[4..] == a && a[4..] == c && c[4..] == d && d[8..] == e && e[4..] == rest;
    assert b[8..] == c && b[12..] == d && b[20..] == e && b[24..] == rest;
  }

  // ----- the committed codebook -----

  /** The four f32 values -0.06669391, -0.02000666, 0.02000666 and 0.06669391. */
  const D512_B2_CENTROIDS: seq<nat> := [0xbd88_96d1, 0xbca3_e502, 0x3ca3_e502, 0x3d88_96d1]

  /** `LloydMaxCodebook::committed`: only (512, 2). */
  function Committed(dim: nat, bits: nat): Option<Codebook> {
    if dim == 512 && bits == 2 then Some(Codebook(dim, bits, D512_B2_CENTROIDS)) else None
  }

  lemma CommittedFits(dim: nat, bits: nat)
    requires Committed(dim, bits).Some?
    ensures CodebookFits(Committed(dim, bits).value) && AllU32(Committed(dim, bits).value.centroids)
  {
  }
}
