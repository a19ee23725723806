/** The release manifest and the byte streams behind its content digest and release id
    (src/index/release_manifest.rs). */
module ReleaseManifest {
  import opened Wrappers
  import opened Orders
  import opened Bytes

  datatype Source = Source(kind: Text, datasetPath: Text, tableVersion: nat, tableRowCount: nat, corpusType: byte)

  datatype EmbeddingProfile = EmbeddingProfile(modelId: Text, dim: nat)

  datatype InputFingerprint = InputFingerprint(docCount: nat, contentDigest: Text)

  datatype CodecMetadata = CodecMetadata(dim: nat, centroidsPerDim: nat, centroidsSeed: nat, projectionSeed: nat)

  datatype V4CodecMetadata = V4CodecMetadata(codecId: Text, dim: nat, mseBits: nat, qjlDim: nat, rotationSeed: nat,
                                             qjlSeed: nat, generatorVersion: nat, normPolicy: Text)

  datatype ManifestCodec = V3(v3: CodecMetadata) | V4(v4: V4CodecMetadata)

  datatype OutputFile = OutputFile(name: Text, sha256: Text, sizeBytes: nat)

  datatype Manifest = Manifest(schemaVersion: nat, turboVersion: nat, releaseId: Text, source: Source,
                               profile: EmbeddingProfile, fingerprint: InputFingerprint, codec: ManifestCodec,
                               outputs: seq<OutputFile>)

  /** An f32 of the embedding stands as its bits. */
  datatype CanonicalRow = CanonicalRow(docId: Text, embedding: seq<nat>, text: Text, metaJson: Text)

  const TURBO_VERSION_V3: nat := 3
  const TURBO_VERSION_V4: nat := 4

  function CodecVersion(codec: ManifestCodec): nat {
    if codec.V3? then TURBO_VERSION_V3 else TURBO_VERSION_V4
  }

  function CodecDim(codec: ManifestCodec): nat {
    match codec case V3(c) => c.dim case V4(c) => c.dim
  }

  // ----- the content stream -----

  function RowThen(row: CanonicalRow, rest: seq<byte>): seq<byte> {
    LenPrefixed(row.docId) +
        (Le(|row.embedding|, 8) + (Words(row.embedding) + (LenPrefixed(row.text) + (LenPrefixed(row.metaJson) + rest))))
  }

  function RowsStream(rows: seq<CanonicalRow>): seq<byte> {
    if rows == [] then [] else RowThen(rows[0], RowsStream(rows[1..]))
  }

  ghost predicate RowFits(row: CanonicalRow) {
    Fits(row.docId) && |row.embedding| < U64_LIMIT && AllU32(row.embedding) && Fits(row.text) && Fits(row.metaJson)
  }

  /** `content_digest`. */
  method ContentDigest(rows: seq<CanonicalRow>, sha: seq<byte> -> seq<byte>) returns (digest: Text)
    ensures digest == Hex(sha(RowsStream(rows)))
  {
    var hasher := new Hasher();
    for i := 0 to |rows|
      invariant fresh(hasher) && hasher.fed + RowsStream(rows[i..]) == RowsStream(rows)
    {
      assert rows[i..][0] == rows[i] && rows[i..][1..] == rows[i + 1..];
      FeedRow(hasher, rows[i], RowsStream(rows[i + 1..]));
    }
    assert hasher.fed == RowsStream(rows);
    digest := Hex(sha(hasher.fed));
  }

  method FeedRow(hasher: Hasher, row: CanonicalRow, ghost rest: seq<byte>)
    modifies hasher
    ensures hasher.fed + rest == old(hasher.fed) + RowThen(row, rest)
  {
    hide Words, Le, LenPrefixed;
    ghost var r4 := LenPrefixed(row.metaJson) + rest;
    ghost var r3 := LenPrefixed(row.text) + r4;
    ghost var r2 := Words(row.embedding) + r3;
    ghost var r1 := Le(|row.embedding|, 8) + r2;
    ghost var f0 := hasher.fed;
    hasher.UpdateLenPrefixed(row.docId);
    ghost var f1 := hasher.fed;
    Regroup(f0, LenPrefixed(row.docId), r1);
    hasher.Update(Le(|row.embedding|, 8));
    ghost var f2 := hasher.fed;
    Regroup(f1, Le(|row.embedding|, 8), r2);
    hasher.Update(Words(row.embedding));
    ghost var f3 := hasher.fed;
    Regroup(f2, Words(row.embedding), r3);
    hasher.UpdateLenPrefixed(row.text);
    ghost var f4 := hasher.fed;
    Regroup(f3, LenPrefixed(row.text), r4);
    hasher.UpdateLenPrefixed(row.metaJson);
    Regroup(f4, LenPrefixed(row.metaJson), rest);
  }

  lemma SplitRow(a: CanonicalRow, b: CanonicalRow, x: seq<byte>, y: seq<byte>)
    requires RowFits(a) && RowFits(b) && RowThen(a, x) == RowThen(b, y)
    ensures a == b && x == y
  {
    hide Words, Le, LenPrefixed, Limit;
    Limits();
    var a4, b4 := LenPrefixed(a.metaJson) + x, LenPrefixed(b.metaJson) + y;
    var a3, b3 := LenPrefixed(a.text) + a4, LenPrefixed(b.text) + b4;
    var a2, b2 := Words(a.embedding) + a3, Words(b.embedding) + b3;
    SplitLenPrefixed(a.docId, b.docId, Le(|a.embedding|, 8) + a2, Le(|b.embedding|, 8) + b2);
    SplitLe(|a.embedding|, |b.embedding|, 8, a2, b2);
    WordsReadBack(a.embedding);
    WordsReadBack(b.embedding);
    SplitSameSize(Words(a.embedding), Words(b.embedding), a3, b3);
    SplitLenPrefixed(a.text, b.text, a4, b4);
    SplitLenPrefixed(a.metaJson, b.metaJson, x, y);
  }

  /** Equal content streams come from equal rows. */
  lemma {:induction false} ContentStreamDecodes(a: seq<CanonicalRow>, b: seq<CanonicalRow>)
    requires (forall row :: row in a ==> RowFits(row)) && (forall row :: row in b ==> RowFits(row))
    requires RowsStream(a) == RowsStream(b)
    ensures a == b
  {
    hide RowThen, RowFits;
    if a == [] || b == [] {
      NonEmptyStream(a);
      NonEmptyStream(b);
    } else {
      SplitRow(a[0], b[0], RowsStream(a[1..]), RowsStream(b[1..]));
      ContentStreamDecodes(a[1..], b[1..]);
      assert a == [a[0]] + a[1..] && b == [b[0]] + b[1..];
    }
  }

  lemma NonEmptyStream(a: seq<CanonicalRow>)
    ensures RowsStream(a) == [] <==> a == []
  {
    if a != [] {
      assert |RowThen(a[0], RowsStream(a[1..]))| >= |LenPrefixed(a[0].docId)| >= 8;
    }
  }

  // ----- the release id stream -----

  function CodecThen(codec: ManifestCodec, rest: seq<byte>): seq<byte> {
    match codec
    case V3(c) => Le(c.dim, 4) +
        (Le(c.centroidsPerDim, 4) + (Le(c.centroidsSeed, 8) + (Le(c.projectionSeed, 8) + rest)))
    case V4(c) =>
      LenPrefixed(c.codecId) + (Le(c.dim, 4) + (Le(c.mseBits, 1) + (Le(c.qjlDim, 4) +
      (Le(c.rotationSeed, 8) + (Le(c.qjlSeed, 8) + (Le(c.generatorVersion, 4) + (LenPrefixed(c.normPolicy) + rest)))))))
  }

  function OutputThen(o: OutputFile, rest: seq<byte>): seq<byte> {
    LenPrefixed(o.name) + (o.sha256 + (Le(o.sizeBytes, 8) + rest))
  }

  function OutputsStream(outputs: seq<OutputFile>): seq<byte> {
    if outputs == [] then [] else OutputThen(outputs[0], OutputsStream(outputs[1..]))
  }

  predicate ByName(a: OutputFile, b: OutputFile) {
    TextLe(a.name, b.name)
  }

  /** What `derive_release_id` hashes: everything but the source. */
  function ReleaseIdStream(turboVersion: nat, profile: EmbeddingProfile, codec: ManifestCodec, contentDigest: Text,
                           outputs: seq<OutputFile>): seq<byte> {
    Le(turboVersion, 4) + (LenPrefixed(profile.modelId) + (Le(profile.dim, 4)
    + CodecThen(codec, LenPrefixed(contentDigest) + OutputsStream(Sort(ByName, outputs)))))
  }

  /** `derive_release_id`. */
  method DeriveReleaseId(turboVersion: nat, profile: EmbeddingProfile, codec: ManifestCodec, contentDigest: Text,
                         outputs: seq<OutputFile>, sha: seq<byte> -> seq<byte>) returns (id: Text)
    ensures id == Hex(sha(ReleaseIdStream(turboVersion, profile, codec, contentDigest, outputs)))
  {
    hide Le, LenPrefixed, CodecThen, OutputsStream, Sort;
    var hasher := new Hasher();
    var sorted := Sort(ByName, outputs);
    ghost var tail := LenPrefixed(contentDigest) + OutputsStream(sorted);
    FeedProfile(hasher, turboVersion, profile, CodecThen(codec, tail));
    FeedCodec(hasher, codec, tail);
    ghost var fed := hasher.fed;
    hasher.UpdateLenPrefixed(contentDigest);
    Regroup(fed, LenPrefixed(contentDigest), OutputsStream(sorted));
    FeedOutputs(hasher, sorted);
    id := Hex(sha(hasher.fed));
  }

  method FeedProfile(hasher: Hasher, turboVersion: nat, profile: EmbeddingProfile, ghost rest: seq<byte>)
    requires hasher.fed == []
    modifies hasher
    ensures hasher.fed + rest == Le(turboVersion, 4) + (LenPrefixed(profile.modelId) + (Le(profile.dim, 4) + rest))
  {
    hide Le, LenPrefixed;
    hasher.Update(Le(turboVersion, 4));
    ghost var f1 := hasher.fed;
    assert f1 == Le(turboVersion, 4);
    hasher.UpdateLenPrefixed(profile.modelId);
    ghost var f2 := hasher.fed;
    hasher.Update(Le(profile.dim, 4));
    Regroup(f2, Le(profile.dim, 4), rest);
    Regroup(f1, LenPrefixed(profile.modelId), Le(profile.dim, 4) + rest);
  }

  method FeedOutputs(hasher: Hasher, outputs: seq<OutputFile>)
    modifies hasher
    ensures hasher.fed == old(hasher.fed) + OutputsStream(outputs)
  {
    hide Le, LenPrefixed;
    ghost var start := hasher.fed;
    for i := 0 to |outputs|
      invariant hasher.fed + OutputsStream(outputs[i..]) == start + OutputsStream(outputs)
    {
      var output := outputs[i];
      assert outputs[i..][0] == output && outputs[i..][1..] == outputs[i + 1..];
      ghost var rest := OutputsStream(outputs[i + 1..]);
      ghost var f0 := hasher.fed;
      hasher.UpdateLenPrefixed(output.name);
      ghost var f1 := hasher.fed;
      Regroup(f0, LenPrefixed(output.name), output.sha256 + (Le(output.sizeBytes, 8) + rest));
      hasher.Update(output.sha256);
      ghost var f2 := hasher.fed;
      Regroup(f1, output.sha256, Le(output.sizeBytes, 8) + rest);
      hasher.Update(Le(output.sizeBytes, 8));
      Regroup(f2, Le(output.sizeBytes, 8), rest);
    }
    assert outputs[|outputs|..] == [];
    assert hasher.fed + [] == hasher.fed;
  }

  method FeedCodec(hasher: Hasher, codec: ManifestCodec, ghost rest: seq<byte>)
    modifies hasher
    ensures hasher.fed + rest == old(hasher.fed) + CodecThen(codec, rest)
  {
    match codec
    case V3(c) => FeedV3(hasher, c, rest);
    case V4(c) => FeedV4(hasher, c, rest);
  }

  method FeedV3(hasher: Hasher, c: CodecMetadata, ghost rest: seq<byte>)
    modifies hasher
    ensures hasher.fed + rest == old(hasher.fed) + CodecThen(V3(c), rest)
  {
    hide Le;
    ghost var r3 := Le(c.projectionSeed, 8) + rest;
    ghost var r2 := Le(c.centroidsSeed, 8) + r3;
    ghost var r1 := Le(c.centroidsPerDim, 4) + r2;
    ghost var f0 := hasher.fed;
    hasher.Update(Le(c.dim, 4));
    ghost var f1 := hasher.fed;
    Regroup(f0, Le(c.dim, 4), r1);
    hasher.Update(Le(c.centroidsPerDim, 4));
    ghost var f2 := hasher.fed;
    Regroup(f1, Le(c.centroidsPerDim, 4), r2);
    hasher.Update(Le(c.centroidsSeed, 8));
    ghost var f3 := hasher.fed;
    Regroup(f2, Le(c.centroidsSeed, 8), r3);
    hasher.Update(Le(c.projectionSeed, 8));
    Regroup(f3, Le(c.projectionSeed, 8), rest);
  }

  method FeedV4(hasher: Hasher, c: V4CodecMetadata, ghost rest: seq<byte>)
    modifies hasher
    ensures hasher.fed + rest == old(hasher.fed) + CodecThen(V4(c), rest)
  {
    hide Le, LenPrefixed;
    ghost var r7 := LenPrefixed(c.normPolicy) + rest;
    ghost var r6 := Le(c.generatorVersion, 4) + r7;
    ghost var r5 := Le(c.qjlSeed, 8) + r6;
    ghost var r4 := Le(c.rotationSeed, 8) + r5;
    ghost var r3 := Le(c.qjlDim, 4) + r4;
    ghost var r2 := Le(c.mseBits, 1) + r3;
    ghost var r1 := Le(c.dim, 4) + r2;
    ghost var f0 := hasher.fed;
    hasher.UpdateLenPrefixed(c.codecId);
    ghost var f1 := hasher.fed;
    Regroup(f0, LenPrefixed(c.codecId), r1);
    hasher.Update(Le(c.dim, 4));
    ghost var f2 := hasher.fed;
    Regroup(f1, Le(c.dim, 4), r2);
    hasher.Update(Le(c.mseBits, 1));
    ghost var f3 := hasher.fed;
    Regroup(f2, Le(c.mseBits, 1), r3);
    hasher.Update(Le(c.qjlDim, 4));
    ghost var f4 := hasher.fed;
    Regroup(f3, Le(c.qjlDim, 4), r4);
    hasher.Update(Le(c.rotationSeed, 8));
    ghost var f5 := hasher.fed;
    Regroup(f4, Le(c.rotationSeed, 8), r5);
    hasher.Update(Le(c.qjlSeed, 8));
    ghost var f6 := hasher.fed;
    Regroup(f5, Le(c.qjlSeed, 8), r6);
    hasher.Update(Le(c.generatorVersion, 4));
    ghost var f7 := hasher.fed;
    Regroup(f6, Le(c.generatorVersion, 4), r7);
    hasher.UpdateLenPrefixed(c.normPolicy);
    Regroup(f7, LenPrefixed(c.normPolicy), rest);
  }

  // ----- decoding the release id stream -----

  /** Every field within its machine width. */
  predicate CodecFits(codec: ManifestCodec) {
    match codec
    case V3(c) => c.dim < U32_LIMIT && c.centroidsPerDim < U32_LIMIT && c.centroidsSeed < U64_LIMIT &&
        c.projectionSeed < U64_LIMIT
    case V4(c) =>
      && Fits(c.codecId) && c.dim < U32_LIMIT && c.mseBits < 256 && c.qjlDim < U32_LIMIT && c.rotationSeed < U64_LIMIT
      && c.qjlSeed < U64_LIMIT && c.generatorVersion < U32_LIMIT && Fits(c.normPolicy)
  }

  /** A hex SHA-256 is 64 bytes. */
  predicate OutputFits(o: OutputFile) {
    Fits(o.name) && |o.sha256| == 64 && o.sizeBytes < U64_LIMIT
  }

  lemma SplitV3(a: CodecMetadata, b: CodecMetadata, x: seq<byte>, y: seq<byte>)
    requires CodecFits(V3(a)) && CodecFits(V3(b)) && CodecThen(V3(a), x) == CodecThen(V3(b), y)
    ensures a == b && x == y
  {
    hide Le, Limit;
    Limits();
    var a3, b3 := Le(a.projectionSeed, 8) + x, Le(b.projectionSeed, 8) + y;
    var a2, b2 := Le(a.centroidsSeed, 8) + a3, Le(b.centroidsSeed, 8) + b3;
    SplitLe(a.dim, b.dim, 4, Le(a.centroidsPerDim, 4) + a2, Le(b.centroidsPerDim, 4) + b2);
    SplitLe(a.centroidsPerDim, b.centroidsPerDim, 4, a2, b2);
    SplitLe(a.centroidsSeed, b.centroidsSeed, 8, a3, b3);
    SplitLe(a.projectionSeed, b.projectionSeed, 8, x, y);
  }

  lemma SplitV4(a: V4CodecMetadata, b: V4CodecMetadata, x: seq<byte>, y: seq<byte>)
    requires CodecFits(V4(a)) && CodecFits(V4(b)) && CodecThen(V4(a), x) == CodecThen(V4(b), y)
    ensures a == b && x == y
  {
    hide Le, Limit, LenPrefixed;
    Limits();
    var a7, b7 := LenPrefixed(a.normPolicy) + x, LenPrefixed(b.normPolicy) + y;
    var a6, b6 := Le(a.generatorVersion, 4) + a7, Le(b.generatorVersion, 4) + b7;
    var a5, b5 := Le(a.qjlSeed, 8) + a6, Le(b.qjlSeed, 8) + b6;
    var a4, b4 := Le(a.rotationSeed, 8) + a5, Le(b.rotationSeed, 8) + b5;
    var a3, b3 := Le(a.qjlDim, 4) + a4, Le(b.qjlDim, 4) + b4;
    var a2, b2 := Le(a.mseBits, 1) + a3, Le(b.mseBits, 1) + b3;
    SplitLenPrefixed(a.codecId, b.codecId, Le(a.dim, 4) + a2, Le(b.dim, 4) + b2);
    SplitLe(a.dim, b.dim, 4, a2, b2);
    SplitLe(a.mseBits, b.mseBits, 1, a3, b3);
    SplitLe(a.qjlDim, b.qjlDim, 4, a4, b4);
    SplitLe(a.rotationSeed, b.rotationSeed, 8, a5, b5);
    SplitLe(a.qjlSeed, b.qjlSeed, 8, a6, b6);
    SplitLe(a.generatorVersion, b.generatorVersion, 4, a7, b7);
    SplitLenPrefixed(a.normPolicy, b.normPolicy, x, y);
  }

  lemma SplitOutput(a: OutputFile, b: OutputFile, x: seq<byte>, y: seq<byte>)
    requires OutputFits(a) && OutputFits(b) && OutputThen(a, x) == OutputThen(b, y)
    ensures a == b && x == y
  {
    hide Le, Limit, LenPrefixed;
    Limits();
    SplitLenPrefixed(a.name, b.name, a.sha256 + (Le(a.sizeBytes, 8) + x), b.sha256 + (Le(b.sizeBytes, 8) + y));
    SplitSameSize(a.sha256, b.sha256, Le(a.sizeBytes, 8) + x, Le(b.sizeBytes, 8) + y);
    SplitLe(a.sizeBytes, b.sizeBytes, 8, x, y);
  }

  lemma {:induction false} OutputsDecode(a: seq<OutputFile>, b: seq<OutputFile>)
    requires (forall o :: o in a ==> OutputFits(o)) && (forall o :: o in b ==> OutputFits(o))
    requires OutputsStream(a) == OutputsStream(b)
    ensures a == b
  {
    hide OutputThen, OutputFits;
    if a == [] || b == [] {
      NonEmptyOutputs(a);
      NonEmptyOutputs(b);
    } else {
      SplitOutput(a[0], b[0], OutputsStream(a[1..]), OutputsStream(b[1..]));
      OutputsDecode(a[1..], b[1..]);
      assert a == [a[0]] + a[1..] && b == [b[0]] + b[1..];
    }
  }

  lemma NonEmptyOutputs(a: seq<OutputFile>)
    ensures OutputsStream(a) == [] <==> a == []
  {
    if a != [] {
      assert |OutputThen(a[0], OutputsStream(a[1..]))| >= |LenPrefixed(a[0].name)| >= 8;
    }
  }

  lemma SortKeepsFits(outputs: seq<OutputFile>)
    requires forall o :: o in outputs ==> OutputFits(o)
    ensures forall o :: o in Sort(ByName, outputs) ==> OutputFits(o)
  {
    hide OutputFits;
    forall o | o in Sort(ByName, outputs)
      ensures OutputFits(o)
    {
      assert o in multiset(Sort(ByName, outputs));
    }
  }

  /** Equal release id streams, each with the codec section of its version, come from equal components. */
  lemma ReleaseIdStreamDecodes(va: nat, pa: EmbeddingProfile, ca: ManifestCodec, da: Text, oa: seq<OutputFile>,
                               vb: nat, pb: EmbeddingProfile, cb: ManifestCodec, db: Text, ob: seq<OutputFile>)
    requires ReleaseIdStream(va, pa, ca, da, oa) == ReleaseIdStream(vb, pb, cb, db, ob)
    requires CodecVersion(ca) == va && CodecVersion(cb) == vb && CodecFits(ca) && CodecFits(cb)
    requires Fits(pa.modelId) && pa.dim < U32_LIMIT && Fits(da) && (forall o :: o in oa ==> OutputFits(o))
    requires Fits(pb.modelId) && pb.dim < U32_LIMIT && Fits(db) && (forall o :: o in ob ==> OutputFits(o))
    ensures va == vb && pa == pb && ca == cb && da == db && multiset(oa) == multiset(ob)
  {
    hide Le, Limit, LenPrefixed, CodecThen, CodecFits, OutputFits, Sort;
    Limits();
    var a3, b3 := LenPrefixed(da) + OutputsStream(Sort(ByName, oa)), LenPrefixed(db) + OutputsStream(Sort(ByName, ob));
    var a2, b2 := CodecThen(ca, a3), CodecThen(cb, b3);
    var a1, b1 := Le(pa.dim, 4) + a2, Le(pb.dim, 4) + b2;
    SplitLe(va, vb, 4, LenPrefixed(pa.modelId) + a1, LenPrefixed(pb.modelId) + b1);
    SplitLenPrefixed(pa.modelId, pb.modelId, a1, b1);
    SplitLe(pa.dim, pb.dim, 4, a2, b2);
    SplitCodec(ca, cb, a3, b3);
    SplitLenPrefixed(da, db, OutputsStream(Sort(ByName, oa)), OutputsStream(Sort(ByName, ob)));
    SortKeepsFits(oa);
    SortKeepsFits(ob);
    OutputsDecode(Sort(ByName, oa), Sort(ByName, ob));
  }

  lemma SplitCodec(a: ManifestCodec, b: ManifestCodec, x: seq<byte>, y: seq<byte>)
    requires CodecVersion(a) == CodecVersion(b) && CodecFits(a) && CodecFits(b) && CodecThen(a, x) == CodecThen(b, y)
    ensures a == b && x == y
  {
    hide CodecThen, CodecFits;
    match a
    case V3(c) => SplitV3(c, b.v3, x, y);
    case V4(c) => SplitV4(c, b.v4, x, y);
  }

  /** Without the fixed hash size two different lists would share a stream: two nameless empty files, or one whose
      "hash" is sixteen zero bytes. */
  lemma HashSizeIsNeeded()
    ensures
      var zeros: Text := seq(16, _ => 0 as byte);
      var o := OutputFile([], [], 0);
      [o, o] != [OutputFile([], zeros, 0)] && OutputsStream([o, o]) == OutputsStream([OutputFile([], zeros, 0)])
  {
    var zeros: Text := seq(16, _ => 0 as byte);
    var o, z := OutputFile([], [], 0), OutputFile([], zeros, 0);
    assert Le(0, 8) == seq(8, _ => 0 as byte) by { EightZeros(); }
    assert [o, o][1..] == [o] && [o][1..] == [] && [z][1..] == [];
    var eight := Le(0, 8);
    assert OutputsStream([o]) == OutputThen(o, []);
    assert OutputThen(o, []) == eight + eight;
    assert OutputsStream([o, o]) == OutputThen(o, eight + eight) == eight + (eight + (eight + eight));
    assert OutputsStream([z]) == OutputThen(z, []) == eight + (zeros + (eight + []));
    assert zeros == eight + eight;
  }

  lemma EightZeros()
    ensures Le(0, 8) == seq(8, _ => 0 as byte)
  {
    assert Le(0, 1) == [0 as byte] && Le(0, 2) == [0 as byte] + Le(0, 1) && Le(0, 3) == [0 as byte] + Le(0, 2);
    assert Le(0, 4) == [0 as byte] + Le(0, 3) && Le(0, 5) == [0 as byte] + Le(0, 4) &&
        Le(0, 6) == [0 as byte] + Le(0, 5);
    assert Le(0, 7) == [0 as byte] + Le(0, 6) && Le(0, 8) == [0 as byte] + Le(0, 7);
  }

  // ----- order of the outputs -----

  ghost predicate DistinctNames(outputs: seq<OutputFile>) {
    forall a, b :: a in outputs && b in outputs && a.name == b.name ==> a == b
  }

  lemma ByNameIsTotal()
    ensures TotalPreorder(ByName)
  {
    forall x: OutputFile, y: OutputFile
      ensures ByName(x, y) || ByName(y, x)
    {
      TextLeTotal(x.name, y.name);
    }
    forall x: OutputFile, y: OutputFile, z: OutputFile | ByName(x, y) && ByName(y, z)
      ensures ByName(x, z)
    {
      TextLeTransitive(x.name, y.name, z.name);
    }
  }

  lemma DistinctNamesDoNotTie(outputs: seq<OutputFile>)
    requires DistinctNames(outputs)
    ensures NoTies(ByName, outputs)
  {
    forall x, y | x in outputs && y in outputs && ByName(x, y) && ByName(y, x)
      ensures x == y
    {
      TextLeTotal(x.name, y.name);
    }
  }

  /** The release id ignores the order of distinctly named outputs, and the whole source. */
  lemma ReleaseIdIgnoresOrder(v: nat, p: EmbeddingProfile, c: ManifestCodec, d: Text, a: seq<OutputFile>,
      b: seq<OutputFile>)
    requires multiset(a) == multiset(b) && DistinctNames(a)
    ensures ReleaseIdStream(v, p, c, d, a) == ReleaseIdStream(v, p, c, d, b)
  {
    ByNameIsTotal();
    DistinctNamesDoNotTie(a);
    SortIgnoresOrder(ByName, a, b);
  }
}
