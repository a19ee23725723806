/** Where every field of the byte formats lies, offset by offset, as their documentation lays them out. */
module ByteLayouts {
  import opened Wrappers
  import opened Orders
  import opened Bytes
  import opened CodecConfig
  import opened TurboHeader
  import opened ReleaseRecords
  import opened CodecAssets
  import RM = ReleaseManifest

  /** The least significant byte first. */
  lemma LittleEndian(a: byte, b: byte, c: byte, d: byte)
    ensures Le(a as nat + 0x100 * b as nat + 0x1_0000 * c as nat + 0x100_0000 * d as nat, 4) == [a, b, c, d]
  {
    var bytes := [a, b, c, d];
    LeWritesBack(bytes);
    assert bytes[1..] == [b, c, d] && bytes[1..][1..] == [c, d] && bytes[1..][1..][1..] == [d];
    assert LeValue([d]) == d as nat;
    assert LeValue([c, d]) == c as nat + 256 * d as nat;
    assert LeValue([b, c, d]) == b as nat + 256 * (c as nat + 256 * d as nat);
  }

  // ----- turbo_static.bin -----

  lemma HeaderLayout(h: Header)
    requires WellFormed(h)
    ensures
      var b := HeaderBytes(h);
      && |b| == 32
      && b[0..4] == ['T' as int as byte, 'Q' as int as byte, 'N' as int as byte, 'T' as int as byte]
      && LeValue(b[4..8]) == h.version && LeValue(b[8..12]) == h.dim && LeValue(b[12..20]) == h.recordCount
      && (h.version == 4 ==>
            LeValue(b[20..24]) == (if h.codec.value.codecId == TurboQuantProdV1 then 2 else 1)
            && b[24..32] == h.codec.value.fingerprint)
      && (h.version != 4 ==> forall i :: 20 <= i < 32 ==> b[i] == 0)
  {
    hide Le, LeValue, HeaderBytes;
    FieldsOf(h);
    U32ReadsBack(h.version);
    U32ReadsBack(h.dim);
    U64ReadsBack(h.recordCount);
    var b := HeaderBytes(h);
    assert b[20..24] == b[20..32][0..4] && b[24..32] == b[20..32][4..12];
    if h.version == 4 {
      U32ReadsBack(CodecCode(h.codec.value.codecId));
      CodecField(h.codec.value);
    } else {
      assert b[20..32] == Zeros(12);
      assert forall i :: 20 <= i < 32 ==> b[i] == b[20..32][i - 20];
    }
  }

  lemma CodecField(c: HeaderCodec)
    requires |c.fingerprint| == 8
    ensures CodecBytes(Some(c))[0..4] == Le(CodecCode(c.codecId), 4) && CodecBytes(Some(c))[4..12] == c.fingerprint
  {
    hide Le;
  }

  lemma RecordLayout(r: TurboRecord)
    requires RecordFits(r)
    ensures
      var b := RecordBytes(r);
      && |b| == 208 && LeValue(b[0..8]) == r.docId && b[8..136] == r.code.idx && b[136..200] == r.code.signs
      && LeValue(b[200..204]) == r.code.gamma
      && (r.code.norm.Some? ==> LeValue(b[204..208]) == r.code.norm.value)
      && (r.code.norm.None? ==> b[204..208] == [0, 0, 0, 0])
  {
    hide Le, LeValue;
    RecordReadsBack(r, if r.code.norm.Some? then V4Dim512 else V3Dim512);
    LastField(r);
  }

  lemma LastField(r: TurboRecord)
    requires |r.code.idx| == 128 && |r.code.signs| == 64
    ensures |RecordBytes(r)| == 208 && RecordBytes(r)[204..208] == NormBytes(r.code.norm)
  {
    hide Le, NormBytes;
  }

  lemma MetaLayout(m: MetaRecord)
    requires MetaFits(m)
    ensures
      var b := MetaBytes(m);
      && |b| == 40 && LeValue(b[0..8]) == m.docId && LeValue(b[8..16]) == m.textOffset
      && LeValue(b[16..24]) == m.titleOffset && LeValue(b[24..28]) == m.textLen && LeValue(b[28..32]) == m.titleLen
      && b[32] == m.corpusType && forall i :: 33 <= i < 40 ==> b[i] == 0
  {
    hide Le, LeValue;
    MetaReadsBack(m);
  }

  lemma MetaExtLayout(m: MetaExtRecord)
    requires MetaExtFits(m)
    ensures
      var b := MetaExtBytes(m);
      && |b| == 24 && LeValue(b[0..8]) == m.docidOffset && LeValue(b[8..16]) == m.metaJsonOffset
      && LeValue(b[16..20]) == m.docidLen && LeValue(b[20..24]) == m.metaJsonLen
  {
    hide Le, LeValue;
    MetaExtReadsBack(m);
  }

  // ----- the canonical bytes of a config -----

  lemma ConfigLayout(c: Config)
    requires ConfigFits(c)
    ensures
      var b := CanonicalBytes(c);
      && LeValue(b[0..4]) == (if c.codecId == TurboQuantProdV1 then 2 else 1)
      && LeValue(b[4..8]) == c.dim && b[8] as nat == c.mseBits && LeValue(b[9..13]) == c.qjlDim
      && LeValue(b[13..21]) == c.mseSeed && LeValue(b[21..29]) == c.qjlSeed && LeValue(b[29..33]) == c.generatorVersion
      && b[33] == (if c.normPolicy == NormalizeAndStore then 1 else 0)
  {
    hide Le, LeValue, CanonicalBytes;
    ConfigFields(c);
    U32ReadsBack(CodecCode(c.codecId));
    U32ReadsBack(c.dim);
    U32ReadsBack(c.qjlDim);
    U64ReadsBack(c.mseSeed);
    U64ReadsBack(c.qjlSeed);
    U32ReadsBack(c.generatorVersion);
    OneByte(c.mseBits);
    assert CanonicalBytes(c)[8..9] == [CanonicalBytes(c)[8]];
  }

  lemma OneByte(n: nat)
    requires n < 256
    ensures Le(n, 1) == [n as byte]
  {
    assert Le(n, 1) == [(n % 256) as byte] + Le(n / 256, 0);
  }

  lemma ConfigFields(c: Config)
    ensures
      var b := CanonicalBytes(c);
      && b[0..4] == Le(CodecCode(c.codecId), 4) && b[4..8] == Le(c.dim, 4) && b[8..9] == Le(c.mseBits, 1)
      && b[9..13] == Le(c.qjlDim, 4) && b[13..21] == Le(c.mseSeed, 8) && b[21..29] == Le(c.qjlSeed, 8)
      && b[29..33] == Le(c.generatorVersion, 4) && b[33] == PolicyCode(c.normPolicy)
  {
    hide Le;
    var d1 := Le(CodecCode(c.codecId), 4);
    var d2 := d1 + Le(c.dim, 4);
    var d3 := d2 + Le(c.mseBits, 1);
    var d4 := d3 + Le(c.qjlDim, 4);
    var d5 := d4 + Le(c.mseSeed, 8);
    var d6 := d5 + Le(c.qjlSeed, 8);
    var d7 := d6 + Le(c.generatorVersion, 4);
    var b := CanonicalBytes(c);
    assert b == d7 + [PolicyCode(c.normPolicy)] && b[..33] == d7;
    assert b[..29] == d6 && b[..21] == d5 && b[..13] == d4 && b[..9] == d3 && b[..8] == d2 && b[..4] == d1;
  }

  // ----- the hashed streams -----

  /** A row of one-byte texts and one value. */
  lemma RowLayout(docId: byte, value: nat, text: byte, json: byte)
    requires value < 256
    ensures RM.RowsStream([RM.CanonicalRow([docId], [value], [text], [json])])
            == [1, 0, 0, 0, 0, 0, 0, 0, docId, 1, 0, 0, 0, 0, 0, 0, 0, value as byte, 0, 0, 0,
                1, 0, 0, 0, 0, 0, 0, 0, text, 1, 0, 0, 0, 0, 0, 0, 0, json]
  {
    hide Le, Words;
    var row := RM.CanonicalRow([docId], [value], [text], [json]);
    assert [row][1..] == [];
    assert RM.RowsStream([row]) == RM.RowThen(row, []);
    EightBytes(1);
    OneWord(value);
  }

  lemma OneWord(value: nat)
    requires value < 256
    ensures Words([value]) == [value as byte, 0, 0, 0]
  {
    FourBytes(value);
    var parts := seq(|[value]|, i requires 0 <= i < |[value]| => Le([value][i], 4));
    assert parts == [] + [Le(value, 4)];
    JoinedStep([], Le(value, 4));
  }

  lemma FourBytes(n: nat)
    requires n < 256
    ensures Le(n, 4) == [n as byte, 0, 0, 0]
  {
    LittleEndian(n as byte, 0, 0, 0);
  }

  lemma EightBytes(n: nat)
    requires n < 256
    ensures Le(n, 8) == [n as byte, 0, 0, 0, 0, 0, 0, 0]
  {
    assert Le(0, 1) == [0] && Le(0, 2) == [0, 0] && Le(0, 3) == [0, 0, 0] && Le(0, 4) == [0, 0, 0, 0];
    assert Le(0, 5) == [0] + Le(0, 4) && Le(0, 6) == [0] + Le(0, 5) && Le(0, 7) == [0] + Le(0, 6);
  }

  lemma ShortText(b: byte)
    ensures LenPrefixed([b]) == [1, 0, 0, 0, 0, 0, 0, 0, b]
  {
    EightBytes(1);
  }

  /** The v3 codec section of the release id. */
  lemma V3Layout(dim: nat, perDim: nat, centroidsSeed: nat, projectionSeed: nat, rest: seq<byte>)
    requires dim < 256 && perDim < 256 && centroidsSeed < 256 && projectionSeed < 256
    ensures RM.CodecThen(RM.V3(RM.CodecMetadata(dim, perDim, centroidsSeed, projectionSeed)), rest)
            == [dim as byte, 0, 0, 0, perDim as byte, 0, 0, 0, centroidsSeed as byte, 0, 0, 0, 0, 0, 0, 0,
                projectionSeed as byte, 0, 0, 0, 0, 0, 0, 0] + rest
  {
    hide Le;
    FourBytes(dim);
    FourBytes(perDim);
    EightBytes(centroidsSeed);
    EightBytes(projectionSeed);
  }

  /** And the v4 section, with one-byte names. */
  lemma V4Layout(codecId: byte, dim: nat, mseBits: nat, qjlDim: nat, rotationSeed: nat, qjlSeed: nat, version: nat,
      policy: byte, rest: seq<byte>)
    requires dim < 256 && mseBits < 256 && qjlDim < 256 && rotationSeed < 256 && qjlSeed < 256 && version < 256
    ensures
      RM.CodecThen(RM.V4(RM.V4CodecMetadata([codecId], dim, mseBits, qjlDim, rotationSeed, qjlSeed, version, [policy])),
                   rest)
      == [1, 0, 0, 0, 0, 0, 0, 0, codecId, dim as byte, 0, 0, 0, mseBits as byte, qjlDim as byte, 0, 0, 0]
         + ([rotationSeed as byte, 0, 0, 0, 0, 0, 0, 0, qjlSeed as byte, 0, 0, 0, 0, 0, 0, 0, version as byte, 0, 0, 0,
             1, 0, 0, 0, 0, 0, 0, 0, policy] + rest)
  {
    hide Le, LenPrefixed;
    V4SecondHalf(rotationSeed, qjlSeed, version, policy, rest);
    V4FirstHalf(codecId, dim, mseBits, qjlDim,
        Le(rotationSeed, 8) + (Le(qjlSeed, 8) + (Le(version, 4) + (LenPrefixed([policy]) + rest))));
  }

  lemma V4FirstHalf(codecId: byte, dim: nat, mseBits: nat, qjlDim: nat, rest: seq<byte>)
    requires dim < 256 && mseBits < 256 && qjlDim < 256
    ensures
      LenPrefixed([codecId]) + (Le(dim, 4) + (Le(mseBits, 1) + (Le(qjlDim, 4) + rest)))
      == [1, 0, 0, 0, 0, 0, 0, 0, codecId, dim as byte, 0, 0, 0, mseBits as byte, qjlDim as byte, 0, 0, 0] + rest
  {
    hide Le, LenPrefixed;
    ShortText(codecId);
    FourBytes(dim);
    OneByte(mseBits);
    FourBytes(qjlDim);
  }

  lemma V4SecondHalf(rotationSeed: nat, qjlSeed: nat, version: nat, policy: byte, rest: seq<byte>)
    requires rotationSeed < 256 && qjlSeed < 256 && version < 256
    ensures
      Le(rotationSeed, 8) + (Le(qjlSeed, 8) + (Le(version, 4) + (LenPrefixed([policy]) + rest)))
      == [rotationSeed as byte, 0, 0, 0, 0, 0, 0, 0, qjlSeed as byte, 0, 0, 0, 0, 0, 0, 0, version as byte, 0, 0, 0,
          1, 0, 0, 0, 0, 0, 0, 0, policy] + rest
  {
    hide Le, LenPrefixed;
    EightBytes(rotationSeed);
    EightBytes(qjlSeed);
    FourBytes(version);
    ShortText(policy);
  }

  /** Around it: the version, the profile, the content digest, then name, hash and size of the outputs. */
  lemma ReleaseIdLayout(version: nat, modelId: byte, dim: nat, codec: RM.ManifestCodec, digest: byte, name: byte,
      hash: Text, size: nat)
    requires version < 256 && dim < 256 && size < 256
    ensures
      RM.ReleaseIdStream(version, RM.EmbeddingProfile([modelId], dim), codec, [digest],
                         [RM.OutputFile([name], hash, size)])
      == [version as byte, 0, 0, 0, 1, 0, 0, 0, 0, 0, 0, 0, modelId, dim as byte, 0, 0, 0]
         + RM.CodecThen(codec, [1, 0, 0, 0, 0, 0, 0, 0, digest, 1, 0, 0, 0, 0, 0, 0, 0, name]
                               + (hash + [size as byte, 0, 0, 0, 0, 0, 0, 0]))
  {
    hide Le, LenPrefixed, RM.CodecThen;
    ShortText(modelId);
    ShortText(digest);
    ShortText(name);
    FourBytes(version);
    FourBytes(dim);
    EightBytes(size);
    var o := RM.OutputFile([name], hash, size);
    OneSorted(RM.ByName, o);
    assert [o][1..] == [] && RM.OutputsStream([o]) == RM.OutputThen(o, []);
    assert LenPrefixed([digest]) + RM.OutputsStream([o])
        == [1, 0, 0, 0, 0, 0, 0, 0, digest, 1, 0, 0, 0, 0, 0, 0, 0, name]
           + (hash + [size as byte, 0, 0, 0, 0, 0, 0, 0]);
  }

  lemma OneSorted<T>(le: (T, T) -> bool, x: T)
    ensures Sort(le, [x]) == [x]
  {
  }

  /** The fingerprint's domain, the canonical bytes, then name and hash of the asset files. */
  lemma FingerprintLayout(c: Config, name: byte, content: seq<byte>, sha: seq<byte> -> seq<byte>)
    ensures FingerprintStream(c, [AssetFile([name], content)], sha)
            == Ascii("ltsearch/turbo-codec-fingerprint/v1")
               + (CanonicalBytes(c) + ([1, 0, 0, 0, 0, 0, 0, 0, name] + sha(content)))
  {
    hide LenPrefixed, CanonicalBytes, Ascii;
    var f := AssetFile([name], content);
    ShortText(name);
    OneSorted(CodecConfig.ByName, f);
    assert [f][1..] == [] && AssetsStream([f], sha) == AssetThen(f, sha, []);
    assert sha(content) + [] == sha(content);
  }

  /** Two lower-case hexadecimal digits a byte, the higher first. */
  lemma {:induction false} HexAt(b: seq<byte>, i: nat)
    requires i < |b|
    ensures
      var digits := "0123456789abcdef";
      && Hex(b)[2 * i] as int == digits[b[i] as int / 16] as int
      && Hex(b)[2 * i + 1] as int == digits[b[i] as int % 16] as int
  {
    if i < |b| - 1 {
      HexAt(b[..|b| - 1], i);
    }
  }

  /** So the hashes in a manifest have the size its release id relies on. */
  lemma ManifestHashSize(name: Text, content: seq<byte>, sha: seq<byte> -> seq<byte>)
    requires IsSha256(sha) && Fits(name) && Fits(content)
    ensures RM.OutputFits(RM.OutputFile(name, Hex(sha(content)), |content|))
  {
    DigestSize(sha, content);
  }

  // ----- codec assets -----

  lemma LegacyAssetLayouts(t: CentroidTable, p: ProjectionMatrix)
    requires t.dim < U32_LIMIT && t.centroidsPerDim < U32_LIMIT && p.inputDim < U32_LIMIT && p.outputDim < U32_LIMIT
    ensures
      var b := CentroidBytes(t);
      |b| >= 8 && LeValue(b[0..4]) == t.dim && LeValue(b[4..8]) == t.centroidsPerDim && b[8..] == Words(t.values)
    ensures
      var b := ProjectionBytes(p);
      |b| >= 8 && LeValue(b[0..4]) == p.inputDim && LeValue(b[4..8]) == p.outputDim && b[8..] == Words(p.values)
  {
    TwoFields(t.dim, t.centroidsPerDim, Words(t.values));
    TwoFields(p.inputDim, p.outputDim, Words(p.values));
  }

  lemma RotationLayout(r: Rotation)
    requires RotationFits(r)
    ensures
      var b := RotationBytes(r);
      && |b| >= 20 && b[0..4] == Ascii("TQRT") && LeValue(b[4..8]) == r.dim && LeValue(b[8..16]) == r.seed
      && LeValue(b[16..20]) == r.generatorVersion && b[20..] == Words(r.matrix)
  {
    hide Le, LeValue, Words, Ascii;
    RotationFields(Ascii("TQRT"), r, Words(r.matrix));
    U32ReadsBack(r.dim);
    U64ReadsBack(r.seed);
    U32ReadsBack(r.generatorVersion);
  }

  /** A table of b bits has 2 to the b centroids, for 1 to 4 bits. */
  lemma CentroidsOfBits(bits: nat)
    ensures CentroidCount(bits) == if 1 <= bits <= 4 then Pow2(bits) else 0
  {
    assert Pow2(1) == 2 && Pow2(2) == 4 && Pow2(3) == 8 && Pow2(4) == 16;
  }

  /** An f32's bits are sign, exponent and mantissa: it is finite unless its exponent is all ones, and its key is its
      magnitude, negated with the sign. */
  lemma F32Fields(negative: bool, exponent: nat, mantissa: nat)
    requires exponent < 256 && mantissa < 0x80_0000
    ensures
      var magnitude := 0x80_0000 * exponent + mantissa;
      var bits := (if negative then 0x8000_0000 else 0) + magnitude;
      && bits < U32_LIMIT && (Finite(bits) <==> exponent < 255)
      && F32Key(bits) == if negative then -magnitude else magnitude
  {
    var magnitude := 0x80_0000 * exponent + mantissa;
    var bits := (if negative then 0x8000_0000 else 0) + magnitude;
    assert bits / 0x80_0000 == (if negative then 256 else 0) + exponent;
  }

  lemma CodebookLayout(c: Codebook)
    requires c.dim < U32_LIMIT && c.bits < U32_LIMIT
    ensures
      var b := CodebookBytes(c);
      && |b| >= 12 && b[0..4] == Ascii("TQCB") && LeValue(b[4..8]) == c.dim && LeValue(b[8..12]) == c.bits
      && b[12..] == Words(c.centroids)
  {
    hide Le, LeValue, Words, Ascii;
    var fields := Le(c.dim, 4) + (Le(c.bits, 4) + Words(c.centroids));
    var b := CodebookBytes(c);
    TwoFields(c.dim, c.bits, Words(c.centroids));
    assert b == Ascii("TQCB") + fields && b[4..] == fields;
    assert b[4..8] == fields[0..4] && b[8..12] == fields[4..8] && b[12..] == fields[8..];
  }

  lemma QjlLayout(q: QjlMatrix)
    requires QjlFits(q)
    ensures
      var b := QjlBytes(q);
      && |b| >= 24 && b[0..4] == Ascii("TQJL") && LeValue(b[4..8]) == q.dim && LeValue(b[8..12]) == q.qjlDim
      && LeValue(b[12..20]) == q.seed && LeValue(b[20..24]) == q.generatorVersion && b[24..] == Words(q.values)
  {
    hide Le, LeValue, Words, Ascii;
    QjlFields(Ascii("TQJL"), q, Words(q.values));
    U32ReadsBack(q.dim);
    U32ReadsBack(q.qjlDim);
    U64ReadsBack(q.seed);
    U32ReadsBack(q.generatorVersion);
  }
}
