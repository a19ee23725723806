/** The codec config, its metadata forms and the stream behind its fingerprint (src/index/codec_config.rs). */
module CodecConfig {
  import opened Wrappers
  import opened Orders
  import opened Bytes
  import RM = ReleaseManifest

  datatype TurboCodecId = Legacy3BitV1 | TurboQuantProdV1

  datatype NormPolicy = AsIs | NormalizeAndStore

  datatype Config = Config(codecId: TurboCodecId, dim: nat, mseBits: nat, qjlDim: nat, mseSeed: nat, qjlSeed: nat,
                           generatorVersion: nat, normPolicy: NormPolicy)

  datatype ConfigError = ZeroDim | UnsupportedMseBits | ZeroQjlDim | UnsupportedDim | UnsupportedNormPolicy
    | UnsupportedLegacyLayout | NotAV3Codec | NotAV4Codec | UnknownCodecName | UnknownNormPolicyName

  datatype Result<T> = Ok(value: T) | Err(error: ConfigError)

  // ----- stable identifiers -----

  function CodecCode(c: TurboCodecId): nat {
    match c case Legacy3BitV1 => 1 case TurboQuantProdV1 => 2
  }

  function CodecFromCode(code: nat): Option<TurboCodecId> {
    match code case 1 => Some(Legacy3BitV1) case 2 => Some(TurboQuantProdV1) case _ => None
  }

  function CodecName(c: TurboCodecId): Text {
    match c case Legacy3BitV1 => Ascii("legacy_3bit_v1") case TurboQuantProdV1 => Ascii("turbo_quant_prod_v1")
  }

  function CodecFromName(name: Text): Option<TurboCodecId> {
    if name == CodecName(Legacy3BitV1) then Some(Legacy3BitV1)
    else if name == CodecName(TurboQuantProdV1) then Some(TurboQuantProdV1)
    else None
  }

  function PolicyCode(p: NormPolicy): byte {
    match p case AsIs => 0 case NormalizeAndStore => 1
  }

  function PolicyName(p: NormPolicy): Text {
    match p case AsIs => Ascii("as_is") case NormalizeAndStore => Ascii("normalize_and_store")
  }

  function PolicyFromName(name: Text): Option<NormPolicy> {
    if name == PolicyName(AsIs) then Some(AsIs)
    else if name == PolicyName(NormalizeAndStore) then Some(NormalizeAndStore)
    else None
  }

  /** Codes and names identify: reading one back gives what wrote it, and only that. */
  lemma IdentifiersReadBack(c: TurboCodecId, p: NormPolicy, code: nat, name: Text)
    ensures CodecFromCode(code) == Some(c) <==> code == CodecCode(c)
    ensures CodecFromName(name) == Some(c) <==> name == CodecName(c)
    ensures PolicyFromName(name) == Some(p) <==> name == PolicyName(p)
  {
    assert |CodecName(Legacy3BitV1)| == 14 && |CodecName(TurboQuantProdV1)| == 19;
    assert |PolicyName(AsIs)| == 5 && |PolicyName(NormalizeAndStore)| == 19;
  }

  // ----- configs -----

  const LEGACY_V1 := Config(Legacy3BitV1, 512, 2, 512, 7, 11, 0, AsIs)

  function PolicyOf(c: TurboCodecId): NormPolicy {
    match c case Legacy3BitV1 => AsIs case TurboQuantProdV1 => NormalizeAndStore
  }

  /** `validate`: the first check that fails. */
  function Validate(c: Config): Option<ConfigError> {
    if c.dim == 0 then Some(ZeroDim)
    else if !(1 <= c.mseBits <= 4) then Some(UnsupportedMseBits)
    else if c.qjlDim == 0 then Some(ZeroQjlDim)
    else if c.dim != 512 then Some(UnsupportedDim)
    else if c.normPolicy != PolicyOf(c.codecId) then Some(UnsupportedNormPolicy)
    else if c.codecId == Legacy3BitV1 && (c.mseBits != 2 || c.qjlDim != c.dim) then Some(UnsupportedLegacyLayout)
    else None
  }

  function Pow2(n: nat): nat {
    if n == 0 then 1 else 2 * Pow2(n - 1)
  }

  function ToV3CodecMetadata(c: Config): Result<RM.CodecMetadata> {
    match Validate(c)
    case Some(error) => Err(error)
    case None =>
      if c.codecId != Legacy3BitV1 then Err(NotAV3Codec)
      else Ok(RM.CodecMetadata(c.dim, Pow2(c.mseBits), c.mseSeed, c.qjlSeed))
  }

  function ToV4CodecMetadata(c: Config): Result<RM.V4CodecMetadata> {
    match Validate(c)
    case Some(error) => Err(error)
    case None =>
      if c.codecId != TurboQuantProdV1 then Err(NotAV4Codec)
      else Ok(RM.V4CodecMetadata(CodecName(c.codecId), c.dim, c.mseBits, c.qjlDim, c.mseSeed, c.qjlSeed,
          c.generatorVersion,
                                 PolicyName(c.normPolicy)))
  }

  /** The configs that validate, and those with v3 metadata: the legacy codec's one layout, any seeds. */
  lemma V3MetadataExactly(c: Config)
    ensures Validate(c).None? <==>
        && c.dim == 512 && c.qjlDim > 0
        && if c.codecId == Legacy3BitV1 then c.mseBits == 2 && c.qjlDim == 512 && c.normPolicy == AsIs
           else c.mseBits in [1, 2, 3, 4] && c.normPolicy == NormalizeAndStore
    ensures ToV3CodecMetadata(c).Ok? <==>
        c == Config(Legacy3BitV1, 512, 2, 512, c.mseSeed, c.qjlSeed, c.generatorVersion, AsIs)
    ensures ToV3CodecMetadata(c).Ok? ==>
        ToV3CodecMetadata(c).value == RM.CodecMetadata(512, 4, c.mseSeed, c.qjlSeed)
  {
    assert Pow2(1) == 2 && Pow2(2) == 4;
  }

  function FromV4CodecMetadata(m: RM.V4CodecMetadata): (r: Result<Config>)
    ensures r == Err(UnknownCodecName) <==> CodecFromName(m.codecId).None?
    ensures r == Err(UnknownNormPolicyName) <==> CodecFromName(m.codecId).Some? && PolicyFromName(m.normPolicy).None?
  {
    match CodecFromName(m.codecId)
    case None => Err(UnknownCodecName)
    case Some(codecId) =>
      match PolicyFromName(m.normPolicy)
      case None => Err(UnknownNormPolicyName)
      case Some(policy) =>
        if codecId != TurboQuantProdV1 then Err(NotAV4Codec)
        else
          var config := Config(codecId, m.dim, m.mseBits, m.qjlDim, m.rotationSeed, m.qjlSeed, m.generatorVersion,
              policy);
          match Validate(config)
          case Some(error) => Err(error)
          case None => Ok(config)
  }

  /** Each conversion undoes the other wherever either succeeds. */
  lemma V4MetadataRoundTrip(c: Config, m: RM.V4CodecMetadata)
    ensures ToV4CodecMetadata(c) == Ok(m) <==> FromV4CodecMetadata(m) == Ok(c)
    ensures ToV4CodecMetadata(c).Ok? <==> Validate(c).None? && c.codecId == TurboQuantProdV1
  {
    IdentifiersReadBack(TurboQuantProdV1, NormalizeAndStore, 0, m.codecId);
    IdentifiersReadBack(TurboQuantProdV1, c.normPolicy, 0, m.normPolicy);
    if FromV4CodecMetadata(m) == Ok(c) {
      IdentifiersReadBack(c.codecId, c.normPolicy, 0, m.codecId);
    }
    if ToV4CodecMetadata(c).Ok? {
      var written := ToV4CodecMetadata(c).value;
      IdentifiersReadBack(c.codecId, c.normPolicy, 0, written.codecId);
      IdentifiersReadBack(c.codecId, c.normPolicy, 0, written.normPolicy);
    }
  }

  // ----- canonical bytes -----

  ghost predicate ConfigFits(c: Config) {
    c.dim < U32_LIMIT && c.mseBits < 256 && c.qjlDim < U32_LIMIT && c.mseSeed < U64_LIMIT && c.qjlSeed < U64_LIMIT &&
        c.generatorVersion < U32_LIMIT
  }

  /** Every field at its fixed width, in declaration order. */
  function CanonicalBytes(c: Config): (b: seq<byte>)
    ensures |b| == 34
  {
    Le(CodecCode(c.codecId), 4) + Le(c.dim, 4) + Le(c.mseBits, 1) + Le(c.qjlDim, 4) + Le(c.mseSeed, 8) +
        Le(c.qjlSeed, 8)
    + Le(c.generatorVersion, 4) + [PolicyCode(c.normPolicy)]
  }

  /** `canonical_bytes`: the fields copied into a zeroed buffer at their offsets. */
  method WriteCanonicalBytes(c: Config) returns (bytes: array<byte>)
    ensures fresh(bytes) && bytes[..] == CanonicalBytes(c)
  {
    hide Le;
    bytes := new byte[34](_ => 0);
    ghost var p := Fill(bytes, 0, [], Le(CodecCode(c.codecId), 4));
    p := Fill(bytes, 4, p, Le(c.dim, 4));
    p := Fill(bytes, 8, p, Le(c.mseBits, 1));
    p := Fill(bytes, 9, p, Le(c.qjlDim, 4));
    p := Fill(bytes, 13, p, Le(c.mseSeed, 8));
    p := Fill(bytes, 21, p, Le(c.qjlSeed, 8));
    p := Fill(bytes, 29, p, Le(c.generatorVersion, 4));
    p := Fill(bytes, 33, p, [PolicyCode(c.normPolicy)]);
    assert [] + Le(CodecCode(c.codecId), 4) == Le(CodecCode(c.codecId), 4);
    assert bytes[..34] == bytes[..];
  }

  lemma CanonicalBytesDecode(a: Config, b: Config)
    requires ConfigFits(a) && ConfigFits(b) && CanonicalBytes(a) == CanonicalBytes(b)
    ensures a == b
  {
    hide Le, Limit;
    Limits();
    var a1, b1 := Le(CodecCode(a.codecId), 4), Le(CodecCode(b.codecId), 4);
    var a2, b2 := a1 + Le(a.dim, 4), b1 + Le(b.dim, 4);
    var a3, b3 := a2 + Le(a.mseBits, 1), b2 + Le(b.mseBits, 1);
    var a4, b4 := a3 + Le(a.qjlDim, 4), b3 + Le(b.qjlDim, 4);
    var a5, b5 := a4 + Le(a.mseSeed, 8), b4 + Le(b.mseSeed, 8);
    var a6, b6 := a5 + Le(a.qjlSeed, 8), b5 + Le(b.qjlSeed, 8);
    var a7, b7 := a6 + Le(a.generatorVersion, 4), b6 + Le(b.generatorVersion, 4);
    SplitSameSize(a7, b7, [PolicyCode(a.normPolicy)], [PolicyCode(b.normPolicy)]);
    SplitSameSize(a6, b6, Le(a.generatorVersion, 4), Le(b.generatorVersion, 4));
    SplitSameSize(a5, b5, Le(a.qjlSeed, 8), Le(b.qjlSeed, 8));
    SplitSameSize(a4, b4, Le(a.mseSeed, 8), Le(b.mseSeed, 8));
    SplitSameSize(a3, b3, Le(a.qjlDim, 4), Le(b.qjlDim, 4));
    SplitSameSize(a2, b2, Le(a.mseBits, 1), Le(b.mseBits, 1));
    SplitSameSize(a1, b1, Le(a.dim, 4), Le(b.dim, 4));
    SameLe(CodecCode(a.codecId), CodecCode(b.codecId), 4);
    SameLe(a.dim, b.dim, 4);
    SameLe(a.mseBits, b.mseBits, 1);
    SameLe(a.qjlDim, b.qjlDim, 4);
    SameLe(a.mseSeed, b.mseSeed, 8);
    SameLe(a.qjlSeed, b.qjlSeed, 8);
    SameLe(a.generatorVersion, b.generatorVersion, 4);
    assert PolicyCode(a.normPolicy) == [PolicyCode(a.normPolicy)][0] == [PolicyCode(b.normPolicy)][0];
  }

  lemma SameLe(m: nat, n: nat, width: nat)
    requires m < Limit(width) && n < Limit(width) && Le(m, width) == Le(n, width)
    ensures m == n
  {
    LeReadsBack(m, width);
    LeReadsBack(n, width);
  }

  // ----- the fingerprint stream -----

  datatype AssetFile = AssetFile(name: Text, bytes: seq<byte>)

  function FingerprintDomain(): Text {
    Ascii("ltsearch/turbo-codec-fingerprint/v1")
  }

  predicate ByName(a: AssetFile, b: AssetFile) {
    TextLe(a.name, b.name)
  }

  function AssetThen(f: AssetFile, sha: seq<byte> -> seq<byte>, rest: seq<byte>): seq<byte> {
    LenPrefixed(f.name) + (sha(f.bytes) + rest)
  }

  function AssetsStream(files: seq<AssetFile>, sha: seq<byte> -> seq<byte>): seq<byte> {
    if files == [] then [] else AssetThen(files[0], sha, AssetsStream(files[1..], sha))
  }

  function FingerprintStream(c: Config, files: seq<AssetFile>, sha: seq<byte> -> seq<byte>): seq<byte> {
    FingerprintDomain() + (CanonicalBytes(c) + AssetsStream(Sort(ByName, files), sha))
  }

  ghost predicate IsSha256(sha: seq<byte> -> seq<byte>) {
    forall b :: |sha(b)| == 32
  }

  /** The first 8 bytes of the digest. */
  function FingerprintOf(c: Config, files: seq<AssetFile>, sha: seq<byte> -> seq<byte>): (f: seq<byte>)
    requires IsSha256(sha)
    ensures |f| == 8
  {
    sha(FingerprintStream(c, files, sha))[..8]
  }

  /** `fingerprint`. */
  method Fingerprint(c: Config, files: seq<AssetFile>, sha: seq<byte> -> seq<byte>) returns (f: seq<byte>)
    requires IsSha256(sha)
    ensures f == FingerprintOf(c, files, sha)
  {
    hide AssetsStream, LenPrefixed, IsSha256, FingerprintDomain, CanonicalBytes, Sort;
    var sorted := Sort(ByName, files);
    var hasher := new Hasher();
    var canonical := WriteCanonicalBytes(c);
    hasher.Update(FingerprintDomain());
    hasher.Update(canonical[..]);
    assert hasher.fed == FingerprintDomain() + CanonicalBytes(c);
    FeedAssets(hasher, sorted, sha);
    Regroup(FingerprintDomain(), CanonicalBytes(c), AssetsStream(sorted, sha));
    DigestSize(sha, hasher.fed);
    f := sha(hasher.fed)[..8];
  }

  lemma DigestSize(sha: seq<byte> -> seq<byte>, stream: seq<byte>)
    requires IsSha256(sha)
    ensures |sha(stream)| == 32
  {
  }

  method FeedAssets(hasher: Hasher, files: seq<AssetFile>, sha: seq<byte> -> seq<byte>)
    modifies hasher
    ensures hasher.fed == old(hasher.fed) + AssetsStream(files, sha)
  {
    hide LenPrefixed;
    ghost var start := hasher.fed;
    for i := 0 to |files|
      invariant hasher.fed + AssetsStream(files[i..], sha) == start + AssetsStream(files, sha)
    {
      var file := files[i];
      assert files[i..][0] == file && files[i..][1..] == files[i + 1..];
      ghost var rest := AssetsStream(files[i + 1..], sha);
      ghost var f0 := hasher.fed;
      hasher.UpdateLenPrefixed(file.name);
      ghost var f1 := hasher.fed;
      Regroup(f0, LenPrefixed(file.name), sha(file.bytes) + rest);
      hasher.Update(sha(file.bytes));
      Regroup(f1, sha(file.bytes), rest);
    }
    assert files[|files|..] == [];
    assert hasher.fed + [] == hasher.fed;
  }

  /** The same names with the same contents' hashes, place by place. */
  ghost predicate SameHashes(a: seq<AssetFile>, b: seq<AssetFile>, sha: seq<byte> -> seq<byte>) {
    |a| == |b| && forall i :: 0 <= i < |a| ==> a[i].name == b[i].name && sha(a[i].bytes) == sha(b[i].bytes)
  }

  lemma {:induction false} AssetsDecode(a: seq<AssetFile>, b: seq<AssetFile>, sha: seq<byte> -> seq<byte>)
    requires IsSha256(sha) && AssetsStream(a, sha) == AssetsStream(b, sha)
    requires (forall f :: f in a ==> Fits(f.name)) && (forall f :: f in b ==> Fits(f.name))
    ensures SameHashes(a, b, sha)
  {
    hide LenPrefixed, Fits;
    if a == [] || b == [] {
      NonEmptyAssets(a, sha);
      NonEmptyAssets(b, sha);
    } else {
      var x, y := AssetsStream(a[1..], sha), AssetsStream(b[1..], sha);
      SplitLenPrefixed(a[0].name, b[0].name, sha(a[0].bytes) + x, sha(b[0].bytes) + y);
      SplitSameSize(sha(a[0].bytes), sha(b[0].bytes), x, y);
      AssetsDecode(a[1..], b[1..], sha);
    }
  }

  lemma NonEmptyAssets(a: seq<AssetFile>, sha: seq<byte> -> seq<byte>)
    ensures AssetsStream(a, sha) == [] <==> a == []
  {
    if a != [] {
      assert |AssetThen(a[0], sha, AssetsStream(a[1..], sha))| >= |LenPrefixed(a[0].name)| >= 8;
    }
  }

  /** The pairs of a file's name and its content's hash. */
  ghost function HashSet(files: seq<AssetFile>, sha: seq<byte> -> seq<byte>): set<(Text, seq<byte>)> {
    set f | f in files :: (f.name, sha(f.bytes))
  }

  lemma HashSetOfSorted(files: seq<AssetFile>, sha: seq<byte> -> seq<byte>)
    ensures HashSet(Sort(ByName, files), sha) == HashSet(files, sha)
    ensures forall f :: f in Sort(ByName, files) <==> f in files
  {
    forall f
      ensures f in Sort(ByName, files) <==> f in files
    {
      assert f in Sort(ByName, files) <==> f in multiset(Sort(ByName, files));
    }
  }

  lemma SameHashesSameSet(a: seq<AssetFile>, b: seq<AssetFile>, sha: seq<byte> -> seq<byte>)
    requires SameHashes(a, b, sha)
    ensures HashSet(a, sha) <= HashSet(b, sha)
  {
    forall pair | pair in HashSet(a, sha)
      ensures pair in HashSet(b, sha)
    {
      var i :| 0 <= i < |a| && (a[i].name, sha(a[i].bytes)) == pair;
      assert b[i] in b;
    }
  }

  /** Equal fingerprint streams come from equal configs and equal sets of (name, content hash). */
  lemma FingerprintStreamDecodes(a: Config, x: seq<AssetFile>, b: Config, y: seq<AssetFile>,
      sha: seq<byte> -> seq<byte>)
    requires IsSha256(sha) && ConfigFits(a) && ConfigFits(b)
    requires (forall f :: f in x ==> Fits(f.name)) && (forall f :: f in y ==> Fits(f.name))
    requires FingerprintStream(a, x, sha) == FingerprintStream(b, y, sha)
    ensures a == b && HashSet(x, sha) == HashSet(y, sha)
  {
    hide CanonicalBytes, AssetsStream, Sort, HashSet, ConfigFits, IsSha256, Fits;
    var p, q := Sort(ByName, x), Sort(ByName, y);
    SplitSameSize(FingerprintDomain(), FingerprintDomain(), CanonicalBytes(a) + AssetsStream(p, sha),
        CanonicalBytes(b) + AssetsStream(q, sha));
    SplitSameSize(CanonicalBytes(a), CanonicalBytes(b), AssetsStream(p, sha), AssetsStream(q, sha));
    CanonicalBytesDecode(a, b);
    HashSetOfSorted(x, sha);
    HashSetOfSorted(y, sha);
    AssetsDecode(p, q, sha);
    SameHashesSameSet(p, q, sha);
    SameHashesSameSet(q, p, sha);
  }

  // ----- order of the asset files -----

  ghost predicate DistinctNames(files: seq<AssetFile>) {
    forall a, b :: a in files && b in files && a.name == b.name ==> a == b
  }

  lemma ByNameIsTotal()
    ensures TotalPreorder(ByName)
  {
    forall x: AssetFile, y: AssetFile
      ensures ByName(x, y) || ByName(y, x)
    {
      TextLeTotal(x.name, y.name);
    }
    forall x: AssetFile, y: AssetFile, z: AssetFile | ByName(x, y) && ByName(y, z)
      ensures ByName(x, z)
    {
      TextLeTransitive(x.name, y.name, z.name);
    }
  }

  /** The fingerprint ignores the order of distinctly named files. */
  lemma FingerprintIgnoresOrder(c: Config, a: seq<AssetFile>, b: seq<AssetFile>, sha: seq<byte> -> seq<byte>)
    requires IsSha256(sha) && multiset(a) == multiset(b) && DistinctNames(a)
    ensures FingerprintOf(c, a, sha) == FingerprintOf(c, b, sha)
  {
    ByNameIsTotal();
    forall x, y | x in a && y in a && ByName(x, y) && ByName(y, x)
      ensures x == y
    {
      TextLeTotal(x.name, y.name);
    }
    SortIgnoresOrder(ByName, a, b);
  }
}
