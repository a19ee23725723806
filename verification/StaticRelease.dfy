/** The static release writer (src/index/static_release.rs): one pass over the chunks appends to every file, and each
    record says where its entries went. */
module StaticRelease {
  import opened Wrappers
  import opened Bytes
  import opened CodecConfig
  import opened TurboHeader
  import opened ReleaseRecords
  import opened CodecAssets
  import opened MmapIndex
  import opened DocIdChecks
  import RM = ReleaseManifest

  /** `title` is `metadata["title"]` if that is a string; `metaJson` is the canonical metadata JSON. */
  datatype Chunk = Chunk(docId: Text, text: Text, title: Option<Text>, metaJson: Text, corpusType: byte)

  datatype Format = FormatV3 | FormatV4(config: Config)

  /** What the seeded generators drew. */
  datatype Assets = LegacyAssets(centroids: CentroidTable, projection: ProjectionMatrix) |
      ProdAssets(rotation: Rotation, qjl: QjlMatrix)

  /** A code as the encoder returns it. */
  datatype Encoded = Encoded(idx: seq<byte>, signs: seq<byte>, gamma: nat, norm: nat)

  datatype Release = Release(files: Files, manifest: RM.Manifest)

  const GAUSSIAN_GENERATOR_VERSION: nat := 1

  function Version(format: Format): nat {
    match format case FormatV3 => TURBO_VERSION_V3 case FormatV4(_) => TURBO_VERSION_V4
  }

  function ConfigOf(format: Format): Config {
    match format case FormatV3 => LEGACY_V1 case FormatV4(config) => config
  }

  /** The generators return assets of the shape, seed and version they are asked for. */
  ghost predicate GeneratedFor(format: Format, assets: Assets) {
    match format
    case FormatV3 =>
      && assets.LegacyAssets? && CentroidsFit(assets.centroids) && AllU32(assets.centroids.values)
      && assets.centroids.dim == LEGACY_V1.dim && assets.centroids.centroidsPerDim == Pow2(LEGACY_V1.mseBits)
      && ProjectionFit(assets.projection, LEGACY_V1.dim)
    case FormatV4(config) =>
      && assets.ProdAssets? && assets.rotation.dim == config.dim && assets.rotation.seed == config.mseSeed
      && assets.rotation.generatorVersion == GAUSSIAN_GENERATOR_VERSION &&
          |assets.rotation.matrix| == config.dim * config.dim
      && AllU32(assets.rotation.matrix) && assets.qjl.dim == config.dim && assets.qjl.qjlDim == config.qjlDim
      && assets.qjl.seed == config.qjlSeed && assets.qjl.generatorVersion == GAUSSIAN_GENERATOR_VERSION
      && |assets.qjl.values| == config.qjlDim * config.dim && AllU32(assets.qjl.values)
  }

  ghost predicate ProjectionFit(p: ProjectionMatrix, dim: nat) {
    ProjectionFits(p) && AllU32(p.values) && p.inputDim == dim && p.outputDim == dim
  }

  /** `ReleaseCodec::generate` succeeds. */
  predicate CodecGenerates(format: Format) {
    match format
    case FormatV3 => true
    case FormatV4(config) =>
      && Validate(config).None? && config.codecId == TurboQuantProdV1 && config.mseBits == 2
      && config.generatorVersion == GAUSSIAN_GENERATOR_VERSION && Committed(config.dim, config.mseBits).Some? &&
          HoldsCodesOf(config)
  }

  /** Which v4 configs can be built: 2 bits over 512 dimensions, a sign count that fills 64 bytes, any seeds. */
  lemma GeneratesExactly(c: Config)
    ensures CodecGenerates(FormatV4(c)) <==>
        && 505 <= c.qjlDim <= 512
        && c == Config(TurboQuantProdV1, 512, 2, c.qjlDim, c.mseSeed, c.qjlSeed, 1, NormalizeAndStore)
  {
  }

  // ----- the parts every file is joined from -----

  function Texts(chunks: seq<Chunk>): seq<Text> {
    seq(|chunks|, i requires 0 <= i < |chunks| => chunks[i].text)
  }

  /** A missing or empty title writes nothing. */
  function TitleOf(c: Chunk): Text {
    if c.title.Some? then c.title.value else []
  }

  function Titles(chunks: seq<Chunk>): seq<Text> {
    seq(|chunks|, i requires 0 <= i < |chunks| => TitleOf(chunks[i]))
  }

  function DocIds(chunks: seq<Chunk>): (ids: seq<Text>)
    ensures |ids| == |chunks|
  {
    seq(|chunks|, i requires 0 <= i < |chunks| => chunks[i].docId)
  }

  function Jsons(chunks: seq<Chunk>): seq<Text> {
    seq(|chunks|, i requires 0 <= i < |chunks| => chunks[i].metaJson)
  }

  function MetaOf(chunks: seq<Chunk>, hash: Text -> nat, i: nat): MetaRecord
    requires i < |chunks|
  {
    MetaRecord(hash(chunks[i].docId), Offset(Texts(chunks), i), Offset(Titles(chunks), i), AsU32(|chunks[i].text|),
               AsU32(|TitleOf(chunks[i])|), chunks[i].corpusType)
  }

  function MetaExtOf(chunks: seq<Chunk>, i: nat): MetaExtRecord
    requires i < |chunks|
  {
    MetaExtRecord(Offset(DocIds(chunks), i), Offset(Jsons(chunks), i), AsU32(|chunks[i].docId|),
        AsU32(|chunks[i].metaJson|))
  }

  function MetaParts(chunks: seq<Chunk>, hash: Text -> nat): (parts: seq<seq<byte>>)
    ensures |parts| == |chunks| && forall i :: 0 <= i < |parts| ==> |parts[i]| == META_RECORD_SIZE
  {
    seq(|chunks|, i requires 0 <= i < |chunks| => MetaBytes(MetaOf(chunks, hash, i)))
  }

  function MetaExtParts(chunks: seq<Chunk>): (parts: seq<seq<byte>>)
    ensures |parts| == |chunks| && forall i :: 0 <= i < |parts| ==> |parts[i]| == META_EXT_RECORD_SIZE
  {
    seq(|chunks|, i requires 0 <= i < |chunks| => MetaExtBytes(MetaExtOf(chunks, i)))
  }

  /** What is stored of a code: 128 and 64 bytes, and the norm only in a v4 record. */
  function Stored(format: Format, e: Encoded): Option<Code> {
    if |e.idx| != 128 || |e.signs| != 64 then None
    else Some(Code(e.idx, e.signs, e.gamma, if format.FormatV4? then Some(e.norm) else None))
  }

  function RecordParts(chunks: seq<Chunk>, codes: seq<Code>, hash: Text -> nat): seq<seq<byte>>
    requires |chunks| == |codes|
  {
    seq(|chunks|, i requires 0 <= i < |chunks| => RecordBytes(TurboRecord(hash(chunks[i].docId), codes[i])))
  }

  // ----- the single pass -----

  /** The growing byte buffers of the chunk loop. */
  class Buffers {
    var records: seq<byte>
    var meta: seq<byte>
    var text: seq<byte>
    var title: seq<byte>
    var metaExt: seq<byte>
    var docid: seq<byte>
    var metaJson: seq<byte>

    constructor ()
      ensures records == meta == text == title == metaExt == docid == metaJson == []
    {
      records, meta, text, title, metaExt, docid, metaJson := [], [], [], [], [], [], [];
    }

    /** Everything written for the first `n` chunks. */
    ghost predicate Holds(chunks: seq<Chunk>, codes: seq<Code>, hash: Text -> nat, n: nat)
      reads this
      requires |chunks| == |codes| && n <= |chunks|
    {
      && records == Joined(RecordParts(chunks, codes, hash)[..n])
      && meta == Joined(MetaParts(chunks, hash)[..n]) && metaExt == Joined(MetaExtParts(chunks)[..n])
      && BlobsHold(chunks, n)
    }

    ghost predicate BlobsHold(chunks: seq<Chunk>, n: nat)
      reads this
      requires n <= |chunks|
    {
      && text == Joined(Texts(chunks)[..n]) && title == Joined(Titles(chunks)[..n])
      && docid == Joined(DocIds(chunks)[..n]) && metaJson == Joined(Jsons(chunks)[..n])
    }

    /** One turn of the loop. */
    method Append(ghost chunks: seq<Chunk>, ghost codes: seq<Code>, ghost n: nat, chunk: Chunk, code: Code,
        hash: Text -> nat)
      requires |chunks| == |codes| && n < |chunks| && chunk == chunks[n] && code == codes[n] &&
          Holds(chunks, codes, hash, n)
      modifies this
      ensures Holds(chunks, codes, hash, n + 1)
    {
      hide MetaBytes, MetaExtBytes, RecordBytes, Joined;
      var docHash := hash(chunk.docId);
      var written := RecordBytes(TurboRecord(docHash, code));
      var textOffset, titleOffset := |text|, |title|;
      var titleLen := 0;
      if chunk.title.Some? && chunk.title.value != [] {
        titleLen := AsU32(|chunk.title.value|);
      }
      var m := MetaRecord(docHash, textOffset, titleOffset, AsU32(|chunk.text|), titleLen, chunk.corpusType);
      var e := MetaExtRecord(|docid|, |metaJson|, AsU32(|chunk.docId|), AsU32(|chunk.metaJson|));
      OffsetsAre(chunks, n, hash);
      NextParts(chunks, codes, hash, n);
      NextBlobs(chunks, n);
      records := records + written;
      meta := meta + MetaBytes(m);
      metaExt := metaExt + MetaExtBytes(e);
      text := text + chunk.text;
      if chunk.title.Some? && chunk.title.value != [] {
        title := title + chunk.title.value;
      } else {
        assert title + TitleOf(chunk) == title;
      }
      docid := docid + chunk.docId;
      metaJson := metaJson + chunk.metaJson;
    }
  }

  lemma OffsetsAre(chunks: seq<Chunk>, n: nat, hash: Text -> nat)
    requires n < |chunks|
    ensures MetaOf(chunks, hash, n) ==
        MetaRecord(hash(chunks[n].docId), |Joined(Texts(chunks)[..n])|, |Joined(Titles(chunks)[..n])|,
                                                  AsU32(|chunks[n].text|), AsU32(|TitleOf(chunks[n])|),
                                                      chunks[n].corpusType)
    ensures MetaExtOf(chunks, n) ==
        MetaExtRecord(|Joined(DocIds(chunks)[..n])|, |Joined(Jsons(chunks)[..n])|, AsU32(|chunks[n].docId|),
                                                  AsU32(|chunks[n].metaJson|))
  {
  }

  lemma NextPart(parts: seq<seq<byte>>, n: nat)
    requires n < |parts|
    ensures Joined(parts[..n + 1]) == Joined(parts[..n]) + parts[n]
  {
    assert parts[..n + 1] == parts[..n] + [parts[n]];
    JoinedStep(parts[..n], parts[n]);
  }

  lemma NextParts(chunks: seq<Chunk>, codes: seq<Code>, hash: Text -> nat, n: nat)
    requires |chunks| == |codes| && n < |chunks|
    ensures Joined(RecordParts(chunks, codes, hash)[..n + 1])
            == Joined(RecordParts(chunks, codes, hash)[..n]) + RecordBytes(TurboRecord(hash(chunks[n].docId), codes[n]))
    ensures Joined(MetaParts(chunks, hash)[..n + 1]) ==
        Joined(MetaParts(chunks, hash)[..n]) + MetaBytes(MetaOf(chunks, hash, n))
    ensures Joined(MetaExtParts(chunks)[..n + 1]) ==
        Joined(MetaExtParts(chunks)[..n]) + MetaExtBytes(MetaExtOf(chunks, n))
  {
    hide MetaBytes, MetaExtBytes, RecordBytes, Joined, MetaOf, MetaExtOf;
    NextPart(RecordParts(chunks, codes, hash), n);
    NextPart(MetaParts(chunks, hash), n);
    NextPart(MetaExtParts(chunks), n);
  }

  lemma NextBlobs(chunks: seq<Chunk>, n: nat)
    requires n < |chunks|
    ensures Joined(Texts(chunks)[..n + 1]) == Joined(Texts(chunks)[..n]) + chunks[n].text
    ensures Joined(Titles(chunks)[..n + 1]) == Joined(Titles(chunks)[..n]) + TitleOf(chunks[n])
    ensures Joined(DocIds(chunks)[..n + 1]) == Joined(DocIds(chunks)[..n]) + chunks[n].docId
    ensures Joined(Jsons(chunks)[..n + 1]) == Joined(Jsons(chunks)[..n]) + chunks[n].metaJson
  {
    hide Joined;
    NextPart(Texts(chunks), n);
    NextPart(Titles(chunks), n);
    NextPart(DocIds(chunks), n);
    NextPart(Jsons(chunks), n);
  }

  // ----- the release a build yields -----

  /** The builder's order of the asset files. */
  function AssetFiles(format: Format, assets: Assets): seq<(FileName, seq<byte>)>
    requires format.FormatV3? == assets.LegacyAssets?
  {
    match format
    case FormatV3 => [(CentroidsFile, CentroidBytes(assets.centroids)),
        (ProjectionFile, ProjectionBytes(assets.projection))]
    case FormatV4(config) =>
      [(CodebookFile, if Committed(config.dim, config.mseBits).Some?
          then CodebookBytes(Committed(config.dim, config.mseBits).value) else []),
       (QjlFile, QjlBytes(assets.qjl)), (RotationFile, RotationBytes(assets.rotation))]
  }

  function Named(files: seq<(FileName, seq<byte>)>): seq<AssetFile> {
    seq(|files|, i requires 0 <= i < |files| => AssetFile(NameText(files[i].0), files[i].1))
  }

  /** A v4 header carries the fingerprint of the config and the asset files. */
  function HeaderOf(format: Format, assets: Assets, count: nat, sha: seq<byte> -> seq<byte>): Header
    requires format.FormatV3? == assets.LegacyAssets? && IsSha256(sha)
  {
    match format
    case FormatV3 => Header(TURBO_VERSION_V3, LEGACY_V1.dim, count, None)
    case FormatV4(config) =>
      Header(TURBO_VERSION_V4, config.dim, count,
             Some(HeaderCodec(config.codecId, FingerprintOf(config, Named(AssetFiles(format, assets)), sha))))
  }

  function FilesOf(format: Format, assets: Assets, chunks: seq<Chunk>, codes: seq<Code>, hash: Text -> nat,
      sha: seq<byte> -> seq<byte>): Files
    requires format.FormatV3? == assets.LegacyAssets? && IsSha256(sha) && |chunks| == |codes|
  {
    var image: Files := map[
      TurboStaticFile := HeaderBytes(HeaderOf(format, assets, |chunks|, sha)) +
          Joined(RecordParts(chunks, codes, hash)),
      MetaFile := Joined(MetaParts(chunks, hash)), TextFile := Joined(Texts(chunks)),
          TitleFile := Joined(Titles(chunks)),
      MetaExtFile := Joined(MetaExtParts(chunks)), DocidFile := Joined(DocIds(chunks)),
          MetaJsonFile := Joined(Jsons(chunks))];
    var a := AssetFiles(format, assets);
    if format.FormatV3? then image[a[0].0 := a[0].1][a[1].0 := a[1].1]
    else image[a[0].0 := a[0].1][a[1].0 := a[1].1][a[2].0 := a[2].1]
  }

  /** `release_output_files`, in ascending name order. */
  function OutputNames(version: nat): Option<seq<FileName>> {
    var image := [TurboStaticFile, DocidFile, MetaFile, MetaExtFile, MetaJsonFile, TextFile, TitleFile];
    if version == TURBO_VERSION_V3 then Some([CentroidsFile, ProjectionFile] + image)
    else if version == TURBO_VERSION_V4 then Some([CodebookFile, QjlFile, RotationFile] + image)
    else None
  }

  function OutputOf(f: FileName, bytes: seq<byte>, sha: seq<byte> -> seq<byte>): RM.OutputFile {
    RM.OutputFile(NameText(f), Hex(sha(bytes)), |bytes|)
  }

  /** `collect_outputs`. */
  function OutputsOf(files: Files, names: seq<FileName>, sha: seq<byte> -> seq<byte>): seq<RM.OutputFile>
    requires forall f :: f in names ==> f in files
  {
    seq(|names|, i requires 0 <= i < |names| => OutputOf(names[i], files[names[i]], sha))
  }

  function CodecSection(format: Format): CodecConfig.Result<RM.ManifestCodec> {
    match format
    case FormatV3 =>
      (match ToV3CodecMetadata(LEGACY_V1)
       case Ok(m) => CodecConfig.Result.Ok(RM.V3(m))
       case Err(e) => CodecConfig.Result.Err(e))
    case FormatV4(config) =>
      (match ToV4CodecMetadata(config)
       case Ok(m) => CodecConfig.Result.Ok(RM.V4(m))
       case Err(e) => CodecConfig.Result.Err(e))
  }

  function RowsOf(chunks: seq<Chunk>, embeddings: seq<seq<nat>>): seq<RM.CanonicalRow>
    requires |chunks| == |embeddings|
  {
    seq(|chunks|, i requires 0 <= i < |chunks| =>
        RM.CanonicalRow(chunks[i].docId, embeddings[i], chunks[i].text, chunks[i].metaJson))
  }

  /** The content digest covers every chunk's doc_id, embedding, text and metadata JSON, in order, and nothing else: a
      title counts only as far as the metadata holds it, and so does the corpus type. */
  lemma DigestCovers(a: seq<Chunk>, e: seq<seq<nat>>, b: seq<Chunk>, f: seq<seq<nat>>)
    requires |a| == |e| && |b| == |f|
    requires forall i :: 0 <= i < |a| ==> ChunkFits(a[i]) && AllU32(e[i]) && |e[i]| < U64_LIMIT
    requires forall i :: 0 <= i < |b| ==> ChunkFits(b[i]) && AllU32(f[i]) && |f[i]| < U64_LIMIT
    ensures RM.RowsStream(RowsOf(a, e)) == RM.RowsStream(RowsOf(b, f)) <==>
        && |a| == |b|
        && forall i :: 0 <= i < |a| ==>
             a[i].docId == b[i].docId && e[i] == f[i] && a[i].text == b[i].text && a[i].metaJson == b[i].metaJson
  {
    hide RM.RowsStream;
    RowsAlike(a, e, b, f);
    if RM.RowsStream(RowsOf(a, e)) == RM.RowsStream(RowsOf(b, f)) {
      RM.ContentStreamDecodes(RowsOf(a, e), RowsOf(b, f));
    }
  }

  lemma RowsAlike(a: seq<Chunk>, e: seq<seq<nat>>, b: seq<Chunk>, f: seq<seq<nat>>)
    requires |a| == |e| && |b| == |f|
    ensures RowsOf(a, e) == RowsOf(b, f) <==>
        && |a| == |b|
        && forall i :: 0 <= i < |a| ==>
             a[i].docId == b[i].docId && e[i] == f[i] && a[i].text == b[i].text && a[i].metaJson == b[i].metaJson
  {
    var x, y := RowsOf(a, e), RowsOf(b, f);
    forall i | 0 <= i < |a| && |a| == |b|
      ensures x[i] == y[i] <==>
          a[i].docId == b[i].docId && e[i] == f[i] && a[i].text == b[i].text && a[i].metaJson == b[i].metaJson
    {
    }
    assert |x| == |a| && |y| == |b|;
    assert |a| == |b| ==> (x == y <==> forall i :: 0 <= i < |a| ==> x[i] == y[i]);
  }

  predicate ChunkFits(c: Chunk) {
    Fits(c.docId) && Fits(c.text) && Fits(c.metaJson)
  }

  function ManifestOf(format: Format, section: RM.ManifestCodec, files: Files, names: seq<FileName>,
      profile: RM.EmbeddingProfile, source: RM.Source,
                      chunks: seq<Chunk>, embeddings: seq<seq<nat>>, sha: seq<byte> -> seq<byte>): RM.Manifest
    requires |chunks| == |embeddings| && forall f :: f in names ==> f in files
  {
    var digest := Hex(sha(RM.RowsStream(RowsOf(chunks, embeddings))));
    var outputs := OutputsOf(files, names, sha);
    var id := Hex(sha(RM.ReleaseIdStream(Version(format), profile, section, digest, outputs)));
    RM.Manifest(1, Version(format), id, source, profile, RM.InputFingerprint(|chunks|, digest), section, outputs)
  }

  // ----- the builder -----

  ghost predicate EmbeddingOk(e: seq<nat>, dim: nat) {
    |e| == dim && forall i :: 0 <= i < |e| ==> Finite(e[i])
  }

  ghost predicate IdsOk(chunks: seq<Chunk>, hash: Text -> nat) {
    forall i, j :: 0 <= i < j < |chunks| ==> hash(chunks[i].docId) != hash(chunks[j].docId)
  }

  /** Chunk i's embedding encodes to a code that fits the format's record. */
  ghost predicate EncodesTo(format: Format, e: seq<nat>, encode: seq<nat> -> Option<Encoded>, code: Code) {
    encode(e).Some? && Stored(format, encode(e).value) == Some(code)
  }

  ghost predicate Codes(format: Format, embeddings: seq<seq<nat>>, encode: seq<nat> -> Option<Encoded>,
      codes: seq<Code>) {
    |codes| == |embeddings| && forall i :: 0 <= i < |codes| ==> EncodesTo(format, embeddings[i], encode, codes[i])
  }

  /** Exactly what `build_release` checks, in any order. */
  ghost predicate Buildable(format: Format, chunks: seq<Chunk>, embeddings: seq<seq<nat>>, profile: RM.EmbeddingProfile,
                            hash: Text -> nat, encode: seq<nat> -> Option<Encoded>) {
    && |chunks| == |embeddings| && chunks != [] && profile.dim == ConfigOf(format).dim
    && (forall i :: 0 <= i < |embeddings| ==> EmbeddingOk(embeddings[i], profile.dim))
    && IdsOk(chunks, hash) && CodecGenerates(format) && exists codes :: Codes(format, embeddings, encode, codes)
  }

  ghost predicate IsReleaseOf(r: Release, format: Format, assets: Assets, chunks: seq<Chunk>, embeddings: seq<seq<nat>>,
      codes: seq<Code>,
                              profile: RM.EmbeddingProfile, source: RM.Source, hash: Text -> nat,
                                  sha: seq<byte> -> seq<byte>)
    requires format.FormatV3? == assets.LegacyAssets? && IsSha256(sha) && |chunks| == |embeddings| == |codes|
  {
    && r.files == FilesOf(format, assets, chunks, codes, hash, sha)
    && OutputNames(Version(format)).Some? && (forall f :: f in OutputNames(Version(format)).value ==> f in r.files)
    && CodecSection(format).Ok?
    && r.manifest == ManifestOf(format, CodecSection(format).value, r.files, OutputNames(Version(format)).value,
        profile, source, chunks, embeddings, sha)
  }

  method CheckEmbeddings(embeddings: seq<seq<nat>>, dim: nat) returns (ok: bool)
    ensures ok <==> forall i :: 0 <= i < |embeddings| ==> EmbeddingOk(embeddings[i], dim)
  {
    hide Finite;
    for i := 0 to |embeddings|
      invariant forall j :: 0 <= j < i ==> EmbeddingOk(embeddings[j], dim)
    {
      var e := embeddings[i];
      if |e| != dim {
        return false;
      }
      for k := 0 to |e|
        invariant forall j :: 0 <= j < k ==> Finite(e[j])
      {
        if !Finite(e[k]) {
          return false;
        }
      }
    }
    return true;
  }

  /** The code of each embedding, where it has one. */
  ghost function CodesOf(format: Format, embeddings: seq<seq<nat>>,
      encode: seq<nat> -> Option<Encoded>): (codes: seq<Code>)
    ensures |codes| == |embeddings|
  {
    seq(|embeddings|, i requires 0 <= i < |embeddings| =>
      match encode(embeddings[i])
      case None => Code([], [], 0, None)
      case Some(e) => if Stored(format, e).Some? then Stored(format, e).value else Code([], [], 0, None))
  }

  lemma NoCodes(format: Format, embeddings: seq<seq<nat>>, encode: seq<nat> -> Option<Encoded>, i: nat)
    requires i < |embeddings| && (encode(embeddings[i]).None? || Stored(format, encode(embeddings[i]).value).None?)
    ensures !exists all :: Codes(format, embeddings, encode, all)
  {
    assert forall all :: Codes(format, embeddings, encode, all) ==> EncodesTo(format, embeddings[i], encode, all[i]);
  }

  lemma CodeIs(format: Format, embeddings: seq<seq<nat>>, encode: seq<nat> -> Option<Encoded>, i: nat)
    requires i < |embeddings| && encode(embeddings[i]).Some? && Stored(format, encode(embeddings[i]).value).Some?
    ensures CodesOf(format, embeddings, encode)[i] == Stored(format, encode(embeddings[i]).value).value
    ensures EncodesTo(format, embeddings[i], encode, CodesOf(format, embeddings, encode)[i])
  {
  }

  /** The single pass: append every chunk, or stop at the first that does not encode. */
  method AppendAll(format: Format, chunks: seq<Chunk>, embeddings: seq<seq<nat>>, hash: Text -> nat,
      encode: seq<nat> -> Option<Encoded>)
    returns (b: Buffers, ok: bool, ghost codes: seq<Code>)
    requires |chunks| == |embeddings|
    ensures fresh(b) && (ok <==> exists all :: Codes(format, embeddings, encode, all))
    ensures ok ==> Codes(format, embeddings, encode, codes) && b.Holds(chunks, codes, hash, |chunks|)
  {
    hide Stored, EncodesTo, Joined, RecordParts, MetaParts, MetaExtParts, Texts, Titles, DocIds, Jsons;
    b := new Buffers();
    codes := CodesOf(format, embeddings, encode);
    NothingHeld(b, chunks, codes, hash);
    for i := 0 to |chunks|
      invariant fresh(b) && |codes| == |chunks| && codes == CodesOf(format, embeddings, encode) &&
          b.Holds(chunks, codes, hash, i)
      invariant forall j :: 0 <= j < i ==> EncodesTo(format, embeddings[j], encode, codes[j])
    {
      var encoded := encode(embeddings[i]);
      if encoded.None? || Stored(format, encoded.value).None? {
        NoCodes(format, embeddings, encode, i);
        return b, false, codes;
      }
      CodeIs(format, embeddings, encode, i);
      b.Append(chunks, codes, i, chunks[i], Stored(format, encoded.value).value, hash);
    }
    ok := true;
    assert Codes(format, embeddings, encode, codes);
  }

  lemma NothingHeld(b: Buffers, chunks: seq<Chunk>, codes: seq<Code>, hash: Text -> nat)
    requires |chunks| == |codes| && b.records == b.meta == b.text == b.title == b.metaExt == b.docid == b.metaJson == []
    ensures b.Holds(chunks, codes, hash, 0)
  {
  }

  lemma IdsCheckedAre(chunks: seq<Chunk>, hash: Text -> nat)
    ensures (forall i, j :: 0 <= i < j < |chunks| ==> hash(DocIds(chunks)[i]) != hash(DocIds(chunks)[j])) <==>
        IdsOk(chunks, hash)
  {
    assert forall i :: 0 <= i < |chunks| ==> DocIds(chunks)[i] == chunks[i].docId;
  }

  lemma HeaderIsWellFormed(format: Format, assets: Assets, count: nat, sha: seq<byte> -> seq<byte>)
    requires format.FormatV3? == assets.LegacyAssets? && IsSha256(sha) && CodecGenerates(format) && count < U64_LIMIT
    ensures WellFormed(HeaderOf(format, assets, count, sha))
  {
    hide FingerprintOf;
  }

  /** The header's bytes, then the files in the writer's order. */
  method WriteFiles(format: Format, assets: Assets, b: Buffers, ghost chunks: seq<Chunk>, ghost codes: seq<Code>,
      ghost hash: Text -> nat,
                    count: nat, sha: seq<byte> -> seq<byte>) returns (files: Files)
    requires IsSha256(sha) && CodecGenerates(format) && format.FormatV3? == assets.LegacyAssets?
    requires |chunks| == |codes| == count < U64_LIMIT && b.Holds(chunks, codes, hash, count)
    ensures files == FilesOf(format, assets, chunks, codes, hash, sha)
  {
    hide HeaderBytes, Joined, FingerprintOf, CentroidBytes, ProjectionBytes, CodebookBytes, QjlBytes, RotationBytes,
         RecordParts, MetaParts, MetaExtParts, Texts, Titles, DocIds, Jsons;
    var assetFiles := AssetFiles(format, assets);
    var header := MakeHeader(format, assets, count, sha);
    HeaderIsWellFormed(format, assets, count, sha);
    var turboStatic := ToBytes(header);
    WholeParts(chunks, codes, hash);
    files := map[
      TurboStaticFile := turboStatic[..] + b.records, MetaFile := b.meta, TextFile := b.text, TitleFile := b.title,
      MetaExtFile := b.metaExt, DocidFile := b.docid, MetaJsonFile := b.metaJson];
    if format.FormatV3? {
      files := files[assetFiles[0].0 := assetFiles[0].1][assetFiles[1].0 := assetFiles[1].1];
    } else {
      files := files[assetFiles[0].0 := assetFiles[0].1][assetFiles[1].0 := assetFiles[1].1];
      files := files[assetFiles[2].0 := assetFiles[2].1];
    }
  }

  method MakeHeader(format: Format, assets: Assets, count: nat, sha: seq<byte> -> seq<byte>) returns (header: Header)
    requires format.FormatV3? == assets.LegacyAssets? && IsSha256(sha)
    ensures header == HeaderOf(format, assets, count, sha)
  {
    hide FingerprintOf, IsSha256;
    match format
    case FormatV3 =>
      header := Header(TURBO_VERSION_V3, LEGACY_V1.dim, count, None);
    case FormatV4(config) =>
      var fingerprint := Fingerprint(config, Named(AssetFiles(format, assets)), sha);
      header := Header(TURBO_VERSION_V4, config.dim, count, Some(HeaderCodec(config.codecId, fingerprint)));
  }

  lemma WholeParts(chunks: seq<Chunk>, codes: seq<Code>, hash: Text -> nat)
    requires |chunks| == |codes|
    ensures
      var n := |chunks|;
      && RecordParts(chunks, codes, hash)[..n] == RecordParts(chunks, codes, hash) &&
          MetaParts(chunks, hash)[..n] == MetaParts(chunks, hash)
      && MetaExtParts(chunks)[..n] == MetaExtParts(chunks) && Texts(chunks)[..n] == Texts(chunks) &&
          Titles(chunks)[..n] == Titles(chunks)
      && DocIds(chunks)[..n] == DocIds(chunks) && Jsons(chunks)[..n] == Jsons(chunks)
  {
  }

  /** `collect_outputs`: hash the files in list order. */
  method CollectOutputs(files: Files, names: seq<FileName>, sha: seq<byte> -> seq<byte>)
      returns (outputs: seq<RM.OutputFile>)
    requires forall f :: f in names ==> f in files
    ensures outputs == OutputsOf(files, names, sha)
  {
    hide Hex, NameText;
    outputs := [];
    for i := 0 to |names|
      invariant outputs == OutputsOf(files, names, sha)[..i]
    {
      var bytes := files[names[i]];
      outputs := outputs + [RM.OutputFile(NameText(names[i]), Hex(sha(bytes)), |bytes|)];
    }
  }

  lemma FilesComplete(format: Format, assets: Assets, chunks: seq<Chunk>, codes: seq<Code>, hash: Text -> nat,
      sha: seq<byte> -> seq<byte>)
    requires format.FormatV3? == assets.LegacyAssets? && IsSha256(sha) && |chunks| == |codes| && CodecGenerates(format)
    ensures OutputNames(Version(format)).Some?
    ensures forall f :: f in OutputNames(Version(format)).value ==>
        f in FilesOf(format, assets, chunks, codes, hash, sha)
    ensures CodecSection(format).Ok?
  {
    hide HeaderBytes, Joined, HeaderOf, CentroidBytes, ProjectionBytes, CodebookBytes, QjlBytes, RotationBytes;
  }

  /** The manifest of the written files. */
  method DescribeFiles(format: Format, section: RM.ManifestCodec, files: Files, names: seq<FileName>,
      profile: RM.EmbeddingProfile,
                       source: RM.Source, chunks: seq<Chunk>, embeddings: seq<seq<nat>>, sha: seq<byte> -> seq<byte>)
                           returns (manifest: RM.Manifest)
    requires |chunks| == |embeddings| && forall f :: f in names ==> f in files
    ensures manifest == ManifestOf(format, section, files, names, profile, source, chunks, embeddings, sha)
  {
    hide Hex, OutputsOf, RowsOf;
    var outputs := CollectOutputs(files, names, sha);
    var digest := RM.ContentDigest(RowsOf(chunks, embeddings), sha);
    var id := RM.DeriveReleaseId(Version(format), profile, section, digest, outputs, sha);
    manifest := RM.Manifest(1, Version(format), id, source, profile, RM.InputFingerprint(|chunks|, digest), section,
        outputs);
  }

  /** `build_release`, up to writing the directory: a release exactly when the checks pass, with every file and the
      manifest as specified. */
  method BuildRelease(format: Format, assets: Assets, chunks: seq<Chunk>, embeddings: seq<seq<nat>>,
      profile: RM.EmbeddingProfile,
                      source: RM.Source, hash: Text -> nat, encode: seq<nat> -> Option<Encoded>,
                          sha: seq<byte> -> seq<byte>)
    returns (release: Option<Release>, ghost codes: seq<Code>)
    requires IsSha256(sha) && format.FormatV3? == assets.LegacyAssets? && |chunks| < U64_LIMIT
    ensures release.Some? <==> Buildable(format, chunks, embeddings, profile, hash, encode)
    ensures release.Some? ==>
              && Codes(format, embeddings, encode, codes)
              && IsReleaseOf(release.value, format, assets, chunks, embeddings, codes, profile, source, hash, sha)
  {
    hide FilesOf, ManifestOf, CodecSection, OutputNames, EmbeddingOk, IdsOk, EncodesTo, CodecGenerates, GeneratedFor,
         IsSha256, DocIds, Joined, RecordParts, MetaParts, MetaExtParts, Texts, Titles, Jsons;
    codes := [];
    if |chunks| != |embeddings| || |chunks| == 0 || profile.dim != ConfigOf(format).dim {
      return None, codes;
    }
    var embeddingsOk := CheckEmbeddings(embeddings, profile.dim);
    if !embeddingsOk {
      return None, codes;
    }
    var idsOk := CheckIds(DocIds(chunks), hash);
    IdsCheckedAre(chunks, hash);
    if !idsOk || !CodecGenerates(format) {
      return None, codes;
    }
    var b, appended, all := AppendAll(format, chunks, embeddings, hash, encode);
    codes := all;
    if !appended {
      return None, codes;
    }
    var files := WriteFiles(format, assets, b, chunks, codes, hash, |chunks|, sha);
    FilesComplete(format, assets, chunks, codes, hash, sha);
    var manifest := DescribeFiles(format, CodecSection(format).value, files, OutputNames(Version(format)).value,
        profile, source, chunks, embeddings, sha);
    release := Some(Release(files, manifest));
  }
}
