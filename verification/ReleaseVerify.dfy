/** `verify_release_dir` of src/indexing/static_publisher.rs, and which written releases it accepts. The manifest is
    taken as parsed from its JSON. */
module ReleaseVerify {
  import opened Wrappers
  import opened Bytes
  import opened CodecConfig
  import opened TurboHeader
  import opened ReleaseRecords
  import opened MmapIndex
  import opened StaticRelease
  import opened ReleaseReadBack
  import RM = ReleaseManifest

  const EXPECTED_MANIFEST_SCHEMA_VERSION: nat := 1
  const EXPECTED_EMBEDDING_DIM: nat := 512

  // ----- the steps -----

  predicate SectionOk(codec: RM.ManifestCodec) {
    match codec
    case V3(c) => ToV3CodecMetadata(LEGACY_V1) == CodecConfig.Result.Ok(c)
    case V4(c) => FromV4CodecMetadata(c).Ok?
  }

  /** Step 2. */
  predicate FormatOk(m: RM.Manifest) {
    && m.schemaVersion == EXPECTED_MANIFEST_SCHEMA_VERSION && OutputNames(m.turboVersion).Some?
    && RM.CodecVersion(m.codec) == m.turboVersion && SectionOk(m.codec)
  }

  /** Step 3: the version's files in order, each with its size and hash on disk. */
  ghost predicate OutputsOk(files: Files, m: RM.Manifest, names: seq<FileName>, sha: seq<byte> -> seq<byte>) {
    && |m.outputs| == |names|
    && forall i :: 0 <= i < |names| ==> names[i] in files && m.outputs[i] == OutputOf(names[i], files[names[i]], sha)
  }

  /** Step 4. */
  predicate IdOk(m: RM.Manifest, sha: seq<byte> -> seq<byte>) {
    m.releaseId == Hex(sha(RM.ReleaseIdStream(m.turboVersion, m.profile, m.codec, m.fingerprint.contentDigest,
        m.outputs)))
  }

  /** Step 5. */
  predicate ProvenanceOk(m: RM.Manifest) {
    m.source.kind == Ascii("lance") && m.source.datasetPath != [] && m.source.tableVersion > 0 &&
        m.source.tableRowCount == m.fingerprint.docCount
  }

  /** Step 6. */
  predicate ProfileOk(m: RM.Manifest, expectModelId: Option<Text>, expectDim: Option<nat>) {
    && m.profile.dim == EXPECTED_EMBEDDING_DIM && RM.CodecDim(m.codec) == EXPECTED_EMBEDDING_DIM &&
        m.profile.modelId != []
    && (expectModelId.Some? ==> m.profile.modelId == expectModelId.value)
    && (expectDim.Some? ==> m.profile.dim == expectDim.value)
  }

  /** The codec a v4 manifest records is the loaded one. */
  predicate SameCodec(section: RM.ManifestCodec, loaded: IndexCodec) {
    section.V4? ==> loaded.Prod? && FromV4CodecMetadata(section.v4) == CodecConfig.Result.Ok(loaded.config)
  }

  /** Step 7, for the index that loaded. */
  ghost predicate IndexMatches(ix: Index, m: RM.Manifest, utf8: seq<byte> -> bool)
    requires Valid(ix)
  {
    && ix.header.version == m.turboVersion && SameCodec(m.codec, ix.codec) &&
        ix.header.recordCount == m.source.tableRowCount
    && forall i: nat :: i < ix.header.recordCount ==> RecordIsUtf8(ix, i, utf8)
  }

  ghost predicate IndexOk(files: Files, m: RM.Manifest, utf8: seq<byte> -> bool, sha: seq<byte> -> seq<byte>)
    requires IsSha256(sha)
  {
    exists h, layout :: LoadsAs(files, h, layout, sha) && LoadedMatches(files, h, layout, m, utf8, sha)
  }

  ghost predicate LoadedMatches(files: Files, h: Header, layout: Layout, m: RM.Manifest, utf8: seq<byte> -> bool,
      sha: seq<byte> -> seq<byte>)
    requires IsSha256(sha) && LoadsAs(files, h, layout, sha)
  {
    LoadedIsValid(files, h, layout, sha);
    IndexMatches(IndexOf(files, h, layout, sha), m, utf8)
  }

  ghost predicate Verifies(files: Files, m: RM.Manifest, expectModelId: Option<Text>, expectDim: Option<nat>,
      utf8: seq<byte> -> bool,
                           sha: seq<byte> -> seq<byte>)
    requires IsSha256(sha)
  {
    && FormatOk(m) && OutputsOk(files, m, OutputNames(m.turboVersion).value, sha) && IdOk(m, sha) && ProvenanceOk(m)
    && ProfileOk(m, expectModelId, expectDim) && IndexOk(files, m, utf8, sha)
  }

  // ----- the code -----

  /** Step 3: names first, in order, then every file's size and hash. */
  method CheckOutputs(files: Files, m: RM.Manifest, names: seq<FileName>, sha: seq<byte> -> seq<byte>)
      returns (ok: bool)
    ensures ok <==> OutputsOk(files, m, names, sha)
  {
    hide NameText, Hex;
    if |m.outputs| != |names| {
      return false;
    }
    for i := 0 to |names|
      invariant forall j :: 0 <= j < i ==> m.outputs[j].name == NameText(names[j])
    {
      if m.outputs[i].name != NameText(names[i]) {
        return false;
      }
    }
    for i := 0 to |names|
      invariant forall j :: 0 <= j < i ==> names[j] in files && m.outputs[j] == OutputOf(names[j], files[names[j]], sha)
    {
      if names[i] !in files {
        return false;
      }
      var bytes := files[names[i]];
      if |bytes| != m.outputs[i].sizeBytes || Hex(sha(bytes)) != m.outputs[i].sha256 {
        return false;
      }
    }
    return true;
  }

  method CheckIndex(files: Files, m: RM.Manifest, utf8: seq<byte> -> bool, sha: seq<byte> -> seq<byte>)
      returns (ok: bool)
    requires IsSha256(sha)
    ensures ok <==> IndexOk(files, m, utf8, sha)
  {
    hide LoadsAs, IndexOf, Valid, SameCodec, RecordIsUtf8, IsSha256;
    var index := Load(files, sha);
    if index.None? {
      return false;
    }
    var ix := index.value;
    OneHeader(files, ix.header, ix.layout, sha);
    LoadedIsValid(files, ix.header, ix.layout, sha);
    if ix.header.version != m.turboVersion || !SameCodec(m.codec, ix.codec) ||
        ix.header.recordCount != m.source.tableRowCount {
      return false;
    }
    ok := CheckUtf8(ix, utf8);
  }

  /** A directory loads with the header its bytes hold, and no other. */
  lemma OneHeader(files: Files, h: Header, layout: Layout, sha: seq<byte> -> seq<byte>)
    requires IsSha256(sha) && LoadsAs(files, h, layout, sha)
    ensures forall h', layout' :: LoadsAs(files, h', layout', sha) ==> h' == h && layout' == layout
    ensures IndexOf(files, h, layout, sha).header == h && IndexOf(files, h, layout, sha).layout == layout
  {
    hide FromBytes, LayoutOf, MainOk, SidecarsOk, CodecOf, IsSha256;
  }

  /** `verify_release_dir`. */
  method VerifyReleaseDir(files: Files, manifest: Option<RM.Manifest>, expectModelId: Option<Text>,
      expectDim: Option<nat>,
                          utf8: seq<byte> -> bool, sha: seq<byte> -> seq<byte>) returns (verified: Option<RM.Manifest>)
    requires IsSha256(sha)
    ensures verified.Some? <==> manifest.Some? && Verifies(files, manifest.value, expectModelId, expectDim, utf8, sha)
    ensures verified.Some? ==> verified == manifest
    ensures verified.Some? ==>
        manifest.value.schemaVersion == 1 && manifest.value.turboVersion == if manifest.value.codec.V3? then 3 else 4
  {
    hide FormatOk, OutputsOk, IdOk, ProvenanceOk, ProfileOk, IndexOk, IsSha256;
    if manifest.None? {
      return None;
    }
    var m := manifest.value;
    if !FormatOk(m) {
      return None;
    }
    FormatMeans(m);
    var outputsOk := CheckOutputs(files, m, OutputNames(m.turboVersion).value, sha);
    if !outputsOk {
      return None;
    }
    var id := RM.DeriveReleaseId(m.turboVersion, m.profile, m.codec, m.fingerprint.contentDigest, m.outputs, sha);
    IdCompared(m, id, sha);
    if id != m.releaseId || !ProvenanceOk(m) || !ProfileOk(m, expectModelId, expectDim) {
      return None;
    }
    var indexOk := CheckIndex(files, m, utf8, sha);
    return if indexOk then manifest else None;
  }

  lemma FormatMeans(m: RM.Manifest)
    requires FormatOk(m)
    ensures OutputNames(m.turboVersion).Some?
    ensures m.schemaVersion == 1 && m.turboVersion == if m.codec.V3? then 3 else 4
  {
  }

  lemma IdCompared(m: RM.Manifest, id: Text, sha: seq<byte> -> seq<byte>)
    requires id == Hex(sha(RM.ReleaseIdStream(m.turboVersion, m.profile, m.codec, m.fingerprint.contentDigest,
        m.outputs)))
    ensures IdOk(m, sha) <==> id == m.releaseId
  {
  }

  // ----- which written releases verify -----

  /** What a builder's caller has to get right. */
  predicate Coherent(source: RM.Source, profile: RM.EmbeddingProfile, count: nat, expectModelId: Option<Text>,
      expectDim: Option<nat>) {
    && source.kind == Ascii("lance") && source.datasetPath != [] && source.tableVersion > 0 &&
        source.tableRowCount == count
    && profile.modelId != [] && (expectModelId.Some? ==> profile.modelId == expectModelId.value)
    && (expectDim.Some? ==> expectDim.value == EXPECTED_EMBEDDING_DIM)
  }

  /** Every entry of the chunks is UTF-8, as Rust strings are, and shorter than 2^32 bytes. */
  ghost predicate ReadableChunks(chunks: seq<Chunk>, utf8: seq<byte> -> bool) {
    forall i :: 0 <= i < |chunks| ==> ReadableChunk(chunks[i], utf8)
  }

  ghost predicate ReadableChunk(c: Chunk, utf8: seq<byte> -> bool) {
    && |c.text| < U32_LIMIT && |TitleOf(c)| < U32_LIMIT && |c.docId| < U32_LIMIT && |c.metaJson| < U32_LIMIT
    && utf8(c.text) && utf8(TitleOf(c)) && utf8(c.docId) && utf8(c.metaJson)
  }

  lemma WrittenFormatOk(format: Format, section: RM.ManifestCodec, m: RM.Manifest)
    requires CodecGenerates(format) && CodecSection(format) == CodecConfig.Result.Ok(section)
    requires m.schemaVersion == 1 && m.turboVersion == Version(format) && m.codec == section
    ensures FormatOk(m) && RM.CodecDim(section) == EXPECTED_EMBEDDING_DIM
    ensures format.FormatV4? ==> section.V4? && FromV4CodecMetadata(section.v4) == CodecConfig.Result.Ok(format.config)
    ensures format.FormatV3? ==> section.V3?
  {
    hide CodecName, PolicyName, CodecFromName, PolicyFromName;
    if format.FormatV4? {
      V4MetadataRoundTrip(format.config, section.v4);
    }
  }

  lemma WrittenOutputsOk(files: Files, m: RM.Manifest, names: seq<FileName>, sha: seq<byte> -> seq<byte>)
    requires (forall f :: f in names ==> f in files) && m.outputs == OutputsOf(files, names, sha)
    ensures OutputsOk(files, m, names, sha)
  {
    hide OutputOf;
    forall i | 0 <= i < |names|
      ensures names[i] in files && m.outputs[i] == OutputOf(names[i], files[names[i]], sha)
    {
      assert names[i] in names;
    }
  }

  lemma LoadedRecordIsUtf8(format: Format, assets: Assets, chunks: seq<Chunk>, codes: seq<Code>, hash: Text -> nat,
      sha: seq<byte> -> seq<byte>,
                           utf8: seq<byte> -> bool, i: nat)
    requires IsSha256(sha) && Written(format, assets, chunks, codes, hash) &&
        format.FormatV3? == assets.LegacyAssets? && |chunks| == |codes|
    requires i < |chunks| && ReadableChunk(chunks[i], utf8)
    ensures RecordIsUtf8(Loaded(format, assets, chunks, codes, hash, sha), i, utf8)
  {
    hide Written, Loaded, RecordOf, TextBytes, TitleBytes, DocIdBytes, MetadataBytes, Valid, IsSha256, MetaAt;
    ReleaseReadsBack(format, assets, chunks, codes, hash, sha, i);
  }

  lemma WrittenIndexOk(format: Format, assets: Assets, chunks: seq<Chunk>, codes: seq<Code>, hash: Text -> nat,
      sha: seq<byte> -> seq<byte>,
                       utf8: seq<byte> -> bool, m: RM.Manifest, files: Files)
    requires IsSha256(sha) && Written(format, assets, chunks, codes, hash) &&
        format.FormatV3? == assets.LegacyAssets? && |chunks| == |codes|
    requires ReadableChunks(chunks, utf8) && files == FilesOf(format, assets, chunks, codes, hash, sha)
    requires m.turboVersion == Version(format) && m.source.tableRowCount == |chunks|
    requires SameCodec(m.codec, CodecFor(format, assets))
    ensures IndexOk(files, m, utf8, sha)
  {
    hide Written, FilesOf, LoadsAs, CodecFor, SameCodec, RecordIsUtf8, Valid, IsSha256, FingerprintOf, ReadableChunk;
    var h, layout := HeaderOf(format, assets, |chunks|, sha), LayoutFor(format);
    WrittenReleaseLoads(format, assets, chunks, codes, hash, sha);
    OneHeader(files, h, layout, sha);
    LoadedIsValid(files, h, layout, sha);
    var ix := Loaded(format, assets, chunks, codes, hash, sha);
    assert ix == IndexOf(files, h, layout, sha);
    forall i: nat | i < ix.header.recordCount
      ensures RecordIsUtf8(ix, i, utf8)
    {
      LoadedRecordIsUtf8(format, assets, chunks, codes, hash, sha, utf8, i);
    }
    assert LoadedMatches(files, h, layout, m, utf8, sha);
  }

  /** A release the builder wrote verifies exactly when its source and profile are coherent: there is no other way for
      it to be rejected. */
  lemma WrittenReleaseVerifies(r: Release, format: Format, assets: Assets, chunks: seq<Chunk>,
      embeddings: seq<seq<nat>>, codes: seq<Code>,
                               profile: RM.EmbeddingProfile, source: RM.Source, hash: Text -> nat,
                                   sha: seq<byte> -> seq<byte>, utf8: seq<byte> -> bool,
                               expectModelId: Option<Text>, expectDim: Option<nat>)
    requires IsSha256(sha) && Written(format, assets, chunks, codes, hash) && format.FormatV3? == assets.LegacyAssets?
    requires |chunks| == |embeddings| == |codes| && profile.dim == ConfigOf(format).dim && ReadableChunks(chunks, utf8)
    requires IsReleaseOf(r, format, assets, chunks, embeddings, codes, profile, source, hash, sha)
    ensures Verifies(r.files, r.manifest, expectModelId, expectDim, utf8, sha) <==>
        Coherent(source, profile, |chunks|, expectModelId, expectDim)
  {
    hide FilesOf, OutputNames, OutputsOk, OutputsOf, FormatOk, CodecSection, IndexOk, SameCodec, CodecFor,
         ReadableChunks, RM.ReleaseIdStream, RM.RowsStream, Hex, IsSha256, CodesFit, InMachine, GeneratedFor;
    var section := CodecSection(format).value;
    WrittenFormatOk(format, section, r.manifest);
    WrittenOutputsOk(r.files, r.manifest, OutputNames(Version(format)).value, sha);
    WrittenDim(format);
    if source.tableRowCount == |chunks| {
      WrittenCodec(format, assets, section);
      WrittenIndexOk(format, assets, chunks, codes, hash, sha, utf8, r.manifest, r.files);
    }
  }

  lemma WrittenDim(format: Format)
    requires CodecGenerates(format)
    ensures ConfigOf(format).dim == EXPECTED_EMBEDDING_DIM
  {
  }

  lemma WrittenCodec(format: Format, assets: Assets, section: RM.ManifestCodec)
    requires format.FormatV3? == assets.LegacyAssets? && CodecGenerates(format)
    requires format.FormatV4? ==> section.V4? && FromV4CodecMetadata(section.v4) == CodecConfig.Result.Ok(format.config)
    requires format.FormatV3? ==> section.V3?
    ensures SameCodec(section, CodecFor(format, assets))
  {
  }

  // ----- building, then verifying -----

  /** Encoders return f32 values. */
  ghost predicate EncodesF32(encode: seq<nat> -> Option<Encoded>) {
    forall e :: encode(e).Some? ==> encode(e).value.gamma < U32_LIMIT && encode(e).value.norm < U32_LIMIT
  }

  lemma BuiltIsWritten(format: Format, assets: Assets, chunks: seq<Chunk>, embeddings: seq<seq<nat>>, codes: seq<Code>,
      profile: RM.EmbeddingProfile,
                       hash: Text -> nat, encode: seq<nat> -> Option<Encoded>)
    requires Buildable(format, chunks, embeddings, profile, hash, encode) && Codes(format, embeddings, encode, codes)
    requires GeneratedFor(format, assets) && ConfigFits(ConfigOf(format)) && EncodesF32(encode) &&
        InMachine(chunks, [], hash)
    ensures Written(format, assets, chunks, codes, hash)
  {
    hide GeneratedFor, CodecGenerates, Texts, Titles, DocIds, Jsons, Joined, EmbeddingOk, IdsOk;
    StoredCodesFit(format, chunks, embeddings, encode, codes);
    forall i | 0 <= i < |codes|
      ensures codes[i].gamma < U32_LIMIT && (codes[i].norm.Some? ==> codes[i].norm.value < U32_LIMIT)
    {
      assert EncodesTo(format, embeddings[i], encode, codes[i]);
    }
  }

  /** Whatever `build_release` returns, `verify_release_dir` accepts exactly when source and profile are coherent. */
  method BuildThenVerify(format: Format, assets: Assets, chunks: seq<Chunk>, embeddings: seq<seq<nat>>,
      profile: RM.EmbeddingProfile,
                         source: RM.Source, hash: Text -> nat, encode: seq<nat> -> Option<Encoded>,
                             utf8: seq<byte> -> bool,
                         expectModelId: Option<Text>, expectDim: Option<nat>, sha: seq<byte> -> seq<byte>)
    returns (built: bool, accepted: bool)
    requires IsSha256(sha) && GeneratedFor(format, assets) && ConfigFits(ConfigOf(format)) && EncodesF32(encode)
    requires InMachine(chunks, [], hash) && ReadableChunks(chunks, utf8)
    ensures built <==> Buildable(format, chunks, embeddings, profile, hash, encode)
    ensures built ==> (accepted <==> Coherent(source, profile, |chunks|, expectModelId, expectDim))
  {
    hide GeneratedFor, IsReleaseOf, Verifies, Coherent, Written, ReadableChunks, EncodesF32, IsSha256;
    AssetsMatchFormat(format, assets);
    var release, codes := BuildRelease(format, assets, chunks, embeddings, profile, source, hash, encode, sha);
    if release.None? {
      return false, false;
    }
    BuiltIsWritten(format, assets, chunks, embeddings, codes, profile, hash, encode);
    WrittenReleaseVerifies(release.value, format, assets, chunks, embeddings, codes, profile, source, hash, sha, utf8,
        expectModelId, expectDim);
    var verified := VerifyReleaseDir(release.value.files, Some(release.value.manifest), expectModelId, expectDim, utf8,
        sha);
    return true, verified.Some?;
  }

  /** The id covers the content and not the source: the same chunks from another dataset path make the same files under
      the same id, with a different manifest. */
  lemma SameIdOtherSource(r: Release, t: Release, format: Format, assets: Assets, chunks: seq<Chunk>,
      embeddings: seq<seq<nat>>, codes: seq<Code>,
                          profile: RM.EmbeddingProfile, source: RM.Source, other: RM.Source, hash: Text -> nat,
                              sha: seq<byte> -> seq<byte>)
    requires IsSha256(sha) && format.FormatV3? == assets.LegacyAssets? && |chunks| == |embeddings| == |codes|
    requires IsReleaseOf(r, format, assets, chunks, embeddings, codes, profile, source, hash, sha)
    requires IsReleaseOf(t, format, assets, chunks, embeddings, codes, profile, other, hash, sha)
    ensures r.files == t.files && r.manifest.releaseId == t.manifest.releaseId
    ensures r.manifest == t.manifest <==> source == other
  {
    hide FilesOf, OutputNames, OutputsOf, CodecSection, RM.ReleaseIdStream, RM.RowsStream, Hex, IsSha256;
  }
}
