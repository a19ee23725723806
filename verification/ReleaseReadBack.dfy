/** What the writer of src/index/static_release.rs wrote, the loader of src/index/mmap_index.rs loads and reads back. */
module ReleaseReadBack {
  import opened Wrappers
  import opened Bytes
  import opened CodecConfig
  import opened TurboHeader
  import opened ReleaseRecords
  import opened CodecAssets
  import opened MmapIndex
  import opened StaticRelease

  /** Everything in memory is smaller than 2^64 bytes, hashes are u64 and stored floats are f32. */
  ghost predicate InMachine(chunks: seq<Chunk>, codes: seq<Code>, hash: Text -> nat) {
    && HEADER_SIZE + RECORD_SIZE * |chunks| < U64_LIMIT
    && |Joined(Texts(chunks))| < U64_LIMIT && |Joined(Titles(chunks))| < U64_LIMIT
    && |Joined(DocIds(chunks))| < U64_LIMIT && |Joined(Jsons(chunks))| < U64_LIMIT
    && (forall i :: 0 <= i < |chunks| ==> hash(chunks[i].docId) < U64_LIMIT)
    && (forall i :: 0 <= i < |codes| ==>
        codes[i].gamma < U32_LIMIT && (codes[i].norm.Some? ==> codes[i].norm.value < U32_LIMIT))
  }

  /** The codes are of the format's record: 128 and 64 bytes, with a norm exactly in v4. */
  ghost predicate CodesFit(format: Format, chunks: seq<Chunk>, codes: seq<Code>) {
    && |codes| == |chunks|
    && forall i :: 0 <= i < |codes| ==>
        |codes[i].idx| == 128 && |codes[i].signs| == 64 && (codes[i].norm.Some? <==> format.FormatV4?)
  }

  lemma StoredCodesFit(format: Format, chunks: seq<Chunk>, embeddings: seq<seq<nat>>,
      encode: seq<nat> -> Option<Encoded>, codes: seq<Code>)
    requires Codes(format, embeddings, encode, codes) && |chunks| == |embeddings|
    ensures CodesFit(format, chunks, codes)
  {
    forall i | 0 <= i < |codes|
      ensures |codes[i].idx| == 128 && |codes[i].signs| == 64 && (codes[i].norm.Some? <==> format.FormatV4?)
    {
      assert EncodesTo(format, embeddings[i], encode, codes[i]);
    }
  }

  // ----- code records -----

  function LayoutFor(format: Format): Layout {
    if format.FormatV3? then V3Dim512 else V4Dim512
  }

  lemma RecordPartsFit(format: Format, chunks: seq<Chunk>, codes: seq<Code>, hash: Text -> nat, i: nat)
    requires CodesFit(format, chunks, codes) && InMachine(chunks, codes, hash) && i < |chunks|
    ensures |RecordParts(chunks, codes, hash)[i]| == RECORD_SIZE
    ensures ReadRecord(RecordParts(chunks, codes, hash)[i], LayoutFor(format)) ==
        TurboRecord(hash(chunks[i].docId), codes[i])
  {
    hide RecordBytes, ReadRecord;
    RecordReadsBack(TurboRecord(hash(chunks[i].docId), codes[i]), LayoutFor(format));
  }

  lemma RecordsSize(format: Format, chunks: seq<Chunk>, codes: seq<Code>, hash: Text -> nat)
    requires CodesFit(format, chunks, codes) && InMachine(chunks, codes, hash)
    ensures |Joined(RecordParts(chunks, codes, hash))| == RECORD_SIZE * |chunks|
  {
    hide InMachine, CodesFit, RecordParts;
    PartsCount(format, chunks, codes, hash);
    var parts := RecordParts(chunks, codes, hash);
    forall j | 0 <= j < |parts|
      ensures |parts[j]| == RECORD_SIZE
    {
      RecordPartsFit(format, chunks, codes, hash, j);
    }
    FixedSizeOffset(parts, RECORD_SIZE, |parts|);
    assert parts[..|parts|] == parts;
  }

  lemma PartsCount(format: Format, chunks: seq<Chunk>, codes: seq<Code>, hash: Text -> nat)
    requires CodesFit(format, chunks, codes)
    ensures |codes| == |chunks| && |RecordParts(chunks, codes, hash)| == |chunks|
  {
  }

  lemma RecordAt(format: Format, header: seq<byte>, chunks: seq<Chunk>, codes: seq<Code>, hash: Text -> nat, i: nat)
    requires CodesFit(format, chunks, codes) && InMachine(chunks, codes, hash) && i < |chunks| &&
        |header| == HEADER_SIZE
    ensures
      var bin := header + Joined(RecordParts(chunks, codes, hash));
      var start := HEADER_SIZE + RECORD_SIZE * i;
      start + RECORD_SIZE <= |bin| &&
          ReadRecord(bin[start..start + RECORD_SIZE], LayoutFor(format)) == TurboRecord(hash(chunks[i].docId), codes[i])
  {
    hide InMachine, CodesFit, RecordParts, ReadRecord, Joined;
    PartsCount(format, chunks, codes, hash);
    var parts := RecordParts(chunks, codes, hash);
    forall j | 0 <= j < |parts|
      ensures |parts[j]| == RECORD_SIZE
    {
      RecordPartsFit(format, chunks, codes, hash, j);
    }
    FixedSizeRecord(parts, RECORD_SIZE, i);
    RecordPartsFit(format, chunks, codes, hash, i);
    SliceAfter(header, Joined(parts), RECORD_SIZE * i, RECORD_SIZE);
  }

  lemma SliceAfter(a: seq<byte>, b: seq<byte>, start: nat, n: nat)
    requires start + n <= |b|
    ensures (a + b)[|a| + start..|a| + start + n] == b[start..start + n]
  {
  }

  // ----- meta and meta ext records -----

  lemma MetaIs(chunks: seq<Chunk>, codes: seq<Code>, hash: Text -> nat, i: nat)
    requires InMachine(chunks, codes, hash) && i < |chunks|
    ensures |Joined(MetaParts(chunks, hash))| == META_RECORD_SIZE * |chunks|
    ensures META_RECORD_SIZE * i + META_RECORD_SIZE <= |Joined(MetaParts(chunks, hash))|
    ensures MetaAt(Joined(MetaParts(chunks, hash)), i) == MetaOf(chunks, hash, i)
    ensures RangeInBlob(|Joined(Texts(chunks))|, MetaOf(chunks, hash, i).textOffset, MetaOf(chunks, hash, i).textLen)
    ensures RangeInBlob(|Joined(Titles(chunks))|, MetaOf(chunks, hash, i).titleOffset, MetaOf(chunks, hash, i).titleLen)
  {
    hide MetaBytes, ReadMeta, Joined;
    FixedSizeRecord(MetaParts(chunks, hash), META_RECORD_SIZE, i);
    PartAt(Texts(chunks), i);
    PartAt(Titles(chunks), i);
    MetaReadsBack(MetaOf(chunks, hash, i));
  }

  lemma MetaExtIs(chunks: seq<Chunk>, codes: seq<Code>, hash: Text -> nat, i: nat)
    requires InMachine(chunks, codes, hash) && i < |chunks|
    ensures |Joined(MetaExtParts(chunks))| == META_EXT_RECORD_SIZE * |chunks|
    ensures META_EXT_RECORD_SIZE * i + META_EXT_RECORD_SIZE <= |Joined(MetaExtParts(chunks))|
    ensures MetaExtAt(Joined(MetaExtParts(chunks)), i) == MetaExtOf(chunks, i)
    ensures RangeInBlob(|Joined(DocIds(chunks))|, MetaExtOf(chunks, i).docidOffset, MetaExtOf(chunks, i).docidLen)
    ensures RangeInBlob(|Joined(Jsons(chunks))|, MetaExtOf(chunks, i).metaJsonOffset, MetaExtOf(chunks, i).metaJsonLen)
  {
    hide MetaExtBytes, ReadMetaExt, Joined;
    FixedSizeRecord(MetaExtParts(chunks), META_EXT_RECORD_SIZE, i);
    PartAt(DocIds(chunks), i);
    PartAt(Jsons(chunks), i);
    MetaExtReadsBack(MetaExtOf(chunks, i));
  }

  lemma RangesAreOk(chunks: seq<Chunk>, codes: seq<Code>, hash: Text -> nat)
    requires InMachine(chunks, codes, hash) && chunks != []
    ensures |Joined(MetaParts(chunks, hash))| == META_RECORD_SIZE * |chunks|
    ensures MetaRangesOk(Joined(MetaParts(chunks, hash)), |chunks|, |Joined(Texts(chunks))|, |Joined(Titles(chunks))|)
    ensures |Joined(MetaExtParts(chunks))| == META_EXT_RECORD_SIZE * |chunks|
    ensures MetaExtRangesOk(Joined(MetaExtParts(chunks)), |chunks|, |Joined(DocIds(chunks))|, |Joined(Jsons(chunks))|)
  {
    hide InMachine, Joined, MetaOf, MetaExtOf, MetaAt, MetaExtAt, RangeInBlob, Texts, Titles, DocIds, Jsons;
    MetaIs(chunks, codes, hash, 0);
    MetaExtIs(chunks, codes, hash, 0);
    forall i: nat | i < |chunks|
      ensures MetaAt(Joined(MetaParts(chunks, hash)), i) == MetaOf(chunks, hash, i)
      ensures RangeInBlob(|Joined(Texts(chunks))|, MetaOf(chunks, hash, i).textOffset, MetaOf(chunks, hash, i).textLen)
      ensures RangeInBlob(|Joined(Titles(chunks))|, MetaOf(chunks, hash, i).titleOffset,
          MetaOf(chunks, hash, i).titleLen)
      ensures MetaExtAt(Joined(MetaExtParts(chunks)), i) == MetaExtOf(chunks, i)
      ensures RangeInBlob(|Joined(DocIds(chunks))|, MetaExtOf(chunks, i).docidOffset, MetaExtOf(chunks, i).docidLen)
      ensures RangeInBlob(|Joined(Jsons(chunks))|, MetaExtOf(chunks, i).metaJsonOffset,
          MetaExtOf(chunks, i).metaJsonLen)
    {
      MetaIs(chunks, codes, hash, i);
      MetaExtIs(chunks, codes, hash, i);
    }
  }

  // ----- codecs -----

  lemma LegacyLoads(files: Files, assets: Assets, h: Header)
    requires GeneratedFor(FormatV3, assets) && h.dim == 512
    requires CentroidsFile in files && files[CentroidsFile] == CentroidBytes(assets.centroids)
    requires ProjectionFile in files && files[ProjectionFile] == ProjectionBytes(assets.projection)
    ensures LegacyCodecOf(files, h) == Some(Legacy(assets.centroids, assets.projection))
  {
    hide ReadCentroids, ReadProjection, CentroidBytes, ProjectionBytes;
    CentroidsReadBack(assets.centroids);
    ProjectionReadsBack(assets.projection);
  }

  /** The loader lists the asset files in another order than the builder; the fingerprint does not care. */
  lemma SameFingerprint(config: Config, a: seq<byte>, b: seq<byte>, c: seq<byte>, sha: seq<byte> -> seq<byte>)
    requires IsSha256(sha)
    ensures
      var rotation, codebook, qjl := AssetFile(NameText(RotationFile), a), AssetFile(NameText(CodebookFile), b),
          AssetFile(NameText(QjlFile), c);
      FingerprintOf(config, [codebook, qjl, rotation], sha) == FingerprintOf(config, [rotation, codebook, qjl], sha)
  {
    hide FingerprintStream, IsSha256;
    var rotation, codebook, qjl := AssetFile(NameText(RotationFile), a), AssetFile(NameText(CodebookFile), b),
        AssetFile(NameText(QjlFile), c);
    AssetNamesDiffer();
    FingerprintIgnoresOrder(config, [codebook, qjl, rotation], [rotation, codebook, qjl], sha);
  }

  lemma AssetNamesDiffer()
    ensures NameText(RotationFile) != NameText(CodebookFile) && NameText(RotationFile) != NameText(QjlFile) &&
        NameText(CodebookFile) != NameText(QjlFile)
  {
    assert NameText(RotationFile)[0] == 'r' as int as byte && NameText(CodebookFile)[0] == 'c' as int as byte &&
        NameText(QjlFile)[0] == 'q' as int as byte;
  }

  lemma ProdLoads(files: Files, config: Config, assets: Assets, h: Header, sha: seq<byte> -> seq<byte>)
    requires IsSha256(sha) && CodecGenerates(FormatV4(config)) && GeneratedFor(FormatV4(config), assets) &&
        ConfigFits(config)
    requires h.dim == config.dim &&
        h.codec == Some(HeaderCodec(config.codecId,
        FingerprintOf(config, Named(AssetFiles(FormatV4(config), assets)), sha)))
    requires RotationFile in files && files[RotationFile] == RotationBytes(assets.rotation)
    requires QjlFile in files && files[QjlFile] == QjlBytes(assets.qjl)
    requires CodebookFile in files && files[CodebookFile] == CodebookBytes(Committed(config.dim, config.mseBits).value)
    ensures ProdCodecOf(files, h, sha) ==
        Some(Prod(config, assets.rotation, Committed(config.dim, config.mseBits).value, assets.qjl))
  {
    hide ReadRotation, ReadQjl, ReadCodebook, RotationBytes, QjlBytes, CodebookBytes, NameText, FingerprintOf,
         IsSha256, Committed;
    var codebook := Committed(config.dim, config.mseBits).value;
    CommittedFits(config.dim, config.mseBits);
    CommittedShape(config.dim, config.mseBits);
    RotationReadsBack(assets.rotation);
    CodebookReadsBack(codebook);
    QjlReadsBack(assets.qjl);
    assert ConfigOfAssets(h, assets.rotation, codebook, assets.qjl) == config;
    SameFingerprint(config, files[RotationFile], files[CodebookFile], files[QjlFile], sha);
    assert Named(AssetFiles(FormatV4(config), assets))
        == [AssetFile(NameText(CodebookFile), files[CodebookFile]), AssetFile(NameText(QjlFile), files[QjlFile]),
            AssetFile(NameText(RotationFile), files[RotationFile])];
  }

  lemma CommittedShape(dim: nat, bits: nat)
    requires Committed(dim, bits).Some?
    ensures Committed(dim, bits).value.dim == dim && Committed(dim, bits).value.bits == bits
  {
  }

  // ----- loading -----

  /** A release that `build_release` may hand over: written with the format's generated assets and fitting codes. */
  ghost predicate Written(format: Format, assets: Assets, chunks: seq<Chunk>, codes: seq<Code>, hash: Text -> nat) {
    && chunks != [] && CodecGenerates(format) && GeneratedFor(format, assets) && ConfigFits(ConfigOf(format))
    && CodesFit(format, chunks, codes) && InMachine(chunks, codes, hash)
  }

  function CodecFor(format: Format, assets: Assets): IndexCodec
    requires format.FormatV3? == assets.LegacyAssets? && CodecGenerates(format)
  {
    match format
    case FormatV3 => Legacy(assets.centroids, assets.projection)
    case FormatV4(config) => Prod(config, assets.rotation, Committed(config.dim, config.mseBits).value, assets.qjl)
  }

  lemma AssetsMatchFormat(format: Format, assets: Assets)
    requires GeneratedFor(format, assets)
    ensures format.FormatV3? == assets.LegacyAssets?
  {
  }

  /** The image files, whichever assets are added. */
  lemma ImageOf(format: Format, assets: Assets, chunks: seq<Chunk>, codes: seq<Code>, hash: Text -> nat,
      sha: seq<byte> -> seq<byte>)
    requires format.FormatV3? == assets.LegacyAssets? && IsSha256(sha) && |chunks| == |codes|
    ensures
      var files := FilesOf(format, assets, chunks, codes, hash, sha);
      && HasMain(files) && HasSidecars(files)
      && files[TurboStaticFile] ==
          HeaderBytes(HeaderOf(format, assets, |chunks|, sha)) + Joined(RecordParts(chunks, codes, hash))
      && files[MetaFile] == Joined(MetaParts(chunks, hash)) && files[TextFile] == Joined(Texts(chunks)) &&
          files[TitleFile] == Joined(Titles(chunks))
      && files[MetaExtFile] == Joined(MetaExtParts(chunks)) && files[DocidFile] == Joined(DocIds(chunks)) &&
          files[MetaJsonFile] == Joined(Jsons(chunks))
  {
    hide HeaderBytes, HeaderOf, Joined, RecordParts, MetaParts, MetaExtParts, Texts, Titles, DocIds, Jsons,
         CentroidBytes, ProjectionBytes, RotationBytes, CodebookBytes, QjlBytes, Committed;
  }

  lemma AssetsOf(format: Format, assets: Assets, chunks: seq<Chunk>, codes: seq<Code>, hash: Text -> nat,
      sha: seq<byte> -> seq<byte>)
    requires format.FormatV3? == assets.LegacyAssets? && IsSha256(sha) && |chunks| == |codes| && CodecGenerates(format)
    ensures
      var files := FilesOf(format, assets, chunks, codes, hash, sha);
      match format
      case FormatV3 =>
        && CentroidsFile in files && files[CentroidsFile] == CentroidBytes(assets.centroids)
        && ProjectionFile in files && files[ProjectionFile] == ProjectionBytes(assets.projection)
      case FormatV4(config) =>
        && RotationFile in files && files[RotationFile] == RotationBytes(assets.rotation)
        && QjlFile in files && files[QjlFile] == QjlBytes(assets.qjl)
        && CodebookFile in files && files[CodebookFile] == CodebookBytes(Committed(config.dim, config.mseBits).value)
  {
    hide HeaderBytes, HeaderOf, Joined, RecordParts, MetaParts, MetaExtParts, Texts, Titles, DocIds, Jsons,
         CentroidBytes, ProjectionBytes, RotationBytes, CodebookBytes, QjlBytes, Committed, HoldsCodesOf;
  }

  lemma CodecLoads(format: Format, assets: Assets, chunks: seq<Chunk>, codes: seq<Code>, hash: Text -> nat,
      sha: seq<byte> -> seq<byte>)
    requires IsSha256(sha) && Written(format, assets, chunks, codes, hash) &&
        format.FormatV3? == assets.LegacyAssets? && |chunks| == |codes|
    ensures CodecOf(FilesOf(format, assets, chunks, codes, hash, sha), HeaderOf(format, assets, |chunks|, sha),
        LayoutFor(format), sha)
            == Some(CodecFor(format, assets))
  {
    hide FilesOf, ProdCodecOf, LegacyCodecOf, FingerprintOf, InMachine, CodesFit, IsSha256;
    AssetsOf(format, assets, chunks, codes, hash, sha);
    var files := FilesOf(format, assets, chunks, codes, hash, sha);
    match format
    case FormatV3 => LegacyLoads(files, assets, HeaderOf(format, assets, |chunks|, sha));
    case FormatV4(config) => ProdLoads(files, config, assets, HeaderOf(format, assets, |chunks|, sha), sha);
  }

  lemma HeaderLoads(format: Format, assets: Assets, count: nat, records: seq<byte>, sha: seq<byte> -> seq<byte>)
    requires IsSha256(sha) && format.FormatV3? == assets.LegacyAssets? && CodecGenerates(format)
    requires |records| == RECORD_SIZE * count && HEADER_SIZE + RECORD_SIZE * count < U64_LIMIT
    ensures
      var h := HeaderOf(format, assets, count, sha);
      var bin := HeaderBytes(h) + records;
      && |HeaderBytes(h)| == HEADER_SIZE && FromBytes(bin[..HEADER_SIZE]) == Parsed(h) &&
          LayoutOf(h) == Parsed(LayoutFor(format))
      && ExpectedFileSize(h) == Parsed(|bin|) && h.recordCount == count
  {
    hide FromBytes, HeaderBytes, HeaderOf, LayoutOf, ExpectedFileSize, IsSha256;
    var h := HeaderOf(format, assets, count, sha);
    HeaderIsWellFormed(format, assets, count, sha);
    HeaderFits(format, assets, count, sha);
    WrittenHeaderParses(h, records);
  }

  lemma WrittenHeaderParses(h: Header, records: seq<byte>)
    requires WellFormed(h)
    ensures |HeaderBytes(h)| == HEADER_SIZE && FromBytes((HeaderBytes(h) + records)[..HEADER_SIZE]) == Parsed(h)
  {
    hide FromBytes, HeaderBytes, WellFormed, Magic, Le, CodecBytes;
    FieldsOf(h);
    HeaderReadsBack(h, []);
    assert (HeaderBytes(h) + records)[..HEADER_SIZE] == HeaderBytes(h) + [];
  }

  lemma HeaderFits(format: Format, assets: Assets, count: nat, sha: seq<byte> -> seq<byte>)
    requires IsSha256(sha) && format.FormatV3? == assets.LegacyAssets? && CodecGenerates(format)
    requires HEADER_SIZE + RECORD_SIZE * count < U64_LIMIT
    ensures
      var h := HeaderOf(format, assets, count, sha);
      && LayoutOf(h) == Parsed(LayoutFor(format)) && ExpectedFileSize(h) == Parsed(RECORD_SIZE * count + HEADER_SIZE) &&
          h.recordCount == count
  {
    hide ExpectedFileSize, FingerprintOf, IsSha256, HoldsCodesOf, Committed, AssetFiles, Named;
    SizeFits(HeaderOf(format, assets, count, sha));
  }

  lemma SizeFits(h: Header)
    requires LayoutOf(h).Parsed? && HEADER_SIZE + RECORD_SIZE * h.recordCount < U64_LIMIT
    ensures ExpectedFileSize(h) == Parsed(RECORD_SIZE * h.recordCount + HEADER_SIZE)
  {
  }

  /** Every written release loads, with the header, layout and codec it was written with. */
  lemma WrittenReleaseLoads(format: Format, assets: Assets, chunks: seq<Chunk>, codes: seq<Code>, hash: Text -> nat,
      sha: seq<byte> -> seq<byte>)
    requires IsSha256(sha) && Written(format, assets, chunks, codes, hash) &&
        format.FormatV3? == assets.LegacyAssets? && |chunks| == |codes|
    ensures LoadsAs(FilesOf(format, assets, chunks, codes, hash, sha), HeaderOf(format, assets, |chunks|, sha),
        LayoutFor(format), sha)
    ensures IndexOf(FilesOf(format, assets, chunks, codes, hash, sha), HeaderOf(format, assets, |chunks|, sha),
        LayoutFor(format), sha).codec
            == CodecFor(format, assets)
  {
    hide FilesOf, FromBytes, HeaderBytes, HeaderOf, LayoutOf, ExpectedFileSize, CodecOf, CodecFor, CodecGenerates,
         GeneratedFor, CodesFit, Joined, RecordParts, MetaParts, MetaExtParts, Texts, Titles, DocIds, Jsons,
         MetaRangesOk, MetaExtRangesOk, IsSha256;
    RecordsSize(format, chunks, codes, hash);
    HeaderLoads(format, assets, |chunks|, Joined(RecordParts(chunks, codes, hash)), sha);
    RangesAreOk(chunks, codes, hash);
    ImageOf(format, assets, chunks, codes, hash, sha);
    CodecLoads(format, assets, chunks, codes, hash, sha);
  }

  // ----- reading back -----

  ghost function Loaded(format: Format, assets: Assets, chunks: seq<Chunk>, codes: seq<Code>, hash: Text -> nat,
      sha: seq<byte> -> seq<byte>): (ix: Index)
    requires IsSha256(sha) && Written(format, assets, chunks, codes, hash) &&
        format.FormatV3? == assets.LegacyAssets? && |chunks| == |codes|
    ensures Valid(ix) && ix.header.recordCount == |chunks| && ix.layout == LayoutFor(format)
  {
    WrittenReleaseLoads(format, assets, chunks, codes, hash, sha);
    LoadedIsValid(FilesOf(format, assets, chunks, codes, hash, sha), HeaderOf(format, assets, |chunks|, sha),
        LayoutFor(format), sha);
    IndexOf(FilesOf(format, assets, chunks, codes, hash, sha), HeaderOf(format, assets, |chunks|, sha),
        LayoutFor(format), sha)
  }

  /** A part's first bytes are the whole part exactly when they are as many as it has. */
  lemma PartialSlice(parts: seq<Text>, i: nat, n: nat)
    requires i < |parts| && n <= |parts[i]| && |Joined(parts)| < U64_LIMIT
    ensures Offset(parts, i) + n <= |Joined(parts)|
    ensures RangeInBlob(|Joined(parts)|, Offset(parts, i), n)
    ensures Slice(Joined(parts), Offset(parts, i), n) == parts[i][..n]
  {
    hide Joined;
    PartAt(parts, i);
    SliceOfSlice(Joined(parts), Offset(parts, i), |parts[i]|, n);
  }

  lemma SliceOfSlice(s: seq<byte>, o: nat, m: nat, n: nat)
    requires o + m <= |s| && n <= m
    ensures s[o..o + n] == s[o..o + m][..n]
  {
  }

  /** `n as u32` keeps n exactly below 2^32. */
  lemma TruncatedLength(t: Text)
    ensures AsU32(|t|) <= |t|
    ensures t[..AsU32(|t|)] == t <==> |t| < U32_LIMIT
  {
    assert |t[..AsU32(|t|)]| == AsU32(|t|);
  }

  /** Record i of a loaded release: its code always reads back; its text, title, doc_id and metadata read back exactly
      when they are shorter than 2^32 bytes, since longer lengths were cut to 32 bits. An empty title reads as none. */
  lemma ReleaseReadsBack(format: Format, assets: Assets, chunks: seq<Chunk>, codes: seq<Code>, hash: Text -> nat,
      sha: seq<byte> -> seq<byte>, i: nat)
    requires IsSha256(sha) && Written(format, assets, chunks, codes, hash) &&
        format.FormatV3? == assets.LegacyAssets? && |chunks| == |codes|
    requires i < |chunks|
    ensures
      var ix := Loaded(format, assets, chunks, codes, hash, sha);
      && RecordOf(ix, i) == TurboRecord(hash(chunks[i].docId), codes[i])
      && MetaAt(ix.meta, i).docId == hash(chunks[i].docId) && MetaAt(ix.meta, i).corpusType == chunks[i].corpusType
      && (TextBytes(ix, i) == chunks[i].text <==> |chunks[i].text| < U32_LIMIT)
      && (TitleBytes(ix, i) == (if TitleOf(chunks[i]) == [] then None else chunks[i].title) <==>
          |TitleOf(chunks[i])| < U32_LIMIT)
      && (DocIdBytes(ix, i) == Some(chunks[i].docId) <==> |chunks[i].docId| < U32_LIMIT)
      && (MetadataBytes(ix, i) == Some(chunks[i].metaJson) <==> |chunks[i].metaJson| < U32_LIMIT)
  {
    hide Written, RecordOf, TextBytes, TitleBytes, DocIdBytes, MetadataBytes, Loaded;
    CodeReadsBack(format, assets, chunks, codes, hash, sha, i);
    MainReadsBack(format, assets, chunks, codes, hash, sha, i);
    SidecarsReadBack(format, assets, chunks, codes, hash, sha, i);
  }

  /** The loaded index holds the joined parts. */
  lemma LoadedHolds(format: Format, assets: Assets, chunks: seq<Chunk>, codes: seq<Code>, hash: Text -> nat,
      sha: seq<byte> -> seq<byte>)
    requires IsSha256(sha) && Written(format, assets, chunks, codes, hash) &&
        format.FormatV3? == assets.LegacyAssets? && |chunks| == |codes|
    ensures
      var ix := Loaded(format, assets, chunks, codes, hash, sha);
      && ix.bin == HeaderBytes(HeaderOf(format, assets, |chunks|, sha)) + Joined(RecordParts(chunks, codes, hash))
      && |HeaderBytes(HeaderOf(format, assets, |chunks|, sha))| == HEADER_SIZE
      && ix.meta == Joined(MetaParts(chunks, hash)) && ix.text == Joined(Texts(chunks)) &&
          ix.title == Joined(Titles(chunks))
      && ix.sidecars == Some(Sidecars(Joined(MetaExtParts(chunks)), Joined(DocIds(chunks)), Joined(Jsons(chunks))))
  {
    hide FilesOf, FromBytes, HeaderBytes, HeaderOf, LayoutOf, ExpectedFileSize, CodecOf, CodecGenerates, GeneratedFor,
         CodesFit, Joined, RecordParts, MetaParts, MetaExtParts, Texts, Titles, DocIds, Jsons, MetaRangesOk,
         MetaExtRangesOk, IsSha256;
    WrittenReleaseLoads(format, assets, chunks, codes, hash, sha);
    ImageOf(format, assets, chunks, codes, hash, sha);
    RecordsSize(format, chunks, codes, hash);
    HeaderLoads(format, assets, |chunks|, Joined(RecordParts(chunks, codes, hash)), sha);
  }

  lemma CodeReadsBack(format: Format, assets: Assets, chunks: seq<Chunk>, codes: seq<Code>, hash: Text -> nat,
      sha: seq<byte> -> seq<byte>, i: nat)
    requires IsSha256(sha) && Written(format, assets, chunks, codes, hash) &&
        format.FormatV3? == assets.LegacyAssets? && |chunks| == |codes|
    requires i < |chunks|
    ensures RecordOf(Loaded(format, assets, chunks, codes, hash, sha), i) ==
        TurboRecord(hash(chunks[i].docId), codes[i])
  {
    hide Loaded, HeaderBytes, HeaderOf, Joined, RecordParts, ReadRecord, MetaParts, MetaExtParts, Texts, Titles,
         DocIds, Jsons, IsSha256, Valid;
    LoadedHolds(format, assets, chunks, codes, hash, sha);
    RecordAt(format, HeaderBytes(HeaderOf(format, assets, |chunks|, sha)), chunks, codes, hash, i);
    LoadedSize(Loaded(format, assets, chunks, codes, hash, sha));
  }

  lemma LoadedSize(ix: Index)
    requires Valid(ix)
    ensures |ix.bin| == HEADER_SIZE + RECORD_SIZE * ix.header.recordCount
  {
  }

  lemma MainReadsBack(format: Format, assets: Assets, chunks: seq<Chunk>, codes: seq<Code>, hash: Text -> nat,
      sha: seq<byte> -> seq<byte>, i: nat)
    requires IsSha256(sha) && Written(format, assets, chunks, codes, hash) &&
        format.FormatV3? == assets.LegacyAssets? && |chunks| == |codes|
    requires i < |chunks|
    ensures
      var ix := Loaded(format, assets, chunks, codes, hash, sha);
      && MetaAt(ix.meta, i).docId == hash(chunks[i].docId) && MetaAt(ix.meta, i).corpusType == chunks[i].corpusType
      && (TextBytes(ix, i) == chunks[i].text <==> |chunks[i].text| < U32_LIMIT)
      && (TitleBytes(ix, i) == (if TitleOf(chunks[i]) == [] then None else chunks[i].title) <==>
          |TitleOf(chunks[i])| < U32_LIMIT)
  {
    hide Loaded, HeaderBytes, HeaderOf, Joined, RecordParts, MetaParts, MetaExtParts, MetaAt, DocIds, Jsons, IsSha256,
         Slice, MetaRangesOk, MetaExtRangesOk;
    LoadedHolds(format, assets, chunks, codes, hash, sha);
    MetaIs(chunks, codes, hash, i);
    PartialSlice(Texts(chunks), i, AsU32(|chunks[i].text|));
    PartialSlice(Titles(chunks), i, AsU32(|TitleOf(chunks[i])|));
    TruncatedLength(chunks[i].text);
    TruncatedLength(TitleOf(chunks[i]));
  }

  lemma SidecarsReadBack(format: Format, assets: Assets, chunks: seq<Chunk>, codes: seq<Code>, hash: Text -> nat,
      sha: seq<byte> -> seq<byte>, i: nat)
    requires IsSha256(sha) && Written(format, assets, chunks, codes, hash) &&
        format.FormatV3? == assets.LegacyAssets? && |chunks| == |codes|
    requires i < |chunks|
    ensures
      var ix := Loaded(format, assets, chunks, codes, hash, sha);
      && (DocIdBytes(ix, i) == Some(chunks[i].docId) <==> |chunks[i].docId| < U32_LIMIT)
      && (MetadataBytes(ix, i) == Some(chunks[i].metaJson) <==> |chunks[i].metaJson| < U32_LIMIT)
  {
    hide Loaded, HeaderBytes, HeaderOf, Joined, RecordParts, MetaParts, MetaExtParts, MetaExtAt, Texts, Titles,
         IsSha256, Slice, MetaRangesOk, MetaExtRangesOk;
    LoadedHolds(format, assets, chunks, codes, hash, sha);
    MetaExtIs(chunks, codes, hash, i);
    PartialSlice(DocIds(chunks), i, AsU32(|chunks[i].docId|));
    PartialSlice(Jsons(chunks), i, AsU32(|chunks[i].metaJson|));
    TruncatedLength(chunks[i].docId);
    TruncatedLength(chunks[i].metaJson);
  }
}
