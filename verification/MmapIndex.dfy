/** Loading and reading a static index directory (src/index/mmap_index.rs). A directory is the bytes of its files. */
module MmapIndex {
  import opened Wrappers
  import opened Bytes
  import opened CodecConfig
  import opened TurboHeader
  import opened ReleaseRecords
  import opened CodecAssets

  datatype FileName = CentroidsFile | ProjectionFile | CodebookFile | QjlFile | RotationFile | TurboStaticFile |
      DocidFile
    | MetaFile | MetaExtFile | MetaJsonFile | TextFile | TitleFile

  function NameText(f: FileName): Text {
    match f
    case CentroidsFile => Ascii("centroids.bin")
    case ProjectionFile => Ascii("projection.bin")
    case CodebookFile => Ascii("codebook.bin")
    case QjlFile => Ascii("qjl.bin")
    case RotationFile => Ascii("rotation.bin")
    case _ => ImageName(f)
  }

  function ImageName(f: FileName): Text {
    match f
    case DocidFile => Ascii("turbo_static_docid.bin")
    case MetaFile => Ascii("turbo_static_meta.bin")
    case MetaExtFile => Ascii("turbo_static_meta_ext.bin")
    case MetaJsonFile => Ascii("turbo_static_meta_json.bin")
    case TextFile => Ascii("turbo_static_text.bin")
    case TitleFile => Ascii("turbo_static_title.bin")
    case _ => Ascii("turbo_static.bin")
  }

  type Files = map<FileName, seq<byte>>

  datatype IndexCodec =
    | Legacy(centroids: CentroidTable, projection: ProjectionMatrix)
    | Prod(config: Config, rotation: Rotation, codebook: Codebook, qjl: QjlMatrix)

  datatype Sidecars = Sidecars(metaExt: seq<byte>, docid: seq<byte>, metaJson: seq<byte>)

  datatype Index = Index(header: Header, layout: Layout, bin: seq<byte>, meta: seq<byte>, text: seq<byte>,
      title: seq<byte>,
                         sidecars: Option<Sidecars>, codec: IndexCodec)

  // ----- ranges -----

  /** `range_in_blob`, on a 64-bit target. */
  predicate RangeInBlob(blobLen: nat, offset: nat, len: nat) {
    offset + len < U64_LIMIT && offset + len <= blobLen
  }

  function MetaAt(meta: seq<byte>, i: nat): MetaRecord
    requires META_RECORD_SIZE * i + META_RECORD_SIZE <= |meta|
  {
    ReadMeta(meta[META_RECORD_SIZE * i..META_RECORD_SIZE * i + META_RECORD_SIZE])
  }

  function MetaExtAt(metaExt: seq<byte>, i: nat): MetaExtRecord
    requires META_EXT_RECORD_SIZE * i + META_EXT_RECORD_SIZE <= |metaExt|
  {
    ReadMetaExt(metaExt[META_EXT_RECORD_SIZE * i..META_EXT_RECORD_SIZE * i + META_EXT_RECORD_SIZE])
  }

  ghost predicate MetaRangesOk(meta: seq<byte>, count: nat, textLen: nat, titleLen: nat)
    requires |meta| == META_RECORD_SIZE * count
  {
    forall i: nat :: i < count ==>
      RangeInBlob(textLen, MetaAt(meta, i).textOffset, MetaAt(meta, i).textLen)
      && RangeInBlob(titleLen, MetaAt(meta, i).titleOffset, MetaAt(meta, i).titleLen)
  }

  ghost predicate MetaExtRangesOk(metaExt: seq<byte>, count: nat, docidLen: nat, metaJsonLen: nat)
    requires |metaExt| == META_EXT_RECORD_SIZE * count
  {
    forall i: nat :: i < count ==>
      RangeInBlob(docidLen, MetaExtAt(metaExt, i).docidOffset, MetaExtAt(metaExt, i).docidLen)
      && RangeInBlob(metaJsonLen, MetaExtAt(metaExt, i).metaJsonOffset, MetaExtAt(metaExt, i).metaJsonLen)
  }

  method CheckMetaRanges(meta: seq<byte>, count: nat, textLen: nat, titleLen: nat) returns (ok: bool)
    requires |meta| == META_RECORD_SIZE * count
    ensures ok <==> MetaRangesOk(meta, count, textLen, titleLen)
  {
    hide ReadMeta, RangeInBlob;
    for i := 0 to count
      invariant forall j: nat :: j < i ==>
        RangeInBlob(textLen, MetaAt(meta, j).textOffset, MetaAt(meta, j).textLen)
        && RangeInBlob(titleLen, MetaAt(meta, j).titleOffset, MetaAt(meta, j).titleLen)
    {
      var m := MetaAt(meta, i);
      if !RangeInBlob(textLen, m.textOffset, m.textLen) || !RangeInBlob(titleLen, m.titleOffset, m.titleLen) {
        return false;
      }
    }
    return true;
  }

  method CheckMetaExtRanges(metaExt: seq<byte>, count: nat, docidLen: nat, metaJsonLen: nat) returns (ok: bool)
    requires |metaExt| == META_EXT_RECORD_SIZE * count
    ensures ok <==> MetaExtRangesOk(metaExt, count, docidLen, metaJsonLen)
  {
    hide ReadMetaExt, RangeInBlob;
    for i := 0 to count
      invariant forall j: nat :: j < i ==>
        RangeInBlob(docidLen, MetaExtAt(metaExt, j).docidOffset, MetaExtAt(metaExt, j).docidLen)
        && RangeInBlob(metaJsonLen, MetaExtAt(metaExt, j).metaJsonOffset, MetaExtAt(metaExt, j).metaJsonLen)
    {
      var m := MetaExtAt(metaExt, i);
      if !RangeInBlob(docidLen, m.docidOffset, m.docidLen) ||
          !RangeInBlob(metaJsonLen, m.metaJsonOffset, m.metaJsonLen) {
        return false;
      }
    }
    return true;
  }

  // ----- codecs -----

  /** `load_legacy_codec`. */
  function LegacyCodecOf(files: Files, h: Header): Option<IndexCodec> {
    if CentroidsFile !in files || ProjectionFile !in files then None
    else
      match (ReadCentroids(files[CentroidsFile]), ReadProjection(files[ProjectionFile]))
      case (Some(c), Some(p)) =>
        if c.dim == h.dim && c.centroidsPerDim == Pow2(LEGACY_V1.mseBits) && p.inputDim == h.dim && p.outputDim == h.dim
        then Some(Legacy(c, p)) else None
      case _ => None
  }

  /** `TurboQuantProdV1::from_assets`: the assets are the ones `config` names, with the committed codebook. */
  predicate AssetsMatch(config: Config, r: Rotation, c: Codebook, q: QjlMatrix) {
    && Validate(config).None? && config.codecId == TurboQuantProdV1 && config.mseBits == 2
    && r.dim == config.dim && r.seed == config.mseSeed && r.generatorVersion == config.generatorVersion
    && c.dim == config.dim && c.bits == config.mseBits
    && q.dim == config.dim && q.qjlDim == config.qjlDim && q.seed == config.qjlSeed &&
        q.generatorVersion == config.generatorVersion
    && Committed(config.dim, config.mseBits) == Some(c)
  }

  /** `holds_codes_of`: 128 index bytes and 64 sign bytes. */
  predicate HoldsCodesOf(config: Config) {
    (config.dim + 3) / 4 == 128 && (config.qjlDim + 7) / 8 == 64
  }

  /** The config read back from the assets' own headers. */
  function ConfigOfAssets(h: Header, r: Rotation, c: Codebook, q: QjlMatrix): Config {
    Config(TurboQuantProdV1, h.dim, c.bits, q.qjlDim, r.seed, q.seed, r.generatorVersion, NormalizeAndStore)
  }

  /** The loader's order of the asset files. */
  function LoadedAssetFiles(files: Files): seq<AssetFile>
    requires RotationFile in files && CodebookFile in files && QjlFile in files
  {
    [AssetFile(NameText(RotationFile), files[RotationFile]), AssetFile(NameText(CodebookFile), files[CodebookFile]),
     AssetFile(NameText(QjlFile), files[QjlFile])]
  }

  /** `load_prod_codec`. */
  ghost function ProdCodecOf(files: Files, h: Header, sha: seq<byte> -> seq<byte>): Option<IndexCodec>
    requires IsSha256(sha)
  {
    if RotationFile !in files || CodebookFile !in files || QjlFile !in files then None
    else
      match (ReadRotation(files[RotationFile]), ReadCodebook(files[CodebookFile]), ReadQjl(files[QjlFile]))
      case (Some(r), Some(c), Some(q)) =>
        var config := ConfigOfAssets(h, r, c, q);
        if AssetsMatch(config, r, c, q) && HoldsCodesOf(config)
           && h.codec.Some? && h.codec.value.fingerprint == FingerprintOf(config, LoadedAssetFiles(files), sha)
        then Some(Prod(config, r, c, q)) else None
      case _ => None
  }

  ghost function CodecOf(files: Files, h: Header, layout: Layout, sha: seq<byte> -> seq<byte>): Option<IndexCodec>
    requires IsSha256(sha)
  {
    if layout.V4Dim512? then ProdCodecOf(files, h, sha) else LegacyCodecOf(files, h)
  }

  // ----- what a loadable directory is -----

  predicate HasMain(files: Files) {
    TurboStaticFile in files && MetaFile in files && TextFile in files && TitleFile in files
  }

  predicate HasSidecars(files: Files) {
    MetaExtFile in files && DocidFile in files && MetaJsonFile in files
  }

  ghost predicate SidecarsOk(files: Files, count: nat) {
    && HasSidecars(files) && |files[MetaExtFile]| == META_EXT_RECORD_SIZE * count
    && MetaExtRangesOk(files[MetaExtFile], count, |files[DocidFile]|, |files[MetaJsonFile]|)
  }

  ghost predicate MainOk(files: Files, h: Header)
    requires HasMain(files)
  {
    && ExpectedFileSize(h) == Parsed(|files[TurboStaticFile]|)
    && |files[MetaFile]| == META_RECORD_SIZE * h.recordCount
    && MetaRangesOk(files[MetaFile], h.recordCount, |files[TextFile]|, |files[TitleFile]|)
  }

  /** What a directory with header `h` must hold; v2 images have no sidecars. */
  ghost predicate LoadsAs(files: Files, h: Header, layout: Layout, sha: seq<byte> -> seq<byte>)
    requires IsSha256(sha)
  {
    && HasMain(files) && |files[TurboStaticFile]| >= HEADER_SIZE
    && FromBytes(files[TurboStaticFile][..HEADER_SIZE]) == Parsed(h) && LayoutOf(h) == Parsed(layout)
    && MainOk(files, h)
    && (!layout.V2Dim512? ==> SidecarsOk(files, h.recordCount))
    && CodecOf(files, h, layout, sha).Some?
  }

  ghost function IndexOf(files: Files, h: Header, layout: Layout, sha: seq<byte> -> seq<byte>): Index
    requires IsSha256(sha) && LoadsAs(files, h, layout, sha)
  {
    Index(h, layout, files[TurboStaticFile], files[MetaFile], files[TextFile], files[TitleFile],
          if layout.V2Dim512? then None else Some(Sidecars(files[MetaExtFile], files[DocidFile], files[MetaJsonFile])),
          CodecOf(files, h, layout, sha).value)
  }

  // ----- the loader -----

  method LoadProdCodec(files: Files, h: Header, sha: seq<byte> -> seq<byte>) returns (codec: Option<IndexCodec>)
    requires IsSha256(sha)
    ensures codec == ProdCodecOf(files, h, sha)
  {
    hide ReadRotation, ReadQjl, ReadCodebook, IsSha256, FingerprintOf, Committed;
    if RotationFile !in files || CodebookFile !in files || QjlFile !in files {
      return None;
    }
    var r, q := ReadRotation(files[RotationFile]), ReadQjl(files[QjlFile]);
    var c := ParseCodebook(files[CodebookFile]);
    if r.None? || c.None? || q.None? {
      return None;
    }
    var config := ConfigOfAssets(h, r.value, c.value, q.value);
    if !AssetsMatch(config, r.value, c.value, q.value) || !HoldsCodesOf(config) {
      return None;
    }
    var actual := Fingerprint(config, LoadedAssetFiles(files), sha);
    if h.codec.None? || h.codec.value.fingerprint != actual {
      return None;
    }
    return Some(Prod(config, r.value, c.value, q.value));
  }

  method ParseCodebook(b: seq<byte>) returns (c: Option<Codebook>)
    ensures c == ReadCodebook(b)
  {
    if |b| < 12 || b[0..4] != Ascii("TQCB") || LeValue(b[4..8]) == 0 || !(1 <= LeValue(b[8..12]) <= 4) {
      return None;
    }
    var centroids := ParseValues(b[12..], CentroidCount(LeValue(b[8..12])), 1);
    if centroids.None? {
      return None;
    }
    var ascending := IsAscendingFinite(centroids.value);
    return if ascending then Some(Codebook(LeValue(b[4..8]), LeValue(b[8..12]), centroids.value)) else None;
  }

  method IsAscendingFinite(centroids: seq<nat>) returns (ok: bool)
    ensures ok <==> AscendingFinite(centroids)
  {
    hide Finite, F32Key;
    for i := 0 to |centroids|
      invariant forall j :: 0 <= j < i ==> Finite(centroids[j])
      invariant forall j :: 0 <= j < i - 1 ==> F32Key(centroids[j]) < F32Key(centroids[j + 1])
    {
      if !Finite(centroids[i]) || (i > 0 && F32Key(centroids[i - 1]) >= F32Key(centroids[i])) {
        return false;
      }
    }
    return true;
  }

  /** `load`: succeeds on exactly the directories a header's layout describes, and keeps their bytes as they are. */
  method Load(files: Files, sha: seq<byte> -> seq<byte>) returns (index: Option<Index>)
    requires IsSha256(sha)
    ensures index.Some? <==> exists h, layout :: LoadsAs(files, h, layout, sha)
    ensures index.Some? ==> LoadsAs(files, index.value.header, index.value.layout, sha)
                            && index.value == IndexOf(files, index.value.header, index.value.layout, sha)
  {
    hide MetaRangesOk, MetaExtRangesOk, FromBytes, LayoutOf, ExpectedFileSize, ProdCodecOf, LegacyCodecOf, IsSha256;
    if TurboStaticFile !in files || |files[TurboStaticFile]| < HEADER_SIZE {
      return None;
    }
    var parsed := FromBytes(files[TurboStaticFile][..HEADER_SIZE]);
    if parsed.Rejected? {
      return None;
    }
    var h := parsed.value;
    var known := LayoutOf(h);
    if known.Rejected? || !HasMain(files) {
      return None;
    }
    var layout := known.value;
    var mainOk := LoadMain(files, h);
    if !mainOk {
      return None;
    }
    var sidecars: Option<Sidecars> := None;
    if !layout.V2Dim512? {
      var sidecarsOk := LoadSidecars(files, h.recordCount);
      if !sidecarsOk {
        return None;
      }
      sidecars := Some(Sidecars(files[MetaExtFile], files[DocidFile], files[MetaJsonFile]));
    }
    var codec: Option<IndexCodec>;
    if layout.V4Dim512? {
      codec := LoadProdCodec(files, h, sha);
    } else {
      codec := LegacyCodecOf(files, h);
    }
    if codec.None? {
      return None;
    }
    assert LoadsAs(files, h, layout, sha);
    return Some(Index(h, layout, files[TurboStaticFile], files[MetaFile], files[TextFile], files[TitleFile], sidecars,
        codec.value));
  }

  method LoadMain(files: Files, h: Header) returns (ok: bool)
    requires HasMain(files)
    ensures ok <==> MainOk(files, h)
  {
    hide MetaRangesOk;
    var size := ExpectedFileSize(h);
    if size.Rejected? || |files[TurboStaticFile]| != size.value {
      return false;
    }
    if |files[MetaFile]| % META_RECORD_SIZE != 0 || |files[MetaFile]| / META_RECORD_SIZE != h.recordCount {
      return false;
    }
    ok := CheckMetaRanges(files[MetaFile], h.recordCount, |files[TextFile]|, |files[TitleFile]|);
  }

  method LoadSidecars(files: Files, count: nat) returns (ok: bool)
    ensures ok <==> SidecarsOk(files, count)
  {
    hide MetaExtRangesOk;
    if !HasSidecars(files) {
      return false;
    }
    if |files[MetaExtFile]| % META_EXT_RECORD_SIZE != 0 || |files[MetaExtFile]| / META_EXT_RECORD_SIZE != count {
      return false;
    }
    ok := CheckMetaExtRanges(files[MetaExtFile], count, |files[DocidFile]|, |files[MetaJsonFile]|);
  }

  // ----- accessors -----

  /** What `load` establishes for the accessors: every range they slice is in its blob. */
  ghost predicate Valid(ix: Index) {
    && |ix.bin| == HEADER_SIZE + RECORD_SIZE * ix.header.recordCount
    && |ix.meta| == META_RECORD_SIZE * ix.header.recordCount
    && MetaRangesOk(ix.meta, ix.header.recordCount, |ix.text|, |ix.title|)
    && (ix.sidecars.Some? ==>
          && |ix.sidecars.value.metaExt| == META_EXT_RECORD_SIZE * ix.header.recordCount
          && MetaExtRangesOk(ix.sidecars.value.metaExt, ix.header.recordCount, |ix.sidecars.value.docid|,
              |ix.sidecars.value.metaJson|))
  }

  lemma LoadedIsValid(files: Files, h: Header, layout: Layout, sha: seq<byte> -> seq<byte>)
    requires IsSha256(sha) && LoadsAs(files, h, layout, sha)
    ensures Valid(IndexOf(files, h, layout, sha))
  {
    hide MetaRangesOk, MetaExtRangesOk, FromBytes, LayoutOf, ProdCodecOf, LegacyCodecOf, IsSha256;
  }

  function Slice(blob: seq<byte>, offset: nat, len: nat): seq<byte>
    requires RangeInBlob(|blob|, offset, len)
  {
    blob[offset..offset + len]
  }

  /** `record`: the code record at 208 times its index past the header. */
  function RecordOf(ix: Index, i: nat): TurboRecord
    requires |ix.bin| == HEADER_SIZE + RECORD_SIZE * ix.header.recordCount && i < ix.header.recordCount
  {
    var start := HEADER_SIZE + RECORD_SIZE * i;
    ReadRecord(ix.bin[start..start + RECORD_SIZE], ix.layout)
  }

  function TextBytes(ix: Index, i: nat): seq<byte>
    requires Valid(ix) && i < ix.header.recordCount
  {
    var m := MetaAt(ix.meta, i);
    Slice(ix.text, m.textOffset, m.textLen)
  }

  /** A length of zero reads back as no title. */
  function TitleBytes(ix: Index, i: nat): Option<seq<byte>>
    requires Valid(ix) && i < ix.header.recordCount
  {
    var m := MetaAt(ix.meta, i);
    if m.titleLen == 0 then None else Some(Slice(ix.title, m.titleOffset, m.titleLen))
  }

  function DocIdBytes(ix: Index, i: nat): Option<seq<byte>>
    requires Valid(ix)
  {
    if ix.sidecars.None? || i >= ix.header.recordCount then None
    else
      var m := MetaExtAt(ix.sidecars.value.metaExt, i);
      Some(Slice(ix.sidecars.value.docid, m.docidOffset, m.docidLen))
  }

  function MetadataBytes(ix: Index, i: nat): Option<seq<byte>>
    requires Valid(ix)
  {
    if ix.sidecars.None? || i >= ix.header.recordCount then None
    else
      var m := MetaExtAt(ix.sidecars.value.metaExt, i);
      Some(Slice(ix.sidecars.value.metaJson, m.metaJsonOffset, m.metaJsonLen))
  }

  /** Every entry of record i is UTF-8. */
  ghost predicate RecordIsUtf8(ix: Index, i: nat, utf8: seq<byte> -> bool)
    requires Valid(ix) && i < ix.header.recordCount
  {
    && utf8(TextBytes(ix, i)) && (TitleBytes(ix, i).Some? ==> utf8(TitleBytes(ix, i).value))
    && (DocIdBytes(ix, i).Some? ==> utf8(DocIdBytes(ix, i).value))
    && (MetadataBytes(ix, i).Some? ==> utf8(MetadataBytes(ix, i).value))
  }

  /** `check_utf8`. */
  method CheckUtf8(ix: Index, utf8: seq<byte> -> bool) returns (ok: bool)
    requires Valid(ix)
    ensures ok <==> forall i: nat :: i < ix.header.recordCount ==> RecordIsUtf8(ix, i, utf8)
  {
    hide Valid, TextBytes, TitleBytes, DocIdBytes, MetadataBytes;
    for i := 0 to ix.header.recordCount
      invariant forall j: nat :: j < i ==> RecordIsUtf8(ix, j, utf8)
    {
      var title, docId, metadata := TitleBytes(ix, i), DocIdBytes(ix, i), MetadataBytes(ix, i);
      if !utf8(TextBytes(ix, i)) || (title.Some? && !utf8(title.value)) || (docId.Some? && !utf8(docId.value))
         || (metadata.Some? && !utf8(metadata.value)) {
        assert !RecordIsUtf8(ix, i, utf8);
        return false;
      }
    }
    return true;
  }
}
