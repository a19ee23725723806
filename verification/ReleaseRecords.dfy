/** The fixed-size records of a static release: codes (src/index/record.rs), text and title ranges (src/index/meta.rs)
    and doc_id and metadata ranges (src/index/meta_ext.rs), as their little-endian `repr(C)` bytes. */
module ReleaseRecords {
  import opened Wrappers
  import opened Bytes
  import opened TurboHeader

  const META_RECORD_SIZE: nat := 40
  const META_EXT_RECORD_SIZE: nat := 24

  /** A code as stored; gamma and norm are f32 bits. Legacy records store no norm. */
  datatype Code = Code(idx: seq<byte>, signs: seq<byte>, gamma: nat, norm: Option<nat>)

  datatype TurboRecord = TurboRecord(docId: nat, code: Code)

  datatype MetaRecord = MetaRecord(docId: nat, textOffset: nat, titleOffset: nat, textLen: nat, titleLen: nat,
      corpusType: byte)

  datatype MetaExtRecord = MetaExtRecord(docidOffset: nat, metaJsonOffset: nat, docidLen: nat, metaJsonLen: nat)

  // ----- code records -----

  predicate RecordFits(r: TurboRecord) {
    && r.docId < U64_LIMIT && |r.code.idx| == 128 && |r.code.signs| == 64 && r.code.gamma < U32_LIMIT
    && (r.code.norm.Some? ==> r.code.norm.value < U32_LIMIT)
  }

  /** A v4 record has the norm where a v2 or v3 record has four reserved zero bytes. */
  function NormBytes(norm: Option<nat>): (b: seq<byte>)
    ensures |b| == 4
  {
    match norm case Some(n) => Le(n, 4) case None => Zeros(4)
  }

  function RecordBytes(r: TurboRecord): seq<byte> {
    Le(r.docId, 8) + r.code.idx + r.code.signs + Le(r.code.gamma, 4) + NormBytes(r.code.norm)
  }

  /** `TurboRecordRef`: field reads at the layout's offsets. */
  function ReadRecord(data: seq<byte>, layout: Layout): TurboRecord
    requires |data| >= RECORD_SIZE
  {
    TurboRecord(LeValue(data[0..8]),
      Code(data[8..136], data[136..200], LeValue(data[200..204]),
          if layout.V4Dim512? then Some(LeValue(data[204..208])) else None))
  }

  lemma RecordReadsBack(r: TurboRecord, layout: Layout)
    requires RecordFits(r) && (r.code.norm.Some? <==> layout.V4Dim512?)
    ensures |RecordBytes(r)| == RECORD_SIZE && ReadRecord(RecordBytes(r), layout) == r
  {
    hide Le, LeValue, NormBytes;
    var a := Le(r.docId, 8) + r.code.idx;
    var b := a + r.code.signs;
    var c := b + Le(r.code.gamma, 4);
    var data := c + NormBytes(r.code.norm);
    assert data[204..208] == NormBytes(r.code.norm) && data[..204] == c;
    assert c[200..204] == Le(r.code.gamma, 4) && c[..200] == b;
    assert b[136..200] == r.code.signs && b[..136] == a;
    assert a[0..8] == Le(r.docId, 8) && a[8..136] == r.code.idx;
    assert data[0..8] == a[0..8] && data[8..136] == a[8..136] && data[136..200] == b[136..200] &&
        data[200..204] == c[200..204];
    U64ReadsBack(r.docId);
    U32ReadsBack(r.code.gamma);
    NormReadsBack(r.code.norm);
  }

  lemma NormReadsBack(norm: Option<nat>)
    requires norm.Some? ==> norm.value < U32_LIMIT
    ensures norm.Some? ==> LeValue(NormBytes(norm)) == norm.value
  {
    if norm.Some? {
      U32ReadsBack(norm.value);
    }
  }

  // ----- meta records -----

  predicate MetaFits(m: MetaRecord) {
    m.docId < U64_LIMIT && m.textOffset < U64_LIMIT && m.titleOffset < U64_LIMIT && m.textLen < U32_LIMIT &&
        m.titleLen < U32_LIMIT
  }

  function MetaBytes(m: MetaRecord): (b: seq<byte>)
    ensures |b| == META_RECORD_SIZE
  {
    Le(m.docId, 8) + Le(m.textOffset, 8) + Le(m.titleOffset, 8) + Le(m.textLen, 4) + Le(m.titleLen, 4) +
        [m.corpusType] + Zeros(7)
  }

  function ReadMeta(data: seq<byte>): MetaRecord
    requires |data| == META_RECORD_SIZE
  {
    MetaRecord(LeValue(data[0..8]), LeValue(data[8..16]), LeValue(data[16..24]), LeValue(data[24..28]),
        LeValue(data[28..32]), data[32])
  }

  lemma MetaReadsBack(m: MetaRecord)
    requires MetaFits(m)
    ensures ReadMeta(MetaBytes(m)) == m
  {
    hide Le, LeValue;
    var a := Le(m.docId, 8) + Le(m.textOffset, 8);
    var b := a + Le(m.titleOffset, 8);
    var c := b + Le(m.textLen, 4);
    var d := c + Le(m.titleLen, 4);
    var e := d + [m.corpusType];
    var data := e + Zeros(7);
    assert data[32] == m.corpusType && data[..32] == d;
    assert d[28..32] == Le(m.titleLen, 4) && d[..28] == c;
    assert c[24..28] == Le(m.textLen, 4) && c[..24] == b;
    assert b[16..24] == Le(m.titleOffset, 8) && b[..16] == a;
    assert a[0..8] == Le(m.docId, 8) && a[8..16] == Le(m.textOffset, 8);
    assert data[0..8] == a[0..8] && data[8..16] == a[8..16] && data[16..24] == b[16..24] && data[24..28] == c[24..28] &&
        data[28..32] == d[28..32];
    U64ReadsBack(m.docId);
    U64ReadsBack(m.textOffset);
    U64ReadsBack(m.titleOffset);
    U32ReadsBack(m.textLen);
    U32ReadsBack(m.titleLen);
  }

  // ----- meta ext records -----

  predicate MetaExtFits(m: MetaExtRecord) {
    m.docidOffset < U64_LIMIT && m.metaJsonOffset < U64_LIMIT && m.docidLen < U32_LIMIT && m.metaJsonLen < U32_LIMIT
  }

  function MetaExtBytes(m: MetaExtRecord): (b: seq<byte>)
    ensures |b| == META_EXT_RECORD_SIZE
  {
    Le(m.docidOffset, 8) + Le(m.metaJsonOffset, 8) + Le(m.docidLen, 4) + Le(m.metaJsonLen, 4)
  }

  function ReadMetaExt(data: seq<byte>): MetaExtRecord
    requires |data| == META_EXT_RECORD_SIZE
  {
    MetaExtRecord(LeValue(data[0..8]), LeValue(data[8..16]), LeValue(data[16..20]), LeValue(data[20..24]))
  }

  lemma MetaExtReadsBack(m: MetaExtRecord)
    requires MetaExtFits(m)
    ensures ReadMetaExt(MetaExtBytes(m)) == m
  {
    hide Le, LeValue;
    var a := Le(m.docidOffset, 8) + Le(m.metaJsonOffset, 8);
    var b := a + Le(m.docidLen, 4);
    var data := b + Le(m.metaJsonLen, 4);
    assert data[20..24] == Le(m.metaJsonLen, 4) && data[..20] == b;
    assert b[16..20] == Le(m.docidLen, 4) && b[..16] == a;
    assert a[0..8] == Le(m.docidOffset, 8) && a[8..16] == Le(m.metaJsonOffset, 8);
    assert data[0..8] == a[0..8] && data[8..16] == a[8..16] && data[16..20] == b[16..20];
    U64ReadsBack(m.docidOffset);
    U64ReadsBack(m.metaJsonOffset);
    U32ReadsBack(m.docidLen);
    U32ReadsBack(m.metaJsonLen);
  }
}
