/** The 32-byte header of turbo_static.bin (src/index/header.rs). */
module TurboHeader {
  import opened Wrappers
  import opened Bytes
  import opened CodecConfig

  const TURBO_VERSION_V2: nat := 2
  const TURBO_VERSION_V3: nat := 3
  const TURBO_VERSION_V4: nat := 4
  const HEADER_SIZE: nat := 32
  const RECORD_SIZE: nat := 208

  datatype HeaderCodec = HeaderCodec(codecId: TurboCodecId, fingerprint: seq<byte>)

  datatype Header = Header(version: nat, dim: nat, recordCount: nat, codec: Option<HeaderCodec>)

  datatype HeaderError = InvalidSize | InvalidMagic | InvalidDim | UnsupportedVersion | UnsupportedLayout
    | RecordCountOverflow | UnknownCodec | UnsupportedCodec

  datatype HeaderResult<T> = Parsed(value: T) | Rejected(error: HeaderError)

  datatype Layout = V2Dim512 | V3Dim512 | V4Dim512

  /** What `new`, `new_v3` and `new_v4` make. */
  predicate WellFormed(h: Header) {
    && TURBO_VERSION_V2 <= h.version <= TURBO_VERSION_V4 && 0 < h.dim < U32_LIMIT && h.recordCount < U64_LIMIT
    && (h.codec.Some? <==> h.version == TURBO_VERSION_V4)
    && (h.codec.Some? ==> |h.codec.value.fingerprint| == 8)
  }

  function Magic(): (m: seq<byte>)
    ensures |m| == 4
  {
    Ascii("TQNT")
  }

  function Zeros(n: nat): (b: seq<byte>)
    ensures |b| == n
  {
    seq(n, _ => 0 as byte)
  }

  function CodecBytes(codec: Option<HeaderCodec>): seq<byte> {
    match codec
    case Some(c) => Le(CodecCode(c.codecId), 4) + c.fingerprint
    case None => Zeros(12)
  }

  function HeaderBytes(h: Header): seq<byte> {
    Magic() + Le(h.version, 4) + Le(h.dim, 4) + Le(h.recordCount, 8) + CodecBytes(h.codec)
  }

  /** `to_bytes`: fields copied into a zeroed buffer. */
  method ToBytes(h: Header) returns (buf: array<byte>)
    requires WellFormed(h)
    ensures fresh(buf) && buf[..] == HeaderBytes(h)
  {
    hide Le, Magic;
    buf := new byte[HEADER_SIZE](_ => 0);
    ghost var p := Fill(buf, 0, [], Magic());
    assert buf[4..] == Zeros(28);
    p := Fill(buf, 4, p, Le(h.version, 4));
    assert buf[8..] == Zeros(28)[4..];
    p := Fill(buf, 8, p, Le(h.dim, 4));
    assert buf[12..] == Zeros(28)[8..];
    p := Fill(buf, 12, p, Le(h.recordCount, 8));
    assert buf[20..] == Zeros(28)[16..] == Zeros(12);
    assert [] + Magic() == Magic();
    if h.codec.Some? {
      ghost var before := p;
      p := Fill(buf, 20, p, Le(CodecCode(h.codec.value.codecId), 4));
      p := Fill(buf, 24, p, h.codec.value.fingerprint);
      Regroup(before, Le(CodecCode(h.codec.value.codecId), 4), h.codec.value.fingerprint);
      assert buf[..] == buf[..32];
    } else {
      assert buf[..] == buf[..20] + buf[20..];
    }
  }

  /** `from_bytes`. */
  function FromBytes(buf: seq<byte>): (r: HeaderResult<Header>)
    ensures r.Parsed? ==> WellFormed(r.value)
  {
    if |buf| < HEADER_SIZE then Rejected(InvalidSize)
    else if buf[0..4] != Magic() then Rejected(InvalidMagic)
    else
      U32FieldFits(buf[4..8]);
      U32FieldFits(buf[8..12]);
      U64FieldFits(buf[12..20]);
      var version, dim, count := LeValue(buf[4..8]), LeValue(buf[8..12]), LeValue(buf[12..20]);
      if version != TURBO_VERSION_V2 && version != TURBO_VERSION_V3 && version != TURBO_VERSION_V4
          then Rejected(UnsupportedVersion)
      else if dim == 0 then Rejected(InvalidDim)
      else if version == TURBO_VERSION_V4 then
        match CodecFromCode(LeValue(buf[20..24]))
        case None => Rejected(UnknownCodec)
        case Some(codecId) => Parsed(Header(version, dim, count, Some(HeaderCodec(codecId, buf[24..32]))))
      else Parsed(Header(version, dim, count, None))
  }

  lemma U32FieldFits(b: seq<byte>)
    requires |b| == 4
    ensures LeValue(b) < U32_LIMIT
  {
    Limits();
    LeWritesBack(b);
  }

  lemma U64FieldFits(b: seq<byte>)
    requires |b| == 8
    ensures LeValue(b) < U64_LIMIT
  {
    Limits();
    LeWritesBack(b);
  }

  /** Where each field of a written header is. */
  lemma FieldsOf(h: Header)
    requires WellFormed(h)
    ensures
      var b := HeaderBytes(h);
      && |b| == HEADER_SIZE && b[0..4] == Magic() && b[4..8] == Le(h.version, 4) && b[8..12] == Le(h.dim, 4)
      && b[12..20] == Le(h.recordCount, 8) && b[20..32] == CodecBytes(h.codec)
  {
    hide Le, Magic, CodecBytes;
    CodecBytesSize(h);
    var a := Magic() + Le(h.version, 4);
    var c := a + Le(h.dim, 4);
    var d := c + Le(h.recordCount, 8);
    var b := d + CodecBytes(h.codec);
    assert b[..20] == d && b[20..32] == CodecBytes(h.codec);
    assert d[..12] == c && d[12..20] == Le(h.recordCount, 8);
    assert c[..8] == a && c[8..12] == Le(h.dim, 4);
  }

  lemma CodecBytesSize(h: Header)
    requires WellFormed(h)
    ensures |CodecBytes(h.codec)| == 12
  {
  }

  /** Reading a written header gives it back, whatever follows it. */
  lemma HeaderReadsBack(h: Header, rest: seq<byte>)
    requires WellFormed(h)
    ensures FromBytes(HeaderBytes(h) + rest) == Parsed(h)
  {
    hide Le, Magic, LeValue, HeaderBytes;
    var b := HeaderBytes(h) + rest;
    FieldsOf(h);
    SliceOfPrefix(HeaderBytes(h), rest, 0, 4);
    SliceOfPrefix(HeaderBytes(h), rest, 4, 8);
    SliceOfPrefix(HeaderBytes(h), rest, 8, 12);
    SliceOfPrefix(HeaderBytes(h), rest, 12, 20);
    SliceOfPrefix(HeaderBytes(h), rest, 20, 32);
    U32ReadsBack(h.version);
    U32ReadsBack(h.dim);
    U64ReadsBack(h.recordCount);
    if h.codec.Some? {
      var codec := h.codec.value;
      var tail := Le(CodecCode(codec.codecId), 4) + codec.fingerprint;
      assert b[20..32] == tail;
      assert b[20..24] == b[20..32][0..4] && b[24..32] == b[20..32][4..12];
      assert tail[0..4] == Le(CodecCode(codec.codecId), 4) && tail[4..12] == codec.fingerprint;
      U32ReadsBack(CodecCode(codec.codecId));
      IdentifiersReadBack(codec.codecId, AsIs, CodecCode(codec.codecId), []);
    }
  }

  lemma SliceOfPrefix(a: seq<byte>, rest: seq<byte>, lo: nat, hi: nat)
    requires lo <= hi <= |a|
    ensures (a + rest)[lo..hi] == a[lo..hi]
  {
  }

  /** And an accepted v4 header is exactly what writing it gives; v2 and v3 ignore the last twelve bytes. */
  lemma HeaderWritesBack(buf: seq<byte>)
    requires FromBytes(buf).Parsed?
    ensures |buf| >= HEADER_SIZE && HeaderBytes(FromBytes(buf).value)[..20] == buf[..20]
    ensures FromBytes(buf).value.version == TURBO_VERSION_V4 ==> HeaderBytes(FromBytes(buf).value) == buf[..32]
  {
    hide Le, Magic, LeValue, HeaderBytes;
    var h := FromBytes(buf).value;
    FieldsOf(h);
    LeWritesBack(buf[4..8]);
    LeWritesBack(buf[8..12]);
    LeWritesBack(buf[12..20]);
    var b := HeaderBytes(h);
    assert b[..20] == b[0..4] + b[4..8] + b[8..12] + b[12..20];
    assert buf[..20] == buf[0..4] + buf[4..8] + buf[8..12] + buf[12..20];
    if h.version == TURBO_VERSION_V4 {
      LeWritesBack(buf[20..24]);
      IdentifiersReadBack(h.codec.value.codecId, AsIs, LeValue(buf[20..24]), []);
      assert b == b[..20] + b[20..32] && buf[..32] == buf[..20] + (buf[20..24] + buf[24..32]);
    }
  }

  // ----- layout and size -----

  /** A written header has a layout at 512 dimensions only; version 4 needs the codec whose records it holds. */
  function LayoutOf(h: Header): (r: HeaderResult<Layout>)
    ensures h.dim != 512 ==> r == Rejected(UnsupportedLayout)
    ensures h.dim == 512 && WellFormed(h) ==>
        && (r == Parsed(V2Dim512) <==> h.version == 2) && (r == Parsed(V3Dim512) <==> h.version == 3)
        && (r == Parsed(V4Dim512) <==> h.version == 4 && h.codec.value.codecId == TurboQuantProdV1)
        && (r == Rejected(UnsupportedCodec) <==> h.version == 4 && h.codec.value.codecId != TurboQuantProdV1)
  {
    if h.dim == 512 && h.version == TURBO_VERSION_V2 then Parsed(V2Dim512)
    else if h.dim == 512 && h.version == TURBO_VERSION_V3 then Parsed(V3Dim512)
    else if h.dim == 512 && h.version == TURBO_VERSION_V4 then
      match h.codec
      case Some(c) => if c.codecId == TurboQuantProdV1 then Parsed(V4Dim512) else Rejected(UnsupportedCodec)
      case None => Rejected(UnknownCodec)
    else Rejected(UnsupportedLayout)
  }

  /** `expected_file_size`: checked u64 arithmetic. Both record types are 208 bytes. */
  function ExpectedFileSize(h: Header): (r: HeaderResult<nat>)
    ensures r.Parsed? <==> LayoutOf(h).Parsed? && 208 * h.recordCount + 32 < U64_LIMIT
    ensures r.Parsed? ==> r.value == 208 * h.recordCount + 32
  {
    match LayoutOf(h)
    case Rejected(error) => Rejected(error)
    case Parsed(_) =>
      var size := h.recordCount * RECORD_SIZE;
      if size >= U64_LIMIT || size + HEADER_SIZE >= U64_LIMIT then Rejected(RecordCountOverflow)
          else Parsed(size + HEADER_SIZE)
  }
}
