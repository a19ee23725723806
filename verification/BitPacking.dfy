/** The packed codes of src/index/turbo_prod.rs, qjl.rs and turbo_codec.rs: four 2-bit
    indices a byte and eight sign bits a byte, both least significant first. */
module BitPacking {

  type Byte = bv8

  /** `v << 2*slot` */
  function ShiftIn(v: Byte, slot: nat): Byte
    requires slot < 4
  {
    if slot == 0 then v else if slot == 1 then v << 2 else if slot == 2 then v << 4 else v << 6
  }

  /** `(b >> 2*slot) & 3` */
  function SlotOf(b: Byte, slot: nat): Byte
    requires slot < 4
  {
    (if slot == 0 then b else if slot == 1 then b >> 2 else if slot == 2 then b >> 4 else b >> 6) & 3
  }

  /** `1 << bit` */
  function BitMask(bit: nat): Byte
    requires bit < 8
  {
    if bit == 0 then 1 else if bit == 1 then 2 else if bit == 2 then 4 else if bit == 3 then 8
    else if bit == 4 then 16 else if bit == 5 then 32 else if bit == 6 then 64 else 128
  }

  /** `(b >> bit) & 1 == 1` */
  predicate BitOf(b: Byte, bit: nat)
    requires bit < 8
  {
    b & BitMask(bit) != 0
  }

  /** A byte holds its four codes in base 4, the first being the lowest digit. */
  lemma SlotsSpellByte(b: Byte)
    ensures b == SlotOf(b, 0) + 4 * SlotOf(b, 1) + 16 * SlotOf(b, 2) + 64 * SlotOf(b, 3)
    ensures SlotOf(b, 0) < 4 && SlotOf(b, 1) < 4 && SlotOf(b, 2) < 4 && SlotOf(b, 3) < 4
  {
  }

  function BitValue(b: Byte, bit: nat): Byte
    requires bit < 8
  {
    if BitOf(b, bit) then 1 else 0
  }

  /** A byte holds its eight bits in base 2, the first being the lowest digit. */
  lemma BitsSpellByte(b: Byte)
    ensures b == BitValue(b, 0) + 2 * BitValue(b, 1) + 4 * BitValue(b, 2) + 8 * BitValue(b, 3)
        + 16 * BitValue(b, 4) + 32 * BitValue(b, 5) + 64 * BitValue(b, 6) + 128 * BitValue(b, 7)
  {
  }

  /** Bytes for `n` 2-bit codes. */
  function IdxLen(n: nat): (len: nat)
    ensures n <= 4 * len < n + 4
  {
    (n + 3) / 4
  }

  /** Bytes for `n` sign bits. */
  function SignsLen(n: nat): (len: nat)
    ensures n <= 8 * len < n + 8
  {
    (n + 7) / 8
  }

  /** How many of `n` codes the chunk starting at code `start` holds. */
  function ChunkLen(n: nat, start: nat, perByte: nat): (len: nat)
    requires start <= n
    ensures len <= perByte && start + len <= n
    ensures len == perByte || start + len == n
  {
    if start + perByte <= n then perByte else n - start
  }

  function IdxAt(bytes: seq<Byte>, i: nat): Byte
    requires i < 4 * |bytes|
  {
    SlotOf(bytes[i / 4], i % 4)
  }

  predicate SignAt(bytes: seq<Byte>, j: nat)
    requires j < 8 * |bytes|
  {
    BitOf(bytes[j / 8], j % 8)
  }

  function Value2(b: Byte): (n: nat)
    ensures n < 4
    ensures b <= 3 ==> n == b as nat
  {
    if b == 0 then 0 else if b == 1 then 1 else if b == 2 then 2 else 3
  }

  function Code2(n: nat): (b: Byte)
    requires n < 4
    ensures b <= 3 && Value2(b) == n
  {
    if n == 0 then 0 else if n == 1 then 1 else if n == 2 then 2 else 3
  }

  /** `bytes[i/4] |= v << 2*(i%4)` */
  function PutIdx(bytes: seq<Byte>, i: nat, v: Byte): (r: seq<Byte>)
    requires i < 4 * |bytes|
    ensures |r| == |bytes|
  {
    bytes[i / 4 := bytes[i / 4] | ShiftIn(v, i % 4)]
  }

  /** `bytes[j/8] |= 1 << j%8`, when set */
  function PutSign(bytes: seq<Byte>, j: nat, isSet: bool): (r: seq<Byte>)
    requires j < 8 * |bytes|
    ensures |r| == |bytes|
  {
    if isSet then bytes[j / 8 := bytes[j / 8] | BitMask(j % 8)] else bytes
  }

  lemma SlotAfterPut(b: Byte, v: Byte, slot: nat, other: nat)
    requires slot < 4 && other < 4 && v <= 3 && SlotOf(b, slot) == 0
    ensures SlotOf(b | ShiftIn(v, slot), other) == if slot == other then v else SlotOf(b, other)
  {
  }

  lemma BitAfterPut(b: Byte, bit: nat, other: nat)
    requires bit < 8 && other < 8
    ensures BitOf(b | BitMask(bit), other) == (bit == other || BitOf(b, other))
  {
  }

  lemma SlotsAreCodes(b: Byte, slot: nat)
    requires slot < 4
    ensures SlotOf(b, slot) <= 3 && SlotOf(0, slot) == 0
  {
  }

  /** Writing an index into a clear slot changes that index and no other. */
  lemma ReadAfterPutIdx(bytes: seq<Byte>, i: nat, v: Byte, k: nat)
    requires i < 4 * |bytes| && k < 4 * |bytes| && v <= 3 && IdxAt(bytes, i) == 0
    ensures IdxAt(PutIdx(bytes, i, v), k) == if k == i then v else IdxAt(bytes, k)
  {
    if k / 4 == i / 4 {
      SlotAfterPut(bytes[i / 4], v, i % 4, k % 4);
    }
  }

  /** Writing a sign bit sets that bit and no other. */
  lemma ReadAfterPutSign(bytes: seq<Byte>, j: nat, isSet: bool, k: nat)
    requires j < 8 * |bytes| && k < 8 * |bytes|
    ensures SignAt(PutSign(bytes, j, isSet), k) == ((k == j && isSet) || SignAt(bytes, k))
  {
    if isSet && k / 8 == j / 8 {
      BitAfterPut(bytes[j / 8], j % 8, k % 8);
    }
  }

  /** The packed signs as +1 and -1. */
  ghost function DecodedSigns(signs: seq<Byte>, m: nat): (z: seq<real>)
    requires m <= 8 * |signs|
    ensures |z| == m && forall j :: 0 <= j < m ==> z[j] == if SignAt(signs, j) then 1.0 else -1.0
  {
    seq(m, j requires 0 <= j < m => if SignAt(signs, j) then 1.0 else -1.0)
  }

  /** `write_idx`: ors an index into its slot. A clear slot then reads back the index; no other slot changes. */
  method WriteIdx(bytes: array<Byte>, i: nat, v: Byte)
    requires i < 4 * bytes.Length && v <= 3 && IdxAt(bytes[..], i) == 0
    modifies bytes
    ensures forall k :: 0 <= k < 4 * bytes.Length ==>
        IdxAt(bytes[..], k) == if k == i then v else IdxAt(old(bytes[..]), k)
  {
    hide SlotOf, ShiftIn;
    ghost var before := bytes[..];
    bytes[i / 4] := bytes[i / 4] | ShiftIn(v, i % 4);
    assert bytes[..] == PutIdx(before, i, v);
    forall k | 0 <= k < 4 * bytes.Length
      ensures IdxAt(bytes[..], k) == if k == i then v else IdxAt(before, k)
    {
      ReadAfterPutIdx(before, i, v, k);
    }
  }

  /** `write_sign_bit`: sets bit j if asked to; no other bit changes. */
  method WriteSignBit(bytes: array<Byte>, j: nat, isSet: bool)
    requires j < 8 * bytes.Length
    modifies bytes
    ensures forall k :: 0 <= k < 8 * bytes.Length ==>
        SignAt(bytes[..], k) == ((k == j && isSet) || SignAt(old(bytes[..]), k))
  {
    hide BitOf, BitMask;
    ghost var before := bytes[..];
    if isSet {
      bytes[j / 8] := bytes[j / 8] | BitMask(j % 8);
    }
    assert bytes[..] == PutSign(before, j, isSet);
    forall k | 0 <= k < 8 * bytes.Length
      ensures SignAt(bytes[..], k) == ((k == j && isSet) || SignAt(before, k))
    {
      ReadAfterPutSign(before, j, isSet, k);
    }
  }

  /** A zeroed buffer for `n` 2-bit codes. */
  method NewIdx(n: nat) returns (bytes: array<Byte>)
    ensures fresh(bytes) && bytes.Length == IdxLen(n)
    ensures forall i :: 0 <= i < 4 * bytes.Length ==> IdxAt(bytes[..], i) == 0
  {
    bytes := new Byte[IdxLen(n)](_ => 0);
    forall i | 0 <= i < 4 * bytes.Length
      ensures IdxAt(bytes[..], i) == 0
    {
      SlotsAreCodes(0, i % 4);
    }
  }

  /** A zeroed buffer for `n` sign bits. */
  method NewSigns(n: nat) returns (bytes: array<Byte>)
    ensures fresh(bytes) && bytes.Length == SignsLen(n)
    ensures forall j :: 0 <= j < 8 * bytes.Length ==> !SignAt(bytes[..], j)
  {
    hide BitOf;
    bytes := new Byte[SignsLen(n)](_ => 0);
    forall j | 0 <= j < 8 * bytes.Length
      ensures !SignAt(bytes[..], j)
    {
      ZeroHasNoBit(j % 8);
    }
  }

  lemma ZeroHasNoBit(bit: nat)
    requires bit < 8
    ensures !BitOf(0, bit)
  {
  }
}
