/** Bytes as the writers, readers and hashers see them: little-endian integers, joined parts, and text as its UTF-8
    bytes. */
module Bytes {
  import opened Wrappers
  import opened Orders

  newtype byte = x: int | 0 <= x < 256

  type Text = seq<byte>

  const U32_LIMIT: nat := 0x1_0000_0000
  const U64_LIMIT: nat := 0x1_0000_0000_0000_0000

  // ----- little-endian integers -----

  /** `n.to_le_bytes()` of a `width`-byte integer. */
  function Le(n: nat, width: nat): (b: seq<byte>)
    ensures |b| == width
  {
    if width == 0 then [] else [(n % 256) as byte] + Le(n / 256, width - 1)
  }

  /** `from_le_bytes`. */
  function LeValue(b: seq<byte>): nat {
    if b == [] then 0 else b[0] as nat + 256 * LeValue(b[1..])
  }

  /** 256 to the `width`. */
  function Limit(width: nat): nat {
    if width == 0 then 1 else 256 * Limit(width - 1)
  }

  lemma Limits()
    ensures Limit(1) == 256 && Limit(4) == U32_LIMIT && Limit(8) == U64_LIMIT
  {
    assert Limit(2) == 256 * Limit(1) && Limit(3) == 256 * Limit(2) && Limit(4) == 256 * Limit(3);
    assert Limit(5) == 256 * Limit(4) && Limit(6) == 256 * Limit(5) && Limit(7) == 256 * Limit(6) &&
        Limit(8) == 256 * Limit(7);
  }

  lemma {:induction false} LeReadsBack(n: nat, width: nat)
    requires n < Limit(width)
    ensures LeValue(Le(n, width)) == n
  {
    if width > 0 {
      LeReadsBack(n / 256, width - 1);
    }
  }

  lemma {:induction false} LeWritesBack(b: seq<byte>)
    ensures Le(LeValue(b), |b|) == b && LeValue(b) < Limit(|b|)
  {
    if b != [] {
      LeWritesBack(b[1..]);
      assert LeValue(b) % 256 == b[0] as nat && LeValue(b) / 256 == LeValue(b[1..]);
    }
  }

  lemma U32ReadsBack(n: nat)
    requires n < U32_LIMIT
    ensures LeValue(Le(n, 4)) == n
  {
    Limits();
    LeReadsBack(n, 4);
  }

  lemma U64ReadsBack(n: nat)
    requires n < U64_LIMIT
    ensures LeValue(Le(n, 8)) == n
  {
    Limits();
    LeReadsBack(n, 8);
  }

  /** `n as u32`. */
  function AsU32(n: nat): (r: nat)
    ensures r < U32_LIMIT
  {
    n % U32_LIMIT
  }

  // ----- streams that split one way -----

  /** Two fields of one width, each followed by something. */
  lemma SplitSameSize<T>(a: seq<T>, b: seq<T>, x: seq<T>, y: seq<T>)
    requires |a| == |b| && a + x == b + y
    ensures a == b && x == y
  {
    assert (a + x)[..|a|] == a && (b + y)[..|b|] == b;
    assert (a + x)[|a|..] == x && (b + y)[|b|..] == y;
  }

  lemma Regroup<T>(a: seq<T>, b: seq<T>, c: seq<T>)
    ensures (a + b) + c == a + (b + c)
  {
  }

  lemma SplitLe(m: nat, n: nat, width: nat, x: seq<byte>, y: seq<byte>)
    requires m < Limit(width) && n < Limit(width) && Le(m, width) + x == Le(n, width) + y
    ensures m == n && x == y
  {
    SplitSameSize(Le(m, width), Le(n, width), x, y);
    LeReadsBack(m, width);
    LeReadsBack(n, width);
  }

  /** `update_len_prefixed`: an 8-byte length, then the bytes. */
  function LenPrefixed(b: seq<byte>): seq<byte> {
    Le(|b|, 8) + b
  }

  /** Fits the u64 length prefix, as everything in memory does. */
  predicate Fits(b: seq<byte>) {
    |b| < U64_LIMIT
  }

  lemma SplitLenPrefixed(a: seq<byte>, b: seq<byte>, x: seq<byte>, y: seq<byte>)
    requires Fits(a) && Fits(b) && LenPrefixed(a) + x == LenPrefixed(b) + y
    ensures a == b && x == y
  {
    hide Le, Limit, LeValue;
    Limits();
    Regroup(Le(|a|, 8), a, x);
    Regroup(Le(|b|, 8), b, y);
    SplitLe(|a|, |b|, 8, a + x, b + y);
    SplitSameSize(a, b, x, y);
  }

  // ----- joined parts -----

  function Joined<T>(parts: seq<seq<T>>): seq<T> {
    if parts == [] then [] else Joined(parts[..|parts| - 1]) + parts[|parts| - 1]
  }

  lemma JoinedStep<T>(parts: seq<seq<T>>, part: seq<T>)
    ensures Joined(parts + [part]) == Joined(parts) + part
  {
    assert (parts + [part])[..|parts|] == parts;
  }

  /** Where part i starts. */
  function Offset<T>(parts: seq<seq<T>>, i: nat): nat
    requires i <= |parts|
  {
    |Joined(parts[..i])|
  }

  /** Part i is found at its offset. */
  lemma {:induction false} PartAt<T>(parts: seq<seq<T>>, i: nat)
    requires i < |parts|
    ensures Offset(parts, i) + |parts[i]| <= |Joined(parts)|
    ensures Joined(parts)[Offset(parts, i)..Offset(parts, i) + |parts[i]|] == parts[i]
  {
    var init := parts[..|parts| - 1];
    if i < |init| {
      PartAt(init, i);
      assert init[..i] == parts[..i];
      assert Joined(parts)[Offset(parts, i)..Offset(parts, i) + |parts[i]|] ==
          Joined(init)[Offset(parts, i)..Offset(parts, i) + |parts[i]|];
    }
  }

  lemma {:induction false} FixedSizeOffset<T>(parts: seq<seq<T>>, size: nat, i: nat)
    requires i <= |parts| && forall j :: 0 <= j < |parts| ==> |parts[j]| == size
    ensures Offset(parts, i) == i * size
  {
    if i > 0 {
      FixedSizeOffset(parts, size, i - 1);
      assert parts[..i][..i - 1] == parts[..i - 1];
      assert (i - 1) * size + size == i * size;
    }
  }

  /** Records of one size: as many as were joined, and record i at i times the size. */
  lemma FixedSizeRecord<T>(parts: seq<seq<T>>, size: nat, i: nat)
    requires i < |parts| && forall j :: 0 <= j < |parts| ==> |parts[j]| == size
    ensures i * size + size <= |Joined(parts)| == |parts| * size
    ensures Joined(parts)[i * size..i * size + size] == parts[i]
  {
    PartAt(parts, i);
    FixedSizeOffset(parts, size, i);
    FixedSizeOffset(parts, size, |parts|);
    assert parts[..|parts|] == parts;
  }

  // ----- values of four bytes -----

  /** `write_values`: every f32 as its four bytes. */
  function Words(values: seq<nat>): seq<byte> {
    Joined(seq(|values|, i requires 0 <= i < |values| => Le(values[i], 4)))
  }

  ghost predicate AllU32(values: seq<nat>) {
    forall i :: 0 <= i < |values| ==> values[i] < U32_LIMIT
  }

  lemma WordsSize(values: seq<nat>)
    ensures |Words(values)| == 4 * |values|
  {
    var parts := seq(|values|, i requires 0 <= i < |values| => Le(values[i], 4));
    FixedSizeOffset(parts, 4, |parts|);
    assert parts[..|parts|] == parts;
  }

  lemma WordAt(values: seq<nat>, i: nat)
    requires i < |values| && values[i] < U32_LIMIT
    ensures 4 * i + 4 <= |Words(values)| && LeValue(Words(values)[4 * i..4 * i + 4]) == values[i]
  {
    var parts := seq(|values|, j requires 0 <= j < |values| => Le(values[j], 4));
    FixedSizeRecord(parts, 4, i);
    U32ReadsBack(values[i]);
  }

  /** `chunks_exact(4)`, each as an f32. */
  function ParsedWords(data: seq<byte>): (values: seq<nat>)
    requires |data| % 4 == 0
    ensures |values| == |data| / 4
  {
    seq(|data| / 4, i requires 0 <= i < |data| / 4 => LeValue(data[4 * i..4 * i + 4]))
  }

  lemma WordsReadBack(values: seq<nat>)
    requires AllU32(values)
    ensures |Words(values)| == 4 * |values| && ParsedWords(Words(values)) == values
  {
    WordsSize(values);
    forall i | 0 <= i < |values|
      ensures ParsedWords(Words(values))[i] == values[i]
    {
      WordAt(values, i);
    }
  }

  // ----- digests -----

  function HexDigit(n: nat): byte
    requires n < 16
  {
    if n < 10 then (48 + n) as byte else (87 + n) as byte
  }

  /** `hex::encode`. */
  function Hex(b: seq<byte>): (t: Text)
    ensures |t| == 2 * |b|
  {
    if b == [] then []
    else Hex(b[..|b| - 1]) + [HexDigit(b[|b| - 1] as nat / 16), HexDigit(b[|b| - 1] as nat % 16)]
  }

  /** A streaming hasher: what it has been fed. */
  class Hasher {
    var fed: seq<byte>

    constructor ()
      ensures fed == []
    {
      fed := [];
    }

    method Update(bytes: seq<byte>)
      modifies this
      ensures fed == old(fed) + bytes
    {
      fed := fed + bytes;
    }

    method UpdateLenPrefixed(bytes: seq<byte>)
      modifies this
      ensures fed == old(fed) + LenPrefixed(bytes)
    {
      Update(Le(|bytes|, 8));
      Update(bytes);
      Regroup(old(fed), Le(|bytes|, 8), bytes);
    }
  }

  // ----- buffers -----

  /** `buf[offset..offset + len].copy_from_slice(bytes)`. */
  method CopyFromSlice(buf: array<byte>, offset: nat, bytes: seq<byte>)
    requires offset + |bytes| <= buf.Length
    modifies buf
    ensures buf[..] == old(buf[..offset]) + bytes + old(buf[offset + |bytes|..])
    ensures buf[..offset + |bytes|] == old(buf[..offset]) + bytes
  {
    for i := 0 to |bytes|
      invariant forall j :: 0 <= j < buf.Length ==>
          buf[j] == if offset <= j < offset + i then bytes[j - offset] else old(buf[j])
    {
      buf[offset + i] := bytes[i];
    }
  }

  /** The next field of a buffer whose first `offset` bytes are `before`. */
  method Fill(buf: array<byte>, offset: nat, ghost before: seq<byte>, bytes: seq<byte>)
      returns (ghost filled: seq<byte>)
    requires offset + |bytes| <= buf.Length && buf[..offset] == before
    modifies buf
    ensures filled == before + bytes == buf[..offset + |bytes|]
    ensures buf[offset + |bytes|..] == old(buf[offset + |bytes|..])
  {
    CopyFromSlice(buf, offset, bytes);
    filled := before + bytes;
  }

  // ----- text order -----

  function Chars(t: Text): string {
    seq(|t|, i requires 0 <= i < |t| => t[i] as char)
  }

  /** The byte-wise order of `str`. */
  predicate TextLe(a: Text, b: Text) {
    StringLe(Chars(a), Chars(b))
  }

  lemma CharsKeepText(a: Text, b: Text)
    requires Chars(a) == Chars(b)
    ensures a == b
  {
    assert |a| == |Chars(a)| && |b| == |Chars(b)|;
    forall i | 0 <= i < |a|
      ensures a[i] == b[i]
    {
      assert Chars(a)[i] == Chars(b)[i];
    }
  }

  lemma TextLeTotal(a: Text, b: Text)
    ensures TextLe(a, b) || TextLe(b, a)
    ensures TextLe(a, b) && TextLe(b, a) ==> a == b
  {
    StringLeTotal(Chars(a), Chars(b));
    if Chars(a) == Chars(b) {
      CharsKeepText(a, b);
    }
  }

  lemma TextLeTransitive(a: Text, b: Text, c: Text)
    requires TextLe(a, b) && TextLe(b, c)
    ensures TextLe(a, c)
  {
    StringLeTransitive(Chars(a), Chars(b), Chars(c));
  }

  /** A text comes before another if it is a prefix of it or has the smaller byte where they first differ. */
  lemma TextLeMeans(a: Text, b: Text)
    ensures TextLe(a, b) <==>
        || a <= b
        || exists k :: 0 <= k < |a| && k < |b| && a[..k] == b[..k] && a[k] < b[k]
  {
    StringLeMeans(Chars(a), Chars(b));
    forall k | 0 <= k <= |a| && k <= |b|
      ensures Chars(a)[..k] == Chars(b)[..k] <==> a[..k] == b[..k]
    {
      assert Chars(a)[..k] == Chars(a[..k]) && Chars(b)[..k] == Chars(b[..k]);
      if Chars(a)[..k] == Chars(b)[..k] {
        CharsKeepText(a[..k], b[..k]);
      }
    }
    assert forall i :: 0 <= i < |a| ==> Chars(a)[i] as int == a[i] as int;
    assert forall i :: 0 <= i < |b| ==> Chars(b)[i] as int == b[i] as int;
    if |a| <= |b| {
      assert Chars(a) <= Chars(b) <==> Chars(a)[..|a|] == Chars(b)[..|a|];
      assert a <= b <==> a[..|a|] == b[..|a|];
    }
  }

  /** A string literal's bytes. */
  function Ascii(s: string): (t: Text)
    ensures |t| == |s|
  {
    seq(|s|, i requires 0 <= i < |s| => (s[i] as int % 256) as byte)
  }
}
