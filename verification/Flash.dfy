/** What the build-time validator and the offline inspector both read: little-endian words,
    partition entries, and the segments of an ESP application image. */
module Flash {
  import opened Wrappers
  import opened Bytes

  const PARTITION_TABLE_OFFSET: nat := 0x8000
  const PARTITION_TABLE_SIZE: nat := 0xC00
  const ENTRY_SIZE: nat := 32
  const PARTITION_MAGIC: nat := 0x50AA
  const MD5_MAGIC: nat := 0xEBEB
  const ESP_IMAGE_MAGIC: nat := 0xE9
  const CHECKSUM_SEED: byte := 0xEF
  const UNDEFINED: nat := 0xFFFF_FFFF

  /** The hardware profiles. */
  datatype Profile = W0 | M0 | S0 | DIN0 | L0

  function U16(b: seq<byte>, at: nat): (r: nat)
    requires at + 2 <= |b|
    ensures r < 0x1_0000
  {
    (b[at] as int) + 256 * (b[at + 1] as int)
  }

  function U32(b: seq<byte>, at: nat): (r: nat)
    requires at + 4 <= |b|
    ensures r <= UNDEFINED
  {
    U16(b, at) + 0x1_0000 * U16(b, at + 2)
  }

  /** Erased flash. */
  function Erased(n: nat): (r: seq<byte>)
    ensures |r| == n && forall i :: 0 <= i < n ==> r[i] == 0xFF
  {
    seq(n, _ => 0xFF)
  }

  function Zeros(n: nat): (z: seq<byte>)
    ensures |z| == n && forall i :: 0 <= i < n ==> z[i] == 0
  {
    seq(n, _ => 0)
  }

  predicate IsErased(b: seq<byte>) {
    forall i :: 0 <= i < |b| ==> b[i] == 0xFF
  }

  /** A slice as Python cuts it: never out of range. */
  function Slice(b: seq<byte>, from: nat, to: nat): (r: seq<byte>)
    ensures from <= to <= |b| ==> r == b[from..to]
  {
    var hi := if to < |b| then to else |b|;
    if from < hi then b[from..hi] else []
  }

  lemma ReadWithin(b: seq<byte>, from: nat, to: nat, at: nat)
    requires from <= to <= |b| && at + 4 <= to - from
    ensures U32(b[from..to], at) == U32(b, from + at)
    ensures U16(b[from..to], at) == U16(b, from + at)
  {
  }

  // ----- Hashes -----

  /** The hash and checksum functions, of which only the sizes are known. */
  datatype Hashes = Hashes(sha256: seq<byte> -> seq<byte>, md5: seq<byte> -> seq<byte>, crc32: seq<byte> -> nat)

  /** CRC-32 of an OTA sequence number, bit by bit, as both tools compute it. */
  function CrcBits(crc: nat, bits: nat): nat
    decreases bits
  {
    if bits == 0 then crc
    else CrcBits(XorOf(crc / 2, if crc % 2 == 1 then 0xEDB88320 else 0), bits - 1)
  }

  function CrcBytes(crc: nat, data: seq<byte>): nat
    decreases |data|
  {
    if data == [] then crc else CrcBytes(CrcBits(XorOf(crc, data[0]), 8), data[1..])
  }

  function Le32(n: nat): (r: seq<byte>)
    ensures |r| == 4
  {
    [n % 256, n / 256 % 256, n / 0x1_0000 % 256, n / 0x100_0000 % 256]
  }

  function OtaCrc(sequence: nat): (r: nat)
    ensures r <= UNDEFINED
  {
    (UNDEFINED - CrcBytes(0, Le32(sequence))) % 0x1_0000_0000
  }

  method OtaCrc32(sequence: nat) returns (crc: nat)
    ensures crc == OtaCrc(sequence)
  {
    var c: nat, data := 0, Le32(sequence);
    assert data[0..] == data;
    for i := 0 to 4
      invariant CrcBytes(c, data[i..]) == CrcBytes(0, data)
    {
      assert data[i..][0] == data[i] && data[i..][1..] == data[i + 1..];
      c := XorOf(c, data[i]);
      ghost var start := c;
      for j := 0 to 8
        invariant CrcBits(c, 8 - j) == CrcBits(start, 8)
      {
        c := XorOf(c / 2, if c % 2 == 1 then 0xEDB88320 else 0);
      }
    }
    assert data[4..] == [];
    crc := (UNDEFINED - c) % 0x1_0000_0000;
  }

  lemma {:induction false} CrcBitsOfZero(bits: nat)
    ensures CrcBits(0, bits) == 0
  {
    if bits > 0 { CrcBitsOfZero(bits - 1); }
  }

  /** The record of sequence number 0 has the CRC of erased flash. */
  lemma CrcOfZero()
    ensures OtaCrc(0) == UNDEFINED
  {
    CrcBitsOfZero(8);
    assert Le32(0) == [0, 0, 0, 0] && [0, 0, 0, 0][1..] == [0, 0, 0] && [0, 0, 0][1..] == [0, 0];
    assert CrcBytes(0, [0]) == 0 by { assert [0][1..] == []; }
    assert CrcBytes(0, [0, 0]) == 0 by { assert [0, 0][1..] == [0]; }
    assert CrcBytes(0, [0, 0, 0]) == 0;
  }

  lemma Le32Read(n: nat, rest: seq<byte>)
    requires n <= UNDEFINED
    ensures U32(Le32(n) + rest, 0) == n
  {
    var b := Le32(n) + rest;
    assert b[0] == n % 256 && b[1] == n / 256 % 256 && b[2] == n / 0x1_0000 % 256 && b[3] == n / 0x100_0000 % 256;
    Digits(n);
  }

  lemma WordInside(b: seq<byte>, at: nat, n: nat)
    requires n <= UNDEFINED && at + 4 <= |b| && b[at..at + 4] == Le32(n)
    ensures U32(b, at) == n
  {
    Le32Read(n, []);
    assert Le32(n) + [] == Le32(n);
    ReadWithin(b, at, at + 4, 0);
  }

  lemma WordFromBytes(b: seq<byte>, at: nat)
    requires at + 4 <= |b|
    ensures b[at..at + 4] == Le32(U32(b, at))
  {
    BytesOfWord(b[at], b[at + 1], b[at + 2], b[at + 3]);
  }

  lemma BytesOfWord(a: byte, b: byte, c: byte, d: byte)
    ensures Le32(a + 256 * b + 0x1_0000 * (c + 256 * d)) == [a, b, c, d]
  {
    var n3: nat := c + 256 * d;
    var n2: nat := b + 256 * n3;
    LowByte(a, n2);
    LowByte(b, n3);
    LowByte(c, d);
    var n := a + 256 * n2;
    assert n / 0x1_0000 == n / 256 / 256 && n / 0x100_0000 == n / 0x1_0000 / 256;
  }

  lemma LowByte(a: byte, more: nat)
    ensures (a + 256 * more) % 256 == a && (a + 256 * more) / 256 == more
  {
  }

  lemma Digits(n: nat)
    requires n <= UNDEFINED
    ensures n == n % 256 + 256 * (n / 256 % 256) + 0x1_0000 * (n / 0x1_0000 % 256 + 256 * (n / 0x100_0000 % 256))
  {
    var n2 := n / 256;
    var n3 := n2 / 256;
    assert n == n % 256 + 256 * n2 && n2 == n2 % 256 + 256 * n3;
    assert n / 0x1_0000 == n3 && n / 0x100_0000 == n3 / 256 && n3 / 256 < 256;
    assert n3 == n3 % 256 + 256 * (n3 / 256);
  }

  // ----- Partition entries -----

  datatype Partition = Partition(name: string, kind: nat, subtype: nat, offset: nat, size: nat, flags: nat)

  function UpToZero(b: seq<byte>): (r: seq<byte>)
    ensures |r| <= |b|
  {
    if b == [] || b[0] == 0 then [] else [b[0]] + UpToZero(b[1..])
  }

  /** A field padded with zeros is read back up to its padding. */
  lemma {:induction false} PaddedIsReadBack(b: seq<byte>, n: nat)
    requires 0 !in b
    ensures UpToZero(b + Zeros(n)) == b
  {
    if b == [] {
      assert n > 0 ==> Zeros(n)[0] == 0;
    } else {
      assert (b + Zeros(n))[1..] == b[1..] + Zeros(n);
      PaddedIsReadBack(b[1..], n);
    }
  }

  predicate IsAscii(b: seq<byte>) {
    forall i :: 0 <= i < |b| ==> b[i] < 128
  }

  /** ASCII with every other byte replaced. */
  function Decode(b: seq<byte>): string {
    seq(|b|, i requires 0 <= i < |b| => if b[i] < 128 then (b[i] as char) else '\U{FFFD}')
  }

  function LabelBytes(raw: seq<byte>): seq<byte>
    requires |raw| == ENTRY_SIZE
  {
    UpToZero(raw[12..28])
  }

  function ParseEntry(raw: seq<byte>): Partition
    requires |raw| == ENTRY_SIZE
  {
    Partition(Decode(LabelBytes(raw)), raw[2], raw[3], U32(raw, 4), U32(raw, 8), U32(raw, 28))
  }

  // ----- Segments -----

  datatype SegmentError = TruncatedHeader | TruncatedData

  function XorAll(checksum: byte, data: seq<byte>): byte
    decreases |data|
  {
    if data == [] then checksum else XorAll(Xor(checksum, data[0]), data[1..])
  }

  /** Walks `count` segments from `offset`: where they end, and the checksum of their data. */
  function Walk(data: seq<byte>, offset: nat, checksum: byte, count: nat): Result<(nat, byte), SegmentError>
    decreases count
  {
    if count == 0 then Ok((offset, checksum))
    else if offset + 8 > |data| then Err(TruncatedHeader)
    else
      var length, start := U32(data, offset + 4), offset + 8;
      if length > |data| - start then Err(TruncatedData)
      else Walk(data, start + length, XorAll(checksum, data[start..start + length]), count - 1)
  }

  lemma {:induction false} WalkStays(data: seq<byte>, offset: nat, checksum: byte, count: nat)
    requires Walk(data, offset, checksum, count).Ok? && offset <= |data|
    ensures offset <= Walk(data, offset, checksum, count).value.0 <= |data|
    decreases count
  {
    if count > 0 {
      var length, start := U32(data, offset + 4), offset + 8;
      WalkStays(data, start + length, XorAll(checksum, data[start..start + length]), count - 1);
    }
  }

  /** What follows the segments does not matter to a walk. */
  lemma {:induction false} WalkOfPrefix(data: seq<byte>, more: seq<byte>, offset: nat, checksum: byte, count: nat)
    requires Walk(data, offset, checksum, count).Ok? && offset <= |data|
    ensures Walk(data + more, offset, checksum, count) == Walk(data, offset, checksum, count)
    decreases count
  {
    hide XorAll;
    if count > 0 {
      var length, start := U32(data, offset + 4), offset + 8;
      assert U32(data + more, offset + 4) == length;
      assert (data + more)[start..start + length] == data[start..start + length];
      WalkOfPrefix(data, more, start + length, XorAll(checksum, data[start..start + length]), count - 1);
    }
  }

  /** The loop over the bytes of one segment. */
  method Checksum(data: seq<byte>, start: nat, end: nat, seed: byte) returns (checksum: byte)
    requires start <= end <= |data|
    ensures checksum == XorAll(seed, data[start..end])
  {
    hide Xor;
    checksum := seed;
    for i := start to end
      invariant XorAll(checksum, data[i..end]) == XorAll(seed, data[start..end])
    {
      assert data[i..end][0] == data[i] && data[i..end][1..] == data[i + 1..end];
      checksum := Xor(checksum, data[i]);
    }
    assert data[end..end] == [];
  }

  /** The checksum is the last byte of a 16-byte block. */
  function ChecksumOffset(offset: nat): (r: nat)
    ensures offset <= r < offset + 16 && r % 16 == 15
  {
    offset - offset % 16 + 15
  }
}
