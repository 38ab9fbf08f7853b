/**
 What an ESP application image is: a header, segments, padding, a parity byte and a hash; and that
 the build and the inspector accept exactly such images.
 */
module EspImages {
  import opened Wrappers
  import opened Bytes
  import opened Flash
  import B = FullImage
  import I = FlashInspector

  // ----- Parity -----

  /** How many bytes have bit `k`. */
  function Ones(data: seq<byte>, k: nat): nat {
    if data == [] then 0 else Bit(data[0], k) + Ones(data[1..], k)
  }

  /** The byte has, in every bit, the parity of the data and the seed. */
  ghost predicate IsParity(sum: byte, seed: byte, data: seq<byte>) {
    forall k :: 0 <= k < 8 ==> Bit(sum, k) == (Bit(seed, k) + Ones(data, k)) % 2
  }

  lemma {:induction false} XorAllBits(seed: byte, data: seq<byte>, k: nat)
    ensures Bit(XorAll(seed, data), k) == (Bit(seed, k) + Ones(data, k)) % 2
    decreases |data|
  {
    if data != [] {
      XorBits(seed, data[0], k);
      XorAllBits(Xor(seed, data[0]), data[1..], k);
    } else {
      BitIsSmall(seed, k);
    }
  }

  lemma {:induction false} BitIsSmall(n: nat, k: nat)
    ensures Bit(n, k) < 2
    decreases k
  {
    if k > 0 { BitIsSmall(n / 2, k - 1); }
  }

  lemma ParityIs(sum: byte, seed: byte, data: seq<byte>)
    ensures IsParity(sum, seed, data) <==> sum == XorAll(seed, data)
  {
    hide XorAll, Ones, Bit;
    forall k | 0 <= k < 8 ensures Bit(XorAll(seed, data), k) == (Bit(seed, k) + Ones(data, k)) % 2 {
      XorAllBits(seed, data, k);
    }
    assert Pow2(8) == 256;
    if IsParity(sum, seed, data) { BitsDetermine(sum, XorAll(seed, data), 8); }
  }

  lemma {:induction false} XorAllConcat(seed: byte, a: seq<byte>, b: seq<byte>)
    ensures XorAll(seed, a + b) == XorAll(XorAll(seed, a), b)
    decreases |a|
  {
    if a == [] {
      assert a + b == b;
    } else {
      assert (a + b)[1..] == a[1..] + b;
      XorAllConcat(Xor(seed, a[0]), a[1..], b);
    }
  }

  // ----- Segments -----

  datatype Segment = Segment(address: nat, data: seq<byte>)

  predicate Fits(s: Segment) {
    s.address <= UNDEFINED && |s.data| <= UNDEFINED
  }

  function SegmentBytes(s: Segment): seq<byte> {
    Le32(s.address) + Le32(|s.data|) + s.data
  }

  function AllBytes(ss: seq<Segment>): seq<byte> {
    if ss == [] then [] else SegmentBytes(ss[0]) + AllBytes(ss[1..])
  }

  function Payload(ss: seq<Segment>): seq<byte> {
    if ss == [] then [] else ss[0].data + Payload(ss[1..])
  }

  /** The segment at an offset, as the walk reads it. */
  lemma SegmentAt(data: seq<byte>, offset: nat) returns (s: Segment)
    requires offset + 8 <= |data| && U32(data, offset + 4) <= |data| - (offset + 8)
    ensures Fits(s) && s.data == data[offset + 8..offset + 8 + U32(data, offset + 4)]
    ensures data[offset..offset + 8 + U32(data, offset + 4)] == SegmentBytes(s)
  {
    hide U32, Le32;
    var length := U32(data, offset + 4);
    s := Segment(U32(data, offset), data[offset + 8..offset + 8 + length]);
    WordFromBytes(data, offset);
    WordFromBytes(data, offset + 4);
    assert data[offset..offset + 8 + length] == data[offset..offset + 4] + data[offset + 4..offset + 8] + s.data;
  }

  /** What a walk has read are segments, and its checksum is that of their data. */
  lemma {:induction false} WalkReads(data: seq<byte>, offset: nat, seed: byte, count: nat) returns (ss: seq<Segment>)
    requires offset <= |data| && Walk(data, offset, seed, count).Ok?
    ensures |ss| == count && forall s <- ss :: Fits(s)
    ensures var (end, sum) := Walk(data, offset, seed, count).value;
      offset <= end <= |data| && data[offset..end] == AllBytes(ss) && sum == XorAll(seed, Payload(ss))
    decreases count
  {
    hide U32, Le32, XorAll, SegmentBytes;
    WalkStays(data, offset, seed, count);
    if count == 0 {
      ss := [];
      NoData(seed);
    } else {
      var length, start := U32(data, offset + 4), offset + 8;
      var s := SegmentAt(data, offset);
      var rest := WalkReads(data, start + length, XorAll(seed, s.data), count - 1);
      ss := [s] + rest;
      var end := Walk(data, offset, seed, count).value.0;
      assert ss[1..] == rest;
      assert data[offset..end] == data[offset..start + length] + data[start + length..end];
      XorAllConcat(seed, s.data, Payload(rest));
    }
  }

  lemma NoData(seed: byte)
    ensures XorAll(seed, []) == seed
  {
  }

  /** And segments are read back by a walk. */
  lemma {:induction false} SegmentsAreWalked(data: seq<byte>, offset: nat, seed: byte, ss: seq<Segment>)
    requires (forall s <- ss :: Fits(s)) && offset + |AllBytes(ss)| <= |data|
    requires data[offset..offset + |AllBytes(ss)|] == AllBytes(ss)
    ensures Walk(data, offset, seed, |ss|) == Ok((offset + |AllBytes(ss)|, XorAll(seed, Payload(ss))))
    decreases |ss|
  {
    hide U32, Le32, XorAll;
    if ss == [] {
      NoData(seed);
    } else {
      var s, rest := ss[0], AllBytes(ss[1..]);
      var bytes, all := SegmentBytes(s), AllBytes(ss);
      assert s in ss && all == bytes + rest;
      var start := offset + |bytes|;
      PartOf(data, offset, bytes, rest);
      HeadOfSegment(data, offset, s);
      SegmentsAreWalked(data, start, XorAll(seed, s.data), ss[1..]);
      XorAllConcat(seed, s.data, Payload(ss[1..]));
    }
  }

  lemma PartOf(data: seq<byte>, offset: nat, a: seq<byte>, b: seq<byte>)
    requires offset + |a| + |b| <= |data| && data[offset..offset + |a| + |b|] == a + b
    ensures data[offset..offset + |a|] == a && data[offset + |a|..offset + |a| + |b|] == b
  {
    var all := data[offset..offset + |a| + |b|];
    assert data[offset..offset + |a|] == all[..|a|] && data[offset + |a|..offset + |a| + |b|] == all[|a|..];
  }

  lemma HeadOfSegment(data: seq<byte>, offset: nat, s: Segment)
    requires Fits(s) && offset + |SegmentBytes(s)| <= |data|
    requires data[offset..offset + |SegmentBytes(s)|] == SegmentBytes(s)
    ensures |SegmentBytes(s)| == 8 + |s.data| && U32(data, offset + 4) == |s.data|
    ensures data[offset + 8..offset + 8 + |s.data|] == s.data
  {
    hide U32, Le32;
    PartOf(data, offset, Le32(s.address), Le32(|s.data|) + s.data) by {
      assert SegmentBytes(s) == Le32(s.address) + (Le32(|s.data|) + s.data);
    }
    PartOf(data, offset + 4, Le32(|s.data|), s.data);
    WordInside(data, offset + 4, |s.data|);
  }

  // ----- Images -----

  /** The segments follow the header, and the parity byte at `at` ends a block of 16 bytes. */
  ghost predicate HasSegments(data: seq<byte>, ss: seq<Segment>, at: nat) {
    && |data| >= 24 && |ss| == data[1] && (forall s <- ss :: Fits(s))
    && 24 + |AllBytes(ss)| <= at < 40 + |AllBytes(ss)| && at % 16 == 15 && at < |data|
    && data[24..24 + |AllBytes(ss)|] == AllBytes(ss)
    && IsParity(data[at], 0xEF, Payload(ss))
  }

  /** What both tools look at first. */
  lemma SegmentsAre(data: seq<byte>)
    requires |data| >= 24
    ensures (exists ss, at: nat :: HasSegments(data, ss, at)) <==>
      var walk := Walk(data, 24, CHECKSUM_SEED, data[1]);
      walk.Ok? && var at := ChecksumOffset(walk.value.0); at < |data| && data[at] == walk.value.1
    ensures forall ss, at: nat :: HasSegments(data, ss, at) ==>
      Walk(data, 24, CHECKSUM_SEED, data[1]).Ok?
        && at == ChecksumOffset(Walk(data, 24, CHECKSUM_SEED, data[1]).value.0)
  {
    hide Walk, XorAll, AllBytes, Payload, IsParity;
    forall ss, at: nat | HasSegments(data, ss, at)
      ensures var walk := Walk(data, 24, CHECKSUM_SEED, data[1]);
        walk.Ok? && at == ChecksumOffset(walk.value.0) && data[at] == walk.value.1
    {
      SegmentsAreWalked(data, 24, CHECKSUM_SEED, ss);
      ParityIs(data[at], 0xEF, Payload(ss));
    }
    var walk := Walk(data, 24, CHECKSUM_SEED, data[1]);
    if walk.Ok? {
      var ss := WalkReads(data, 24, CHECKSUM_SEED, data[1]);
      var at := ChecksumOffset(walk.value.0);
      if at < |data| && data[at] == walk.value.1 {
        ParityIs(data[at], 0xEF, Payload(ss));
        assert HasSegments(data, ss, at);
      }
    }
  }

  /** What the build accepts: an image for the contract, with a hash and nothing behind it. */
  ghost predicate IsBuildImage(data: seq<byte>, c: B.Contract, h: Hashes, descriptor: bool, ss: seq<Segment>, at: nat) {
    && HasSegments(data, ss, at) && data[0] == 0xE9 && 1 <= |ss| <= 16
    && data[2] == c.modeCode && data[3] == 16 * c.sizeCode + c.frequencyCode && c.frequencyCode < 16
    && data[12] as int + 256 * (data[13] as int) == c.chipId && data[23] != 0
    && |data| == at + 33 && data[at + 1..] == h.sha256(data[..at + 1])
    && (descriptor ==> |data| >= 288 && data[32..36] == [0x32, 0x54, 0xCD, 0xAB])
  }

  lemma HeaderIs(data: seq<byte>, c: B.Contract)
    requires |data| >= 24
    ensures B.HeaderMatches(data, c) <==>
      data[2] == c.modeCode && data[3] == 16 * c.sizeCode + c.frequencyCode && c.frequencyCode < 16
        && data[12] as int + 256 * (data[13] as int) == c.chipId
  {
  }

  lemma DescriptorIs(data: seq<byte>)
    requires |data| >= 36
    ensures U32(data, 32) == 0xABCD5432 <==> data[32..36] == [0x32, 0x54, 0xCD, 0xAB]
  {
    WordFromBytes(data, 32);
    assert Le32(0xABCD5432) == [0x32, 0x54, 0xCD, 0xAB];
    if data[32..36] == [0x32, 0x54, 0xCD, 0xAB] { WordInside(data, 32, 0xABCD5432); }
  }

  /** The build accepts exactly these images. */
  lemma BuildAcceptsIff(data: seq<byte>, c: B.Contract, h: Hashes, descriptor: bool)
    ensures B.ValidateEspImage(data, c, h, descriptor).Ok? <==>
      exists ss, at: nat :: IsBuildImage(data, c, h, descriptor, ss, at)
  {
    hide Walk, HasSegments, ChecksumOffset, U32, B.HeaderMatches;
    if |data| >= 24 {
      SegmentsAre(data);
      HeaderIs(data, c);
      if |data| >= 36 { DescriptorIs(data); }
      HasSegmentsFacts(data);
      if B.ValidateEspImage(data, c, h, descriptor).Ok? {
        var ss, at: nat :| HasSegments(data, ss, at);
        assert data[at + 1..] == data[at + 1..at + 33];
        assert IsBuildImage(data, c, h, descriptor, ss, at);
      }
      if ss, at: nat :| IsBuildImage(data, c, h, descriptor, ss, at) {
        assert HasSegments(data, ss, at) && data[at + 1..] == data[at + 1..at + 33];
      }
    } else {
      TooShort(data);
    }
  }

  lemma TooShort(data: seq<byte>)
    requires |data| < 24
    ensures forall ss, at: nat :: !HasSegments(data, ss, at)
  {
  }

  lemma HasSegmentsFacts(data: seq<byte>)
    requires |data| >= 24
    ensures forall ss, at: nat :: HasSegments(data, ss, at) ==> |ss| == data[1] && at < |data|
  {
  }

  /** What the inspector accepts: an image, with a hash if the header says so, and anything behind it. */
  ghost predicate IsDeviceImage(data: seq<byte>, h: Hashes, ss: seq<Segment>, at: nat) {
    && HasSegments(data, ss, at) && data[0] == 0xE9 && 1 <= |ss| <= 16
    && (data[23] != 0 ==> |data| >= at + 33 && data[at + 1..at + 33] == h.sha256(data[..at + 1]))
  }

  /** The inspector accepts exactly these, and reports how many segments they have, whether they
      have a hash, and where they end. */
  lemma InspectorAcceptsIff(data: seq<byte>, h: Hashes)
    ensures I.ValidateEspImage(data, h).Ok? <==> exists ss, at: nat :: IsDeviceImage(data, h, ss, at)
    ensures forall ss, at: nat :: IsDeviceImage(data, h, ss, at) ==>
      I.ValidateEspImage(data, h)
        == Ok(I.ImageInfo(|ss|, data[23] != 0, if data[23] != 0 then at + 33 else at + 1))
  {
    hide Walk, HasSegments, ChecksumOffset, U32;
    if |data| >= 24 {
      SegmentsAre(data);
      HasSegmentsFacts(data);
      if I.ValidateEspImage(data, h).Ok? {
        var ss, at: nat :| HasSegments(data, ss, at);
        assert IsDeviceImage(data, h, ss, at);
      }
    } else {
      TooShort(data);
    }
  }

  // ----- Application partitions -----

  // ----- Images that end too early -----

  /** After the segments a walk goes on behind them. */
  lemma {:induction false} WalkGoesOn(data: seq<byte>, offset: nat, seed: byte, ss: seq<Segment>, more: nat)
    requires (forall s <- ss :: Fits(s)) && offset + |AllBytes(ss)| <= |data|
    requires data[offset..offset + |AllBytes(ss)|] == AllBytes(ss)
    ensures Walk(data, offset, seed, |ss| + more)
      == Walk(data, offset + |AllBytes(ss)|, XorAll(seed, Payload(ss)), more)
    decreases |ss|
  {
    hide U32, Le32, XorAll;
    if ss == [] {
      NoData(seed);
    } else {
      var s, rest := ss[0], AllBytes(ss[1..]);
      var bytes, all := SegmentBytes(s), AllBytes(ss);
      assert s in ss && all == bytes + rest;
      PartOf(data, offset, bytes, rest);
      HeadOfSegment(data, offset, s);
      WalkGoesOn(data, offset + |bytes|, XorAll(seed, s.data), ss[1..], more);
      XorAllConcat(seed, s.data, Payload(ss[1..]));
    }
  }

  /** No room for another segment's header, or for its data. */
  predicate IsCut(data: seq<byte>, end: nat) {
    end + 8 > |data| || U32(data, end + 4) > |data| - (end + 8)
  }

  /** A walk that fails has met such a place behind some segments. */
  lemma {:induction false} WalkStops(data: seq<byte>, offset: nat, seed: byte, count: nat) returns (ss: seq<Segment>)
    requires offset <= |data| && Walk(data, offset, seed, count).Err?
    ensures |ss| < count && (forall s <- ss :: Fits(s)) && offset + |AllBytes(ss)| <= |data|
    ensures data[offset..offset + |AllBytes(ss)|] == AllBytes(ss) && IsCut(data, offset + |AllBytes(ss)|)
    decreases count
  {
    hide U32, Le32, XorAll;
    ss := [];
    if !IsCut(data, offset) {
      var s := SegmentAt(data, offset);
      var start := offset + 8 + U32(data, offset + 4);
      var rest := WalkStops(data, start, XorAll(seed, s.data), count - 1);
      ss := [s] + rest;
      assert ss[1..] == rest && |SegmentBytes(s)| == start - offset;
      var end := start + |AllBytes(rest)|;
      assert data[offset..end] == data[offset..start] + data[start..end];
    }
  }

  /** The data end before the parity byte, or in the hash. */
  ghost predicate TailIsCut(data: seq<byte>, ss: seq<Segment>, at: nat)
    requires |data| >= 24
  {
    at >= |data| || (IsParity(data[at], 0xEF, Payload(ss)) && data[23] != 0 && at + 33 > |data|)
  }

  /** The image is right as far as it goes, and goes on behind the end of the data: in its
      segments, before its parity byte, or in its hash. */
  ghost predicate EndsEarly(data: seq<byte>, ss: seq<Segment>, at: nat) {
    && |data| >= 24 && data[0] == 0xE9 && 1 <= data[1] <= 16 && (forall s <- ss :: Fits(s))
    && 24 + |AllBytes(ss)| <= |data| && data[24..24 + |AllBytes(ss)|] == AllBytes(ss)
    && 24 + |AllBytes(ss)| <= at < 40 + |AllBytes(ss)| && at % 16 == 15
    && if |ss| < data[1] then IsCut(data, 24 + |AllBytes(ss)|) else |ss| == data[1] && TailIsCut(data, ss, at)
  }

  lemma ParityPlace(end: nat)
    ensures end <= ChecksumOffset(end) < end + 16 && ChecksumOffset(end) % 16 == 15
    ensures forall at: nat :: end <= at < end + 16 && at % 16 == 15 ==> at == ChecksumOffset(end)
  {
  }

  /** What the segments of such an image come to in the walk. */
  lemma EarlyIsStructural(data: seq<byte>, ss: seq<Segment>, at: nat, h: Hashes)
    requires EndsEarly(data, ss, at)
    ensures var r := I.ValidateEspImage(data, h); r.Err? && I.IsStructural(r.error)
  {
    hide U32, XorAll, AllBytes, Payload, IsParity, ChecksumOffset;
    var end := 24 + |AllBytes(ss)|;
    ParityPlace(end);
    WalkGoesOn(data, 24, CHECKSUM_SEED, ss, data[1] - |ss|);
    if |ss| == data[1] && at < |data| { ParityIs(data[at], 0xEF, Payload(ss)); }
  }

  lemma StructuralIsEarly(data: seq<byte>, h: Hashes) returns (ss: seq<Segment>, at: nat)
    requires var r := I.ValidateEspImage(data, h); r.Err? && I.IsStructural(r.error)
    ensures EndsEarly(data, ss, at)
  {
    hide U32, XorAll, AllBytes, Payload, IsParity, ChecksumOffset, Walk, SegmentBytes;
    var walk := Walk(data, 24, CHECKSUM_SEED, data[1]);
    if walk.Err? {
      ss := WalkStops(data, 24, CHECKSUM_SEED, data[1]);
    } else {
      ss := WalkReads(data, 24, CHECKSUM_SEED, data[1]);
      assert walk.value.0 == 24 + |AllBytes(ss)|;
      if ChecksumOffset(walk.value.0) < |data| { ParityIs(data[ChecksumOffset(walk.value.0)], 0xEF, Payload(ss)); }
    }
    at := ChecksumOffset(24 + |AllBytes(ss)|);
    ParityPlace(24 + |AllBytes(ss)|);
  }

  /** The image ends too early, somehow. */
  ghost predicate IsCutShort(b: seq<byte>) {
    exists ss, at: nat :: EndsEarly(b, ss, at)
  }

  lemma CutShortIff(b: seq<byte>, h: Hashes)
    ensures IsCutShort(b) <==> var r := I.ValidateEspImage(b, h); r.Err? && I.IsStructural(r.error)
    ensures IsCutShort(b) ==> |b| >= 24 && b[0] == 0xE9
  {
    hide I.ValidateEspImage, I.IsStructural;
    if IsCutShort(b) {
      var ss, at: nat :| EndsEarly(b, ss, at);
      EarlyIsStructural(b, ss, at, h);
    }
    var r := I.ValidateEspImage(b, h);
    if r.Err? && I.IsStructural(r.error) { var ss, at := StructuralIsEarly(b, h); }
  }

  /** How the inspector classifies a partition: EMPTY if it is erased, VALID and bootable if it
      holds an image, PARTIAL if its header is missing or the image ends too early, INVALID otherwise. */
  lemma ClassificationIs(name: string, b: seq<byte>, h: Hashes)
    ensures var r := I.InspectApp(name, b, h);
      && (r.status == I.EMPTY <==> forall i :: 0 <= i < |b| ==> b[i] == 0xFF)
      && (r.status == I.VALID <==> r.bootable) && (r.bootable <==> exists ss, at: nat :: IsDeviceImage(b, h, ss, at))
      && (r.status == I.PARTIAL <==>
            r.status != I.EMPTY && (|b| < 24 || IsErased(b[..24]) || IsCutShort(b)))
      && r.name == name
  {
    hide I.ValidateEspImage, HasSegments, IsCutShort, I.IsStructural;
    I.ProgrammedIs(b);
    CutShortIff(b, h);
    InspectorAcceptsIff(b, h);
    DeviceImagesBegin(b, h);
    if |b| >= 24 { assert b[..24] == Erased(24) <==> IsErased(b[..24]); }
    if |b| >= 24 && IsErased(b[..24]) { assert b[..24][0] == 0xFF; }
  }

  lemma DeviceImagesBegin(b: seq<byte>, h: Hashes)
    ensures (exists ss, at: nat :: IsDeviceImage(b, h, ss, at)) ==> |b| >= 24 && b[0] == 0xE9
  {
  }
}
