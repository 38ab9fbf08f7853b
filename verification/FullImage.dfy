/** The build-time validation of flash image components and of the complete image. */
module FullImage {
  import opened Wrappers
  import opened Bytes
  import opened Flash

  datatype ValidationError =
    | BadMagic | BadSegmentCount | ModeMismatch | SizeOrFrequencyMismatch | ChipMismatch
    | Truncated(e: SegmentError) | ChecksumMismatch | NoHash | HashTruncated | HashMismatch | SizeMismatch
    | DescriptorTruncated | DescriptorMagic
    | TableSize | EntryMagic | LabelNotAscii | EntriesDiffer | NoMd5Trailer | TrailerHeader | Md5Mismatch
    | DataAfterTrailer
    | NotExactlyOne | OtadataSize | OtadataContent | BootloaderTooLarge | FirmwareTooLarge | ManifestRejected
    | SpiffsSize | SpiffsBlank | SpiffsRejected | Overlap | BeyondFlash
    | ImageSize | ComponentDiffers | UnexpectedData

  /** The header bytes that a profile requires of its images, and its flash. */
  datatype Contract = Contract(modeCode: nat, sizeCode: nat, frequencyCode: nat, chipId: nat, flashSize: nat,
                               bootloaderOffset: nat)

  function ContractOf(p: Profile): Contract {
    match p
    case W0 => Contract(2, 2, 0, 0, 0x40_0000, 0x1000)
    case L0 => Contract(2, 4, 0xF, 9, 0x100_0000, 0)
    case _ => Contract(2, 2, 0xF, 9, 0x40_0000, 0)
  }

  // ----- ESP images -----

  const DESCRIPTOR_MAGIC: nat := 0xABCD5432
  const DESCRIPTOR_SIZE: nat := 256

  predicate HeaderMatches(data: seq<byte>, c: Contract)
    requires |data| >= 24
  {
    data[2] == c.modeCode && data[3] / 16 == c.sizeCode && data[3] % 16 == c.frequencyCode && U16(data, 12) == c.chipId
  }

  function HeaderError(data: seq<byte>, c: Contract): ValidationError
    requires |data| >= 24
  {
    if data[2] != c.modeCode then ModeMismatch
    else if data[3] / 16 != c.sizeCode || data[3] % 16 != c.frequencyCode then SizeOrFrequencyMismatch
    else ChipMismatch
  }

  /** The image is one of the profile, whole and without anything after it. */
  function ValidateEspImage(data: seq<byte>, c: Contract, h: Hashes, needsDescriptor: bool)
    : (r: Result<(), ValidationError>)
  {
    if |data| < 24 || data[0] != ESP_IMAGE_MAGIC then Err(BadMagic)
    else if !(1 <= data[1] <= 16) then Err(BadSegmentCount)
    else if !HeaderMatches(data, c) then Err(HeaderError(data, c))
    else
      match Walk(data, 24, CHECKSUM_SEED, data[1])
      case Err(e) => Err(Truncated(e))
      case Ok((end, checksum)) =>
        var at := ChecksumOffset(end);
        if at >= |data| || data[at] != checksum then Err(ChecksumMismatch)
        else if data[23] == 0 then Err(NoHash)
        else if at + 33 > |data| then Err(HashTruncated)
        else if data[at + 1..at + 33] != h.sha256(data[..at + 1]) then Err(HashMismatch)
        else if at + 33 != |data| then Err(SizeMismatch)
        else if needsDescriptor && 32 + DESCRIPTOR_SIZE > |data| then Err(DescriptorTruncated)
        else if needsDescriptor && U32(data, 32) != DESCRIPTOR_MAGIC then Err(DescriptorMagic)
        else Ok(())
  }

  method CheckEspImage(data: seq<byte>, c: Contract, h: Hashes, needsDescriptor: bool)
    returns (r: Result<(), ValidationError>)
    ensures r == ValidateEspImage(data, c, h, needsDescriptor)
  {
    hide XorAll, HeaderError, HeaderMatches, ChecksumOffset, U32, U16;
    if |data| < 24 || data[0] != ESP_IMAGE_MAGIC { return Err(BadMagic); }
    var segments := data[1];
    if !(1 <= segments <= 16) { return Err(BadSegmentCount); }
    if !HeaderMatches(data, c) { return Err(HeaderError(data, c)); }
    var offset: nat, checksum: byte := 24, CHECKSUM_SEED;
    var descriptor := None;
    for i := 0 to segments
      invariant offset <= |data|
      invariant Walk(data, offset, checksum, segments - i) == Walk(data, 24, CHECKSUM_SEED, segments)
      invariant (i == 0 ==> offset == 24) && descriptor == if i == 0 then None else Some(32)
    {
      if offset + 8 > |data| { return Err(Truncated(TruncatedHeader)); }
      var length := U32(data, offset + 4);
      offset := offset + 8;
      if length > |data| - offset { return Err(Truncated(TruncatedData)); }
      if i == 0 { descriptor := Some(offset); }
      checksum := Checksum(data, offset, offset + length, checksum);
      offset := offset + length;
    }
    var at := ChecksumOffset(offset);
    if at >= |data| || data[at] != checksum { return Err(ChecksumMismatch); }
    if data[23] == 0 { return Err(NoHash); }
    if at + 1 + 32 > |data| { return Err(HashTruncated); }
    if data[at + 1..at + 33] != h.sha256(data[..at + 1]) { return Err(HashMismatch); }
    if at + 33 != |data| { return Err(SizeMismatch); }
    if needsDescriptor {
      if descriptor.None? || descriptor.value + DESCRIPTOR_SIZE > |data| { return Err(DescriptorTruncated); }
      if U32(data, descriptor.value) != DESCRIPTOR_MAGIC { return Err(DescriptorMagic); }
    }
    r := Ok(());
  }

  // ----- The partition binary -----

  function RawEntry(data: seq<byte>, index: nat): (r: seq<byte>)
    requires (index + 1) * ENTRY_SIZE <= |data|
    ensures |r| == ENTRY_SIZE
  {
    data[index * ENTRY_SIZE..(index + 1) * ENTRY_SIZE]
  }

  /** The first `n` entries of a table; an error if one is not an entry, or has no ASCII label. */
  function Entries(data: seq<byte>, n: nat): Result<seq<Partition>, ValidationError>
    requires n * ENTRY_SIZE <= |data|
  {
    if n == 0 then Ok([]) else
      var before :- Entries(data, n - 1);
      var raw := RawEntry(data, n - 1);
      if U16(raw, 0) != PARTITION_MAGIC then Err(EntryMagic)
      else if !IsAscii(LabelBytes(raw)) then Err(LabelNotAscii)
      else Ok(before + [ParseEntry(raw)])
  }

  function ValidateTrailer(data: seq<byte>, at: nat, h: Hashes): Result<(), ValidationError>
    requires at + 32 <= |data|
  {
    if U16(data, at) != MD5_MAGIC then Err(NoMd5Trailer)
    else if data[at + 2..at + 16] != Erased(14) then Err(TrailerHeader)
    else if data[at + 16..at + 32] != h.md5(data[..at]) then Err(Md5Mismatch)
    else if data[at + 32..] != Erased(|data| - at - 32) then Err(DataAfterTrailer)
    else Ok(())
  }

  /** The table holds exactly the expected entries, an MD5 trailer, and nothing else. */
  function ValidatePartitionBinary(data: seq<byte>, expected: seq<Partition>, h: Hashes): Result<(), ValidationError> {
    if |data| != PARTITION_TABLE_SIZE then Err(TableSize)
    else if |expected| * ENTRY_SIZE + 32 > |data| then Err(EntriesDiffer)
    else
      match Entries(data, |expected|)
      case Err(e) => Err(e)
      case Ok(entries) =>
        if entries != expected then Err(EntriesDiffer) else ValidateTrailer(data, |expected| * ENTRY_SIZE, h)
  }

  lemma {:induction false} EntriesFailEarly(data: seq<byte>, k: nat, n: nat)
    requires k <= n && n * ENTRY_SIZE <= |data| && Entries(data, k).Err?
    ensures Entries(data, n) == Err(Entries(data, k).error)
  {
    if k < n { EntriesFailEarly(data, k, n - 1); }
  }

  method CheckPartitionBinary(data: seq<byte>, expected: seq<Partition>, h: Hashes)
    returns (r: Result<(), ValidationError>)
    ensures r == ValidatePartitionBinary(data, expected, h)
  {
    hide ParseEntry, LabelBytes, U16, ValidateTrailer, RawEntry, IsAscii;
    if |data| != PARTITION_TABLE_SIZE { return Err(TableSize); }
    if |expected| * ENTRY_SIZE + 32 > |data| { return Err(EntriesDiffer); }
    var entries := [];
    for index := 0 to |expected|
      invariant Entries(data, index) == Ok(entries)
    {
      var raw := RawEntry(data, index);
      if U16(raw, 0) != PARTITION_MAGIC {
        EntriesFailEarly(data, index + 1, |expected|);
        return Err(EntryMagic);
      }
      if !IsAscii(LabelBytes(raw)) {
        EntriesFailEarly(data, index + 1, |expected|);
        return Err(LabelNotAscii);
      }
      entries := entries + [ParseEntry(raw)];
    }
    if entries != expected { return Err(EntriesDiffer); }
    r := ValidateTrailer(data, |expected| * ENTRY_SIZE, h);
  }

  // ----- Initial OTA data -----

  const OTADATA_SIZE: nat := 0x2000
  const SECTOR: nat := 0x1000

  /** Record 1 of sector 0 selects app0; sector 1 holds sequence number 0 in erased flash. */
  function InitialOtadata(): (r: seq<byte>)
    ensures |r| == OTADATA_SIZE
  {
    Le32(1) + Erased(24) + Le32(OtaCrc(1)) + Erased(SECTOR - 32) + Le32(0) + Erased(SECTOR - 4)
  }

  function ValidateInitialOtadata(data: seq<byte>, expectedSize: nat): Result<(), ValidationError> {
    if expectedSize != OTADATA_SIZE || |data| != expectedSize then Err(OtadataSize)
    else if data != InitialOtadata() then Err(OtadataContent)
    else Ok(())
  }

  // ----- The component set -----

  function Named(partitions: seq<Partition>, name: string): seq<Partition> {
    if partitions == [] then []
    else (if partitions[0].name == name then [partitions[0]] else []) + Named(partitions[1..], name)
  }

  function PartitionByLabel(partitions: seq<Partition>, name: string): Result<Partition, ValidationError> {
    var matches := Named(partitions, name);
    if |matches| != 1 then Err(NotExactlyOne) else Ok(matches[0])
  }

  /** The component files. */
  datatype Components = Components(
    bootloader: seq<byte>, partitions: seq<byte>, otadata: seq<byte>, firmware: seq<byte>, spiffs: seq<byte>)

  /** A component in the flash; `rank` is the place of its label in the alphabet. */
  datatype Placed = Placed(offset: nat, data: seq<byte>, rank: nat)

  function End(p: Placed): nat {
    p.offset + |p.data|
  }

  /** The order of Python tuples of start, end and label. */
  predicate Before(a: Placed, b: Placed) {
    a.offset < b.offset || (a.offset == b.offset && (End(a) < End(b) || (End(a) == End(b) && a.rank <= b.rank)))
  }

  function Insert(p: Placed, ps: seq<Placed>): seq<Placed> {
    if ps == [] || Before(p, ps[0]) then [p] + ps else [ps[0]] + Insert(p, ps[1..])
  }

  function Sorted(ps: seq<Placed>): seq<Placed> {
    if ps == [] then [] else Insert(ps[0], Sorted(ps[1..]))
  }

  /** The loop over sorted ranges: none begins before its predecessor ends, or ends beyond the flash. */
  function CheckRanges(ps: seq<Placed>, previousEnd: nat, flashSize: nat): Result<(), ValidationError> {
    if ps == [] then Ok(())
    else if ps[0].offset < previousEnd then Err(Overlap)
    else if End(ps[0]) > flashSize then Err(BeyondFlash)
    else CheckRanges(ps[1..], End(ps[0]), flashSize)
  }

  /** Where the components go, in the order in which they are written down. */
  function Place(c: Components, contract: Contract, otadata: Partition, app0: Partition,
                 spiffs: Partition): seq<Placed> {
    [Placed(contract.bootloaderOffset, c.bootloader, 0), Placed(PARTITION_TABLE_OFFSET, c.partitions, 3),
     Placed(otadata.offset, c.otadata, 2), Placed(app0.offset, c.firmware, 1), Placed(spiffs.offset, c.spiffs, 4)]
  }

  /** What other files and tools say: the firmware manifest with the ELF and the identity
      tokens, and the unpacked SPIFFS image. */
  datatype Outside = Outside(manifestAccepted: bool, spiffsAccepted: bool)

  function ValidateSpiffs(data: seq<byte>, expectedSize: nat, o: Outside): Result<(), ValidationError> {
    if |data| != expectedSize then Err(SpiffsSize)
    else if data == Erased(|data|) || (forall i :: 0 <= i < |data| ==> data[i] == 0) then Err(SpiffsBlank)
    else if !o.spiffsAccepted then Err(SpiffsRejected)
    else Ok(())
  }

  function ValidateComponentSet(c: Components, contract: Contract, partitions: seq<Partition>, h: Hashes, o: Outside)
    : Result<seq<Placed>, ValidationError>
  {
    var _ :- ValidateEspImage(c.bootloader, contract, h, false);
    if contract.bootloaderOffset + |c.bootloader| > PARTITION_TABLE_OFFSET then Err(BootloaderTooLarge) else
      var _ :- ValidatePartitionBinary(c.partitions, partitions, h);
      var otadata :- PartitionByLabel(partitions, "otadata");
      var _ :- ValidateInitialOtadata(c.otadata, otadata.size);
      var _ :- ValidateEspImage(c.firmware, contract, h, true);
      if !o.manifestAccepted then Err(ManifestRejected) else
        var app0 :- PartitionByLabel(partitions, "app0");
        if |c.firmware| > app0.size then Err(FirmwareTooLarge) else
          var spiffs :- PartitionByLabel(partitions, "spiffs");
          var _ :- ValidateSpiffs(c.spiffs, spiffs.size, o);
          var placed := Place(c, contract, otadata, app0, spiffs);
          var _ :- CheckRanges(Sorted(placed), 0, contract.flashSize);
          Ok(placed)
  }

  // ----- The complete image -----

  function CheckComponents(data: seq<byte>, ps: seq<Placed>): Result<(), ValidationError> {
    if ps == [] then Ok(())
    else if Slice(data, ps[0].offset, End(ps[0])) != ps[0].data then Err(ComponentDiffers)
    else CheckComponents(data, ps[1..])
  }

  /** The bytes between sorted components, and after the last one, are erased. */
  function CheckGaps(data: seq<byte>, ps: seq<Placed>, cursor: nat): Result<(), ValidationError> {
    var end := if ps == [] then |data| else ps[0].offset;
    if !IsErased(Slice(data, cursor, end)) then Err(UnexpectedData)
    else if ps == [] then Ok(())
    else CheckGaps(data, ps[1..], End(ps[0]))
  }

  function ValidateFullImage(data: seq<byte>, flashSize: nat, ps: seq<Placed>): Result<(), ValidationError> {
    if |data| != flashSize then Err(ImageSize) else
      var _ :- CheckComponents(data, ps);
      CheckGaps(data, Sorted(ps), 0)
  }

  method CheckFullImage(data: seq<byte>, flashSize: nat, ps: seq<Placed>) returns (r: Result<(), ValidationError>)
    ensures r == ValidateFullImage(data, flashSize, ps)
  {
    if |data| != flashSize { return Err(ImageSize); }
    assert ps[0..] == ps;
    for i := 0 to |ps|
      invariant CheckComponents(data, ps[i..]) == CheckComponents(data, ps)
    {
      assert ps[i..][0] == ps[i] && ps[i..][1..] == ps[i + 1..];
      if Slice(data, ps[i].offset, End(ps[i])) != ps[i].data { return Err(ComponentDiffers); }
    }
    var cursor, sorted := 0, Sorted(ps);
    assert sorted[0..] == sorted;
    for i := 0 to |sorted|
      invariant CheckGaps(data, sorted[i..], cursor) == CheckGaps(data, sorted, 0)
    {
      assert sorted[i..][0] == sorted[i] && sorted[i..][1..] == sorted[i + 1..];
      if !IsErased(Slice(data, cursor, sorted[i].offset)) { return Err(UnexpectedData); }
      cursor := End(sorted[i]);
    }
    assert sorted[|sorted|..] == [];
    r := if !IsErased(Slice(data, cursor, |data|)) then Err(UnexpectedData) else Ok(());
  }

  // ----- The image is the unique overlay -----

  predicate Covers(p: Placed, i: nat) {
    p.offset <= i < End(p)
  }

  /** Erased flash overlaid with the components. */
  function OverlayByte(ps: seq<Placed>, i: nat): byte {
    if ps == [] then 0xFF
    else if Covers(ps[0], i) then ps[0].data[i - ps[0].offset]
    else OverlayByte(ps[1..], i)
  }

  function Overlay(ps: seq<Placed>, flashSize: nat): seq<byte> {
    seq(flashSize, i requires 0 <= i < flashSize => OverlayByte(ps, i))
  }

  ghost predicate Disjoint(ps: seq<Placed>) {
    forall j, k, i: nat :: 0 <= j < k < |ps| && Covers(ps[j], i) ==> !Covers(ps[k], i)
  }

  lemma {:induction false} InsertKeeps(p: Placed, ps: seq<Placed>)
    ensures multiset(Insert(p, ps)) == multiset([p]) + multiset(ps)
  {
    if ps != [] && !Before(p, ps[0]) {
      InsertKeeps(p, ps[1..]);
      assert ps == [ps[0]] + ps[1..];
    }
  }

  lemma {:induction false} SortedKeeps(ps: seq<Placed>)
    ensures multiset(Sorted(ps)) == multiset(ps)
  {
    if ps != [] {
      SortedKeeps(ps[1..]);
      InsertKeeps(ps[0], Sorted(ps[1..]));
      assert ps == [ps[0]] + ps[1..];
    }
  }

  lemma SameMembers(ps: seq<Placed>, p: Placed)
    ensures p in Sorted(ps) <==> p in ps
  {
    SortedKeeps(ps);
    assert p in multiset(Sorted(ps)) <==> p in multiset(ps);
  }

  /** Ranges that pass lie one after the other. */
  lemma {:induction false} RangesAreStacked(ps: seq<Placed>, previousEnd: nat, flashSize: nat)
    requires CheckRanges(ps, previousEnd, flashSize).Ok?
    ensures forall k :: 0 <= k < |ps| ==> previousEnd <= ps[k].offset && End(ps[k]) <= flashSize
    ensures forall j, k :: 0 <= j < k < |ps| ==> End(ps[j]) <= ps[k].offset
  {
    if ps != [] { RangesAreStacked(ps[1..], End(ps[0]), flashSize); }
  }

  /** At most one of two different components covers a byte. */
  lemma OneCovers(ps: seq<Placed>, flashSize: nat, p: Placed, q: Placed, i: nat)
    requires CheckRanges(Sorted(ps), 0, flashSize).Ok? && p in ps && q in ps && Covers(p, i) && Covers(q, i)
    ensures p == q && i < flashSize
  {
    RangesAreStacked(Sorted(ps), 0, flashSize);
    SameMembers(ps, p);
    SameMembers(ps, q);
  }

  lemma {:induction false} OverlayIs(ps: seq<Placed>, i: nat)
    ensures (forall p :: p in ps ==> !Covers(p, i)) ==> OverlayByte(ps, i) == 0xFF
    ensures (exists p :: p in ps && Covers(p, i)) ==>
      exists p :: p in ps && Covers(p, i) && OverlayByte(ps, i) == p.data[i - p.offset]
  {
    if ps != [] && !Covers(ps[0], i) {
      OverlayIs(ps[1..], i);
      assert forall p :: p in ps ==> p == ps[0] || p in ps[1..];
      assert forall p :: p in ps[1..] ==> p in ps;
    } else if ps != [] {
      assert ps[0] in ps;
    }
  }

  /** The byte of the overlay under a component is the component's. */
  lemma OverlayUnder(ps: seq<Placed>, flashSize: nat, p: Placed, i: nat)
    requires CheckRanges(Sorted(ps), 0, flashSize).Ok? && p in ps && Covers(p, i)
    ensures OverlayByte(ps, i) == p.data[i - p.offset]
  {
    OverlayIs(ps, i);
    var q :| q in ps && Covers(q, i) && OverlayByte(ps, i) == q.data[i - q.offset];
    OneCovers(ps, flashSize, p, q, i);
  }

  predicate Holds(data: seq<byte>, p: Placed) {
    End(p) <= |data| && data[p.offset..End(p)] == p.data
  }

  /** No component covers the byte. */
  ghost predicate Bare(ps: seq<Placed>, i: nat) {
    forall p :: p in ps ==> !Covers(p, i)
  }

  lemma BareHead(ps: seq<Placed>, i: nat)
    requires ps != []
    ensures Bare(ps, i) <==> !Covers(ps[0], i) && Bare(ps[1..], i)
  {
    assert ps[0] in ps;
    assert forall p :: p in ps <==> p == ps[0] || p in ps[1..];
  }

  lemma {:induction false} ComponentsMatch(data: seq<byte>, ps: seq<Placed>)
    requires forall p :: p in ps ==> End(p) <= |data|
    ensures CheckComponents(data, ps).Ok? <==> forall p :: p in ps ==> Holds(data, p)
  {
    if ps != [] {
      ComponentsMatch(data, ps[1..]);
      assert ps[0] in ps;
      assert forall p :: p in ps <==> p == ps[0] || p in ps[1..];
    }
  }

  /** The bare bytes from `cursor` on are erased. */
  ghost predicate GapsErased(data: seq<byte>, ps: seq<Placed>, cursor: nat) {
    forall i :: cursor <= i < |data| && Bare(ps, i) ==> data[i] == 0xFF
  }

  lemma {:induction false} GapsAreErased(data: seq<byte>, ps: seq<Placed>, cursor: nat)
    requires CheckRanges(ps, cursor, |data|).Ok? && cursor <= |data|
    ensures CheckGaps(data, ps, cursor).Ok? <==> GapsErased(data, ps, cursor)
  {
    if ps == [] {
      var gap := data[cursor..];
      assert forall i :: cursor <= i < |data| ==> Bare(ps, i) && data[i] == gap[i - cursor];
      assert forall j :: 0 <= j < |gap| ==> gap[j] == data[cursor + j];
    } else {
      GapsAreErased(data, ps[1..], End(ps[0]));
      FirstGap(data, ps, cursor);
    }
  }

  lemma FirstGap(data: seq<byte>, ps: seq<Placed>, cursor: nat)
    requires ps != [] && CheckRanges(ps, cursor, |data|).Ok?
    ensures GapsErased(data, ps, cursor) <==>
      IsErased(data[cursor..ps[0].offset]) && GapsErased(data, ps[1..], End(ps[0]))
  {
    hide Bare;
    RangesAreStacked(ps, cursor, |data|);
    var gap := data[cursor..ps[0].offset];
    forall i: nat | cursor <= i < |data|
      ensures i < ps[0].offset ==> Bare(ps, i) && data[i] == gap[i - cursor]
      ensures i >= End(ps[0]) ==> (Bare(ps, i) <==> Bare(ps[1..], i))
      ensures ps[0].offset <= i < End(ps[0]) ==> !Bare(ps, i)
    {
      BareHead(ps, i);
      if i < ps[0].offset { BareBefore(ps, cursor, |data|, i); }
    }
    assert forall j :: 0 <= j < |gap| ==> gap[j] == data[cursor + j];
  }

  lemma BareBefore(ps: seq<Placed>, cursor: nat, flashSize: nat, i: nat)
    requires ps != [] && CheckRanges(ps, cursor, flashSize).Ok? && i < ps[0].offset
    ensures Bare(ps, i)
  {
    RangesAreStacked(ps, cursor, flashSize);
  }

  /** For a validated component set exactly one image passes: erased flash overlaid with the
      components at their offsets. */
  lemma FullImageIsOverlay(data: seq<byte>, flashSize: nat, ps: seq<Placed>)
    requires CheckRanges(Sorted(ps), 0, flashSize).Ok?
    ensures ValidateFullImage(data, flashSize, ps).Ok? <==> data == Overlay(ps, flashSize)
  {
    hide CheckRanges, CheckComponents, CheckGaps, Sorted, OverlayByte, GapsErased, Holds;
    if |data| == flashSize {
      ComponentsFit(ps, flashSize);
      ComponentsMatch(data, ps);
      GapsAreErased(data, Sorted(ps), 0);
      MatchIsOverlay(data, flashSize, ps);
    }
  }

  lemma ComponentsFit(ps: seq<Placed>, flashSize: nat)
    requires CheckRanges(Sorted(ps), 0, flashSize).Ok?
    ensures forall p :: p in ps ==> End(p) <= flashSize
  {
    hide CheckRanges, Sorted;
    RangesAreStacked(Sorted(ps), 0, flashSize);
    forall p | p in ps ensures End(p) <= flashSize { SameMembers(ps, p); }
  }

  lemma SortedBare(ps: seq<Placed>, i: nat)
    ensures Bare(Sorted(ps), i) <==> Bare(ps, i)
  {
    forall p ensures p in Sorted(ps) <==> p in ps { SameMembers(ps, p); }
  }

  lemma MatchIsOverlay(data: seq<byte>, flashSize: nat, ps: seq<Placed>)
    requires CheckRanges(Sorted(ps), 0, flashSize).Ok? && |data| == flashSize
    requires forall p :: p in ps ==> End(p) <= flashSize
    ensures data == Overlay(ps, flashSize) <==>
      (forall p :: p in ps ==> Holds(data, p)) && GapsErased(data, Sorted(ps), 0)
  {
    hide CheckRanges, Sorted, OverlayByte;
    if data == Overlay(ps, flashSize) {
      forall p | p in ps ensures Holds(data, p) { OverlayHolds(ps, flashSize, p); }
      forall i | 0 <= i < flashSize && Bare(Sorted(ps), i) ensures data[i] == 0xFF {
        SortedBare(ps, i);
        OverlayIs(ps, i);
      }
    } else if forall p :: p in ps ==> Holds(data, p) {
      var overlay := Overlay(ps, flashSize);
      assert !(forall i :: 0 <= i < flashSize ==> data[i] == overlay[i]);
      var i :| 0 <= i < flashSize && data[i] != OverlayByte(ps, i);
      SortedBare(ps, i);
      OverlayIs(ps, i);
      if !Bare(ps, i) { HeldByte(data, flashSize, ps, i); }
    }
  }

  lemma OverlayHolds(ps: seq<Placed>, flashSize: nat, p: Placed)
    requires CheckRanges(Sorted(ps), 0, flashSize).Ok? && p in ps && End(p) <= flashSize
    ensures Holds(Overlay(ps, flashSize), p)
  {
    hide CheckRanges, Sorted, OverlayByte;
    var data := Overlay(ps, flashSize);
    forall i | 0 <= i < |p.data| ensures data[p.offset..End(p)][i] == p.data[i] {
      OverlayUnder(ps, flashSize, p, p.offset + i);
    }
  }

  lemma HeldByte(data: seq<byte>, flashSize: nat, ps: seq<Placed>, i: nat)
    requires CheckRanges(Sorted(ps), 0, flashSize).Ok? && i < |data| == flashSize && !Bare(ps, i)
    requires forall p :: p in ps ==> Holds(data, p)
    ensures data[i] == OverlayByte(ps, i)
  {
    hide CheckRanges, Sorted, OverlayByte;
    var p :| p in ps && Covers(p, i);
    OverlayUnder(ps, flashSize, p, i);
    assert data[i] == data[p.offset..End(p)][i - p.offset];
  }
}
