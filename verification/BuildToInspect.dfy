/**
 Two programs read the same flash image with separate code: what the build accepts, the
 inspector classifies as bootable from app0.
 */
module BuildToInspect {
  import opened Wrappers
  import opened Bytes
  import opened Flash
  import B = FullImage
  import I = FlashInspector

  // ----- The partition table -----

  /** The first `n` entries of the table are the expected ones. */
  ghost predicate TableHolds(table: seq<byte>, expected: seq<Partition>, n: nat)
    requires n <= |expected| && n * ENTRY_SIZE <= |table|
  {
    forall k :: 0 <= k < n ==>
      U16(B.RawEntry(table, k), 0) == PARTITION_MAGIC && ParseEntry(B.RawEntry(table, k)) == expected[k]
  }

  lemma {:induction false} EntriesHold(table: seq<byte>, expected: seq<Partition>, n: nat)
    requires n <= |expected| && n * ENTRY_SIZE <= |table| && B.Entries(table, n) == Ok(expected[..n])
    ensures TableHolds(table, expected, n)
  {
    hide ParseEntry, U16;
    if n > 0 {
      assert expected[..n][..n - 1] == expected[..n - 1];
      assert expected[..n][n - 1] == expected[n - 1];
      assert B.Entries(table, n - 1) == Ok(expected[..n - 1]);
      EntriesHold(table, expected, n - 1);
    }
  }

  lemma SliceOfSlice(b: seq<byte>, lo: nat, hi: nat, from: nat, to: nat)
    requires lo <= hi <= |b| && from <= to <= hi - lo
    ensures b[lo..hi][from..to] == b[lo + from..lo + to]
  {
    var x, y := b[lo..hi][from..to], b[lo + from..lo + to];
    assert |x| == |y| && forall i :: 0 <= i < |x| ==> x[i] == y[i];
  }

  lemma {:induction false} EntriesAreParsed(image: seq<byte>, table: seq<byte>, expected: seq<Partition>, k: nat)
    requires |table| == PARTITION_TABLE_SIZE && I.TABLE_END <= |image|
    requires image[PARTITION_TABLE_OFFSET..I.TABLE_END] == table
    requires k <= |expected| && |expected| * ENTRY_SIZE + 32 <= |table| && TableHolds(table, expected, |expected|)
    requires U16(table, |expected| * ENTRY_SIZE) == MD5_MAGIC
    ensures I.EntriesFrom(image, PARTITION_TABLE_OFFSET + k * ENTRY_SIZE) == Ok(expected[k..])
    decreases |expected| - k
  {
    hide ParseEntry, U16;
    var offset := PARTITION_TABLE_OFFSET + k * ENTRY_SIZE;
    var raw := image[offset..offset + ENTRY_SIZE];
    SliceOfSlice(image, PARTITION_TABLE_OFFSET, I.TABLE_END, k * ENTRY_SIZE, (k + 1) * ENTRY_SIZE);
    if k < |expected| {
      assert raw == B.RawEntry(table, k);
      EntriesAreParsed(image, table, expected, k + 1);
      assert expected[k..] == [expected[k]] + expected[k + 1..];
    } else {
      FirstWord(table, k * ENTRY_SIZE);
    }
  }

  lemma FirstWord(table: seq<byte>, at: nat)
    requires at + ENTRY_SIZE <= |table|
    ensures U16(table[at..at + ENTRY_SIZE], 0) == U16(table, at)
  {
  }

  lemma {:induction false} TrailerIsFound(table: seq<byte>, expected: seq<Partition>, k: nat)
    requires k <= |expected| && |expected| * ENTRY_SIZE + 32 <= |table| && TableHolds(table, expected, |expected|)
    requires U16(table, |expected| * ENTRY_SIZE) == MD5_MAGIC
    ensures I.TrailerFrom(table, k * ENTRY_SIZE) == Ok(|expected| * ENTRY_SIZE)
    decreases |expected| - k
  {
    hide ParseEntry, U16;
    if k < |expected| {
      FirstWord(table, k * ENTRY_SIZE);
      assert B.RawEntry(table, k) == table[k * ENTRY_SIZE..k * ENTRY_SIZE + ENTRY_SIZE];
      TrailerIsFound(table, expected, k + 1);
    }
  }

  /** The inspector reads the partitions that the build expected. */
  lemma TableIsRead(image: seq<byte>, table: seq<byte>, expected: seq<Partition>, h: Hashes)
    requires B.ValidatePartitionBinary(table, expected, h).Ok? && expected != []
    requires I.TABLE_END <= |image| && image[PARTITION_TABLE_OFFSET..I.TABLE_END] == table
    ensures I.Partitions(image) == Ok(expected)
    ensures I.ValidatePartitionTable(image, h) == Ok(|expected| * ENTRY_SIZE)
  {
    hide ParseEntry, U16, I.EntriesFrom, I.TrailerFrom, TableHolds;
    var n := |expected|;
    assert expected[..n] == expected;
    EntriesHold(table, expected, n);
    EntriesAreParsed(image, table, expected, 0);
    TrailerIsFound(table, expected, 0);
    assert expected[0..] == expected;
  }

  // ----- Where the components are -----

  /** The layout that the inspector requires. */
  predicate InspectedLayout(partitions: seq<Partition>) {
    && At(partitions, "nvs", 0x9000, 0x5000) && At(partitions, "otadata", 0xE000, 0x2000)
    && At(partitions, "app0", 0x1_0000, 0x1E_0000) && At(partitions, "app1", 0x1F_0000, 0x1E_0000)
    && At(partitions, "spiffs", 0x3D_0000, 0x3_0000)
  }

  /** The inspector takes app0 and app1, in this order, for the OTA applications. */
  predicate OnlyApps(partitions: seq<Partition>)
    requires InspectedLayout(partitions)
  {
    I.Apps(partitions) == [I.ByLabel(partitions, "app0").value, I.ByLabel(partitions, "app1").value]
  }

  /** The OTA applications are named app0 and app1, and the second one is erased in the image. */
  predicate AppThenErased(partitions: seq<Partition>, image: seq<byte>) {
    var apps := I.Apps(partitions);
    && |apps| == 2 && apps[0].name == "app0" && apps[1].name == "app1"
    && IsErased(Slice(image, apps[1].offset, apps[1].offset + apps[1].size))
  }

  predicate At(partitions: seq<Partition>, name: string, offset: nat, size: nat) {
    var p := I.ByLabel(partitions, name);
    p.Some? && p.value.offset == offset && p.value.size == size
  }

  lemma {:induction false} NamedConcat(a: seq<Partition>, b: seq<Partition>, name: string)
    ensures B.Named(a + b, name) == B.Named(a, name) + B.Named(b, name)
  {
    if a == [] {
      assert a + b == b;
    } else {
      assert (a + b)[1..] == a[1..] + b;
      NamedConcat(a[1..], b, name);
      var head := if a[0].name == name then [a[0]] else [];
      assert head + (B.Named(a[1..], name) + B.Named(b, name)) == head + B.Named(a[1..], name) + B.Named(b, name);
    }
  }

  /** The only partition of a name is also the last one. */
  lemma {:induction false} OnlyIsLast(partitions: seq<Partition>, name: string)
    ensures |B.Named(partitions, name)| == 0 <==> I.ByLabel(partitions, name) == None
    ensures |B.Named(partitions, name)| == 1 ==> I.ByLabel(partitions, name) == Some(B.Named(partitions, name)[0])
    ensures I.ByLabel(partitions, name).Some? ==> I.ByLabel(partitions, name).value.name == name
  {
    if partitions != [] {
      var init, last := partitions[..|partitions| - 1], partitions[|partitions| - 1];
      assert partitions == init + [last];
      NamedConcat(init, [last], name);
      assert B.Named([last], name) == if last.name == name then [last] else [] by { assert [last][1..] == []; }
      OnlyIsLast(init, name);
    }
  }

  /** What a validated component set says, for the required layout. */
  ghost predicate Placement(c: B.Components, contract: B.Contract, ps: seq<B.Placed>) {
    && ps == [B.Placed(contract.bootloaderOffset, c.bootloader, 0), B.Placed(PARTITION_TABLE_OFFSET, c.partitions, 3),
              B.Placed(0xE000, c.otadata, 2), B.Placed(0x1_0000, c.firmware, 1), B.Placed(0x3D_0000, c.spiffs, 4)]
    && contract.bootloaderOffset + |c.bootloader| <= PARTITION_TABLE_OFFSET
    && |c.partitions| == PARTITION_TABLE_SIZE && |c.otadata| == 0x2000
    && |c.firmware| <= 0x1E_0000 && |c.spiffs| == 0x3_0000
    && B.CheckRanges(B.Sorted(ps), 0, contract.flashSize).Ok?
  }

  lemma ComponentsArePlaced(c: B.Components, contract: B.Contract, partitions: seq<Partition>, h: Hashes, o: B.Outside)
    requires B.ValidateComponentSet(c, contract, partitions, h, o).Ok? && InspectedLayout(partitions)
    ensures Placement(c, contract, B.ValidateComponentSet(c, contract, partitions, h, o).value)
    ensures B.ValidatePartitionBinary(c.partitions, partitions, h).Ok?
    ensures B.ValidateEspImage(c.firmware, contract, h, true).Ok? && c.otadata == B.InitialOtadata()
  {
    hide B.ValidateEspImage, B.ValidatePartitionBinary, B.CheckRanges, B.Sorted, B.Named, I.ByLabel, I.OfSubtype,
      B.InitialOtadata;
    OnlyIsLast(partitions, "otadata");
    OnlyIsLast(partitions, "app0");
    OnlyIsLast(partitions, "spiffs");
    TableSizeIs(c.partitions, partitions, h);
  }

  lemma TableSizeIs(table: seq<byte>, expected: seq<Partition>, h: Hashes)
    requires B.ValidatePartitionBinary(table, expected, h).Ok?
    ensures |table| == PARTITION_TABLE_SIZE
  {
  }

  /** The component is at its place in the image, and bytes under no component are erased. */
  lemma ImageParts(image: seq<byte>, flashSize: nat, ps: seq<B.Placed>)
    requires B.CheckRanges(B.Sorted(ps), 0, flashSize).Ok? && B.ValidateFullImage(image, flashSize, ps).Ok?
    ensures |image| == flashSize
    ensures forall p :: p in ps ==> B.Holds(image, p)
    ensures forall i :: 0 <= i < |image| && B.Bare(ps, i) ==> image[i] == 0xFF
  {
    hide B.CheckRanges, B.Sorted, B.ValidateFullImage, B.OverlayByte, B.Holds;
    B.FullImageIsOverlay(image, flashSize, ps);
    B.ComponentsFit(ps, flashSize);
    forall p | p in ps ensures B.Holds(image, p) { B.OverlayHolds(ps, flashSize, p); }
    forall i | 0 <= i < |image| && B.Bare(ps, i) ensures image[i] == 0xFF { B.OverlayIs(ps, i); }
  }

  /** The regions of the image that the inspector looks at. */
  ghost predicate Regions(image: seq<byte>, c: B.Components) {
    && |image| >= 0x40_0000
    && image[0x8000..0x8C00] == c.partitions
    && IsErased(image[0x9000..0xE000])
    && image[0xE000..0x1_0000] == c.otadata
    && |c.firmware| <= 0x1E_0000
    && image[0x1_0000..0x1_0000 + |c.firmware|] == c.firmware
    && IsErased(image[0x1_0000 + |c.firmware|..0x1F_0000])
    && IsErased(image[0x1F_0000..0x3D_0000])
    && image[0x3D_0000..0x40_0000] == c.spiffs
  }

  lemma BareBetween(image: seq<byte>, c: B.Components, contract: B.Contract, ps: seq<B.Placed>, lo: nat, hi: nat)
    requires Placement(c, contract, ps) && lo <= hi <= |image|
    requires forall i :: 0 <= i < |image| && B.Bare(ps, i) ==> image[i] == 0xFF
    requires (PARTITION_TABLE_OFFSET + PARTITION_TABLE_SIZE <= lo && hi <= 0xE000)
          || (0x1_0000 + |c.firmware| <= lo && hi <= 0x3D_0000)
    ensures IsErased(image[lo..hi])
  {
    hide B.CheckRanges, B.Sorted, B.Bare;
    forall i | 0 <= i < hi - lo ensures image[lo..hi][i] == 0xFF {
      assert B.Bare(ps, lo + i) by { BareOfFive(ps, lo + i); }
    }
  }

  lemma BareOfFive(ps: seq<B.Placed>, i: nat)
    requires |ps| == 5 && forall k :: 0 <= k < 5 ==> !B.Covers(ps[k], i)
    ensures B.Bare(ps, i)
  {
  }

  lemma RegionsAre(image: seq<byte>, c: B.Components, contract: B.Contract, ps: seq<B.Placed>)
    requires Placement(c, contract, ps) && contract.flashSize >= 0x40_0000
    requires B.ValidateFullImage(image, contract.flashSize, ps).Ok?
    ensures Regions(image, c)
  {
    hide B.CheckRanges, B.Sorted, B.ValidateFullImage, B.Bare;
    ImageParts(image, contract.flashSize, ps);
    assert B.Holds(image, ps[1]) && B.Holds(image, ps[2]) && B.Holds(image, ps[3]) && B.Holds(image, ps[4]);
    BareBetween(image, c, contract, ps, 0x9000, 0xE000);
    BareBetween(image, c, contract, ps, 0x1_0000 + |c.firmware|, 0x1F_0000);
    BareBetween(image, c, contract, ps, 0x1F_0000, 0x3D_0000);
  }

  // ----- OTA data -----

  const FIRST := I.Record(0, true, 1, UNDEFINED, true, true, Some(0))
  const SECOND := I.Record(1, true, 0, UNDEFINED, true, true, Some(1))

  lemma FirstRecord(raw: seq<byte>)
    requires raw == Le32(1) + Erased(24) + Le32(OtaCrc(1))
    ensures I.OtaRecord(raw, 0, 2) == Ok(FIRST)
  {
    hide OtaCrc, U32, Le32;
    ErasedWord();
    assert Erased(24) == Erased(20) + Le32(UNDEFINED);
    WordAt(raw, [], 1, Erased(24) + Le32(OtaCrc(1)));
    WordAt(raw, Le32(1) + Erased(20), UNDEFINED, Le32(OtaCrc(1)));
    WordAt(raw, Le32(1) + Erased(24), OtaCrc(1), []);
    assert raw[0] == Le32(1)[0] && Le32(1)[0] == 1 by { assert Le32(1)[0] == 1 by { LowByte(1); } }
    assert raw[..32] == raw && Erased(32)[0] == 0xFF;
  }

  lemma LowByte(n: nat)
    ensures Le32(n)[0] == n % 256
  {
  }

  lemma ErasedWord()
    ensures Le32(UNDEFINED) == Erased(4)
  {
  }

  lemma WordAt(raw: seq<byte>, before: seq<byte>, n: nat, rest: seq<byte>)
    requires n <= UNDEFINED && raw == before + (Le32(n) + rest)
    ensures U32(raw, |before|) == n
  {
    Le32Read(n, rest);
    ReadWithin(raw, |before|, |raw|, 0);
    assert raw[|before|..] == Le32(n) + rest;
  }

  lemma SecondRecord(raw: seq<byte>)
    requires raw == Le32(0) + Erased(28)
    ensures I.OtaRecord(raw, 1, 2) == Ok(SECOND)
  {
    hide OtaCrc, U32, Le32;
    ErasedWord();
    CrcOfZero();
    assert Erased(28) == Erased(20) + Le32(UNDEFINED) + Le32(UNDEFINED);
    WordAt(raw, [], 0, Erased(28));
    WordAt(raw, Le32(0) + Erased(20), UNDEFINED, Le32(UNDEFINED));
    WordAt(raw, Le32(0) + Erased(24), UNDEFINED, []);
    assert raw[0] == Le32(0)[0] == 0 by { LowByte(0); }
    assert raw[..32] == raw && Erased(32)[0] == 0xFF;
  }

  lemma OtadataSlices(image: seq<byte>)
    requires |image| >= 0x1_0000 && image[0xE000..0x1_0000] == B.InitialOtadata()
    ensures image[0xE000..0xE020] == Le32(1) + Erased(24) + Le32(OtaCrc(1))
    ensures image[0xF000..0xF020] == Le32(0) + Erased(28)
  {
    hide OtaCrc, Le32;
    SliceOfSlice(image, 0xE000, 0x1_0000, 0, 0x20);
    SliceOfSlice(image, 0xE000, 0x1_0000, 0x1000, 0x1020);
    var head := Le32(1) + Erased(24) + Le32(OtaCrc(1));
    var first, second := head + Erased(B.SECTOR - 32), Le32(0) + Erased(B.SECTOR - 4);
    assert B.InitialOtadata() == first + second;
    assert (first + second)[..32] == head && |first| == 0x1000;
    assert (first + second)[0x1000..0x1020] == Le32(0) + Erased(28);
  }

  // ----- The applications -----

  lemma FirmwareIsBootable(name: string, firmware: seq<byte>, part: seq<byte>, contract: B.Contract, h: Hashes)
    requires B.ValidateEspImage(firmware, contract, h, true).Ok? && |firmware| <= |part|
    requires part[..|firmware|] == firmware
    ensures var a := I.InspectApp(name, part, h);
      && a.name == name && a.status == I.VALID && a.bootable
      && a.validation == Some(Ok(I.ImageInfo(firmware[1], true, |firmware|)))
  {
    hide Walk, ChecksumOffset;
    var info := I.ImageInfo(firmware[1], true, |firmware|);
    assert I.ValidateEspImage(firmware, h) == Ok(info);
    assert part == firmware + part[|firmware|..];
    I.ImageOfPrefix(firmware, part[|firmware|..], h);
    I.ProgrammedIs(part);
    assert part[0] == firmware[0];
  }

  lemma ErasedAppIsEmpty(name: string, part: seq<byte>, h: Hashes)
    requires IsErased(part)
    ensures I.InspectApp(name, part, h) == I.AppReport(name, I.EMPTY, false, 0, None)
  {
    I.ProgrammedIs(part);
  }

  // ----- Non-volatile storage -----

  lemma {:induction false} ErasedPages(b: seq<byte>, r: I.NvsReport, h: Hashes)
    requires |b| % I.PAGE_SIZE == 0 && IsErased(b)
    ensures I.CheckPages(b, r, h) == Ok(r.(empty := r.empty + |b| / I.PAGE_SIZE))
    decreases |b|
  {
    if b != [] {
      var page, rest := b[..I.PAGE_SIZE], b[I.PAGE_SIZE..];
      assert page == Erased(I.PAGE_SIZE);
      assert U32(page, 0) == UNDEFINED;
      assert I.CheckPage(page, r, h) == Ok(I.Counted(r, I.EmptyPage));
      ErasedPages(rest, I.Counted(r, I.EmptyPage), h);
    }
  }

  // ----- The summary -----

  /** The two initial records select app0; the second one names app1, which is no image. */
  lemma SummaryOfInitialRecords(apps: seq<I.AppReport>)
    requires |apps| == 2 && apps[0].name == "app0" && apps[1].name == "app1" && apps[0].bootable && !apps[1].bootable
    ensures var s := I.OtadataSummary([FIRST, SECOND], apps);
      && s.active == Some(FIRST) && s.activeSlot == Some("app0") && s.activeBootable && s.nextBootSlot == Some("app0")
      && !s.initialContents && s.rollbackSlot == Some("app1") && !s.rollbackAvailable
      && s.issues == [I.ROLLBACK_RECORD_WITHOUT_BOOTABLE_IMAGE]
  {
    var records := [FIRST, SECOND];
    assert records[..1] == [FIRST] && [FIRST][..0] == [];
    assert I.ActiveRecord([FIRST]) == Some(FIRST);
    assert I.ActiveRecord(records) == Some(FIRST);
    assert records[1..] == [SECOND] && I.OtherRecord(records, 0) == Some(SECOND);
    assert apps[1..][0] == apps[1] && "app0" != "app1";
    assert I.AppNamed(apps, Some("app0")) == Some(apps[0]);
    assert I.AppNamed(apps, Some("app1")) == Some(apps[1]);
    assert FIRST in records;
    assert forall r :: r in records ==> r == FIRST || r == SECOND;
  }

  // ----- The theorem -----

  /** What the inspector reports of an image that the build accepted. */
  ghost predicate BootsFromApp0(r: I.Report, partitions: seq<Partition>, firmware: seq<byte>)
    requires |firmware| > 1
  {
    && r.partitions == partitions && r.tableBytes == |partitions| * ENTRY_SIZE
    && r.records == [FIRST, SECOND]
    && r.nvs == I.NO_PAGES.(empty := 5)
    && |r.apps| == 2
    && r.apps[0].name == "app0" && r.apps[0].status == I.VALID && r.apps[0].bootable
    && r.apps[0].validation == Some(Ok(I.ImageInfo(firmware[1], true, |firmware|)))
    && r.apps[1] == I.AppReport("app1", I.EMPTY, false, 0, None)
    && r.summary.activeSlot == Some("app0") && r.summary.activeBootable && r.summary.nextBootSlot == Some("app0")
    && !r.summary.rollbackAvailable && r.summary.issues == [I.ROLLBACK_RECORD_WITHOUT_BOOTABLE_IMAGE]
    && r.previousCandidates == []
  }

  lemma {:induction false} SubtypeMembers(partitions: seq<Partition>, subtype: nat)
    ensures forall p <- I.OfSubtype(partitions, subtype) :: p in partitions
  {
    if partitions != [] { SubtypeMembers(partitions[1..], subtype); }
  }

  lemma {:induction false} NamedMember(partitions: seq<Partition>, p: Partition)
    requires p in partitions
    ensures p in B.Named(partitions, p.name)
  {
    if p != partitions[0] { NamedMember(partitions[1..], p); }
  }

  /** The only partition of a name is the one that the inspector finds by it. */
  lemma OnlyOneOfName(partitions: seq<Partition>, p: Partition)
    requires p in partitions && |B.Named(partitions, p.name)| == 1
    ensures I.ByLabel(partitions, p.name) == Some(p)
  {
    NamedMember(partitions, p);
    OnlyIsLast(partitions, p.name);
  }

  /** The only partition named app0 is the first application. */
  lemma FirstAppIsApp0(partitions: seq<Partition>, image: seq<byte>)
    requires AppThenErased(partitions, image) && |B.Named(partitions, "app0")| == 1
    ensures I.ByLabel(partitions, "app0") == Some(I.Apps(partitions)[0])
  {
    hide I.ByLabel, B.Named, I.OfSubtype;
    var apps := I.Apps(partitions);
    SubtypeMembers(partitions, 0x10);
    SubtypeMembers(partitions, 0x11);
    assert apps[0] in apps;
    OnlyOneOfName(partitions, apps[0]);
  }

  lemma BothInspected(image: seq<byte>, apps: seq<Partition>, h: Hashes)
    requires |apps| == 2
    ensures var a, b := apps[0], apps[1];
      I.InspectApps(image, apps, h) == [I.InspectApp(a.name, Slice(image, a.offset, a.offset + a.size), h),
                                        I.InspectApp(b.name, Slice(image, b.offset, b.offset + b.size), h)]
  {
    hide I.InspectApp, Slice;
    assert apps[1..] == [apps[1]] && [apps[1]][1..] == [];
    assert I.InspectApps(image, [], h) == [];
    assert |I.InspectApps(image, [apps[1]], h)| == 1;
  }

  lemma AppsAreInspected(image: seq<byte>, c: B.Components, contract: B.Contract, partitions: seq<Partition>, h: Hashes)
    requires Regions(image, c) && InspectedLayout(partitions) && AppThenErased(partitions, image)
    requires |B.Named(partitions, "app0")| == 1
    requires B.ValidateEspImage(c.firmware, contract, h, true).Ok?
    ensures |c.firmware| > 1 && |I.Apps(partitions)| == 2
    ensures var apps := I.InspectApps(image, I.Apps(partitions), h);
      && |apps| == 2
      && apps[0].name == "app0" && apps[0].status == I.VALID && apps[0].bootable
      && apps[0].validation == Some(Ok(I.ImageInfo(c.firmware[1], true, |c.firmware|)))
      && apps[1] == I.AppReport("app1", I.EMPTY, false, 0, None)
  {
    hide I.ByLabel, I.InspectApp, I.InspectApps, I.Apps, B.Named, IsErased;
    var apps := I.Apps(partitions);
    FirstAppIsApp0(partitions, image);
    var part, second := image[0x1_0000..0x1F_0000], Slice(image, apps[1].offset, apps[1].offset + apps[1].size);
    SliceOfSlice(image, 0x1_0000, 0x1F_0000, 0, |c.firmware|);
    FirmwareLength(c.firmware, contract, h);
    FirmwareIsBootable("app0", c.firmware, part, contract, h);
    ErasedAppIsEmpty("app1", second, h);
    assert Slice(image, apps[0].offset, apps[0].offset + apps[0].size) == part;
    BothInspected(image, apps, h);
  }

  lemma FirmwareLength(firmware: seq<byte>, contract: B.Contract, h: Hashes)
    requires B.ValidateEspImage(firmware, contract, h, true).Ok?
    ensures |firmware| >= 24
  {
  }

  lemma RecordsAreRead(image: seq<byte>, c: B.Components)
    requires Regions(image, c) && c.otadata == B.InitialOtadata()
    ensures I.OtaRecord(Slice(image, 0xE000, 0xE020), 0, 2) == Ok(FIRST)
    ensures I.OtaRecord(Slice(image, 0xF000, 0xF020), 1, 2) == Ok(SECOND)
  {
    hide I.OtaRecord, B.InitialOtadata, OtaCrc;
    OtadataSlices(image);
    FirstRecord(image[0xE000..0xE020]);
    SecondRecord(image[0xF000..0xF020]);
  }

  lemma NvsIsEmpty(image: seq<byte>, c: B.Components, h: Hashes)
    requires Regions(image, c)
    ensures I.ValidateNvs(Slice(image, 0x9000, 0xE000), h) == Ok(I.NO_PAGES.(empty := 5))
  {
    hide I.CheckPages;
    ErasedPages(image[0x9000..0xE000], I.NO_PAGES, h);
  }

  lemma NoCandidates(apps: seq<I.AppReport>, records: seq<I.Record>)
    requires |apps| == 2 && apps[0].name == "app0" && !apps[1].bootable
    ensures I.PreviousCandidates(apps, 0, Some("app0"), records) == []
  {
    assert I.PreviousCandidates(apps, 2, Some("app0"), records) == [];
    assert I.PreviousCandidates(apps, 1, Some("app0"), records) == [];
  }

  lemma LocatedIs(partitions: seq<Partition>, name: string, offset: nat, size: nat, imageSize: nat)
    requires At(partitions, name, offset, size) && offset + size <= imageSize
    ensures I.Located(partitions, name, offset, size, imageSize) == Ok(I.ByLabel(partitions, name).value)
  {
  }

  /** What is reported once app0 and an erased app1 are the applications. */
  lemma ReportOf(c: B.Components, profile: Profile, contract: B.Contract, partitions: seq<Partition>, h: Hashes,
                 o: B.Outside, image: seq<byte>, spiffsAccepted: seq<byte> -> bool)
    requires contract == B.ContractOf(profile)
    requires B.ValidateComponentSet(c, contract, partitions, h, o).Ok?
    requires B.ValidateFullImage(image, contract.flashSize,
        B.ValidateComponentSet(c, contract, partitions, h, o).value).Ok?
    requires partitions != [] && InspectedLayout(partitions) && AppThenErased(partitions, image)
    ensures |c.firmware| > 1
    ensures var r := I.InspectImage(image, h, spiffsAccepted);
      if spiffsAccepted(c.spiffs) then r.Ok? && BootsFromApp0(r.value, partitions, c.firmware)
      else r == Err(I.SpiffsFailed)
  {
    hide B.ValidateEspImage, B.ValidatePartitionBinary, B.InitialOtadata, I.Partitions, I.ValidatePartitionTable,
      I.OtaRecord, I.InspectApps, I.Apps, I.OtadataSummary, I.ValidateNvs, I.PreviousCandidates, I.ByLabel, I.OfSubtype,
      I.Located, B.ValidateComponentSet, B.ValidateFullImage, B.CheckRanges, B.Sorted, B.Named, IsErased, AppThenErased;
    var ps := B.ValidateComponentSet(c, contract, partitions, h, o).value;
    ComponentsArePlaced(c, contract, partitions, h, o);
    RegionsAre(image, c, contract, ps);
    TableIsRead(image, c.partitions, partitions, h);
    LocatedIs(partitions, "nvs", 0x9000, 0x5000, |image|);
    LocatedIs(partitions, "otadata", 0xE000, 0x2000, |image|);
    LocatedIs(partitions, "app0", 0x1_0000, 0x1E_0000, |image|);
    LocatedIs(partitions, "app1", 0x1F_0000, 0x1E_0000, |image|);
    LocatedIs(partitions, "spiffs", 0x3D_0000, 0x3_0000, |image|);
    OneApp0(c, contract, partitions, h, o);
    AppsAreInspected(image, c, contract, partitions, h);
    RecordsAreRead(image, c);
    var apps := I.InspectApps(image, I.Apps(partitions), h);
    SummaryOfInitialRecords(apps);
    NvsIsEmpty(image, c, h);
    NoCandidates(apps, [FIRST, SECOND]);
    assert Slice(image, 0x3D_0000, 0x40_0000) == c.spiffs;
  }

  /** Any complete image that the build accepts, for a layout that the inspector requires, is
      inspected as follows: the partitions are those of the build, non-volatile storage is
      empty, app0 is selected, VALID and bootable, app1 is EMPTY and nothing can be rolled
      back. Whether there is a report at all is then up to the SPIFFS tool. */
  lemma AcceptedImageBootsFromApp0(c: B.Components, profile: Profile, contract: B.Contract, partitions: seq<Partition>,
                                   h: Hashes, o: B.Outside, image: seq<byte>, spiffsAccepted: seq<byte> -> bool)
    requires contract == B.ContractOf(profile)
    requires B.ValidateComponentSet(c, contract, partitions, h, o).Ok?
    requires B.ValidateFullImage(image, contract.flashSize,
        B.ValidateComponentSet(c, contract, partitions, h, o).value).Ok?
    requires partitions != [] && InspectedLayout(partitions) && OnlyApps(partitions)
    ensures |c.firmware| > 1
    ensures var r := I.InspectImage(image, h, spiffsAccepted);
      if spiffsAccepted(c.spiffs) then r.Ok? && BootsFromApp0(r.value, partitions, c.firmware)
      else r == Err(I.SpiffsFailed)
  {
    hide B.ValidateComponentSet, B.ValidateFullImage, I.InspectImage, Placement, BootsFromApp0, AppThenErased;
    ComponentsArePlaced(c, contract, partitions, h, o);
    RegionsAre(image, c, contract, B.ValidateComponentSet(c, contract, partitions, h, o).value);
    OnlyAppsAreErased(image, c, partitions);
    ReportOf(c, profile, contract, partitions, h, o, image, spiffsAccepted);
  }

  lemma OnlyAppsAreErased(image: seq<byte>, c: B.Components, partitions: seq<Partition>)
    requires Regions(image, c) && InspectedLayout(partitions) && OnlyApps(partitions)
    ensures AppThenErased(partitions, image)
  {
    hide I.ByLabel, I.OfSubtype;
    OnlyIsLast(partitions, "app0");
    OnlyIsLast(partitions, "app1");
    assert Slice(image, 0x1F_0000, 0x3D_0000) == image[0x1F_0000..0x3D_0000];
  }

  // ----- The layouts for which it holds -----

  lemma {:induction false} ReportedNames(image: seq<byte>, apps: seq<Partition>, h: Hashes)
    ensures var r := I.InspectApps(image, apps, h);
      |r| == |apps| && forall i :: 0 <= i < |r| ==> r[i].name == apps[i].name
  {
    hide I.InspectApp;
    if apps != [] {
      ReportedNames(image, apps[1..], h);
      NameIsKept(apps[0].name, Slice(image, apps[0].offset, apps[0].offset + apps[0].size), h);
    }
  }

  lemma NameIsKept(name: string, part: seq<byte>, h: Hashes)
    ensures I.InspectApp(name, part, h).name == name
  {
  }

  /** The inspector reports this exactly if it takes a partition app0 and then an erased one app1
      for the OTA applications, and if the SPIFFS tool accepts. If there is one app1 only, it is
      erased, and that is to say that app0 and app1 are the only applications. */
  lemma BootsFromApp0Iff(c: B.Components, profile: Profile, contract: B.Contract, partitions: seq<Partition>,
                         h: Hashes, o: B.Outside, image: seq<byte>, spiffsAccepted: seq<byte> -> bool)
    requires contract == B.ContractOf(profile)
    requires B.ValidateComponentSet(c, contract, partitions, h, o).Ok?
    requires B.ValidateFullImage(image, contract.flashSize,
        B.ValidateComponentSet(c, contract, partitions, h, o).value).Ok?
    requires partitions != [] && InspectedLayout(partitions)
    ensures |c.firmware| > 1
    ensures var r := I.InspectImage(image, h, spiffsAccepted);
      (r.Ok? && BootsFromApp0(r.value, partitions, c.firmware)) <==>
      (spiffsAccepted(c.spiffs) && AppThenErased(partitions, image))
    ensures |B.Named(partitions, "app1")| == 1 ==> (AppThenErased(partitions, image) <==> OnlyApps(partitions))
  {
    hide B.ValidateEspImage, B.ValidatePartitionBinary, B.InitialOtadata, B.ValidateComponentSet, B.ValidateFullImage,
      I.InspectImage, I.Apps, I.ByLabel, B.Named, Placement, AppThenErased, OnlyApps;
    var ps := B.ValidateComponentSet(c, contract, partitions, h, o).value;
    ComponentsArePlaced(c, contract, partitions, h, o);
    FirmwareLength(c.firmware, contract, h);
    RegionsAre(image, c, contract, ps);
    OneApp0(c, contract, partitions, h, o);
    if AppThenErased(partitions, image) {
      ReportOf(c, profile, contract, partitions, h, o, image, spiffsAccepted);
      if |B.Named(partitions, "app1")| == 1 { OneOfEach(partitions, image); }
    }
    if OnlyApps(partitions) { OnlyAppsAreErased(image, c, partitions); }
    var r := I.InspectImage(image, h, spiffsAccepted);
    if r.Ok? && BootsFromApp0(r.value, partitions, c.firmware) {
      TableIsRead(image, c.partitions, partitions, h);
      ReportNamesApps(image, partitions, h, spiffsAccepted);
    }
  }

  lemma OneApp0(c: B.Components, contract: B.Contract, partitions: seq<Partition>, h: Hashes, o: B.Outside)
    requires B.ValidateComponentSet(c, contract, partitions, h, o).Ok?
    ensures |B.Named(partitions, "app0")| == 1
  {
    hide B.ValidateEspImage, B.ValidatePartitionBinary, B.CheckRanges, B.Sorted, B.Named, B.InitialOtadata;
  }

  lemma OneOfEach(partitions: seq<Partition>, image: seq<byte>)
    requires InspectedLayout(partitions) && AppThenErased(partitions, image)
    requires |B.Named(partitions, "app0")| == 1 && |B.Named(partitions, "app1")| == 1
    ensures OnlyApps(partitions)
  {
    hide I.ByLabel, B.Named, I.OfSubtype;
    var apps := I.Apps(partitions);
    SubtypeMembers(partitions, 0x10);
    SubtypeMembers(partitions, 0x11);
    assert apps[0] in apps && apps[1] in apps;
    OnlyOneOfName(partitions, apps[0]);
    OnlyOneOfName(partitions, apps[1]);
  }

  lemma ReportNamesApps(image: seq<byte>, partitions: seq<Partition>, h: Hashes, spiffsAccepted: seq<byte> -> bool)
    requires I.Partitions(image) == Ok(partitions) && I.InspectImage(image, h, spiffsAccepted).Ok?
    requires var r := I.InspectImage(image, h, spiffsAccepted).value;
      |r.apps| == 2 && r.apps[0].name == "app0" && r.apps[1] == I.AppReport("app1", I.EMPTY, false, 0, None)
    ensures AppThenErased(partitions, image)
  {
    hide I.InspectImage, I.InspectApps, I.Apps, I.InspectApp, I.Partitions, Slice, IsErased;
    var apps := I.Apps(partitions);
    ReportedApps(image, partitions, h, spiffsAccepted);
    ReportedNames(image, apps, h);
    BothInspected(image, apps, h);
    EmptyIsErased(apps[1].name, Slice(image, apps[1].offset, apps[1].offset + apps[1].size), h);
  }

  lemma ReportedApps(image: seq<byte>, partitions: seq<Partition>, h: Hashes, spiffsAccepted: seq<byte> -> bool)
    requires I.Partitions(image) == Ok(partitions) && I.InspectImage(image, h, spiffsAccepted).Ok?
    ensures I.InspectImage(image, h, spiffsAccepted).value.apps == I.InspectApps(image, I.Apps(partitions), h)
  {
    hide I.Partitions, I.ValidatePartitionTable, I.Located, I.OtaRecord, I.InspectApps, I.OtadataSummary, I.ValidateNvs,
      I.PreviousCandidates, I.Apps, Slice;
  }

  lemma EmptyIsErased(name: string, part: seq<byte>, h: Hashes)
    ensures I.InspectApp(name, part, h).status == I.EMPTY <==> IsErased(part)
  {
    I.ProgrammedIs(part);
  }
}
