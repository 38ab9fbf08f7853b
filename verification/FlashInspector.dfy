/** The offline inspection of a captured flash image: partition table, OTA data, application
    images and non-volatile storage. */
module FlashInspector {
  import opened Numbers
  import opened Wrappers
  import opened Bytes
  import opened Flash

  datatype HilError =
    | BadEntryMagic | NoTable | TableTruncated | NoMd5Trailer | Md5Mismatch
    | BadImageMagic | BadSegmentCount | Truncated(e: SegmentError) | NoChecksumByte | ChecksumMismatch
    | HashTruncated | HashMismatch
    | NvsUnaligned | NvsState | NvsEmptyProgrammed | NvsVersion | NvsPageCrc | NvsEntryState | NvsSpan | NvsSpanState
    | NvsEntryCrc | NvsItemSpan | NvsPayloadSize | NvsPayloadCrc | NvsType
    | NoRecord | Layout | BeyondImage | SpiffsFailed

  // ----- The partition table -----

  const TABLE_END: nat := PARTITION_TABLE_OFFSET + PARTITION_TABLE_SIZE

  function EntriesFrom(image: seq<byte>, offset: nat): Result<seq<Partition>, HilError>
    decreases TABLE_END - offset
  {
    if offset >= TABLE_END || offset + ENTRY_SIZE > |image| then Ok([]) else
      var raw := image[offset..offset + ENTRY_SIZE];
      var magic := U16(raw, 0);
      if magic == 0xFFFF || magic == MD5_MAGIC then Ok([])
      else if magic != PARTITION_MAGIC then Err(BadEntryMagic)
      else
        var rest :- EntriesFrom(image, offset + ENTRY_SIZE);
        Ok([ParseEntry(raw)] + rest)
  }

  function Partitions(image: seq<byte>): Result<seq<Partition>, HilError> {
    var entries :- EntriesFrom(image, PARTITION_TABLE_OFFSET);
    if entries == [] then Err(NoTable) else Ok(entries)
  }

  method ParsePartitions(image: seq<byte>) returns (r: Result<seq<Partition>, HilError>)
    ensures r == Partitions(image)
  {
    hide ParseEntry, U16;
    var partitions: seq<Partition>, offset: nat, done := [], PARTITION_TABLE_OFFSET, false;
    ghost var whole := EntriesFrom(image, offset);
    assert whole.Ok? ==> [] + whole.value == whole.value;
    while offset < TABLE_END && !done
      invariant var rest := EntriesFrom(image, offset);
        EntriesFrom(image, PARTITION_TABLE_OFFSET) ==
          if done then Ok(partitions) else if rest.Err? then rest else Ok(partitions + rest.value)
      decreases TABLE_END - offset, !done
    {
      ghost var before := partitions;
      if offset + ENTRY_SIZE > |image| {
        done := true;
        assert partitions + [] == partitions;
      } else {
        var raw := image[offset..offset + ENTRY_SIZE];
        var magic := U16(raw, 0);
        if magic == 0xFFFF || magic == MD5_MAGIC {
          done := true;
          assert partitions + [] == partitions;
        } else if magic != PARTITION_MAGIC {
          return Err(BadEntryMagic);
        } else {
          partitions := partitions + [ParseEntry(raw)];
          offset := offset + ENTRY_SIZE;
          ghost var rest := EntriesFrom(image, offset);
          assert rest.Ok? ==> before + ([ParseEntry(raw)] + rest.value) == partitions + rest.value;
        }
      }
    }
    assert partitions + [] == partitions;
    r := if partitions == [] then Err(NoTable) else Ok(partitions);
  }

  /** Where the MD5 trailer of a table is. */
  function TrailerFrom(table: seq<byte>, offset: nat): Result<nat, HilError>
    decreases |table| - offset
  {
    if offset >= |table| then Err(NoMd5Trailer)
    else if offset + 2 > |table| then Err(TableTruncated)
    else
      var magic := U16(table, offset);
      if magic == MD5_MAGIC then Ok(offset)
      else if magic == 0xFFFF then Err(NoMd5Trailer)
      else if magic != PARTITION_MAGIC then Err(BadEntryMagic)
      else TrailerFrom(table, offset + ENTRY_SIZE)
  }

  /** The length of the entries that the MD5 covers. */
  function ValidatePartitionTable(image: seq<byte>, h: Hashes): Result<nat, HilError> {
    var table := Slice(image, PARTITION_TABLE_OFFSET, TABLE_END);
    var at :- TrailerFrom(table, 0);
    if Slice(table, at + 16, at + 32) != h.md5(Slice(table, 0, at)) then Err(Md5Mismatch) else Ok(at)
  }

  method CheckPartitionTable(image: seq<byte>, h: Hashes) returns (r: Result<nat, HilError>)
    ensures r == ValidatePartitionTable(image, h)
  {
    hide U16;
    var table := Slice(image, PARTITION_TABLE_OFFSET, TABLE_END);
    var offset: nat, trailer := 0, None;
    while offset < |table| && trailer.None?
      invariant TrailerFrom(table, 0) == if trailer.Some? then Ok(trailer.value) else TrailerFrom(table, offset)
      decreases |table| - offset, trailer.None?
    {
      if offset + 2 > |table| { return Err(TableTruncated); }
      var magic := U16(table, offset);
      if magic == MD5_MAGIC {
        trailer := Some(offset);
      } else if magic == 0xFFFF {
        return Err(NoMd5Trailer);
      } else if magic != PARTITION_MAGIC {
        return Err(BadEntryMagic);
      } else {
        offset := offset + ENTRY_SIZE;
      }
    }
    if trailer.None? { return Err(NoMd5Trailer); }
    var at := trailer.value;
    r := if Slice(table, at + 16, at + 32) != h.md5(Slice(table, 0, at)) then Err(Md5Mismatch) else Ok(at);
  }

  // ----- Application images -----

  datatype ImageInfo = ImageInfo(segments: nat, hashAppended: bool, logicalSize: nat)

  function ValidateEspImage(data: seq<byte>, h: Hashes): Result<ImageInfo, HilError> {
    if |data| < 24 || data[0] != ESP_IMAGE_MAGIC then Err(BadImageMagic)
    else if !(1 <= data[1] <= 16) then Err(BadSegmentCount)
    else
      match Walk(data, 24, CHECKSUM_SEED, data[1])
      case Err(e) => Err(Truncated(e))
      case Ok((end, checksum)) =>
        var at := ChecksumOffset(end);
        if at >= |data| then Err(NoChecksumByte)
        else if data[at] != checksum then Err(ChecksumMismatch)
        else if data[23] == 0 then Ok(ImageInfo(data[1], false, at + 1))
        else if at + 33 > |data| then Err(HashTruncated)
        else if data[at + 1..at + 33] != h.sha256(data[..at + 1]) then Err(HashMismatch)
        else Ok(ImageInfo(data[1], true, at + 33))
  }

  method CheckEspImage(data: seq<byte>, h: Hashes) returns (r: Result<ImageInfo, HilError>)
    ensures r == ValidateEspImage(data, h)
  {
    hide XorAll, ChecksumOffset, U32;
    if |data| < 24 || data[0] != ESP_IMAGE_MAGIC { return Err(BadImageMagic); }
    var segments := data[1];
    if !(1 <= segments <= 16) { return Err(BadSegmentCount); }
    var offset: nat, checksum: byte := 24, CHECKSUM_SEED;
    for i := 0 to segments
      invariant offset <= |data|
      invariant Walk(data, offset, checksum, segments - i) == Walk(data, 24, CHECKSUM_SEED, segments)
    {
      if offset + 8 > |data| { return Err(Truncated(TruncatedHeader)); }
      var length := U32(data, offset + 4);
      offset := offset + 8;
      if length > |data| - offset { return Err(Truncated(TruncatedData)); }
      checksum := Checksum(data, offset, offset + length, checksum);
      offset := offset + length;
    }
    var at := ChecksumOffset(offset);
    if at >= |data| { return Err(NoChecksumByte); }
    if data[at] != checksum { return Err(ChecksumMismatch); }
    var hashAppended, logicalSize := data[23] != 0, at + 1;
    if hashAppended {
      if logicalSize + 32 > |data| { return Err(HashTruncated); }
      if data[logicalSize..logicalSize + 32] != h.sha256(data[..logicalSize]) { return Err(HashMismatch); }
      logicalSize := logicalSize + 32;
    }
    r := Ok(ImageInfo(segments, hashAppended, logicalSize));
  }

  /** Everything after the logical end of an image is irrelevant to its validation. */
  lemma ImageOfPrefix(data: seq<byte>, more: seq<byte>, h: Hashes)
    requires ValidateEspImage(data, h).Ok?
    ensures ValidateEspImage(data + more, h) == ValidateEspImage(data, h)
    ensures ValidateEspImage(data, h).value.logicalSize <= |data|
  {
    hide Walk, ChecksumOffset;
    WalkOfPrefix(data, more, 24, CHECKSUM_SEED, data[1]);
    var at := ChecksumOffset(Walk(data, 24, CHECKSUM_SEED, data[1]).value.0);
    var whole := data + more;
    assert whole[0] == data[0] && whole[1] == data[1] && whole[23] == data[23] && whole[at] == data[at];
    assert whole[..at + 1] == data[..at + 1];
    if at + 33 <= |data| { assert whole[at + 1..at + 33] == data[at + 1..at + 33]; }
  }

  // ----- Application partitions -----

  datatype AppStatus = EMPTY | PARTIAL | INVALID | VALID

  datatype AppReport = AppReport(
    name: string, status: AppStatus, bootable: bool, programmed: nat, validation: Option<Result<ImageInfo, HilError>>)

  function Programmed(b: seq<byte>): nat {
    if b == [] then 0 else (if b[0] != 0xFF then 1 else 0) + Programmed(b[1..])
  }

  lemma {:induction false} ProgrammedIs(b: seq<byte>)
    ensures Programmed(b) == 0 <==> IsErased(b)
  {
    if b != [] {
      ProgrammedIs(b[1..]);
      assert forall i :: 0 < i < |b| ==> b[i] == b[1..][i - 1];
    }
  }

  /** Errors whose message says that the image ends too early. */
  predicate IsStructural(e: HilError) {
    e.Truncated? || e.NoChecksumByte? || e.HashTruncated?
  }

  function InspectApp(name: string, b: seq<byte>, h: Hashes): AppReport {
    var programmed := Programmed(b);
    if programmed == 0 then AppReport(name, EMPTY, false, 0, None)
    else if |b| < 24 then AppReport(name, PARTIAL, false, programmed, None)
    else if b[0] != ESP_IMAGE_MAGIC then
      AppReport(name, if b[..24] == Erased(24) then PARTIAL else INVALID, false, programmed, None)
    else
      var v := ValidateEspImage(b, h);
      match v
      case Err(e) => AppReport(name, if IsStructural(e) then PARTIAL else INVALID, false, programmed, Some(v))
      case Ok(_) => AppReport(name, VALID, true, programmed, Some(v))
  }

  // ----- OTA data -----

  datatype Record = Record(
    sector: nat, present: bool, sequence: nat, state: nat, crcValid: bool, selectable: bool, slot: Option<nat>)

  const NEW: nat := 0
  const PENDING_VERIFY: nat := 1
  const VALID_STATE: nat := 2
  const INVALID_STATE: nat := 3
  const ABORTED: nat := 4

  function OtaRecord(raw: seq<byte>, sector: nat, apps: nat): Result<Record, HilError> {
    if |raw| < 32 then Err(NoRecord) else
      var sequence, state := U32(raw, 0), U32(raw, 24);
      var crcValid := U32(raw, 28) == OtaCrc(sequence);
      var selectable := sequence != UNDEFINED && state != INVALID_STATE && state != ABORTED && crcValid;
      Ok(Record(sector, raw[..32] != Erased(32), sequence, state, crcValid, selectable,
                if selectable && apps > 0 then Some((sequence - 1) % apps) else None))
  }

  datatype Issue =
    | OTADATA_INITIAL_CONTENTS | SELECTED_SLOT_NOT_BOOTABLE | ROLLBACK_RECORD_WITHOUT_BOOTABLE_IMAGE
    | OTADATA_BAD_CRC | OTADATA_UNKNOWN_STATE

  datatype Summary = Summary(
    active: Option<Record>, activeSlot: Option<string>, activeBootable: bool, nextBootSlot: Option<string>,
    initialContents: bool, initialBootSlot: Option<string>, rollbackSlot: Option<string>, rollbackAvailable: bool,
    issues: seq<Issue>)

  /** The selectable record with the greatest sequence number, the first one of equals. */
  function ActiveRecord(records: seq<Record>): Option<Record> {
    if records == [] then None else
      var before := ActiveRecord(records[..|records| - 1]);
      var last := records[|records| - 1];
      if last.selectable && (before.None? || last.sequence > before.value.sequence) then Some(last) else before
  }

  function SlotName(r: Record, apps: seq<AppReport>): Option<string> {
    if r.slot.Some? && r.slot.value < |apps| then Some(apps[r.slot.value].name) else None
  }

  function AppNamed(apps: seq<AppReport>, name: Option<string>): Option<AppReport> {
    if apps == [] || name.None? then None
    else if apps[0].name == name.value then Some(apps[0])
    else AppNamed(apps[1..], name)
  }

  function OtherRecord(records: seq<Record>, sector: nat): Option<Record> {
    if records == [] then None
    else if records[0].sector != sector then Some(records[0])
    else OtherRecord(records[1..], sector)
  }

  predicate IsBootable(app: Option<AppReport>) {
    app.Some? && app.value.bootable
  }

  predicate KnownState(state: nat) {
    state <= 4 || state == UNDEFINED
  }

  function Issues(records: seq<Record>, active: Option<Record>, activeBootable: bool, rollback: Option<Record>,
                  rollbackAvailable: bool): seq<Issue> {
    (if forall r :: r in records ==> r.sequence == UNDEFINED || !r.crcValid then [OTADATA_INITIAL_CONTENTS] else [])
    + (if active.Some? && !activeBootable then [SELECTED_SLOT_NOT_BOOTABLE] else [])
    + (if rollback.Some? && rollback.value.selectable && !rollbackAvailable
       then [ROLLBACK_RECORD_WITHOUT_BOOTABLE_IMAGE] else [])
    + (if exists r :: r in records && r.present && !r.crcValid then [OTADATA_BAD_CRC] else [])
    + (if exists r :: r in records && !KnownState(r.state) then [OTADATA_UNKNOWN_STATE] else [])
  }

  function OtadataSummary(records: seq<Record>, apps: seq<AppReport>): Summary {
    var active := ActiveRecord(records);
    var activeSlot := if active.Some? then SlotName(active.value, apps) else None;
    var activeBootable := IsBootable(AppNamed(apps, activeSlot));
    var rollback := if active.Some? then OtherRecord(records, active.value.sector) else None;
    var rollbackSlot := if rollback.Some? then SlotName(rollback.value, apps) else None;
    var rollbackImage := if rollback.Some? && rollback.value.selectable then AppNamed(apps, rollbackSlot) else None;
    var rollbackAvailable := activeBootable && IsBootable(rollbackImage);
    var initial := forall r :: r in records ==> r.sequence == UNDEFINED || !r.crcValid;
    var next :=
      if active.Some? && active.value.state == PENDING_VERIFY then (if rollbackAvailable then rollbackSlot else None)
      else if activeBootable then activeSlot else None;
    Summary(active, activeSlot, activeBootable, next, initial,
            if initial && IsBootable(AppNamed(apps, Some("app0"))) then Some("app0") else None,
            rollbackSlot, rollbackAvailable, Issues(records, active, activeBootable, rollback, rollbackAvailable))
  }

  // ----- Non-volatile storage -----

  const PAGE_SIZE: nat := 4096
  const ENTRY_COUNT: nat := 126

  datatype PageState = EmptyPage | ActivePage | FullPage | FreeingPage

  function StateOfPage(word: nat): Option<PageState> {
    if word == 0xFFFF_FFFF then Some(EmptyPage)
    else if word == 0xFFFF_FFFE then Some(ActivePage)
    else if word == 0xFFFF_FFFC then Some(FullPage)
    else if word == 0xFFFF_FFF8 then Some(FreeingPage)
    else None
  }

  datatype NvsReport = NvsReport(empty: nat, active: nat, full: nat, freeing: nat, headers: nat, items: nat,
                                 payloads: nat)

  const NO_PAGES := NvsReport(0, 0, 0, 0, 0, 0, 0)

  function Counted(r: NvsReport, state: PageState): NvsReport {
    match state
    case EmptyPage => r.(empty := r.empty + 1)
    case ActivePage => r.(active := r.active + 1)
    case FullPage => r.(full := r.full + 1)
    case FreeingPage => r.(freeing := r.freeing + 1)
  }

  const WRITTEN: nat := 2

  function Power4(n: nat): nat {
    if n == 0 then 1 else if n == 1 then 4 else if n == 2 then 16 else 64
  }

  /** The two bits of an entry in the bitmap of its page. */
  function EntryState(page: seq<byte>, index: nat): nat
    requires |page| == PAGE_SIZE && index < ENTRY_COUNT
  {
    page[32 + index / 4] / Power4(index % 4) % 4
  }

  function Entry(page: seq<byte>, index: nat): (r: seq<byte>)
    requires |page| == PAGE_SIZE && index < ENTRY_COUNT
    ensures |r| == 32
  {
    page[64 + index * 32..96 + index * 32]
  }

  const FIXED_TYPES: set<int> := {0x01, 0x11, 0x02, 0x12, 0x04, 0x14, 0x08, 0x18}
  const VARIABLE_TYPES: set<int> := {0x21, 0x41, 0x42}
  const INDEX_TYPE: int := 0x48

  predicate AllWritten(page: seq<byte>, from: nat, to: nat)
    requires |page| == PAGE_SIZE && from <= to <= ENTRY_COUNT
  {
    forall i :: from <= i < to ==> EntryState(page, i) == WRITTEN
  }

  /** Checks the item that begins at an entry; how many checked payloads it has. */
  function CheckItem(page: seq<byte>, index: nat, h: Hashes): Result<nat, HilError>
    requires |page| == PAGE_SIZE && index < ENTRY_COUNT
  {
    var entry := Entry(page, index);
    var kind, span: nat := entry[1], entry[2];
    if span < 1 || index + span > ENTRY_COUNT then Err(NvsSpan)
    else if !AllWritten(page, index, index + span) then Err(NvsSpanState)
    else if U32(entry, 4) != h.crc32(entry[..4] + entry[8..32]) then Err(NvsEntryCrc)
    else if kind in FIXED_TYPES || kind == INDEX_TYPE then (if span != 1 then Err(NvsItemSpan) else Ok(0))
    else if kind in VARIABLE_TYPES then
      var size: nat := U16(entry, 24);
      var at := 64 + (index + 1) * 32;
      if size > (span - 1) * 32 then Err(NvsPayloadSize)
      else if U32(entry, 28) != h.crc32(page[at..at + size]) then Err(NvsPayloadCrc)
      else Ok(1)
    else Err(NvsType)
  }

  /** The items of a page from entry `index` on, the entries before `consumed` being taken:
      how many items and payloads. */
  function CheckItems(page: seq<byte>, index: nat, consumed: nat, h: Hashes): Result<(nat, nat), HilError>
    requires |page| == PAGE_SIZE && index <= ENTRY_COUNT
    decreases ENTRY_COUNT - index
  {
    if index == ENTRY_COUNT then Ok((0, 0))
    else if EntryState(page, index) != WRITTEN || index < consumed then CheckItems(page, index + 1, consumed, h)
    else
      var payloads :- CheckItem(page, index, h);
      var rest :- CheckItems(page, index + 1, index + Entry(page, index)[2], h);
      Ok((rest.0 + 1, rest.1 + payloads))
  }

  predicate IllegalState(page: seq<byte>)
    requires |page| == PAGE_SIZE
  {
    exists i :: 0 <= i < ENTRY_COUNT && EntryState(page, i) == 1
  }

  function CheckPage(page: seq<byte>, r: NvsReport, h: Hashes): Result<NvsReport, HilError>
    requires |page| == PAGE_SIZE
  {
    var state := StateOfPage(U32(page, 0));
    if state.None? then Err(NvsState)
    else if state.value.EmptyPage? then
      (if page != Erased(PAGE_SIZE) then Err(NvsEmptyProgrammed) else Ok(Counted(r, state.value)))
    else if page[8] != 0xFF && page[8] != 0xFE then Err(NvsVersion)
    else if U32(page, 28) != h.crc32(page[4..28]) then Err(NvsPageCrc)
    else if IllegalState(page) then Err(NvsEntryState)
    else
      var items :- CheckItems(page, 0, 0, h);
      var n := Counted(r, state.value);
      Ok(n.(headers := n.headers + 1, items := n.items + items.0, payloads := n.payloads + items.1))
  }

  function CheckPages(b: seq<byte>, r: NvsReport, h: Hashes): Result<NvsReport, HilError>
    decreases |b|
  {
    if |b| < PAGE_SIZE then Ok(r) else
      var n :- CheckPage(b[..PAGE_SIZE], r, h);
      CheckPages(b[PAGE_SIZE..], n, h)
  }

  function ValidateNvs(b: seq<byte>, h: Hashes): Result<NvsReport, HilError> {
    if b == [] || |b| % PAGE_SIZE != 0 then Err(NvsUnaligned) else CheckPages(b, NO_PAGES, h)
  }

  method CheckNvs(b: seq<byte>, h: Hashes) returns (r: Result<NvsReport, HilError>)
    ensures r == ValidateNvs(b, h)
  {
    hide CheckPage;
    if b == [] || |b| % PAGE_SIZE != 0 { return Err(NvsUnaligned); }
    var report := NO_PAGES;
    var pages := |b| / PAGE_SIZE;
    assert b[0..] == b;
    for index := 0 to pages
      invariant CheckPages(b[index * PAGE_SIZE..], report, h) == CheckPages(b, NO_PAGES, h)
    {
      var rest := b[index * PAGE_SIZE..];
      assert rest[..PAGE_SIZE] == b[index * PAGE_SIZE..(index + 1) * PAGE_SIZE];
      assert rest[PAGE_SIZE..] == b[(index + 1) * PAGE_SIZE..];
      var n := CheckNvsPage(b[index * PAGE_SIZE..(index + 1) * PAGE_SIZE], report, h);
      if n.Err? { return n; }
      report := n.value;
    }
    assert b[pages * PAGE_SIZE..] == [];
    r := Ok(report);
  }

  method CheckNvsPage(page: seq<byte>, r: NvsReport, h: Hashes) returns (n: Result<NvsReport, HilError>)
    requires |page| == PAGE_SIZE
    ensures n == CheckPage(page, r, h)
  {
    hide CheckItem, EntryState, Entry, U32;
    var state := StateOfPage(U32(page, 0));
    if state.None? { return Err(NvsState); }
    var report := Counted(r, state.value);
    if state.value.EmptyPage? {
      return if page != Erased(PAGE_SIZE) then Err(NvsEmptyProgrammed) else Ok(report);
    }
    if page[8] != 0xFF && page[8] != 0xFE { return Err(NvsVersion); }
    if U32(page, 28) != h.crc32(page[4..28]) { return Err(NvsPageCrc); }
    if IllegalState(page) { return Err(NvsEntryState); }
    var items := CheckNvsItems(page, h);
    n := match items
      case Err(e) => Err(e)
      case Ok((count, payloads)) =>
        Ok(report.(headers := report.headers + 1, items := report.items + count,
            payloads := report.payloads + payloads));
  }

  function Range(lo: nat, hi: nat): (r: set<nat>)
    ensures forall i: nat :: i in r <==> lo <= i < hi
    decreases hi - lo
  {
    if lo >= hi then {} else {lo} + Range(lo + 1, hi)
  }

  /** The loop over the entries of a page, which keeps the set of consumed entries. */
  method CheckNvsItems(page: seq<byte>, h: Hashes) returns (r: Result<(nat, nat), HilError>)
    requires |page| == PAGE_SIZE
    ensures r == CheckItems(page, 0, 0, h)
  {
    hide CheckItem, EntryState, Entry;
    var consumed: set<nat>, items: nat, payloads: nat := {}, 0, 0;
    ghost var until: nat := 0;
    for index := 0 to ENTRY_COUNT
      invariant forall i: nat :: i >= index ==> (i in consumed <==> i < until)
      invariant var rest := CheckItems(page, index, until, h);
        CheckItems(page, 0, 0, h) == if rest.Err? then rest else Ok((items + rest.value.0, payloads + rest.value.1))
    {
      if EntryState(page, index) == WRITTEN && index !in consumed {
        var item := CheckItem(page, index, h);
        if item.Err? { return Err(item.error); }
        var span: nat := Entry(page, index)[2];
        consumed := consumed + Range(index, index + span);
        until := index + span;
        items, payloads := items + 1, payloads + item.value;
      }
    }
    r := Ok((items, payloads));
  }

  // ----- What an accepted page is made of -----

  /** The items of a page, each with its first entry and the entries it spans. */
  function Items(page: seq<byte>, index: nat, consumed: nat): seq<(nat, nat)>
    requires |page| == PAGE_SIZE && index <= ENTRY_COUNT
    decreases ENTRY_COUNT - index
  {
    if index == ENTRY_COUNT then []
    else if EntryState(page, index) != WRITTEN || index < consumed then Items(page, index + 1, consumed)
    else
      var span: nat := Entry(page, index)[2];
      [(index, span)] + Items(page, index + 1, index + span)
  }

  predicate InItem(item: (nat, nat), entry: nat) {
    item.0 <= entry < item.0 + item.1
  }

  ghost predicate Covered(items: seq<(nat, nat)>, entry: nat) {
    exists k :: 0 <= k < |items| && InItem(items[k], entry)
  }

  lemma OneMoreItem(first: (nat, nat), rest: seq<(nat, nat)>, entry: nat)
    ensures Covered([first] + rest, entry) <==> InItem(first, entry) || Covered(rest, entry)
  {
    var items := [first] + rest;
    if InItem(first, entry) { assert InItem(items[0], entry); }
    if k :| 0 <= k < |rest| && InItem(rest[k], entry) { assert InItem(items[k + 1], entry); }
    if k :| 0 <= k < |items| && InItem(items[k], entry) && !InItem(first, entry) { assert InItem(rest[k - 1], entry); }
  }

  /** Items that are not empty, lie one after the other, and begin at `from` or later. */
  ghost predicate Stacked(items: seq<(nat, nat)>, from: nat) {
    && (forall k :: 0 <= k < |items| ==> items[k].0 >= from && items[k].1 >= 1)
    && (forall j, k :: 0 <= j < k < |items| ==> items[j].0 + items[j].1 <= items[k].0)
  }

  /** From `index` on, the entries marked as written are the ones before `consumed` and those of the items. */
  ghost predicate Explained(page: seq<byte>, index: nat, consumed: nat, items: seq<(nat, nat)>)
    requires |page| == PAGE_SIZE
  {
    forall e :: index <= e < ENTRY_COUNT ==> (EntryState(page, e) == WRITTEN <==> e < consumed || Covered(items, e))
  }

  lemma SkippedEntry(page: seq<byte>, index: nat, consumed: nat, items: seq<(nat, nat)>)
    requires |page| == PAGE_SIZE && index < ENTRY_COUNT
    requires Stacked(items, Max(consumed, index + 1)) && Explained(page, index + 1, consumed, items)
    requires if consumed > index then EntryState(page, index) == WRITTEN else EntryState(page, index) != WRITTEN
    ensures Stacked(items, Max(consumed, index)) && Explained(page, index, consumed, items)
  {
    hide EntryState;
  }

  lemma FirstItem(page: seq<byte>, index: nat, consumed: nat, span: nat, rest: seq<(nat, nat)>)
    requires |page| == PAGE_SIZE && consumed <= index && 1 <= span && index + span <= ENTRY_COUNT
    requires AllWritten(page, index, index + span)
    requires Stacked(rest, Max(index + span, index + 1)) && Explained(page, index + 1, index + span, rest)
    ensures Stacked([(index, span)] + rest, Max(consumed, index))
    ensures Explained(page, index, consumed, [(index, span)] + rest)
  {
    hide EntryState, Covered;
    forall e | index <= e < ENTRY_COUNT
      ensures EntryState(page, e) == WRITTEN <==> e < consumed || Covered([(index, span)] + rest, e)
    {
      OneMoreItem((index, span), rest, e);
    }
  }

  /** In an accepted page the items lie one after the other, and the entries marked as written
      are exactly those of the items. */
  lemma {:induction false} ItemsCoverWrittenEntries(page: seq<byte>, index: nat, consumed: nat, h: Hashes)
    requires |page| == PAGE_SIZE && index <= ENTRY_COUNT && CheckItems(page, index, consumed, h).Ok?
    requires consumed > index ==> consumed <= ENTRY_COUNT && AllWritten(page, index, consumed)
    ensures var items := Items(page, index, consumed);
      && |items| == CheckItems(page, index, consumed, h).value.0
      && Stacked(items, Max(consumed, index)) && Explained(page, index, consumed, items)
    decreases ENTRY_COUNT - index
  {
    hide EntryState, Entry, Stacked, Explained;
    if index == ENTRY_COUNT {
      NoItems(page, consumed);
    } else if EntryState(page, index) != WRITTEN || index < consumed {
      ItemsCoverWrittenEntries(page, index + 1, consumed, h);
      SkippedEntry(page, index, consumed, Items(page, index, consumed));
    } else {
      var span: nat := Entry(page, index)[2];
      assert 1 <= span && index + span <= ENTRY_COUNT && AllWritten(page, index, index + span);
      ItemsCoverWrittenEntries(page, index + 1, index + span, h);
      FirstItem(page, index, consumed, span, Items(page, index + 1, index + span));
    }
  }

  lemma NoItems(page: seq<byte>, consumed: nat)
    requires |page| == PAGE_SIZE
    ensures Items(page, ENTRY_COUNT, consumed) == []
    ensures Stacked([], Max(consumed, ENTRY_COUNT)) && Explained(page, ENTRY_COUNT, consumed, [])
  {
  }

  // ----- The whole image -----

  datatype Report = Report(
    partitions: seq<Partition>, tableBytes: nat, records: seq<Record>, apps: seq<AppReport>, summary: Summary,
    nvs: NvsReport, previousCandidates: seq<string>)

  /** The last partition of a name, as a dictionary keeps it. */
  function ByLabel(partitions: seq<Partition>, name: string): Option<Partition> {
    if partitions == [] then None
    else
      var last := partitions[|partitions| - 1];
      if last.name == name then Some(last) else ByLabel(partitions[..|partitions| - 1], name)
  }

  function Located(partitions: seq<Partition>, name: string, offset: nat, size: nat,
                   imageSize: nat): Result<Partition, HilError> {
    var p := ByLabel(partitions, name);
    if p.None? || p.value.offset != offset || p.value.size != size then Err(Layout)
    else if offset + size > imageSize then Err(BeyondImage)
    else Ok(p.value)
  }

  function OfSubtype(partitions: seq<Partition>, subtype: nat): seq<Partition> {
    if partitions == [] then []
    else (if partitions[0].kind == 0 && partitions[0].subtype == subtype then [partitions[0]] else [])
         + OfSubtype(partitions[1..], subtype)
  }

  /** The application partitions in the order of their subtypes. */
  function Apps(partitions: seq<Partition>): seq<Partition> {
    OfSubtype(partitions, 0x10) + OfSubtype(partitions, 0x11)
  }

  function InspectApps(image: seq<byte>, apps: seq<Partition>, h: Hashes): seq<AppReport> {
    if apps == [] then [] else
      [InspectApp(apps[0].name, Slice(image, apps[0].offset, apps[0].offset + apps[0].size), h)]
      + InspectApps(image, apps[1..], h)
  }

  /** Applications other than the selected one that are bootable and have a VALID record. */
  function PreviousCandidates(apps: seq<AppReport>, index: nat, active: Option<string>,
                              records: seq<Record>): seq<string>
    requires index <= |apps|
    decreases |apps| - index
  {
    if index == |apps| then [] else
      var app := apps[index];
      (if Some(app.name) != active && app.bootable
          && (exists r :: r in records && r.slot == Some(index) && r.state == VALID_STATE)
       then [app.name] else [])
      + PreviousCandidates(apps, index + 1, active, records)
  }

  /** `spiffsAccepted` is what the external tool says of the SPIFFS partition. */
  function InspectImage(image: seq<byte>, h: Hashes, spiffsAccepted: seq<byte> -> bool): Result<Report, HilError> {
    var partitions :- Partitions(image);
    var tableBytes :- ValidatePartitionTable(image, h);
    var nvs :- Located(partitions, "nvs", 0x9000, 0x5000, |image|);
    var ota :- Located(partitions, "otadata", 0xE000, 0x2000, |image|);
    var _ :- Located(partitions, "app0", 0x1_0000, 0x1E_0000, |image|);
    var _ :- Located(partitions, "app1", 0x1F_0000, 0x1E_0000, |image|);
    var spiffs :- Located(partitions, "spiffs", 0x3D_0000, 0x3_0000, |image|);
    var apps := Apps(partitions);
    var first :- OtaRecord(Slice(image, ota.offset, ota.offset + 32), 0, |apps|);
    var second :- OtaRecord(Slice(image, ota.offset + 0x1000, ota.offset + 0x1020), 1, |apps|);
    var records := [first, second];
    var reports := InspectApps(image, apps, h);
    var summary := OtadataSummary(records, reports);
    var nvsReport :- ValidateNvs(Slice(image, nvs.offset, nvs.offset + nvs.size), h);
    if !spiffsAccepted(Slice(image, spiffs.offset, spiffs.offset + spiffs.size)) then Err(SpiffsFailed) else
      Ok(Report(partitions, tableBytes, records, reports, summary, nvsReport,
                PreviousCandidates(reports, 0, summary.activeSlot, records)))
  }
}
