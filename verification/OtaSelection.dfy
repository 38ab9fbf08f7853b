/**
 Which application the inspector says will boot: the summary of any two OTA records and any list of
 applications, in terms of the sequence numbers, states and checksums that flash holds.
 */
module OtaSelection {
  import opened Wrappers
  import opened Bytes
  import opened Flash
  import I = FlashInspector

  // ----- The active record -----

  /** The record at `i` is selectable, no selectable one has a greater sequence number, and none
      before it an equal one. */
  predicate IsChosen(records: seq<I.Record>, i: int) {
    && 0 <= i < |records| && records[i].selectable
    && (forall j :: 0 <= j < |records| && records[j].selectable ==> records[j].sequence <= records[i].sequence)
    && (forall j :: 0 <= j < i && records[j].selectable ==> records[j].sequence < records[i].sequence)
  }

  /** The active record is the first one of the greatest sequence number; there is none exactly if
      no record is selectable. */
  lemma {:induction false} ActiveIsChosen(records: seq<I.Record>) returns (i: int)
    ensures I.ActiveRecord(records).None? <==> forall r <- records :: !r.selectable
    ensures I.ActiveRecord(records).Some? ==> IsChosen(records, i) && I.ActiveRecord(records).value == records[i]
  {
    i := 0;
    if records != [] {
      var n := |records| - 1;
      var before := records[..n];
      var k := ActiveIsChosen(before);
      assert records == before + [records[n]];
      i := if records[n].selectable && (I.ActiveRecord(before).None? || records[n].sequence > before[k].sequence) then n
           else k;
    }
  }

  lemma ChosenIsUnique(records: seq<I.Record>, i: int, j: int)
    requires IsChosen(records, i) && IsChosen(records, j)
    ensures i == j
  {
  }

  // ----- Records as flash holds them -----

  /** What flash holds of a record. */
  datatype Words = Words(sequence: nat, state: nat, crc: nat)

  function WordsAt(b: seq<byte>, at: nat): Words
    requires at + 32 <= |b|
  {
    Words(U32(b, at), U32(b, at + 24), U32(b, at + 28))
  }

  /** A record can be selected if it has a sequence number and its checksum, and is in neither of
      the states INVALID (3) and ABORTED (4). */
  predicate Selectable(w: Words) {
    w.sequence != 0xFFFF_FFFF && w.state != 3 && w.state != 4 && w.crc == OtaCrc(w.sequence)
  }

  /** The application that a record selects. */
  function SlotOf(w: Words, apps: nat): (i: nat)
    requires apps > 0
    ensures i < apps
  {
    if w.sequence == 0 then apps - 1 else (w.sequence - 1) % apps
  }

  /** A record as it is read. */
  predicate ReadAs(r: I.Record, w: Words, sector: nat, apps: nat) {
    && r.sector == sector && r.sequence == w.sequence && r.state == w.state
    && (r.crcValid <==> w.crc == OtaCrc(w.sequence))
    && (r.selectable <==> Selectable(w))
    && r.slot == if Selectable(w) && apps > 0 then Some(SlotOf(w, apps)) else None
  }

  lemma RecordIsRead(raw: seq<byte>, sector: nat, apps: nat)
    requires |raw| == 32
    ensures var r := I.OtaRecord(raw, sector, apps);
      r.Ok? && ReadAs(r.value, WordsAt(raw, 0), sector, apps) && (r.value.present <==> !IsErased(raw))
  {
    hide OtaCrc, U32;
    if apps > 0 && U32(raw, 0) == 0 { assert (-1) % apps == apps - 1; }
    assert raw[..32] == raw;
    assert raw == Erased(32) <==> IsErased(raw);
  }

  // ----- Applications -----

  /** The first application of this name is bootable. */
  predicate FirstBootable(apps: seq<I.AppReport>, name: string) {
    exists i :: 0 <= i < |apps| && apps[i].name == name && apps[i].bootable
      && forall j :: 0 <= j < i ==> apps[j].name != name
  }

  lemma {:induction false} NamedIsFirst(apps: seq<I.AppReport>, name: string)
    ensures I.IsBootable(I.AppNamed(apps, Some(name))) <==> FirstBootable(apps, name)
  {
    if apps != [] && apps[0].name != name {
      var rest := apps[1..];
      NamedIsFirst(rest, name);
      if FirstBootable(rest, name) {
        var i :| 0 <= i < |rest| && rest[i].name == name && rest[i].bootable
          && forall j :: 0 <= j < i ==> rest[j].name != name;
        assert apps[i + 1].name == name && forall j :: 0 <= j < i + 1 ==> apps[j].name != name;
      }
      if FirstBootable(apps, name) {
        var i :| 0 <= i < |apps| && apps[i].name == name && apps[i].bootable
          && forall j :: 0 <= j < i ==> apps[j].name != name;
        assert rest[i - 1].name == name && forall j :: 0 <= j < i - 1 ==> rest[j].name == apps[j + 1].name;
      }
    }
  }

  // ----- The summary -----

  /** The record in the first sector is chosen, or the one in the second. */
  predicate FirstWins(a: Words, b: Words) {
    Selectable(a) && (Selectable(b) ==> a.sequence >= b.sequence)
  }

  predicate SecondWins(a: Words, b: Words) {
    Selectable(b) && (Selectable(a) ==> a.sequence < b.sequence)
  }

  /** What the summary says when `w` is chosen and `other` is the other record. */
  ghost predicate Says(s: I.Summary, w: Words, other: Words, apps: seq<I.AppReport>)
    requires apps != []
  {
    var app, back := apps[SlotOf(w, |apps|)].name, apps[SlotOf(other, |apps|)].name;
    var available := FirstBootable(apps, app) && Selectable(other) && FirstBootable(apps, back);
    && s.activeSlot == Some(app) && (s.activeBootable <==> FirstBootable(apps, app))
    && s.rollbackSlot == (if Selectable(other) then Some(back) else None)
    && (s.rollbackAvailable <==> available)
    && (if w.state == 1 then s.nextBootSlot == (if available then Some(back) else None)
        else s.nextBootSlot == if FirstBootable(apps, app) then Some(app) else None)
    && (I.SELECTED_SLOT_NOT_BOOTABLE in s.issues <==> !FirstBootable(apps, app))
    && (I.ROLLBACK_RECORD_WITHOUT_BOOTABLE_IMAGE in s.issues <==> Selectable(other) && !available)
  }

  /** And when no record can be selected. */
  ghost predicate SaysNone(s: I.Summary) {
    && s.active == None && s.activeSlot == None && !s.activeBootable && s.nextBootSlot == None
    && s.rollbackSlot == None && !s.rollbackAvailable
    && I.SELECTED_SLOT_NOT_BOOTABLE !in s.issues && I.ROLLBACK_RECORD_WITHOUT_BOOTABLE_IMAGE !in s.issues
  }

  predicate Initial(w: Words) {
    w.sequence == 0xFFFF_FFFF || w.crc != OtaCrc(w.sequence)
  }

  /** What it says in any case. */
  ghost predicate SaysAlways(s: I.Summary, a: Words, b: Words, anyBadCrc: bool, apps: seq<I.AppReport>) {
    && (s.initialContents <==> Initial(a) && Initial(b))
    && s.initialBootSlot == (if Initial(a) && Initial(b) && FirstBootable(apps, "app0") then Some("app0") else None)
    && (I.OTADATA_INITIAL_CONTENTS in s.issues <==> Initial(a) && Initial(b))
    && (I.OTADATA_BAD_CRC in s.issues <==> anyBadCrc)
    && (I.OTADATA_UNKNOWN_STATE in s.issues <==> Unknown(a.state) || Unknown(b.state))
  }

  predicate Unknown(state: nat) {
    state > 4 && state != 0xFFFF_FFFF
  }

  lemma ActiveOfTwo(ra: I.Record, rb: I.Record)
    ensures I.ActiveRecord([ra, rb]) ==
      if ra.selectable && (rb.selectable ==> ra.sequence >= rb.sequence) then Some(ra)
      else if rb.selectable then Some(rb) else None
  {
    var records := [ra, rb];
    assert records[0] in records && records[1] in records;
    var i := ActiveIsChosen(records);
  }

  lemma OtherOfTwo(ra: I.Record, rb: I.Record)
    requires ra.sector == 0 && rb.sector == 1
    ensures I.OtherRecord([ra, rb], 0) == Some(rb) && I.OtherRecord([ra, rb], 1) == Some(ra)
  {
    assert [ra, rb][1..] == [rb] && [rb][1..] == [];
  }

  /** Which issues a summary lists. */
  lemma IssuesAre(ra: I.Record, rb: I.Record, active: Option<I.Record>, bootable: bool, rollback: Option<I.Record>,
                  available: bool)
    ensures var issues := I.Issues([ra, rb], active, bootable, rollback, available);
      && (I.OTADATA_INITIAL_CONTENTS in issues <==>
           (ra.sequence == UNDEFINED || !ra.crcValid) && (rb.sequence == UNDEFINED || !rb.crcValid))
      && (I.SELECTED_SLOT_NOT_BOOTABLE in issues <==> active.Some? && !bootable)
      && (I.ROLLBACK_RECORD_WITHOUT_BOOTABLE_IMAGE in issues <==>
           rollback.Some? && rollback.value.selectable && !available)
      && (I.OTADATA_BAD_CRC in issues <==> (ra.present && !ra.crcValid) || (rb.present && !rb.crcValid))
      && (I.OTADATA_UNKNOWN_STATE in issues <==> Unknown(ra.state) || Unknown(rb.state))
  {
    var records := [ra, rb];
    assert records[0] in records && records[1] in records;
  }

  lemma SlotNamed(r: I.Record, w: Words, sector: nat, apps: seq<I.AppReport>)
    requires ReadAs(r, w, sector, |apps|) && apps != []
    ensures I.SlotName(r, apps) == if Selectable(w) then Some(apps[SlotOf(w, |apps|)].name) else None
  {
  }

  lemma ChosenSays(records: seq<I.Record>, r: I.Record, w: Words, other: I.Record, v: Words, apps: seq<I.AppReport>)
    requires I.ActiveRecord(records) == Some(r) && I.OtherRecord(records, r.sector) == Some(other)
    requires records == [r, other] || records == [other, r]
    requires ReadAs(r, w, r.sector, |apps|) && ReadAs(other, v, other.sector, |apps|) && apps != [] && Selectable(w)
    ensures Says(I.OtadataSummary(records, apps), w, v, apps)
  {
    hide I.ActiveRecord, I.OtherRecord, I.AppNamed, I.Issues, I.IsBootable, FirstBootable, OtaCrc, I.SlotName;
    var app, back := apps[SlotOf(w, |apps|)].name, apps[SlotOf(v, |apps|)].name;
    SlotNamed(r, w, r.sector, apps);
    SlotNamed(other, v, other.sector, apps);
    NamedIsFirst(apps, app);
    NamedIsFirst(apps, back);
    NoneIsNotBootable();
    var s := I.OtadataSummary(records, apps);
    var first, second := records[0], records[1];
    IssuesAre(first, second, Some(r), s.activeBootable, Some(other), s.rollbackAvailable);
    assert records == [first, second];
  }

  lemma NoneIsNotBootable()
    ensures !I.IsBootable(None)
  {
  }

  lemma NoneSays(ra: I.Record, rb: I.Record, apps: seq<I.AppReport>)
    requires I.ActiveRecord([ra, rb]) == None
    ensures SaysNone(I.OtadataSummary([ra, rb], apps))
  {
    hide I.ActiveRecord, I.OtherRecord, I.Issues;
    IssuesAre(ra, rb, None, false, None, false);
  }

  lemma AlwaysSays(ra: I.Record, rb: I.Record, a: Words, b: Words, apps: seq<I.AppReport>)
    requires ReadAs(ra, a, 0, |apps|) && ReadAs(rb, b, 1, |apps|)
    ensures SaysAlways(I.OtadataSummary([ra, rb], apps), a, b,
                       (ra.present && !ra.crcValid) || (rb.present && !rb.crcValid), apps)
  {
    hide I.ActiveRecord, I.OtherRecord, I.AppNamed, I.Issues, I.IsBootable, FirstBootable, OtaCrc, I.SlotName;
    NamedIsFirst(apps, "app0");
    var records := [ra, rb];
    assert records[0] in records && records[1] in records;
    var s := I.OtadataSummary(records, apps);
    var active := I.ActiveRecord(records);
    var rollback := if active.Some? then I.OtherRecord(records, active.value.sector) else None;
    IssuesAre(ra, rb, active, s.activeBootable, rollback, s.rollbackAvailable);
  }

  /** The summary of two records and any applications. */
  lemma SummaryIs(ra: I.Record, rb: I.Record, a: Words, b: Words, apps: seq<I.AppReport>)
    requires ReadAs(ra, a, 0, |apps|) && ReadAs(rb, b, 1, |apps|) && apps != []
    ensures var s := I.OtadataSummary([ra, rb], apps);
      && (if FirstWins(a, b) then s.active == Some(ra) && Says(s, a, b, apps)
          else if SecondWins(a, b) then s.active == Some(rb) && Says(s, b, a, apps)
          else SaysNone(s))
      && SaysAlways(s, a, b, (ra.present && !ra.crcValid) || (rb.present && !rb.crcValid), apps)
  {
    hide Says, SaysNone, SaysAlways, I.ActiveRecord, I.OtherRecord, I.AppNamed, I.Issues, I.IsBootable, OtaCrc;
    ActiveOfTwo(ra, rb);
    OtherOfTwo(ra, rb);
    AlwaysSays(ra, rb, a, b, apps);
    if FirstWins(a, b) {
      ChosenSays([ra, rb], ra, a, rb, b, apps);
    } else if SecondWins(a, b) {
      ChosenSays([ra, rb], rb, b, ra, a, apps);
    } else {
      NoneSays(ra, rb, apps);
    }
  }

  // ----- The image -----

  /** A record that is not erased and does not have its checksum. */
  predicate BadCrc(image: seq<byte>, at: nat)
    requires at + 32 <= |image|
  {
    !IsErased(image[at..at + 32]) && WordsAt(image, at).crc != OtaCrc(WordsAt(image, at).sequence)
  }

  lemma {:induction false} AsManyReports(image: seq<byte>, apps: seq<Partition>, h: Hashes)
    ensures |I.InspectApps(image, apps, h)| == |apps|
  {
    hide I.InspectApp;
    if apps != [] { AsManyReports(image, apps[1..], h); }
  }

  /** Where the records, the applications and the summary of a report come from. */
  lemma ReportParts(image: seq<byte>, h: Hashes, spiffsAccepted: seq<byte> -> bool)
    requires I.InspectImage(image, h, spiffsAccepted).Ok?
    ensures |image| >= 0x1_0000
    ensures var r := I.InspectImage(image, h, spiffsAccepted).value;
      var first, second := I.OtaRecord(Slice(image, 0xE000, 0xE020), 0, |r.apps|),
          I.OtaRecord(Slice(image, 0xF000, 0xF020), 1, |r.apps|);
      first.Ok? && second.Ok? && r.records == [first.value, second.value]
        && r.summary == I.OtadataSummary(r.records, r.apps)
  {
    hide I.Partitions, I.ValidatePartitionTable, I.OtaRecord, I.InspectApps, I.OtadataSummary, I.ValidateNvs,
      I.PreviousCandidates, I.Apps, I.ByLabel, Slice;
    var partitions := I.Partitions(image).value;
    AsManyReports(image, I.Apps(partitions), h);
  }

  lemma ReadFrom(image: seq<byte>, at: nat, sector: nat, apps: nat)
    requires at + 32 <= |image|
    ensures var r := I.OtaRecord(Slice(image, at, at + 32), sector, apps);
      r.Ok? && ReadAs(r.value, WordsAt(image, at), sector, apps)
        && (r.value.present && !r.value.crcValid <==> BadCrc(image, at))
  {
    hide OtaCrc, U32, I.OtaRecord;
    var raw := image[at..at + 32];
    RecordIsRead(raw, sector, apps);
    ReadWithin(image, at, at + 32, 0);
    ReadWithin(image, at, at + 32, 24);
    ReadWithin(image, at, at + 32, 28);
  }

  /** The report on any image names the application that the words of its two OTA records select. */
  lemma ReportNamesBootSlot(image: seq<byte>, h: Hashes, spiffsAccepted: seq<byte> -> bool)
    requires I.InspectImage(image, h, spiffsAccepted).Ok?
    ensures |image| >= 0x1_0000
    ensures var r := I.InspectImage(image, h, spiffsAccepted).value;
      var a, b, s := WordsAt(image, 0xE000), WordsAt(image, 0xF000), r.summary;
      r.apps != [] ==>
        && |r.records| == 2 && ReadAs(r.records[0], a, 0, |r.apps|) && ReadAs(r.records[1], b, 1, |r.apps|)
        && (if FirstWins(a, b) then s.active == Some(r.records[0]) && Says(s, a, b, r.apps)
            else if SecondWins(a, b) then s.active == Some(r.records[1]) && Says(s, b, a, r.apps)
            else SaysNone(s))
        && SaysAlways(s, a, b, BadCrc(image, 0xE000) || BadCrc(image, 0xF000), r.apps)
  {
    hide I.InspectImage, I.OtaRecord, I.OtadataSummary, ReadAs, Says, SaysNone, SaysAlways, BadCrc, WordsAt, FirstWins,
      SecondWins, Slice;
    ReportParts(image, h, spiffsAccepted);
    var r := I.InspectImage(image, h, spiffsAccepted).value;
    ReadFrom(image, 0xE000, 0, |r.apps|);
    ReadFrom(image, 0xF000, 1, |r.apps|);
    if r.apps != [] {
      SummaryIs(r.records[0], r.records[1], WordsAt(image, 0xE000), WordsAt(image, 0xF000), r.apps);
    }
  }

  // ----- Earlier versions -----

  /** An application that is not the selected one, is bootable, and has a VALID record. */
  predicate IsCandidate(apps: seq<I.AppReport>, i: int, active: Option<string>, records: seq<I.Record>) {
    && 0 <= i < |apps| && Some(apps[i].name) != active && apps[i].bootable
    && exists k :: 0 <= k < |records| && records[k].slot == Some(i) && records[k].state == 2
  }

  /** Exactly these are listed as earlier versions. */
  lemma {:induction false} CandidatesAreListed(apps: seq<I.AppReport>, index: nat, active: Option<string>,
                                               records: seq<I.Record>, name: string)
    requires index <= |apps|
    ensures name in I.PreviousCandidates(apps, index, active, records) <==>
      exists i :: index <= i < |apps| && apps[i].name == name && IsCandidate(apps, i, active, records)
    decreases |apps| - index
  {
    hide IsCandidate;
    if index < |apps| {
      CandidatesAreListed(apps, index + 1, active, records, name);
      CandidateIs(apps, index, active, records);
    }
  }

  lemma CandidateIs(apps: seq<I.AppReport>, index: nat, active: Option<string>, records: seq<I.Record>)
    requires index < |apps|
    ensures IsCandidate(apps, index, active, records) <==>
      Some(apps[index].name) != active && apps[index].bootable
        && exists r :: r in records && r.slot == Some(index) && r.state == I.VALID_STATE
  {
  }
}
