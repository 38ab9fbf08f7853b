/** Which prepared plans are accepted: every layout has a prepared plan, and those of unordered
    layouts are refused. */
module SpiffsRecoveryPlans {
  import opened Wrappers
  import opened Bytes
  import opened Flash
  import opened SpiffsRecovery
  import opened SpiffsRecoveryLayouts
  import PartitionTable
  import BuildToInspect

  /** A CSV that the tools accept for a profile: its ranges are, it has one SPIFFS partition, and
      its entries fit a partition table. */
  predicate ValidCsv(t: Tools, p: Profile) {
    var csv := t.csv(p);
    && csv != [] && ExpectedPartitions(t, p).Ok? && SpiffsPartition(csv).Ok?
    && PartitionTable.AllPrintable(csv) && |csv| * ENTRY_SIZE + 32 <= PARTITION_TABLE_SIZE
    && |t.hashes.md5(PartitionTable.Entries(csv))| == 16
  }

  /** The region that a device with this layout returns. */
  function RegionOf(t: Tools, p: Profile): seq<byte>
    requires ValidCsv(t, p)
  {
    PartitionTable.Table(t.csv(p), t.hashes) + Erased(TABLE_READ_SIZE - PARTITION_TABLE_SIZE)
  }

  lemma RegionIsAccepted(t: Tools, p: Profile)
    requires ValidCsv(t, p)
    ensures PartitionsOfRegion(t, RegionOf(t, p), p) == Ok(Normalized(t.csv(p)))
  {
    hide I.Partitions, I.ValidatePartitionTable, Normalized, SpiffsPartition, PartitionTable.Table;
    var table, region := PartitionTable.Table(t.csv(p), t.hashes), RegionOf(t, p);
    var prefixed := Erased(PARTITION_TABLE_OFFSET) + region;
    PartitionTable.TableIsAccepted(t.csv(p), t.hashes);
    assert prefixed[PARTITION_TABLE_OFFSET..I.TABLE_END] == table;
    BuildToInspect.TableIsRead(prefixed, table, t.csv(p), t.hashes);
  }

  function DeviceOf(p: Profile, port: string, mac: string): Device {
    Device(port, "", Identity(SpecOf(p).chip, SpecOf(p).flashSize, mac))
  }

  function ReadsOf(t: Tools, p: Profile, backup: seq<byte>): Reads
    requires ValidCsv(t, p)
  {
    Reads(RegionOf(t, p), RegionOf(t, p), backup, backup)
  }

  /** An image with the manifest that the tool writes for it, and the two reads of the backup. */
  function FilesOf(t: Tools, p: Profile, image: seq<byte>, backup: seq<byte>, build: string): Files
    requires ValidCsv(t, p)
  {
    var spiffs := SpiffsPartition(t.csv(p)).value;
    var layout := t.layout(Normalized(t.csv(p)));
    Files(image, true, [], Manifest(true, p, SpecOf(p).chip, SpecOf(p).flashSize, layout, spiffs.offset,
                                    spiffs.size, build, t.sha(image), |image|, []), backup, backup, true)
  }

  /** For every layout the tools accept, every image and every backup there is a prepared plan. */
  lemma PlanIsPrepared(t: Tools, p: Profile, image: seq<byte>, backup: seq<byte>, port: string, mac: string,
                       build: string, directory: string)
    requires ValidCsv(t, p) && !Blank(image)
    requires var size := SpiffsPartition(t.csv(p)).value.size; |image| == size && |backup| == size
    ensures BuildRestorePlan(t, p, DeviceOf(p, port, mac), mac, ReadsOf(t, p, backup),
        FilesOf(t, p, image, backup, build),
                             t.sha(image), build, directory).Ok?
  {
    hide PartitionsOfRegion, RegionOf, SpiffsPartition, Normalized, ProtectedRanges, ExpectedPartitions, Blank,
      PartitionTable.Entries, PartitionTable.AllPrintable;
    RegionIsAccepted(t, p);
    SpiffsOfNormalized(t.csv(p));
    ExpectedIsCsv(t, p);
  }

  lemma ExpectedIsCsv(t: Tools, p: Profile)
    requires ExpectedPartitions(t, p).Ok?
    ensures ExpectedPartitions(t, p) == Ok(t.csv(p))
  {
  }

  /** So for every layout that is not listed in the order of its offsets the tool prepares a plan
      that it then refuses to execute. */
  lemma UnorderedPlanIsRefused(t: Tools, p: Profile, image: seq<byte>, backup: seq<byte>, mac: string, build: string,
                               directory: string)
    returns (device: Device, r: Reads, f: Files, sha256: string)
    requires ValidCsv(t, p) && !Blank(image) && !InOrder(ProtectedRanges(t.csv(p)))
    requires var size := SpiffsPartition(t.csv(p)).value.size; |image| == size && |backup| == size
    ensures var plan := BuildRestorePlan(t, p, device, mac, r, f, sha256, build, directory);
      plan.Ok? && ValidateRestorePlan(t, plan.value, f).Err?
  {
    hide BuildRestorePlan, ValidateRestorePlan, ValidCsv, InOrder, ProtectedRanges, Blank, SpiffsPartition, RegionOf;
    var port := "/dev/serial/by-id/0";
    PlanIsPrepared(t, p, image, backup, port, mac, build, directory);
    device, r, f, sha256 := DeviceOf(p, port, mac), ReadsOf(t, p, backup), FilesOf(t, p, image, backup, build),
      t.sha(image);
    PortIsById(port);
    PreparedPlanIsAcceptedIff(t, p, device, mac, r, f, sha256, build, directory);
  }

  lemma PortIsById(port: string)
    requires port == "/dev/serial/by-id/0"
    ensures ById(port)
  {
  }

  // ----- A layout that is not in order -----

  const APP := Partition("app0", 0, 0x10, 0x1_0000, 0x1000, 0)
  const NVS := Partition("nvs", 1, 2, 0x9000, 0x1000, 0)
  const SPIFFS := Partition("spiffs", SPIFFS_TYPE, SPIFFS_SUBTYPE, 0x2_0000, 0x1000, 0)
  const UNORDERED: seq<Partition> := [APP, NVS, SPIFFS]

  /** The layout with its application listed first is accepted everywhere but not in order. */
  lemma UnorderedIsValid(t: Tools, p: Profile)
    requires t.csv(p) == UNORDERED && |t.hashes.md5(PartitionTable.Entries(UNORDERED))| == 16
    ensures ValidCsv(t, p) && !InOrder(ProtectedRanges(t.csv(p)))
  {
    hide PartitionTable.Entries, Normalized, CheckRanges, SpiffsPartition, ProtectedRanges, InOrder;
    UnorderedRanges(SpecOf(p).flashSize);
    UnorderedSpiffs();
    UnorderedProtected();
    assert PartitionTable.Printable(APP) && PartitionTable.Printable(NVS) && PartitionTable.Printable(SPIFFS);
  }

  lemma UnorderedRanges(flashSize: nat)
    requires flashSize >= 0x40_0000
    ensures CheckRanges(Normalized(UNORDERED), {}, 0, flashSize).Ok?
  {
    hide Normalized, CheckRanges;
    RangesAcceptedIff(UNORDERED, flashSize);
    assert Distinct(UNORDERED) by {
      assert UNORDERED[1..] == [NVS, SPIFFS] && [NVS, SPIFFS][1..] == [SPIFFS] && [SPIFFS][1..] == [];
      assert NVS !in [SPIFFS] && APP !in [NVS, SPIFFS] by { assert NVS.name != SPIFFS.name && APP.name != NVS.name; }
      assert Distinct([SPIFFS]);
      assert Distinct([NVS, SPIFFS]);
    }
  }

  lemma UnorderedSpiffs()
    ensures SpiffsPartition(UNORDERED).Ok?
  {
    assert UNORDERED[1..] == [NVS, SPIFFS] && [NVS, SPIFFS][1..] == [SPIFFS] && [SPIFFS][1..] == [];
    assert Normalized([SPIFFS]) == [SPIFFS];
    assert Normalized([NVS, SPIFFS]) == [NVS, SPIFFS];
    assert Place(APP, [SPIFFS]) == [APP, SPIFFS];
    assert Normalized(UNORDERED) == [NVS, APP, SPIFFS];
    assert [NVS, APP, SPIFFS][1..] == [APP, SPIFFS] && [APP, SPIFFS][1..] == [SPIFFS];
    assert Candidates([SPIFFS]) == [SPIFFS] && Candidates([APP, SPIFFS]) == [SPIFFS];
  }

  lemma UnorderedProtected()
    ensures !InOrder(ProtectedRanges(UNORDERED))
  {
    assert UNORDERED[1..] == [NVS, SPIFFS] && [NVS, SPIFFS][1..] == [SPIFFS] && [SPIFFS][1..] == [];
    assert ProtectedRanges([SPIFFS]) == [] && |ProtectedRanges([NVS, SPIFFS])| == 1;
    var rs := ProtectedRanges(UNORDERED);
    assert |rs| == 2 && rs[0].offset == APP.offset && rs[1].offset == NVS.offset;
  }
}
