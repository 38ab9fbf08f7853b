/** A device after its first update over the air, as the inspector sees it. */
module OtaUpdate {
  import opened Wrappers
  import opened Bytes
  import opened Flash
  import opened BuildToInspect
  import opened OtaSelection
  import B = FullImage
  import I = FlashInspector

  /** What the update writes: a firmware where app1 is, and the second OTA record. */
  ghost predicate Updates(image: seq<byte>, updated: seq<byte>, firmware: seq<byte>, state: nat) {
    && |image| == |updated| >= 0x40_0000 && |firmware| <= 0x1E_0000
    && updated[0x8000..0xF000] == image[0x8000..0xF000]
    && updated[0x1_0000..0x1F_0000] == image[0x1_0000..0x1F_0000]
    && updated[0x3D_0000..0x40_0000] == image[0x3D_0000..0x40_0000]
    && updated[0x1F_0000..0x1F_0000 + |firmware|] == firmware
    && WordsAt(updated, 0xF000) == Words(2, state, OtaCrc(2))
  }

  /** The applications after the update. */
  lemma BothAreBootable(updated: seq<byte>, partitions: seq<Partition>, first: seq<byte>, second: seq<byte>,
                        contract: B.Contract, h: Hashes)
    requires InspectedLayout(partitions) && OnlyApps(partitions) && |updated| >= 0x40_0000
    requires B.ValidateEspImage(first, contract, h, true).Ok? && |first| <= 0x1E_0000
    requires B.ValidateEspImage(second, contract, h, true).Ok? && |second| <= 0x1E_0000
    requires updated[0x1_0000..0x1_0000 + |first|] == first && updated[0x1F_0000..0x1F_0000 + |second|] == second
    ensures var apps := I.InspectApps(updated, I.Apps(partitions), h);
      && |I.Apps(partitions)| == 2 && |apps| == 2 && apps[0].name == "app0" && apps[1].name == "app1"
      && apps[0].status == I.VALID && apps[1].status == I.VALID && apps[0].bootable && apps[1].bootable
  {
    hide I.ByLabel, I.InspectApp, I.InspectApps, I.Apps, B.ValidateEspImage;
    var apps := I.Apps(partitions);
    OnlyIsLast(partitions, "app0");
    OnlyIsLast(partitions, "app1");
    var part0, part1 := updated[0x1_0000..0x1F_0000], updated[0x1F_0000..0x3D_0000];
    SliceOfSlice(updated, 0x1_0000, 0x1F_0000, 0, |first|);
    SliceOfSlice(updated, 0x1F_0000, 0x3D_0000, 0, |second|);
    FirmwareLength(first, contract, h);
    FirmwareLength(second, contract, h);
    FirmwareIsBootable("app0", first, part0, contract, h);
    FirmwareIsBootable("app1", second, part1, contract, h);
    BothInspected(updated, apps, h);
  }

  /** What the update leaves as it was. */
  lemma Unchanged(image: seq<byte>, updated: seq<byte>, c: B.Components, firmware: seq<byte>, state: nat)
    requires Regions(image, c) && Updates(image, updated, firmware, state)
    ensures updated[0x8000..0x8C00] == c.partitions && IsErased(updated[0x9000..0xE000])
    ensures updated[0xE000..0xE020] == image[0xE000..0xE020]
    ensures updated[0x1_0000..0x1_0000 + |c.firmware|] == c.firmware && updated[0x3D_0000..0x40_0000] == c.spiffs
  {
    hide IsErased, WordsAt;
    SliceOfSlice(updated, 0x8000, 0xF000, 0, 0xC00);
    SliceOfSlice(image, 0x8000, 0xF000, 0, 0xC00);
    SliceOfSlice(updated, 0x8000, 0xF000, 0x1000, 0x6000);
    SliceOfSlice(image, 0x8000, 0xF000, 0x1000, 0x6000);
    SliceOfSlice(updated, 0x8000, 0xF000, 0x6000, 0x6020);
    SliceOfSlice(image, 0x8000, 0xF000, 0x6000, 0x6020);
    SliceOfSlice(updated, 0x1_0000, 0x1F_0000, 0, |c.firmware|);
    SliceOfSlice(image, 0x1_0000, 0x1F_0000, 0, |c.firmware|);
  }

  lemma FirstWords(image: seq<byte>, updated: seq<byte>, c: B.Components)
    requires Regions(image, c) && c.otadata == B.InitialOtadata()
    requires |updated| >= 0x1_0000 && updated[0xE000..0xE020] == image[0xE000..0xE020]
    ensures WordsAt(updated, 0xE000).sequence == 1 && WordsAt(updated, 0xE000).state == 0xFFFF_FFFF
    ensures Selectable(WordsAt(updated, 0xE000))
  {
    hide OtaCrc, U32, B.InitialOtadata;
    RecordsAreRead(image, c);
    RecordIsRead(image[0xE000..0xE020], 0, 2);
    ReadWithin(updated, 0xE000, 0xE020, 0);
    ReadWithin(updated, 0xE000, 0xE020, 24);
    ReadWithin(updated, 0xE000, 0xE020, 28);
  }

  /** Such an image is reported on. */
  lemma UpdatedIsReported(updated: seq<byte>, c: B.Components, partitions: seq<Partition>, h: Hashes,
                          spiffsAccepted: seq<byte> -> bool)
    requires B.ValidatePartitionBinary(c.partitions, partitions, h).Ok? && partitions != []
    requires InspectedLayout(partitions) && |updated| >= 0x40_0000
    requires updated[0x8000..0x8C00] == c.partitions && IsErased(updated[0x9000..0xE000])
    requires updated[0x3D_0000..0x40_0000] == c.spiffs && spiffsAccepted(c.spiffs)
    ensures var r := I.InspectImage(updated, h, spiffsAccepted);
      r.Ok? && r.value.apps == I.InspectApps(updated, I.Apps(partitions), h)
  {
    hide B.ValidatePartitionBinary, I.Partitions, I.ValidatePartitionTable, I.OtaRecord, I.InspectApps, I.Apps,
      I.OtadataSummary, I.ValidateNvs, I.PreviousCandidates, I.ByLabel, I.Located, I.CheckPages, IsErased;
    TableIsRead(updated, c.partitions, partitions, h);
    LocatedIs(partitions, "nvs", 0x9000, 0x5000, |updated|);
    LocatedIs(partitions, "otadata", 0xE000, 0x2000, |updated|);
    LocatedIs(partitions, "app0", 0x1_0000, 0x1E_0000, |updated|);
    LocatedIs(partitions, "app1", 0x1F_0000, 0x1E_0000, |updated|);
    LocatedIs(partitions, "spiffs", 0x3D_0000, 0x3_0000, |updated|);
    NvsOfErased(updated[0x9000..0xE000], h);
    RecordIsRead(updated[0xE000..0xE020], 0, |I.Apps(partitions)|);
    RecordIsRead(updated[0xF000..0xF020], 1, |I.Apps(partitions)|);
    assert Slice(updated, 0x9000, 0xE000) == updated[0x9000..0xE000];
    assert Slice(updated, 0x3D_0000, 0x40_0000) == c.spiffs;
    AsManyReports(updated, I.Apps(partitions), h);
  }

  lemma NvsOfErased(b: seq<byte>, h: Hashes)
    requires |b| == 0x5000 && IsErased(b)
    ensures I.ValidateNvs(b, h).Ok?
  {
    hide I.CheckPages;
    ErasedPages(b, I.NO_PAGES, h);
  }

  /** After the update of a device that was flashed with a build: app1 is selected, app0 is there to
      go back to, and the next boot takes app1, unless it already had its one chance. */
  lemma UpdatedImageBootsFromApp1(c: B.Components, profile: Profile, contract: B.Contract, partitions: seq<Partition>,
                                  h: Hashes, o: B.Outside, image: seq<byte>, updated: seq<byte>, firmware: seq<byte>,
                                  state: nat, spiffsAccepted: seq<byte> -> bool)
    requires contract == B.ContractOf(profile)
    requires B.ValidateComponentSet(c, contract, partitions, h, o).Ok?
    requires B.ValidateFullImage(image, contract.flashSize,
        B.ValidateComponentSet(c, contract, partitions, h, o).value).Ok?
    requires partitions != [] && InspectedLayout(partitions) && OnlyApps(partitions)
    requires B.ValidateEspImage(firmware, contract, h, true).Ok? && Updates(image, updated, firmware, state)
    requires state != 3 && state != 4 && spiffsAccepted(c.spiffs)
    ensures I.InspectImage(updated, h, spiffsAccepted).Ok?
    ensures var r := I.InspectImage(updated, h, spiffsAccepted).value;
      && |r.apps| == 2 && r.apps[0].name == "app0" && r.apps[1].name == "app1"
      && r.apps[0].status == I.VALID && r.apps[1].status == I.VALID
      && r.summary.activeSlot == Some("app1") && r.summary.activeBootable
      && r.summary.rollbackSlot == Some("app0") && r.summary.rollbackAvailable
      && r.summary.nextBootSlot == Some(if state == 1 then "app0" else "app1")
  {
    hide B.ValidateEspImage, B.ValidatePartitionBinary, B.InitialOtadata, B.ValidateComponentSet, B.ValidateFullImage,
      I.InspectImage, I.InspectApps, I.Apps, I.ByLabel, Placement, IsErased, WordsAt, OtaCrc, SaysAlways, SaysNone;
    var ps := B.ValidateComponentSet(c, contract, partitions, h, o).value;
    ComponentsArePlaced(c, contract, partitions, h, o);
    RegionsAre(image, c, contract, ps);
    Unchanged(image, updated, c, firmware, state);
    FirstWords(image, updated, c);
    BothAreBootable(updated, partitions, c.firmware, firmware, contract, h);
    UpdatedIsReported(updated, c, partitions, h, spiffsAccepted);
    ReportNamesBootSlot(updated, h, spiffsAccepted);
    var apps := I.InspectImage(updated, h, spiffsAccepted).value.apps;
    assert FirstBootable(apps, "app0") && FirstBootable(apps, "app1");
  }
}
