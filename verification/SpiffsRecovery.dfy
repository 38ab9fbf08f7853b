/**
 Recovery of a SPIFFS partition over USB: the layout of a profile, the restore plan, and its
 execution with the only call that writes to the device.
 */
module SpiffsRecovery {
  import opened Wrappers
  import opened Bytes
  import opened Flash
  import I = FlashInspector

  const TABLE_READ_SIZE: nat := 0x1000
  const SPIFFS_TYPE: nat := 1
  const SPIFFS_SUBTYPE: nat := 0x82

  datatype RecoveryError =
    | BadLabel | BadRange | NoSpiffs | LayoutMismatch | TableSize | TableRejected
    | IdentityMismatch | MacMismatch | ReadsDisagree | BackupSize
    | ManifestMismatch | SourceRejected | Schema | TargetRange | TargetEnd | PreAuthorized | Forbidden | DeviceMismatch
    | ProtectedChanged | StaleLayout | SourceProfile | BackupChanged | PostContract | Token
    | NotConfirmed | Sidecar | PortMismatch | AlreadyExecuted | SerialChanged | TableChanged | SpiffsChanged
    | ImageChanged
    | AdapterFailed | ReadbackMismatch

  datatype Spec = Spec(chip: string, flashSize: nat)

  function SpecOf(p: Profile): Spec {
    match p
    case W0 => Spec("esp32", 0x40_0000)
    case L0 => Spec("esp32s3", 0x100_0000)
    case _ => Spec("esp32s3", 0x40_0000)
  }

  // ----- Partition layouts -----

  function Place(p: Partition, ps: seq<Partition>): seq<Partition> {
    if ps == [] || p.offset <= ps[0].offset then [p] + ps else [ps[0]] + Place(p, ps[1..])
  }

  /** Partitions by their offsets; equal offsets keep their order. */
  function Normalized(ps: seq<Partition>): seq<Partition> {
    if ps == [] then [] else Place(ps[0], Normalized(ps[1..]))
  }

  function CheckRanges(ps: seq<Partition>, names: set<string>, previousEnd: nat,
                       flashSize: nat): Result<(), RecoveryError>
    decreases |ps|
  {
    if ps == [] then Ok(())
    else if ps[0].name == "" || ps[0].name in names then Err(BadLabel)
    else if ps[0].size == 0 || ps[0].offset < previousEnd || ps[0].offset + ps[0].size > flashSize then Err(BadRange)
    else CheckRanges(ps[1..], names + {ps[0].name}, ps[0].offset + ps[0].size, flashSize)
  }

  method ValidatePartitionRanges(partitions: seq<Partition>, flashSize: nat) returns (r: Result<(), RecoveryError>)
    ensures r == CheckRanges(Normalized(partitions), {}, 0, flashSize)
  {
    var ps, names: set<string>, previousEnd: nat := Normalized(partitions), {}, 0;
    assert ps[0..] == ps;
    for i := 0 to |ps|
      invariant CheckRanges(ps[i..], names, previousEnd, flashSize) == CheckRanges(ps, {}, 0, flashSize)
    {
      var item := ps[i];
      assert ps[i..][0] == item && ps[i..][1..] == ps[i + 1..];
      if item.name == "" || item.name in names { return Err(BadLabel); }
      names := names + {item.name};
      if item.size == 0 || item.offset < previousEnd || item.offset + item.size > flashSize { return Err(BadRange); }
      previousEnd := item.offset + item.size;
    }
    r := Ok(());
  }

  function Candidates(ps: seq<Partition>): seq<Partition> {
    if ps == [] then []
    else (if ps[0].name == "spiffs" && ps[0].kind == SPIFFS_TYPE && ps[0].subtype == SPIFFS_SUBTYPE
          then [ps[0]] else [])
         + Candidates(ps[1..])
  }

  function SpiffsPartition(ps: seq<Partition>): (r: Result<Partition, RecoveryError>)
    ensures r.Ok? ==> r.value in Candidates(Normalized(ps))
  {
    var c := Candidates(Normalized(ps));
    if |c| != 1 then Err(NoSpiffs) else Ok(c[0])
  }

  // ----- What lies outside -----

  /** Hashes, fingerprints and the partition CSV of each profile. `token` is the digest of a
      plan without its token. */
  datatype Tools = Tools(
    hashes: Hashes, sha: seq<byte> -> string, layout: seq<Partition> -> string, token: Unsigned -> string,
    csv: Profile -> seq<Partition>)

  function ExpectedPartitions(t: Tools, p: Profile): Result<seq<Partition>, RecoveryError> {
    var ps := t.csv(p);
    var _ :- CheckRanges(Normalized(ps), {}, 0, SpecOf(p).flashSize);
    Ok(ps)
  }

  /** A partition table as it was read from the device. */
  function PartitionsOfRegion(t: Tools, region: seq<byte>, p: Profile): Result<seq<Partition>, RecoveryError> {
    if |region| != TABLE_READ_SIZE then Err(TableSize) else
      var prefixed := Erased(PARTITION_TABLE_OFFSET) + region;
      var live, table := I.Partitions(prefixed), I.ValidatePartitionTable(prefixed, t.hashes);
      if live.Err? || table.Err? then Err(TableRejected) else
        var expected :- ExpectedPartitions(t, p);
        if Normalized(live.value) != Normalized(expected) then Err(LayoutMismatch) else Ok(Normalized(live.value))
  }

  // ----- The source image -----

  datatype Manifest = Manifest(
    schemaOk: bool, profile: Profile, chip: string, flashSize: nat, layout: string, offset: nat, size: nat,
    wwwBuild: string, sha256: string, imageSize: nat, assets: seq<string>)

  /** The files a plan refers to. `accepted` says that the external tool unpacks the image and
      its WWW assets are complete; `assets` is their inventory. */
  datatype Files = Files(
    image: seq<byte>, accepted: bool, assets: seq<string>, manifest: Manifest,
    backupA: seq<byte>, backupB: seq<byte>, sidecarOk: bool)

  predicate Blank(b: seq<byte>) {
    (forall i :: 0 <= i < |b| ==> b[i] == 0xFF) || (forall i :: 0 <= i < |b| ==> b[i] == 0)
  }

  function ValidateImageManifest(t: Tools, f: Files, p: Profile, sha256: string,
                                 build: string): Result<(), RecoveryError> {
    var m := f.manifest;
    if !m.schemaOk || m.profile != p || m.chip != SpecOf(p).chip || m.flashSize != SpecOf(p).flashSize then
      Err(ManifestMismatch)
    else
      var partitions :- ExpectedPartitions(t, p);
      var spiffs :- SpiffsPartition(partitions);
      if m.layout != t.layout(Normalized(partitions)) || m.offset != spiffs.offset || m.size != spiffs.size
         || m.wwwBuild != build || m.sha256 != sha256 then Err(ManifestMismatch)
      else if |f.image| != spiffs.size || Blank(f.image) || !f.accepted then Err(SourceRejected)
      else if t.sha(f.image) != sha256 || m.imageSize != |f.image| || m.assets != f.assets then Err(SourceRejected)
      else Ok(())
  }

  // ----- The plan -----

  datatype Identity = Identity(chip: string, flashSize: nat, mac: string)

  datatype Device = Device(port: string, usbSerial: string, identity: Identity)

  datatype Table = Table(offset: nat, readSize: nat, sha256: string, twoReadsMatch: bool, md5Valid: bool,
                         layout: string)

  datatype Target = Target(name: string, kind: nat, subtype: nat, offset: nat, size: nat, end: nat,
                           onlyRangeAllowed: bool)

  datatype Source = Source(sha256: string, wwwBuild: string, profile: Profile)

  datatype Backup = Backup(directory: string, size: nat, sha256: string, twoReadsMatch: bool)

  datatype Protected = Protected(name: string, offset: nat, size: nat, end: nat, write: bool)

  datatype PostWrite = PostWrite(
    verifyRequired: bool, readbackRequired: bool, directory: string, expectedSha256: string,
    automaticRetry: bool, automaticReset: bool)

  datatype Operation =
    | EraseFlash | EraseRegion | FullFlashRestore | BootloaderWrite | PartitionTableWrite | OtadataWrite | NvsWrite
    | AppWrite

  const FORBIDDEN: set<Operation> :=
    {EraseFlash, EraseRegion, FullFlashRestore, BootloaderWrite, PartitionTableWrite, OtadataWrite, NvsWrite, AppWrite}

  datatype Unsigned = Unsigned(
    schemaOk: bool, writeAuthorized: bool, profile: Profile, device: Device, table: Table, target: Target,
    source: Source, backup: Backup, protected: seq<Protected>, post: PostWrite, forbidden: set<Operation>)

  datatype Plan = Plan(body: Unsigned, token: string)

  function ProtectedRanges(ps: seq<Partition>): seq<Protected> {
    if ps == [] then []
    else (if ps[0].name != "spiffs"
          then [Protected(ps[0].name, ps[0].offset, ps[0].size, ps[0].offset + ps[0].size, false)] else [])
         + ProtectedRanges(ps[1..])
  }

  function VerifyIdentity(id: Identity, p: Profile, mac: string): Result<(), RecoveryError> {
    if id.chip != SpecOf(p).chip || id.flashSize != SpecOf(p).flashSize then Err(IdentityMismatch)
    else if id.mac != mac then Err(MacMismatch)
    else Ok(())
  }

  /** What `prepare` has read twice from the device. */
  datatype Reads = Reads(tableA: seq<byte>, tableB: seq<byte>, backupA: seq<byte>, backupB: seq<byte>)

  function BuildRestorePlan(t: Tools, p: Profile, device: Device, mac: string, r: Reads, f: Files, sha256: string,
                            build: string, directory: string): Result<Plan, RecoveryError>
  {
    var _ :- VerifyIdentity(device.identity, p, mac);
    if r.tableA != r.tableB then Err(ReadsDisagree) else
      var partitions :- PartitionsOfRegion(t, r.tableA, p);
      var spiffs :- SpiffsPartition(partitions);
      if |r.backupA| != spiffs.size || |r.backupB| != spiffs.size then Err(BackupSize)
      else if r.backupA != r.backupB then Err(ReadsDisagree)
      else
        var _ :- ValidateImageManifest(t, f, p, sha256, build);
        var body := Unsigned(
          true, false, p, device,
          Table(PARTITION_TABLE_OFFSET, TABLE_READ_SIZE, t.sha(r.tableA), true, true, t.layout(Normalized(partitions))),
          Target("spiffs", SPIFFS_TYPE, SPIFFS_SUBTYPE, spiffs.offset, spiffs.size, spiffs.offset + spiffs.size, true),
          Source(f.manifest.sha256, f.manifest.wwwBuild, f.manifest.profile),
          Backup(directory, |r.backupA|, t.sha(r.backupA), true), ProtectedRanges(partitions),
          PostWrite(true, true, directory, f.manifest.sha256, false, false), FORBIDDEN);
        Ok(Plan(body, t.token(body)))
  }

  /** The path of a serial port by its identity. */
  predicate ById(port: string) {
    "/dev/serial/by-id/" <= port
  }

  function ValidateRestorePlan(t: Tools, plan: Plan, f: Files): Result<(), RecoveryError> {
    var b := plan.body;
    if !b.schemaOk then Err(Schema) else
      var partitions :- ExpectedPartitions(t, b.profile);
      var spiffs :- SpiffsPartition(partitions);
      if b.target.name != "spiffs" || b.target.kind != SPIFFS_TYPE || b.target.subtype != SPIFFS_SUBTYPE
         || b.target.offset != spiffs.offset || b.target.size != spiffs.size
         || !b.target.onlyRangeAllowed then Err(TargetRange)
      else if b.target.end != b.target.offset + b.target.size then Err(TargetEnd)
      else if b.writeAuthorized then Err(PreAuthorized)
      else if !(FORBIDDEN <= b.forbidden) then Err(Forbidden)
      else if b.device.identity.chip != SpecOf(b.profile).chip
          || b.device.identity.flashSize != SpecOf(b.profile).flashSize
              || !ById(b.device.port) then Err(DeviceMismatch)
      else if b.protected != ProtectedRanges(partitions) then Err(ProtectedChanged)
      else if b.table.offset != PARTITION_TABLE_OFFSET || b.table.readSize != TABLE_READ_SIZE || !b.table.twoReadsMatch
              || !b.table.md5Valid || b.table.layout != t.layout(Normalized(partitions)) then Err(StaleLayout)
      else if b.source.profile != b.profile then Err(SourceProfile)
      else
        var _ :- ValidateImageManifest(t, f, b.profile, b.source.sha256, b.source.wwwBuild);
        if f.backupA != f.backupB || |f.backupA| != b.target.size || b.backup.size != b.target.size
           || t.sha(f.backupA) != b.backup.sha256 || !b.backup.twoReadsMatch then Err(BackupChanged)
        else if !b.post.verifyRequired || !b.post.readbackRequired || b.post.expectedSha256 != b.source.sha256
                || b.post.automaticRetry || b.post.automaticReset
                || b.post.directory != b.backup.directory then Err(PostContract)
        else if plan.token != t.token(b) then Err(Token)
        else Ok(())
  }

  // ----- Execution -----

  /** The device's flash, and the evidence of earlier executions beside the plan. */
  datatype World = World(flash: seq<byte>, readback: Option<seq<byte>>, resultWritten: bool)

  /** How a write goes: it is complete, or fails after it has put some bytes into its range. */
  datatype WriteOutcome = Complete | Broken(left: seq<byte>)

  /** The adapter in one invocation: what the port and the device say of themselves, which of
      the reads fail, and how write and verification go. Reads that succeed are faithful. */
  datatype Script = Script(
    usbSerial: Option<string>, identity: Option<Identity>, readsFail: set<nat>, write: WriteOutcome, verifyFails: bool)

  datatype Arguments = Arguments(port: string, mac: string, token: string, romLoader: bool, separateApproval: bool)

  /** `touched`: the device was asked anything at all; `writes`: how often it was written. */
  datatype Invocation = Invocation(world: World, result: Result<(), RecoveryError>, touched: bool, writes: nat)

  function ReadFlash(w: World, s: Script, k: nat, offset: nat, size: nat): Option<seq<byte>> {
    if k in s.readsFail || offset + size > |w.flash| then None else Some(w.flash[offset..offset + size])
  }

  function Overwrite(flash: seq<byte>, offset: nat, data: seq<byte>): (r: seq<byte>)
    requires offset + |data| <= |flash|
    ensures |r| == |flash| && r[offset..offset + |data|] == data
    ensures forall i :: 0 <= i < |flash| && !(offset <= i < offset + |data|) ==> r[i] == flash[i]
  {
    flash[..offset] + data + flash[offset + |data|..]
  }

  function WriteFlash(w: World, s: Script, offset: nat, image: seq<byte>): (r: (World, bool))
    ensures |r.0.flash| == |w.flash| && r.0.readback == w.readback && r.0.resultWritten == w.resultWritten
  {
    if offset + |image| > |w.flash| then (w, false)
    else
      match s.write
      case Complete => (w.(flash := Overwrite(w.flash, offset, image)), true)
      case Broken(left) =>
        if |left| == |image| then (w.(flash := Overwrite(w.flash, offset, left)), false) else (w, false)
  }

  /** Every check before the device is asked anything. */
  function CheckOffline(t: Tools, plan: Plan, f: Files, a: Arguments, s: Script, w: World): Result<(), RecoveryError> {
    if !a.romLoader || !a.separateApproval then Err(NotConfirmed)
    else if !f.sidecarOk then Err(Sidecar)
    else
      var _ :- ValidateRestorePlan(t, plan, f);
      if a.token != plan.token then Err(Token)
      else if a.port != plan.body.device.port then Err(PortMismatch)
      else if a.mac != plan.body.device.identity.mac then Err(MacMismatch)
      else if w.resultWritten || w.readback.Some? then Err(AlreadyExecuted)
      else if s.usbSerial != Some(plan.body.device.usbSerial) then Err(SerialChanged)
      else Ok(())
  }

  function ReadTwice(w: World, s: Script, k: nat, offset: nat, size: nat): Result<seq<byte>, RecoveryError> {
    var first, second := ReadFlash(w, s, k, offset, size), ReadFlash(w, s, k + 1, offset, size);
    if first.None? || second.None? then Err(AdapterFailed)
    else if first != second then Err(ReadsDisagree)
    else Ok(first.value)
  }

  /** Every check of the device before the write; the partition to be written. */
  function CheckDevice(t: Tools, plan: Plan, f: Files, a: Arguments, s: Script,
                       w: World): Result<Partition, RecoveryError> {
    if s.identity.None? then Err(AdapterFailed) else
      var _ :- VerifyIdentity(s.identity.value, plan.body.profile, a.mac);
      if s.identity.value.mac != plan.body.device.identity.mac then Err(MacMismatch) else
        var table :- ReadTwice(w, s, 0, PARTITION_TABLE_OFFSET, TABLE_READ_SIZE);
        var partitions :- PartitionsOfRegion(t, table, plan.body.profile);
        if t.sha(table) != plan.body.table.sha256 then Err(TableChanged) else
          var target :- SpiffsPartition(partitions);
          var current :- ReadTwice(w, s, 2, target.offset, target.size);
          if t.sha(current) != plan.body.backup.sha256 then Err(SpiffsChanged)
          else if t.sha(f.image) != plan.body.source.sha256 then Err(ImageChanged)
          else Ok(target)
  }

  /** The write, its verification and the readback. */
  function WriteAndVerify(t: Tools, plan: Plan, f: Files, s: Script, w: World, target: Partition): Invocation {
    var (n, written) := WriteFlash(w, s, target.offset, f.image);
    if !written || s.verifyFails then Invocation(n, Err(AdapterFailed), true, 1) else
      var readback := ReadFlash(n, s, 4, target.offset, target.size);
      if readback.None? then Invocation(n, Err(AdapterFailed), true, 1) else
        var m := n.(readback := readback);
        if t.sha(readback.value) != plan.body.source.sha256 then Invocation(m, Err(ReadbackMismatch), true, 1)
        else Invocation(m.(resultWritten := true), Ok(()), true, 1)
  }

  function ExecuteRestore(t: Tools, plan: Plan, f: Files, a: Arguments, s: Script, w: World): Invocation {
    match CheckOffline(t, plan, f, a, s, w)
    case Err(e) => Invocation(w, Err(e), false, 0)
    case Ok(_) =>
      match CheckDevice(t, plan, f, a, s, w)
      case Err(e) => Invocation(w, Err(e), true, 0)
      case Ok(target) => WriteAndVerify(t, plan, f, s, w, target)
  }
}
