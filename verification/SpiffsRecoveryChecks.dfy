/**
 What the checks of the recovery tool amount to: the exact conditions, on the plan, the files and
 the device, under which a plan is prepared, is accepted, and comes to its write.
 */
module SpiffsRecoveryChecks {
  import opened Wrappers
  import opened Bytes
  import opened Flash
  import opened SpiffsRecovery
  import opened SpiffsRecoveryLayouts
  import I = FlashInspector

  // ----- Layouts -----

  /** The devices of a profile. */
  predicate IsDevice(p: Profile, chip: string, flashSize: nat) {
    match p
    case W0 => chip == "esp32" && flashSize == 0x40_0000
    case M0 => chip == "esp32s3" && flashSize == 0x40_0000
    case S0 => chip == "esp32s3" && flashSize == 0x40_0000
    case DIN0 => chip == "esp32s3" && flashSize == 0x40_0000
    case L0 => chip == "esp32s3" && flashSize == 0x100_0000
  }

  lemma DeviceIs(p: Profile, chip: string, flashSize: nat)
    ensures chip == SpecOf(p).chip && flashSize == SpecOf(p).flashSize <==> IsDevice(p, chip, flashSize)
  {
  }

  predicate IsSpiffs(p: Partition) {
    p.name == "spiffs" && p.kind == 1 && p.subtype == 0x82
  }

  /** The only SPIFFS partition of a layout. */
  ghost predicate OnlySpiffs(csv: seq<Partition>, s: Partition) {
    s in csv && IsSpiffs(s) && forall q <- csv :: IsSpiffs(q) ==> q == s
  }

  lemma {:induction false} CandidatesAre(ps: seq<Partition>)
    ensures forall p :: p in Candidates(ps) <==> p in ps && IsSpiffs(p)
    ensures Distinct(ps) ==> Distinct(Candidates(ps))
  {
    if ps != [] {
      CandidatesAre(ps[1..]);
      var rest := Candidates(ps[1..]);
      assert ([ps[0]] + rest)[1..] == rest && [] + rest == rest;
    }
  }

  lemma OneOnly(c: seq<Partition>, s: Partition)
    requires Distinct(c) && s in c && forall q <- c :: q == s
    ensures c == [s]
  {
    if |c| > 1 { TwoAreNotDistinct(c, s); }
  }

  lemma TwoAreNotDistinct(c: seq<Partition>, s: Partition)
    requires |c| > 1 && forall q <- c :: q == s
    ensures !Distinct(c)
  {
    assert c[0] in c && c[1] in c && c[1..][0] == c[1];
  }

  /** In a layout of distinct partitions the SPIFFS partition is found exactly if it is the only one. */
  lemma SpiffsIs(csv: seq<Partition>, s: Partition)
    requires Distinct(csv)
    ensures SpiffsPartition(csv) == Ok(s) <==> OnlySpiffs(csv, s)
  {
    hide Normalized;
    NormalizedKeeps(csv);
    var c := Candidates(Normalized(csv));
    CandidatesAre(Normalized(csv));
    if |c| == 1 && c[0] == s { assert c == [s]; }
    if OnlySpiffs(csv, s) { OneOnly(c, s); }
  }

  lemma SpiffsIsFound(csv: seq<Partition>)
    requires Distinct(csv)
    ensures SpiffsPartition(csv).Ok? <==> exists s :: OnlySpiffs(csv, s)
  {
    hide SpiffsPartition;
    if SpiffsPartition(csv).Ok? { SpiffsIs(csv, SpiffsPartition(csv).value); }
    if s :| OnlySpiffs(csv, s) { SpiffsIs(csv, s); }
  }

  // ----- Sorted layouts -----

  ghost predicate SortedOf(sorted: seq<Partition>, ps: seq<Partition>) {
    multiset(sorted) == multiset(ps) && ByOffset(sorted)
  }

  lemma {:induction false} PlaceIsOneMore(p: Partition, ps: seq<Partition>)
    ensures multiset(Place(p, ps)) == multiset(ps) + multiset{p}
  {
    if ps != [] && p.offset > ps[0].offset {
      PlaceIsOneMore(p, ps[1..]);
      assert ps == [ps[0]] + ps[1..];
    }
  }

  lemma {:induction false} NormalizedIsSorted(ps: seq<Partition>)
    ensures SortedOf(Normalized(ps), ps)
  {
    if ps != [] {
      NormalizedIsSorted(ps[1..]);
      PlaceIsOneMore(ps[0], Normalized(ps[1..]));
      PlaceKeepsOrder(ps[0], Normalized(ps[1..]));
      assert ps == [ps[0]] + ps[1..];
    }
  }

  ghost predicate OffsetsDiffer(ps: seq<Partition>) {
    forall j, k :: 0 <= j < k < |ps| ==> ps[j].offset != ps[k].offset
  }

  lemma SortedBegin(a: seq<Partition>, b: seq<Partition>)
    requires multiset(a) == multiset(b) && ByOffset(a) && ByOffset(b) && OffsetsDiffer(a) && a != []
    ensures b != [] && a[0] == b[0]
  {
    assert a[0] in multiset(b);
    var j :| 0 <= j < |b| && b[j] == a[0];
    assert b[0] in multiset(a);
    var k :| 0 <= k < |a| && a[k] == b[0];
  }

  /** Partitions at different offsets can be sorted in one way only. */
  lemma {:induction false} SortedIsUnique(a: seq<Partition>, b: seq<Partition>)
    requires multiset(a) == multiset(b) && ByOffset(a) && ByOffset(b) && OffsetsDiffer(a)
    ensures a == b
  {
    if a == [] {
      assert |multiset(b)| == 0;
    } else {
      hide ByOffset, OffsetsDiffer;
      SortedBegin(a, b);
      RestSorted(a);
      RestSorted(b);
      assert a == [a[0]] + a[1..] && b == [b[0]] + b[1..];
      assert multiset(a[1..]) == multiset(a) - multiset{a[0]} && multiset(b[1..]) == multiset(b) - multiset{b[0]};
      SortedIsUnique(a[1..], b[1..]);
    }
  }

  lemma RestSorted(a: seq<Partition>)
    requires a != []
    ensures ByOffset(a) ==> ByOffset(a[1..])
    ensures OffsetsDiffer(a) ==> OffsetsDiffer(a[1..])
  {
  }

  lemma {:induction false} DistinctPlaces(ps: seq<Partition>, j: nat, k: nat)
    requires Distinct(ps) && j < k < |ps|
    ensures ps[j] != ps[k]
  {
    if j > 0 { DistinctPlaces(ps[1..], j - 1, k - 1); } else { assert ps[k] in ps[1..]; }
  }

  lemma WellFormedOffsets(ps: seq<Partition>, flashSize: nat)
    requires WellFormed(ps, flashSize)
    ensures OffsetsDiffer(ps)
  {
    forall j, k | 0 <= j < k < |ps| ensures ps[j].offset != ps[k].offset {
      DistinctPlaces(ps, j, k);
      assert ps[j] in ps && ps[k] in ps && Apart(ps[j], ps[k]);
    }
  }

  /** What sorts a well-formed layout is its normal form. */
  lemma SortedIsNormalized(sorted: seq<Partition>, ps: seq<Partition>, flashSize: nat)
    requires WellFormed(ps, flashSize)
    ensures SortedOf(sorted, ps) <==> sorted == Normalized(ps)
  {
    hide Normalized;
    NormalizedIsSorted(ps);
    if SortedOf(sorted, ps) {
      NormalizedDiffers(ps, flashSize);
      SortedIsUnique(Normalized(ps), sorted);
    }
  }

  lemma NormalizedDiffers(ps: seq<Partition>, flashSize: nat)
    requires WellFormed(ps, flashSize)
    ensures OffsetsDiffer(Normalized(ps))
  {
    hide Normalized, WellFormed;
    NormalizedKeeps(ps);
    DistinctOf(ps, flashSize);
    SameWellFormed(ps, Normalized(ps), flashSize);
    WellFormedOffsets(Normalized(ps), flashSize);
  }

  lemma DistinctOf(ps: seq<Partition>, flashSize: nat)
    requires WellFormed(ps, flashSize)
    ensures Distinct(ps)
  {
  }

  // ----- The layout of a profile -----

  /** The CSV of a profile: well-formed, with `s` as its only SPIFFS partition. */
  ghost predicate GoodLayout(t: Tools, p: Profile, s: Partition) {
    && (exists chip, flashSize :: IsDevice(p, chip, flashSize) && WellFormed(t.csv(p), flashSize))
    && OnlySpiffs(t.csv(p), s)
  }

  lemma LayoutIs(t: Tools, p: Profile, s: Partition)
    ensures ExpectedPartitions(t, p).Ok? && SpiffsPartition(t.csv(p)) == Ok(s) <==> GoodLayout(t, p, s)
    ensures ExpectedPartitions(t, p).Ok? ==> ExpectedPartitions(t, p).value == t.csv(p)
  {
    hide CheckRanges, Normalized, WellFormed, SpiffsPartition, OnlySpiffs;
    var csv := t.csv(p);
    DeviceIs(p, SpecOf(p).chip, SpecOf(p).flashSize);
    RangesAcceptedIff(csv, SpecOf(p).flashSize);
    if ExpectedPartitions(t, p).Ok? {
      DistinctOf(csv, SpecOf(p).flashSize);
      SpiffsIs(csv, s);
    }
    if GoodLayout(t, p, s) {
      var chip, flashSize :| IsDevice(p, chip, flashSize) && WellFormed(csv, flashSize);
      DeviceIs(p, chip, flashSize);
      DistinctOf(csv, flashSize);
      SpiffsIs(csv, s);
    }
  }

  /** The fingerprint is that of the sorted layout. */
  ghost predicate HasFingerprint(t: Tools, p: Profile, layout: string) {
    exists sorted :: SortedOf(sorted, t.csv(p)) && layout == t.layout(sorted)
  }

  lemma FingerprintIs(t: Tools, p: Profile, s: Partition, layout: string)
    requires GoodLayout(t, p, s)
    ensures HasFingerprint(t, p, layout) <==> layout == t.layout(Normalized(t.csv(p)))
  {
    hide Normalized, WellFormed, SortedOf, OnlySpiffs;
    var chip, flashSize :| IsDevice(p, chip, flashSize) && WellFormed(t.csv(p), flashSize);
    SortedIsNormalized(Normalized(t.csv(p)), t.csv(p), flashSize);
    if sorted :| SortedOf(sorted, t.csv(p)) && layout == t.layout(sorted) {
      SortedIsNormalized(sorted, t.csv(p), flashSize);
    }
  }

  // ----- The source image -----

  /** The image is the one of the manifest, with all its assets, and fits the partition. */
  ghost predicate GoodImage(t: Tools, f: Files, p: Profile, s: Partition, sha256: string, build: string) {
    && f.manifest.schemaOk && f.manifest.profile == p && IsDevice(p, f.manifest.chip, f.manifest.flashSize)
    && HasFingerprint(t, p, f.manifest.layout) && f.manifest.offset == s.offset && f.manifest.size == s.size
    && f.manifest.wwwBuild == build && f.manifest.sha256 == sha256
    && |f.image| == s.size && (exists i :: 0 <= i < |f.image| && f.image[i] != 0xFF)
    && (exists i :: 0 <= i < |f.image| && f.image[i] != 0)
    && f.accepted && f.manifest.assets == f.assets
    && t.sha(f.image) == sha256 && f.manifest.imageSize == |f.image|
  }

  lemma ImageIs(t: Tools, f: Files, p: Profile, s: Partition, sha256: string, build: string)
    requires GoodLayout(t, p, s)
    ensures ValidateImageManifest(t, f, p, sha256, build).Ok? <==> GoodImage(t, f, p, s, sha256, build)
  {
    hide Normalized, WellFormed, ExpectedPartitions, SpiffsPartition, GoodLayout, HasFingerprint;
    LayoutIs(t, p, s);
    DeviceIs(p, f.manifest.chip, f.manifest.flashSize);
    FingerprintIs(t, p, s, f.manifest.layout);
  }

  lemma ImageNeedsLayout(t: Tools, f: Files, p: Profile, sha256: string, build: string)
    requires ValidateImageManifest(t, f, p, sha256, build).Ok?
    ensures ExpectedPartitions(t, p).Ok? && SpiffsPartition(t.csv(p)).Ok?
  {
    hide Normalized, SpiffsPartition, CheckRanges;
  }

  // ----- The plan -----

  function Unprotected(csv: seq<Partition>): seq<Partition> {
    if csv == [] then [] else (if csv[0].name == "spiffs" then [] else [csv[0]]) + Unprotected(csv[1..])
  }

  /** One range for every partition but SPIFFS, in the order of the CSV, none to be written. */
  ghost predicate ProtectsAll(rs: seq<Protected>, csv: seq<Partition>) {
    var ps := Unprotected(csv);
    rs == seq(|ps|, i requires 0 <= i < |ps| =>
      Protected(ps[i].name, ps[i].offset, ps[i].size, ps[i].offset + ps[i].size, false))
  }

  lemma {:induction false} ProtectedIs(rs: seq<Protected>, csv: seq<Partition>)
    ensures rs == ProtectedRanges(csv) <==> ProtectsAll(rs, csv)
    decreases |csv|
  {
    if csv != [] {
      ProtectedIs(ProtectedRanges(csv[1..]), csv[1..]);
      assert ProtectsAll(ProtectedRanges(csv[1..]), csv[1..]);
    }
  }

  ghost predicate GoodTarget(target: Target, s: Partition) {
    && target.name == "spiffs" && target.kind == 1 && target.subtype == 0x82
    && target.offset == s.offset && target.size == s.size && target.end == s.offset + s.size && target.onlyRangeAllowed
  }

  ghost predicate GoodTable(t: Tools, p: Profile, table: Table) {
    && table.offset == 0x8000 && table.readSize == 0x1000 && table.twoReadsMatch && table.md5Valid
    && HasFingerprint(t, p, table.layout)
  }

  ghost predicate GoodBackup(t: Tools, b: Unsigned, f: Files, s: Partition) {
    && f.backupA == f.backupB && |f.backupA| == s.size && b.backup.size == s.size
    && b.backup.sha256 == t.sha(f.backupA) && b.backup.twoReadsMatch
  }

  ghost predicate GoodEnd(b: Unsigned) {
    && b.post.verifyRequired && b.post.readbackRequired && b.post.expectedSha256 == b.source.sha256
    && !b.post.automaticRetry && !b.post.automaticReset && b.post.directory == b.backup.directory
  }

  ghost predicate ForbidsAll(operations: set<Operation>) {
    && EraseFlash in operations && EraseRegion in operations && FullFlashRestore in operations
    && BootloaderWrite in operations && PartitionTableWrite in operations && OtadataWrite in operations
    && NvsWrite in operations && AppWrite in operations
  }

  /** The SPIFFS partition of the plan's profile; nothing, if it has none. */
  function Range(t: Tools, plan: Plan): Partition {
    var r := SpiffsPartition(t.csv(plan.body.profile));
    if r.Ok? then r.value else Partition("", 0, 0, 0, 0, 0)
  }

  /** A plan that may be executed, with the files it refers to; `s` is the partition to be written. */
  ghost predicate GoodPlan(t: Tools, plan: Plan, f: Files, s: Partition) {
    var b := plan.body;
    && b.schemaOk && !b.writeAuthorized && ForbidsAll(b.forbidden)
    && GoodLayout(t, b.profile, s) && GoodTarget(b.target, s) && GoodTable(t, b.profile, b.table)
    && IsDevice(b.profile, b.device.identity.chip, b.device.identity.flashSize)
    && "/dev/serial/by-id/" <= b.device.port
    && ProtectsAll(b.protected, t.csv(b.profile))
    && b.source.profile == b.profile && GoodImage(t, f, b.profile, s, b.source.sha256, b.source.wwwBuild)
    && GoodBackup(t, b, f, s) && GoodEnd(b) && plan.token == t.token(b)
  }

  lemma ForbiddenIs(operations: set<Operation>)
    ensures FORBIDDEN <= operations <==> ForbidsAll(operations)
  {
  }

  /** A plan is accepted exactly if it and its files meet these conditions. */
  lemma PlanIsAcceptedIff(t: Tools, plan: Plan, f: Files)
    ensures ValidateRestorePlan(t, plan, f).Ok? <==> exists s :: GoodPlan(t, plan, f, s)
    ensures forall s :: GoodPlan(t, plan, f, s) ==> s == Range(t, plan)
  {
    hide Normalized, ExpectedPartitions, SpiffsPartition, ValidateImageManifest, ProtectedRanges, Unprotected,
      ProtectsAll, GoodLayout, GoodImage, HasFingerprint, FORBIDDEN, ForbidsAll;
    forall s ensures GoodPlan(t, plan, f, s) ==> s == Range(t, plan) { LayoutIs(t, plan.body.profile, s); }
    if ValidateRestorePlan(t, plan, f).Ok? {
      var s := Range(t, plan);
      PlanNeedsLayout(t, plan, f);
      LayoutIs(t, plan.body.profile, s);
      PlanIs(t, plan, f, s);
    }
    if s :| GoodPlan(t, plan, f, s) { PlanIs(t, plan, f, s); }
  }

  lemma PlanNeedsLayout(t: Tools, plan: Plan, f: Files)
    requires ValidateRestorePlan(t, plan, f).Ok?
    ensures ExpectedPartitions(t, plan.body.profile).Ok?
    ensures SpiffsPartition(t.csv(plan.body.profile)) == Ok(Range(t, plan))
  {
    hide CheckRanges, Normalized, SpiffsPartition, ValidateImageManifest, ProtectedRanges;
  }

  lemma PlanIs(t: Tools, plan: Plan, f: Files, s: Partition)
    requires GoodLayout(t, plan.body.profile, s)
    ensures ValidateRestorePlan(t, plan, f).Ok? <==> GoodPlan(t, plan, f, s)
  {
    hide Normalized, ExpectedPartitions, SpiffsPartition, ValidateImageManifest, ProtectedRanges, Unprotected,
      ProtectsAll, GoodLayout, GoodImage, HasFingerprint, FORBIDDEN, ForbidsAll;
    var b := plan.body;
    LayoutIs(t, b.profile, s);
    DeviceIs(b.profile, b.device.identity.chip, b.device.identity.flashSize);
    FingerprintIs(t, b.profile, s, b.table.layout);
    ProtectedIs(b.protected, t.csv(b.profile));
    ForbiddenIs(b.forbidden);
    ImageIs(t, f, b.profile, s, b.source.sha256, b.source.wwwBuild);
  }

  // ----- The device -----

  /** The table of the region is valid, and lists the partitions of the CSV in some order. */
  ghost predicate HasLayout(t: Tools, region: seq<byte>, p: Profile) {
    var prefixed := Erased(0x8000) + region;
    var live := I.Partitions(prefixed);
    && |region| == 0x1000 && live.Ok? && multiset(live.value) == multiset(t.csv(p))
    && I.ValidatePartitionTable(prefixed, t.hashes).Ok?
  }

  lemma SameLayout(a: seq<Partition>, csv: seq<Partition>, flashSize: nat)
    requires WellFormed(csv, flashSize)
    ensures Normalized(a) == Normalized(csv) <==> multiset(a) == multiset(csv)
  {
    hide Normalized, WellFormed;
    NormalizedIsSorted(a);
    NormalizedIsSorted(csv);
    if multiset(a) == multiset(csv) { SortedIsNormalized(Normalized(a), csv, flashSize); }
  }

  /** The region is accepted exactly if it has the layout, and then the SPIFFS partition is the same. */
  lemma RegionIs(t: Tools, region: seq<byte>, p: Profile, s: Partition)
    requires GoodLayout(t, p, s)
    ensures PartitionsOfRegion(t, region, p).Ok? <==> HasLayout(t, region, p)
    ensures PartitionsOfRegion(t, region, p).Ok? ==> SpiffsPartition(PartitionsOfRegion(t, region, p).value) == Ok(s)
  {
    hide Normalized, WellFormed, SpiffsPartition, ExpectedPartitions, OnlySpiffs, I.Partitions,
      I.ValidatePartitionTable;
    LayoutIs(t, p, s);
    var chip, flashSize :| IsDevice(p, chip, flashSize) && WellFormed(t.csv(p), flashSize);
    var live := I.Partitions(Erased(PARTITION_TABLE_OFFSET) + region);
    if live.Ok? { SameLayout(live.value, t.csv(p), flashSize); }
    SpiffsOfNormalized(t.csv(p));
  }

  // ----- Preparing a plan -----

  /** What `prepare` must find: the device of the profile and of the operator, two equal reads of a
      table with the layout and of a range of the right size, and a good image. */
  ghost predicate GoodStart(t: Tools, p: Profile, device: Device, mac: string, r: Reads, f: Files, sha256: string,
                            build: string, s: Partition) {
    && IsDevice(p, device.identity.chip, device.identity.flashSize) && device.identity.mac == mac
    && r.tableA == r.tableB && HasLayout(t, r.tableA, p) && GoodLayout(t, p, s)
    && r.backupA == r.backupB && |r.backupA| == s.size
    && GoodImage(t, f, p, s, sha256, build)
  }

  /** A plan is prepared exactly then. */
  lemma PlanIsPreparedIff(t: Tools, p: Profile, device: Device, mac: string, r: Reads, f: Files, sha256: string,
                          build: string, directory: string)
    ensures BuildRestorePlan(t, p, device, mac, r, f, sha256, build, directory).Ok? <==>
      exists s :: GoodStart(t, p, device, mac, r, f, sha256, build, s)
  {
    hide PartitionsOfRegion, SpiffsPartition, Normalized, ProtectedRanges, ExpectedPartitions, ValidateImageManifest,
      GoodLayout, GoodImage, HasLayout;
    DeviceIs(p, device.identity.chip, device.identity.flashSize);
    if BuildRestorePlan(t, p, device, mac, r, f, sha256, build, directory).Ok? {
      ImageNeedsLayout(t, f, p, sha256, build);
      var s := SpiffsPartition(t.csv(p)).value;
      LayoutIs(t, p, s);
      RegionIs(t, r.tableA, p, s);
      ImageIs(t, f, p, s, sha256, build);
      assert GoodStart(t, p, device, mac, r, f, sha256, build, s);
    }
    if s :| GoodStart(t, p, device, mac, r, f, sha256, build, s) {
      RegionIs(t, r.tableA, p, s);
      ImageIs(t, f, p, s, sha256, build);
    }
  }
}
