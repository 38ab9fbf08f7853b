/** What every invocation of the recovery tool, and every run of them, keeps. */
module SpiffsRecoveryRuns {
  import opened Wrappers
  import opened Bytes
  import opened Flash
  import opened SpiffsRecovery
  import opened SpiffsRecoveryLayouts
  import opened SpiffsRecoveryChecks

  // ----- One invocation -----

  /** No two different inputs have the same hash. */
  ghost predicate CollisionFree(t: Tools) {
    forall a, b :: t.sha(a) == t.sha(b) ==> a == b
  }

  function InRange(w: World, target: Partition): seq<byte> {
    if target.offset + target.size <= |w.flash| then w.flash[target.offset..target.offset + target.size] else []
  }

  /** The flash outside the range is the same. */
  ghost predicate SameOutside(a: World, b: World, target: Partition) {
    |a.flash| == |b.flash| &&
    forall i :: 0 <= i < |a.flash| && !(target.offset <= i < target.offset + target.size) ==> a.flash[i] == b.flash[i]
  }

  /** What holds when an invocation comes to its write, and makes it do so: the operator has
      confirmed it twice and named plan, port and device; there is no evidence of an execution; the
      plan and its files are good; the device is the one of the plan, with its layout; and its range
      holds the backup. */
  ghost predicate Checked(t: Tools, plan: Plan, f: Files, a: Arguments, s: Script, w: World, target: Partition) {
    var b := plan.body;
    && a.romLoader && a.separateApproval && f.sidecarOk
    && a.token == plan.token && a.port == b.device.port && a.mac == b.device.identity.mac
    && w.readback.None? && !w.resultWritten
    && GoodPlan(t, plan, f, target)
    && s.usbSerial == Some(b.device.usbSerial)
    && s.identity.Some? && IsDevice(b.profile, s.identity.value.chip, s.identity.value.flashSize)
    && s.identity.value.mac == a.mac
    && (forall k :: 0 <= k < 4 ==> k !in s.readsFail)
    && |w.flash| >= 0x9000 && target.offset + target.size <= |w.flash|
    && HasLayout(t, w.flash[0x8000..0x9000], b.profile) && t.sha(w.flash[0x8000..0x9000]) == b.table.sha256
    && t.sha(InRange(w, target)) == b.backup.sha256
  }

  lemma ReadIs(w: World, s: Script, k: nat, offset: nat, size: nat)
    ensures ReadTwice(w, s, k, offset, size).Ok? <==>
      k !in s.readsFail && k + 1 !in s.readsFail && offset + size <= |w.flash|
    ensures ReadTwice(w, s, k, offset, size).Ok? ==>
      ReadTwice(w, s, k, offset, size).value == w.flash[offset..offset + size]
  {
  }

  lemma OfflineIs(t: Tools, plan: Plan, f: Files, a: Arguments, s: Script, w: World)
    ensures CheckOffline(t, plan, f, a, s, w).Ok? <==>
      && a.romLoader && a.separateApproval && f.sidecarOk
      && a.token == plan.token && a.port == plan.body.device.port && a.mac == plan.body.device.identity.mac
      && w.readback.None? && !w.resultWritten
      && GoodPlan(t, plan, f, Range(t, plan)) && s.usbSerial == Some(plan.body.device.usbSerial)
  {
    hide ValidateRestorePlan, GoodPlan, Range;
    PlanIsAcceptedIff(t, plan, f);
  }

  lemma DeviceChecksAre(t: Tools, plan: Plan, f: Files, a: Arguments, s: Script, w: World)
    requires GoodPlan(t, plan, f, Range(t, plan)) && a.mac == plan.body.device.identity.mac
    ensures var b, target := plan.body, Range(t, plan);
      CheckDevice(t, plan, f, a, s, w).Ok? <==>
      && s.identity.Some? && IsDevice(b.profile, s.identity.value.chip, s.identity.value.flashSize)
      && s.identity.value.mac == a.mac
      && (forall k :: 0 <= k < 4 ==> k !in s.readsFail)
      && |w.flash| >= 0x9000 && target.offset + target.size <= |w.flash|
      && HasLayout(t, w.flash[0x8000..0x9000], b.profile) && t.sha(w.flash[0x8000..0x9000]) == b.table.sha256
      && t.sha(InRange(w, target)) == b.backup.sha256
    ensures CheckDevice(t, plan, f, a, s, w).Ok? ==> CheckDevice(t, plan, f, a, s, w).value == Range(t, plan)
  {
    hide PartitionsOfRegion, SpiffsPartition, ReadTwice, GoodLayout, HasLayout, ProtectsAll, ForbidsAll, HasFingerprint;
    var b, target := plan.body, Range(t, plan);
    if s.identity.Some? { DeviceIs(b.profile, s.identity.value.chip, s.identity.value.flashSize); }
    ReadIs(w, s, 0, PARTITION_TABLE_OFFSET, TABLE_READ_SIZE);
    ReadIs(w, s, 2, target.offset, target.size);
    if |w.flash| >= 0x9000 { RegionIs(t, w.flash[0x8000..0x9000], b.profile, target); }
    assert (forall k :: 0 <= k < 4 ==> k !in s.readsFail) <==>
      0 !in s.readsFail && 1 !in s.readsFail && 2 !in s.readsFail && 3 !in s.readsFail;
  }

  /** An invocation writes exactly if all these conditions are met. */
  lemma WritesIff(t: Tools, plan: Plan, f: Files, a: Arguments, s: Script, w: World)
    ensures ExecuteRestore(t, plan, f, a, s, w).writes ==
      if Checked(t, plan, f, a, s, w, Range(t, plan)) then 1 else 0
    ensures Checked(t, plan, f, a, s, w, Range(t, plan)) ==>
      ExecuteRestore(t, plan, f, a, s, w) == WriteAndVerify(t, plan, f, s, w, Range(t, plan))
  {
    hide CheckOffline, CheckDevice, GoodPlan, HasLayout, Range, InRange, WriteFlash;
    OfflineIs(t, plan, f, a, s, w);
    if CheckOffline(t, plan, f, a, s, w).Ok? { DeviceChecksAre(t, plan, f, a, s, w); }
  }

  /** What a write comes to, however it goes. */
  ghost predicate WriteIsSafe(f: Files, w: World, inv: Invocation, target: Partition) {
    && inv.writes == 1 && SameOutside(w, inv.world, target)
    && (inv.result.Ok? ==>
          InRange(inv.world, target) == f.image && inv.world.readback == Some(f.image) && inv.world.resultWritten)
    && (inv.world.readback.Some? ==> InRange(inv.world, target) == f.image)
    && (inv.world.resultWritten ==> inv.result.Ok?)
  }

  lemma WritesAreSafe(t: Tools, plan: Plan, f: Files, s: Script, w: World, target: Partition)
    requires |f.image| == target.size && target.offset + target.size <= |w.flash|
    requires w.readback.None? && !w.resultWritten
    ensures WriteIsSafe(f, w, WriteAndVerify(t, plan, f, s, w, target), target)
  {
  }

  /** Every invocation writes at most once, and only after every check has passed on a device
      whose range still holds the backup. Nothing outside the profile's SPIFFS range changes,
      whatever fails; on success the range is the source image. */
  lemma InvocationIsSafe(t: Tools, plan: Plan, f: Files, a: Arguments, s: Script, w: World)
    requires CollisionFree(t)
    ensures var inv, target := ExecuteRestore(t, plan, f, a, s, w), Range(t, plan);
      && inv.writes <= 1 && SameOutside(w, inv.world, target)
      && (inv.writes == 0 ==> inv.world == w && inv.result.Err?)
      && (inv.writes == 1 ==> Checked(t, plan, f, a, s, w, target) && InRange(w, target) == f.backupA)
      && (inv.result.Ok? ==>
          InRange(inv.world, target) == f.image && inv.world.readback == Some(f.image) && inv.world.resultWritten)
  {
    hide ExecuteRestore, WriteAndVerify, InRange, Range, HasLayout, GoodLayout, GoodImage, ProtectsAll;
    WritesIff(t, plan, f, a, s, w);
    var target := Range(t, plan);
    if Checked(t, plan, f, a, s, w, target) {
      GoodImageFits(t, plan, f, target);
      WritesAreSafe(t, plan, f, s, w, target);
    } else {
      NoWriteNoChange(t, plan, f, a, s, w);
    }
  }

  /** What the write, its verification and the readback leave, case by case. */
  lemma OutcomeIs(t: Tools, plan: Plan, f: Files, a: Arguments, s: Script, w: World)
    requires Checked(t, plan, f, a, s, w, Range(t, plan))
    ensures var inv, target := ExecuteRestore(t, plan, f, a, s, w), Range(t, plan);
      && (inv.result.Ok? <==> s.write.Complete? && !s.verifyFails && 4 !in s.readsFail)
      && InRange(inv.world, target) == (match s.write
           case Complete => f.image
           case Broken(left) => if |left| == |f.image| then left else InRange(w, target))
      && inv.world.readback == (if inv.result.Ok? then Some(f.image) else None)
      && inv.world.resultWritten == inv.result.Ok?
  {
    hide ExecuteRestore, Checked, GoodPlan;
    WritesIff(t, plan, f, a, s, w);
    var target := Range(t, plan);
    CheckedFacts(t, plan, f, a, s, w, target);
    GoodImageFits(t, plan, f, target);
  }

  lemma CheckedFacts(t: Tools, plan: Plan, f: Files, a: Arguments, s: Script, w: World, target: Partition)
    requires Checked(t, plan, f, a, s, w, target)
    ensures GoodPlan(t, plan, f, target) && w.readback.None? && !w.resultWritten
    ensures target.offset + target.size <= |w.flash|
  {
    hide GoodPlan;
  }

  lemma GoodImageFits(t: Tools, plan: Plan, f: Files, target: Partition)
    requires GoodPlan(t, plan, f, target)
    ensures |f.image| == target.size && t.sha(f.image) == plan.body.source.sha256
    ensures t.sha(f.backupA) == plan.body.backup.sha256
  {
    hide GoodLayout, HasFingerprint, ProtectsAll;
  }

  lemma NoWriteNoChange(t: Tools, plan: Plan, f: Files, a: Arguments, s: Script, w: World)
    requires ExecuteRestore(t, plan, f, a, s, w).writes == 0
    ensures var inv := ExecuteRestore(t, plan, f, a, s, w); inv.world == w && inv.result.Err?
  {
    hide CheckOffline, CheckDevice, WriteFlash;
  }

  /** Evidence of an execution stops an invocation before it touches the device; and only a
      plan that passes all offline checks lets it touch the device at all. */
  lemma EvidenceStops(t: Tools, plan: Plan, f: Files, a: Arguments, s: Script, w: World)
    requires w.readback.Some? || w.resultWritten
    ensures var inv := ExecuteRestore(t, plan, f, a, s, w);
      !inv.touched && inv.writes == 0 && inv.world == w && inv.result.Err?
  {
    hide ValidateRestorePlan;
  }

  // ----- Runs -----

  datatype Attempt = Attempt(a: Arguments, s: Script)

  ghost function Run(t: Tools, plan: Plan, f: Files, run: seq<Attempt>, w: World): World
    decreases |run|
  {
    if run == [] then w else Run(t, plan, f, run[1..], ExecuteRestore(t, plan, f, run[0].a, run[0].s, w).world)
  }

  ghost predicate AnySucceeds(t: Tools, plan: Plan, f: Files, run: seq<Attempt>, w: World)
    decreases |run|
  {
    run != [] && (
      var inv := ExecuteRestore(t, plan, f, run[0].a, run[0].s, w);
      inv.result.Ok? || AnySucceeds(t, plan, f, run[1..], inv.world))
  }

  function WritesOf(t: Tools, plan: Plan, f: Files, run: seq<Attempt>, w: World): nat
    decreases |run|
  {
    if run == [] then 0 else
      var inv := ExecuteRestore(t, plan, f, run[0].a, run[0].s, w);
      inv.writes + WritesOf(t, plan, f, run[1..], inv.world)
  }

  lemma {:induction false} EvidenceStaysStopped(t: Tools, plan: Plan, f: Files, run: seq<Attempt>, w: World)
    requires w.readback.Some? || w.resultWritten
    ensures Run(t, plan, f, run, w) == w && WritesOf(t, plan, f, run, w) == 0 && !AnySucceeds(t, plan, f, run, w)
    decreases |run|
  {
    hide ExecuteRestore;
    if run != [] {
      EvidenceStops(t, plan, f, run[0].a, run[0].s, w);
      EvidenceStaysStopped(t, plan, f, run[1..], w);
    }
  }

  /** A device whose range is no longer the backup is not written again. */
  lemma {:induction false} ChangedIsNotWritten(t: Tools, plan: Plan, f: Files, run: seq<Attempt>, w: World)
    requires CollisionFree(t) && InRange(w, Range(t, plan)) != f.backupA
    ensures Run(t, plan, f, run, w) == w && WritesOf(t, plan, f, run, w) == 0
    decreases |run|
  {
    hide ExecuteRestore, Checked, Range, InRange, CollisionFree;
    if run != [] {
      InvocationIsSafe(t, plan, f, run[0].a, run[0].s, w);
      ChangedIsNotWritten(t, plan, f, run[1..], w);
    }
  }

  lemma {:induction false} RunsOn(t: Tools, plan: Plan, f: Files, run: seq<Attempt>, w: World, i: nat)
    requires i <= |run|
    ensures Run(t, plan, f, run, w) == Run(t, plan, f, run[i..], Run(t, plan, f, run[..i], w))
    decreases i
  {
    hide ExecuteRestore;
    if i > 0 {
      assert run[..i][1..] == run[1..][..i - 1] && run[1..][i - 1..] == run[i..];
      RunsOn(t, plan, f, run[1..], ExecuteRestore(t, plan, f, run[0].a, run[0].s, w).world, i - 1);
    } else {
      assert run[..0] == [] && run[0..] == run;
    }
  }

  /** The write that first changes the range is the last one: from then on every invocation
      leaves the device as it is. */
  lemma {:induction false} FirstChangeIsLast(t: Tools, plan: Plan, f: Files, run: seq<Attempt>, w: World, i: nat)
    requires CollisionFree(t) && i <= |run|
    requires InRange(Run(t, plan, f, run[..i], w), Range(t, plan)) != InRange(w, Range(t, plan))
    ensures Run(t, plan, f, run, w) == Run(t, plan, f, run[..i], w)
    ensures WritesOf(t, plan, f, run[i..], Run(t, plan, f, run[..i], w)) == 0
  {
    hide ExecuteRestore, Range, InRange, CollisionFree;
    var n := Run(t, plan, f, run[..i], w);
    if InRange(w, Range(t, plan)) != f.backupA {
      ChangedIsNotWritten(t, plan, f, run[..i], w);
    } else {
      ChangedIsNotWritten(t, plan, f, run[i..], n);
      RunsOn(t, plan, f, run, w, i);
    }
  }

  /** Over any sequence of invocations of one plan nothing outside the range changes, and once one
      succeeds, the range stays the source image. */
  lemma {:induction false} RecoveryIsSafe(t: Tools, plan: Plan, f: Files, run: seq<Attempt>, w: World)
    requires CollisionFree(t)
    ensures SameOutside(w, Run(t, plan, f, run, w), Range(t, plan))
    ensures AnySucceeds(t, plan, f, run, w) ==>
      InRange(Run(t, plan, f, run, w), Range(t, plan)) == f.image && Run(t, plan, f, run, w).resultWritten
    decreases |run|
  {
    hide ExecuteRestore, Checked, Range, InRange, CollisionFree;
    if run != [] {
      InvocationIsSafe(t, plan, f, run[0].a, run[0].s, w);
      var inv := ExecuteRestore(t, plan, f, run[0].a, run[0].s, w);
      if inv.result.Ok? {
        EvidenceStaysStopped(t, plan, f, run[1..], inv.world);
      } else {
        RecoveryIsSafe(t, plan, f, run[1..], inv.world);
      }
    }
  }
}
