/** The recovery tool as it executes a plan. */
module SpiffsRecoveryTool {
  import opened Wrappers
  import opened Bytes
  import opened Flash
  import opened SpiffsRecovery
  import opened SpiffsRecoveryChecks
  import opened SpiffsRecoveryRuns

  /** The recovery tool at work: the device it is connected to, and its counters. */
  class Recovery {
    var flash: seq<byte>
    var readback: Option<seq<byte>>
    var resultWritten: bool
    var touched: bool
    var writes: nat

    function View(): World
      reads this
    {
      World(flash, readback, resultWritten)
    }

    constructor (w: World)
      ensures View() == w && !touched && writes == 0
    {
      flash, readback, resultWritten, touched, writes := w.flash, w.readback, w.resultWritten, false, 0;
    }

    method Read(s: Script, k: nat, offset: nat, size: nat) returns (r: Option<seq<byte>>)
      modifies this`touched
      ensures touched && r == ReadFlash(View(), s, k, offset, size)
    {
      touched := true;
      if k in s.readsFail || offset + size > |flash| { return None; }
      r := Some(flash[offset..offset + size]);
    }

    method Write(s: Script, offset: nat, image: seq<byte>) returns (done: bool)
      modifies this`touched, this`writes, this`flash
      ensures touched && writes == old(writes) + 1
      ensures (View(), done) == WriteFlash(old(View()), s, offset, image)
    {
      touched, writes := true, writes + 1;
      if offset + |image| > |flash| { return false; }
      match s.write
      case Complete =>
        flash := Overwrite(flash, offset, image);
        done := true;
      case Broken(left) =>
        if |left| == |image| { flash := Overwrite(flash, offset, left); }
        done := false;
    }

    method ReadIdentical(s: Script, k: nat, offset: nat, size: nat) returns (r: Result<seq<byte>, RecoveryError>)
      modifies this`touched
      ensures touched && r == ReadTwice(View(), s, k, offset, size)
    {
      var first := Read(s, k, offset, size);
      if first.None? { return Err(AdapterFailed); }
      var second := Read(s, k + 1, offset, size);
      if second.None? { return Err(AdapterFailed); }
      r := if first != second then Err(ReadsDisagree) else Ok(first.value);
    }

    method Execute(t: Tools, plan: Plan, f: Files, a: Arguments, s: Script) returns (r: Result<(), RecoveryError>)
      requires !touched && writes == 0
      modifies this
      ensures Invocation(View(), r, touched, writes) == ExecuteRestore(t, plan, f, a, s, old(View()))
      ensures CollisionFree(t) ==> writes <= 1 && SameOutside(old(View()), View(), Range(t, plan))
      ensures CollisionFree(t) && r.Ok? ==> InRange(View(), Range(t, plan)) == f.image
    {
      hide SameOutside, InRange, Range, CollisionFree, ValidateRestorePlan, PartitionsOfRegion, SpiffsPartition,
        VerifyIdentity, ReadTwice, ReadFlash, WriteFlash;
      if CollisionFree(t) { InvocationIsSafe(t, plan, f, a, s, View()); }
      var offline := CheckOffline(t, plan, f, a, s, View());
      if offline.Err? { return offline; }
      touched := true;
      if s.identity.None? { return Err(AdapterFailed); }
      var identity := VerifyIdentity(s.identity.value, plan.body.profile, a.mac);
      if identity.Err? { return identity; }
      if s.identity.value.mac != plan.body.device.identity.mac { return Err(MacMismatch); }
      var table := ReadIdentical(s, 0, PARTITION_TABLE_OFFSET, TABLE_READ_SIZE);
      if table.Err? { return Err(table.error); }
      var partitions := PartitionsOfRegion(t, table.value, plan.body.profile);
      if partitions.Err? { return Err(partitions.error); }
      if t.sha(table.value) != plan.body.table.sha256 { return Err(TableChanged); }
      var target := SpiffsPartition(partitions.value);
      if target.Err? { return Err(target.error); }
      var current := ReadIdentical(s, 2, target.value.offset, target.value.size);
      if current.Err? { return Err(current.error); }
      if t.sha(current.value) != plan.body.backup.sha256 { return Err(SpiffsChanged); }
      if t.sha(f.image) != plan.body.source.sha256 { return Err(ImageChanged); }
      var written := Write(s, target.value.offset, f.image);
      if !written || s.verifyFails { return Err(AdapterFailed); }
      var back := Read(s, 4, target.value.offset, target.value.size);
      if back.None? { return Err(AdapterFailed); }
      readback := back;
      if t.sha(back.value) != plan.body.source.sha256 { return Err(ReadbackMismatch); }
      resultWritten := true;
      r := Ok(());
    }
  }
}
