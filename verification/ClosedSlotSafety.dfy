/** Which calls are safe in every interleaving, and which are not. */
module ClosedSlotSafety {
  import opened Wrappers
  import opened ClosedSlots
  import opened ClosedSlotProtocol
  import opened ClosedSlotSteps

  /** The body of the posted call of `k` is about to run on a PCB that has been released. */
  ghost predicate RunsOnReleasedPcb(s: State, k: Connection) {
    && Enabled(s, RunBody(k, true)) && MayRun(s.slots, CallOf(s, k).slot)
    && (s.conns[k].dropped || s.conns[k].closed)
  }

  lemma UnsafeHasNoSlot(s: State, k: Connection)
    requires Inv(s) && RunsOnReleasedPcb(s, k)
    ensures ClientOf(s, k).slot == -1
  {
    assert ConnCoherent(s, k);
  }

  /** In every interleaving, no call of a client that owns a slot touches a released PCB,
      no two clients own one slot, and callbacks arrive only at live clients that still know
      their PCB. */
  lemma CallsAreSafe(slots: nat, steps: seq<Step>)
    requires Legal(Initial(slots), steps)
    ensures var s := Run(Initial(slots), steps);
      && (forall k :: 0 <= k < |s.conns| && RunsOnReleasedPcb(s, k) ==> ClientOf(s, k).slot == -1)
      && (forall j, k :: 0 <= j < k < |s.conns| && SlotOf(s.conns[k]) != -1 ==>
          SlotOf(s.conns[j]) != SlotOf(s.conns[k]))
      && (forall k :: 0 <= k < |s.conns| && s.conns[k].attached ==> Live(s, k) && ClientOf(s, k).linked)
  {
    Reachable(slots, steps);
    var s := Run(Initial(slots), steps);
    forall k | 0 <= k < |s.conns|
      ensures RunsOnReleasedPcb(s, k) ==> ClientOf(s, k).slot == -1
      ensures s.conns[k].attached ==> Live(s, k) && ClientOf(s, k).linked
    {
      if RunsOnReleasedPcb(s, k) { UnsafeHasNoSlot(s, k); }
      assert ConnCoherent(s, k);
    }
  }

  /** A client keeps its slot, and a slot that was invalidated stays so, until the client is
      destroyed: it is not handed to another client in between. */
  lemma {:induction false} SlotIsKeptUntilFreed(s: State, steps: seq<Step>, k: Connection)
    requires Inv(s) && Legal(s, steps) && Live(s, k) && Destroy(k) !in steps
    ensures var n := Run(s, steps);
      && Inv(n) && Live(n, k) && ClientOf(n, k).slot == ClientOf(s, k).slot
      && (GuardOf(s.slots, ClientOf(s, k).slot) == Shut ==> GuardOf(n.slots, ClientOf(n, k).slot) == Shut)
    decreases |steps|
  {
    if steps != [] {
      assert steps[0] in steps;
      StepKeepsInv(s, steps[0]);
      StepKeepsSlot(s, steps[0], k);
      SlotIsKeptUntilFreed(Do(s, steps[0]), steps[1..], k);
    }
  }

  lemma StepKeepsSlot(s: State, step: Step, k: Connection)
    requires Inv(s) && Enabled(s, step) && Live(s, k) && step != Destroy(k)
    ensures var n := Do(s, step);
      && Live(n, k) && ClientOf(n, k).slot == ClientOf(s, k).slot
      && (GuardOf(s.slots, ClientOf(s, k).slot) == Shut ==> GuardOf(n.slots, ClientOf(n, k).slot) == Shut)
  {
    hide ConnCoherent, Owned;
    var n, slot := Do(s, step), ClientOf(s, k).slot;
    assert SlotOf(s.conns[k]) == slot;
    if step.Destroy? {
      assert SlotOf(s.conns[step.k]) == -1 || SlotOf(s.conns[step.k]) != slot;
    } else if !step.Accept? {
      assert forall i :: 0 <= i < |s.slots| && !IsActive(s.slots[i]) ==> n.slots[i] == s.slots[i];
    }
  }

  /** A new client goes without a slot exactly when every slot has an owner. */
  lemma SlotsRunOutOnlyWhenOwned(s: State)
    requires Inv(s)
    ensures Oldest(s.slots, |s.slots|) == -1 <==> forall i :: 0 <= i < |s.slots| ==> Owned(s.conns, i)
  {
    forall i | 0 <= i < |s.slots| ensures Owned(s.conns, i) <==> !IsReusable(s.slots[i]) {
      if Owned(s.conns, i) {
        var k :| 0 <= k < |s.conns| && SlotOf(s.conns[k]) == i;
      }
    }
  }

  /** Slots do not leak: once every client is destroyed, all of them are reusable. */
  lemma SlotsDoNotLeak(s: State)
    requires Inv(s) && forall k :: 0 <= k < |s.conns| ==> s.conns[k].client == None
    ensures forall i :: 0 <= i < |s.slots| ==> IsReusable(s.slots[i])
  {
    forall i | 0 <= i < |s.slots| ensures !Owned(s.conns, i) {
      assert forall k :: 0 <= k < |s.conns| ==> SlotOf(s.conns[k]) == -1;
    }
  }

  // ----- Calls without a slot -----

  ghost predicate CanBecomeUnsafe(s: State, k: Connection) {
    exists steps :: Legal(s, steps) && Destroy(k) !in steps && RunsOnReleasedPcb(Run(s, steps), k)
  }

  /** A posted call on a live PCB can end up on a released one exactly when its client has no slot. */
  lemma UnsafeExactlyWithoutSlot(s: State, k: Connection)
    requires Inv(s) && Enabled(s, RunBody(k, true)) && s.conns[k].attached
    ensures CanBecomeUnsafe(s, k) <==> ClientOf(s, k).slot == -1
  {
    if ClientOf(s, k).slot == -1 {
      var steps := [PeerGone(k, false), InvalidateSlot, ClearPcb];
      PeerLeaves(s, k);
      assert CanBecomeUnsafe(s, k);
    } else if CanBecomeUnsafe(s, k) {
      var steps :| Legal(s, steps) && Destroy(k) !in steps && RunsOnReleasedPcb(Run(s, steps), k);
      SlotIsKeptUntilFreed(s, steps, k);
      UnsafeHasNoSlot(Run(s, steps), k);
    }
  }

  lemma PeerLeaves(s: State, k: Connection)
    requires Inv(s) && Enabled(s, RunBody(k, true)) && s.conns[k].attached && ClientOf(s, k).slot == -1
    ensures var steps := [PeerGone(k, false), InvalidateSlot, ClearPcb];
      Legal(s, steps) && Destroy(k) !in steps && RunsOnReleasedPcb(Run(s, steps), k)
  {
    assert ConnCoherent(s, k);
    var s1 := Do(s, PeerGone(k, false));
    var s2 := Do(s1, InvalidateSlot);
    var s3 := Do(s2, ClearPcb);
    assert Run(s3, []) == s3 && Legal(s3, []);
    assert Legal(s2, [ClearPcb]) && Run(s2, [ClearPcb]) == s3 by { assert [ClearPcb][1..] == []; }
    assert Legal(s1, [InvalidateSlot, ClearPcb]) && Run(s1, [InvalidateSlot, ClearPcb]) == s3 by {
      assert [InvalidateSlot, ClearPcb][1..] == [ClearPcb];
    }
    assert [PeerGone(k, false), InvalidateSlot, ClearPcb][1..] == [InvalidateSlot, ClearPcb];
  }

  /** When every slot is owned, the next client has none, and its first call is such a call. */
  lemma LateClientIsUnsafe(s: State)
    requires Inv(s) && s.lwip == Idle && forall i :: 0 <= i < |s.slots| ==> Owned(s.conns, i)
    ensures var k := |s.conns|;
      var steps := [Accept, ReadPcb(k, Use), ReadSlot(k)];
      Legal(s, steps) && Enabled(Run(s, steps), RunBody(k, true)) && CanBecomeUnsafe(Run(s, steps), k)
  {
    hide Inv, CanBecomeUnsafe, Owned;
    var k := |s.conns|;
    var steps := [Accept, ReadPcb(k, Use), ReadSlot(k)];
    SlotsRunOutOnlyWhenOwned(s);
    var s1 := Do(s, Accept);
    var s2 := Do(s1, ReadPcb(k, Use));
    var s3 := Do(s2, ReadSlot(k));
    assert Run(s3, []) == s3 && Legal(s3, []);
    assert Legal(s2, [ReadSlot(k)]) && Run(s2, [ReadSlot(k)]) == s3 by { assert [ReadSlot(k)][1..] == []; }
    assert Legal(s1, steps[1..]) && Run(s1, steps[1..]) == s3 by { assert steps[1..][1..] == [ReadSlot(k)]; }
    RunKeepsInv(s, steps);
    UnsafeExactlyWithoutSlot(s3, k);
  }

  // ----- A run from the start -----

  lemma {:induction false} Joined(s: State, a: seq<Step>, b: seq<Step>)
    requires Legal(s, a) && Legal(Run(s, a), b)
    ensures Legal(s, a + b) && Run(s, a + b) == Run(Run(s, a), b)
    decreases |a|
  {
    hide Enabled, Do;
    if a == [] {
      assert a + b == b;
    } else {
      assert (a + b)[1..] == a[1..] + b;
      Joined(Do(s, a[0]), a[1..], b);
    }
  }

  /** The state after `n` connections: they own the last `n` slots. */
  function Filled(slots: nat, n: nat): State
    requires n <= slots
  {
    State(seq(slots, i => if i < slots - n then 1 else ACTIVE), 1,
          seq(n, k => Conn(Some(Client(true, slots - 1 - k, None)), true, false, false)), Idle)
  }

  lemma AcceptOne(slots: nat, n: nat)
    requires n < slots
    ensures Do(Filled(slots, n), Accept) == Filled(slots, n + 1)
  {
    var s := Filled(slots, n);
    OldestIsUnique(s.slots, slots, slots - n - 1);
    assert s.slots[slots - n - 1 := ACTIVE] == Filled(slots, n + 1).slots;
    assert Do(s, Accept).conns == Filled(slots, n + 1).conns;
  }

  lemma {:induction false} AcceptAll(slots: nat, n: nat) returns (steps: seq<Step>)
    requires n <= slots
    ensures Legal(Initial(slots), steps) && Run(Initial(slots), steps) == Filled(slots, n)
    ensures |steps| == n && forall i :: 0 <= i < n ==> steps[i] == Accept
  {
    hide Do, Enabled;
    if n == 0 {
      steps := [];
      NothingAccepted(slots);
    } else {
      steps := AcceptAll(slots, n - 1);
      AcceptOne(slots, n - 1);
      OneAccept(Filled(slots, n - 1));
      Joined(Initial(slots), steps, [Accept]);
      steps := steps + [Accept];
    }
  }

  lemma NothingAccepted(slots: nat)
    ensures Filled(slots, 0) == Initial(slots) && Legal(Initial(slots), []) && Run(Initial(slots), []) == Initial(slots)
  {
    assert Filled(slots, 0).slots == Initial(slots).slots;
  }

  lemma OneAccept(s: State)
    requires s.lwip == Idle
    ensures Enabled(s, Accept) && Legal(s, [Accept]) && Run(s, [Accept]) == Do(s, Accept)
  {
    hide Do;
    assert [Accept][1..] == [] && Run(Do(s, Accept), []) == Do(s, Accept);
  }

  /** With one connection more than there are slots, a run from the start ends with a call of
      the last client about to touch a released PCB. */
  lemma UnsafeCallIsReachable(slots: nat) returns (steps: seq<Step>)
    ensures Legal(Initial(slots), steps) && RunsOnReleasedPcb(Run(Initial(slots), steps), slots)
    ensures slots < |steps| && forall i :: 0 <= i <= slots ==> steps[i] == Accept
  {
    hide Legal, Run, RunsOnReleasedPcb, Enabled, Inv, Owned;
    var accepts := AcceptAll(slots, slots);
    var s := Filled(slots, slots);
    Reachable(slots, accepts);
    forall i | 0 <= i < slots ensures Owned(s.conns, i) { AllOwned(slots, i); }
    LateClientIsUnsafe(s);
    var call := [Accept, ReadPcb(slots, Use), ReadSlot(slots)];
    Joined(Initial(slots), accepts, call);
    var leave :| Legal(Run(s, call), leave) && Destroy(slots) !in leave
      && RunsOnReleasedPcb(Run(Run(s, call), leave), slots);
    Joined(Initial(slots), accepts + call, leave);
    steps := accepts + call + leave;
  }

  lemma AllOwned(slots: nat, i: nat)
    requires i < slots
    ensures Owned(Filled(slots, slots).conns, i)
  {
    assert SlotOf(Filled(slots, slots).conns[slots - 1 - i]) == i;
  }
}
