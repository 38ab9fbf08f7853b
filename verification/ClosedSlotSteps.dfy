/** Every step keeps slot ownership and the agreement of slots with PCBs. */
module ClosedSlotSteps {
  import opened ClosedSlots
  import opened ClosedSlotProtocol

  /** A step of one connection that keeps its client's slot number, and no reusable slot in or out. */
  lemma OneConnection(s: State, n: State, k: Connection)
    requires Inv(s) && k < |s.conns| == |n.conns| && n.conns == s.conns[k := n.conns[k]]
    requires SlotOf(n.conns[k]) == SlotOf(s.conns[k])
    requires n.closedIndex == s.closedIndex
    requires (n.slots == s.slots || n.slots == Invalidated(s.slots, SlotOf(s.conns[k])))
    requires n.lwip == s.lwip || ((s.lwip == Idle || s.lwip.k == k) && (n.lwip == Idle || n.lwip.k == k))
    requires ConnCoherent(n, k)
    ensures Inv(n)
  {
    SameSlots(s, n);
    forall j | 0 <= j < |n.conns| ensures ConnCoherent(n, j) {
      if j != k {
        assert ConnCoherent(s, j);
        assert SlotOf(s.conns[j]) == -1 || SlotOf(s.conns[j]) != SlotOf(s.conns[k]);
      }
    }
  }

  lemma SameSlots(s: State, n: State)
    requires SlotsOwned(s) && |n.conns| == |s.conns| && n.closedIndex == s.closedIndex && |n.slots| == |s.slots|
    requires forall k :: 0 <= k < |s.conns| ==> SlotOf(n.conns[k]) == SlotOf(s.conns[k])
    requires forall i :: 0 <= i < |s.slots| ==> IsReusable(n.slots[i]) == IsReusable(s.slots[i])
    ensures SlotsOwned(n)
  {
    forall i | 0 <= i < |n.slots| && !IsReusable(n.slots[i]) ensures Owned(n.conns, i) {
      var k :| 0 <= k < |s.conns| && SlotOf(s.conns[k]) == i;
      assert SlotOf(n.conns[k]) == i;
    }
  }

  lemma ConstructOwned(s: State)
    requires SlotsOwned(s)
    ensures SlotsOwned(Construct(s))
  {
    var slot, n := Oldest(s.slots, |s.slots|), Construct(s);
    forall i | 0 <= i < |n.slots| && !IsReusable(n.slots[i]) ensures Owned(n.conns, i) {
      if i == slot {
        assert SlotOf(n.conns[|s.conns|]) == i;
      } else {
        var k :| 0 <= k < |s.conns| && SlotOf(s.conns[k]) == i;
        assert SlotOf(n.conns[k]) == i;
      }
    }
  }

  lemma ConstructKeeps(s: State)
    requires Inv(s) && s.lwip == Idle
    ensures Inv(Construct(s))
  {
    ConstructOwned(s);
    var n := Construct(s);
    forall j | 0 <= j < |n.conns| ensures ConnCoherent(n, j) {
      if j < |s.conns| { assert n.conns[j] == s.conns[j] && ConnCoherent(s, j); }
    }
  }

  lemma DeleteOwned(s: State, k: Connection)
    requires SlotsOwned(s) && k < |s.conns|
    ensures SlotsOwned(Delete(s, k))
  {
    hide NextIndex;
    var n := Delete(s, k);
    assert SlotOf(n.conns[k]) == -1 && forall j :: 0 <= j < |s.conns| && j != k ==> n.conns[j] == s.conns[j];
    forall i | 0 <= i < |n.slots| && !IsReusable(n.slots[i]) ensures Owned(n.conns, i) {
      assert !IsReusable(s.slots[i]) && Owned(s.conns, i);
      var j :| 0 <= j < |s.conns| && SlotOf(s.conns[j]) == i;
      assert SlotOf(n.conns[j]) == i;
    }
  }

  lemma DeleteKeeps(s: State, k: Connection)
    requires Inv(s) && Enabled(s, Destroy(k))
    ensures Inv(Delete(s, k))
  {
    DeleteOwned(s, k);
    var n := Delete(s, k);
    forall j | 0 <= j < |n.conns| ensures ConnCoherent(n, j) {
      assert ConnCoherent(s, j);
      assert j != k ==> SlotOf(s.conns[j]) == -1 || SlotOf(s.conns[j]) != SlotOf(s.conns[k]);
    }
  }

  lemma LwipStepKeeps(s: State, step: Step)
    requires Inv(s) && Enabled(s, step) && (step.PeerGone? || step.InvalidateSlot? || step.ClearPcb?)
    ensures Inv(Do(s, step))
  {
    var k := if step.PeerGone? then step.k else s.lwip.k;
    assert ConnCoherent(s, k);
    OneConnection(s, Do(s, step), k);
  }

  lemma TaskStepKeeps(s: State, step: Step)
    requires Inv(s) && Enabled(s, step) && (step.Detach? || step.ReadPcb? || step.ReadSlot? || step.Return?)
    ensures Inv(Do(s, step))
  {
    assert ConnCoherent(s, step.k);
    OneConnection(s, Do(s, step), step.k);
  }

  lemma RunBodyKeeps(s: State, k: Connection, succeeds: bool)
    requires Inv(s) && Enabled(s, RunBody(k, succeeds))
    ensures Inv(Do(s, RunBody(k, succeeds)))
  {
    assert ConnCoherent(s, k);
    OneConnection(s, Do(s, RunBody(k, succeeds)), k);
  }

  lemma StepKeepsInv(s: State, step: Step)
    requires Inv(s) && Enabled(s, step)
    ensures Inv(Do(s, step))
  {
    match step
    case Accept => ConstructKeeps(s);
    case PeerGone(_, _) => LwipStepKeeps(s, step);
    case InvalidateSlot => LwipStepKeeps(s, step);
    case ClearPcb => LwipStepKeeps(s, step);
    case Detach(_) => TaskStepKeeps(s, step);
    case ReadPcb(_, _) => TaskStepKeeps(s, step);
    case ReadSlot(_) => TaskStepKeeps(s, step);
    case RunBody(k, succeeds) => RunBodyKeeps(s, k, succeeds);
    case Return(_) => TaskStepKeeps(s, step);
    case Destroy(k) => DeleteKeeps(s, k);
  }

  // ----- Runs -----

  ghost predicate Legal(s: State, steps: seq<Step>)
    decreases |steps|
  {
    steps == [] || (Enabled(s, steps[0]) && Legal(Do(s, steps[0]), steps[1..]))
  }

  ghost function Run(s: State, steps: seq<Step>): State
    requires Legal(s, steps)
    decreases |steps|
  {
    if steps == [] then s else Run(Do(s, steps[0]), steps[1..])
  }

  lemma {:induction false} RunKeepsInv(s: State, steps: seq<Step>)
    requires Inv(s) && Legal(s, steps)
    ensures Inv(Run(s, steps))
    decreases |steps|
  {
    if steps != [] {
      StepKeepsInv(s, steps[0]);
      RunKeepsInv(Do(s, steps[0]), steps[1..]);
    }
  }

  lemma Reachable(slots: nat, steps: seq<Step>)
    requires Legal(Initial(slots), steps)
    ensures Inv(Run(Initial(slots), steps))
  {
    RunKeepsInv(Initial(slots), steps);
  }
}
