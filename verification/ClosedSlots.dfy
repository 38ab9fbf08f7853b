/**
 The table of closed slots: every accepted client owns a slot whose word says whether calls
 into lwIP on its PCB are still allowed. A free slot holds the index of the release that
 freed it, so that the slot freed the longest ago is reused first.
 */
module ClosedSlots {
  const ACTIVE: nat := 0
  const INVALIDATED: nat := 0xFFFF_FFFF

  predicate IsActive(state: nat) {
    state == ACTIVE
  }

  predicate IsReusable(state: nat) {
    state != ACTIVE && state != INVALIDATED
  }

  function Invalidate(state: nat): (r: nat)
    ensures !IsActive(r) && (IsReusable(r) <==> IsReusable(state))
  {
    if IsActive(state) then INVALIDATED else state
  }

  /** The successor of a release index; it skips the two words with a meaning of their own. */
  function NextIndex(index: nat): (r: nat)
    ensures index <= INVALIDATED ==> IsReusable(r) && r <= INVALIDATED
    ensures index < INVALIDATED - 1 ==> index < r
  {
    var next := (index + 1) % 0x1_0000_0000;
    if next == ACTIVE || next == INVALIDATED then 1 else next
  }

  /** `k` is the reusable slot with the least word among the first `n`, the last one of
      several; or -1, and none is reusable. */
  ghost predicate IsOldest(slots: seq<nat>, n: nat, k: int)
    requires n <= |slots|
  {
    if k == -1 then forall i :: 0 <= i < n ==> !IsReusable(slots[i])
    else
      && 0 <= k < n && IsReusable(slots[k])
      && forall i :: 0 <= i < n && IsReusable(slots[i]) ==> slots[k] <= slots[i] && (k < i ==> slots[k] < slots[i])
  }

  function Oldest(slots: seq<nat>, n: nat): (k: int)
    requires n <= |slots|
    ensures IsOldest(slots, n, k)
  {
    if n == 0 then -1 else
      var k := Oldest(slots, n - 1);
      if IsReusable(slots[n - 1]) && (k == -1 || slots[n - 1] <= slots[k]) then n - 1 else k
  }

  lemma OldestIsUnique(slots: seq<nat>, n: nat, k: int)
    requires n <= |slots| && IsOldest(slots, n, k)
    ensures k == Oldest(slots, n)
  {
    var o := Oldest(slots, n);
    if k != -1 && o != -1 { assert slots[k] == slots[o]; }
  }

  class ClosedSlotTable {
    const slots: array<nat>
    var closedIndex: nat

    ghost predicate Valid()
      reads this, slots
    {
      0 < closedIndex < INVALIDATED && forall i :: 0 <= i < slots.Length ==> slots[i] <= INVALIDATED
    }

    constructor (numberOfSlots: nat)
      ensures Valid() && fresh(slots)
      ensures slots.Length == numberOfSlots && closedIndex == 1
      ensures forall i :: 0 <= i < slots.Length ==> slots[i] == 1
    {
      slots := new nat[numberOfSlots](_ => 1);
      closedIndex := 1;
    }

    /** Takes the slot freed the longest ago for a new client, or none (-1). */
    method Allocate() returns (closedSlot: int)
      requires Valid()
      modifies slots
      ensures Valid() && closedIndex == old(closedIndex)
      ensures closedSlot == Oldest(old(slots[..]), slots.Length)
      ensures slots[..] == if closedSlot == -1 then old(slots[..]) else old(slots[..])[closedSlot := ACTIVE]
    {
      closedSlot := -1;
      var minIndex := INVALIDATED;
      for i := 0 to slots.Length
        invariant slots[..] == old(slots[..])
        invariant closedSlot == Oldest(slots[..], i)
        invariant closedSlot != -1 ==> minIndex == slots[closedSlot]
      {
        if IsReusable(slots[i]) && (closedSlot == -1 || slots[i] <= minIndex) {
          minIndex := slots[i];
          closedSlot := i;
        }
      }
      if closedSlot != -1 {
        slots[closedSlot] := ACTIVE;
      }
    }

    method Free(closedSlot: int) returns (none: int)
      requires Valid() && -1 <= closedSlot < slots.Length
      modifies this`closedIndex, slots
      ensures Valid() && none == -1
      ensures closedSlot == -1 ==> slots[..] == old(slots[..]) && closedIndex == old(closedIndex)
      ensures closedSlot != -1 ==> slots[..] == old(slots[..])[closedSlot := old(closedIndex)]
      ensures closedSlot != -1 ==> closedIndex == NextIndex(old(closedIndex))
      ensures closedSlot != -1 ==> IsReusable(slots[closedSlot])
    {
      if closedSlot != -1 {
        slots[closedSlot] := closedIndex;
        closedIndex := (closedIndex + 1) % 0x1_0000_0000;
        if closedIndex == ACTIVE || closedIndex == INVALIDATED {
          closedIndex := 1;
        }
      }
      none := -1;
    }

    method InvalidateSlot(closedSlot: int)
      requires Valid() && -1 <= closedSlot < slots.Length
      modifies slots
      ensures Valid() && closedIndex == old(closedIndex)
      ensures slots[..] ==
        if closedSlot == -1 then old(slots[..]) else old(slots[..])[closedSlot := Invalidate(old(slots[closedSlot]))]
    {
      if closedSlot != -1 && IsActive(slots[closedSlot]) {
        slots[closedSlot] := INVALIDATED;
      }
    }
  }
}
