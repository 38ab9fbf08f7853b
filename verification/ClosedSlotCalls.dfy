/** What calls and callbacks achieve: closing, aborting and losing a connection, step by step. */
module ClosedSlotCalls {
  import opened Wrappers
  import opened ClosedSlots
  import opened ClosedSlotProtocol
  import opened ClosedSlotSteps
  import opened ClosedSlotSafety

  lemma One(s: State, step: Step)
    requires Enabled(s, step)
    ensures Legal(s, [step]) && Run(s, [step]) == Do(s, step)
  {
    hide Enabled, Do;
    assert [step][1..] == [] && Legal(Do(s, step), []) && Run(Do(s, step), []) == Do(s, step);
  }

  lemma Append(s: State, steps: seq<Step>, step: Step)
    requires Legal(s, steps) && Enabled(Run(s, steps), step)
    ensures Legal(s, steps + [step]) && Run(s, steps + [step]) == Do(Run(s, steps), step)
  {
    hide Enabled, Do;
    One(Run(s, steps), step);
    Joined(s, steps, [step]);
  }

  /** A call from reading the PCB to its return. */
  function CallSteps(k: Connection, kind: CallKind, succeeds: bool): seq<Step> {
    [ReadPcb(k, kind), ReadSlot(k), RunBody(k, succeeds), Return(k)]
  }

  /** A client that is linked to its PCB, with no call under way, and the lwIP thread outside. */
  ghost predicate Ready(s: State, k: Connection) {
    && s.lwip == Idle && Live(s, k) && !Calling(s, k) && ClientOf(s, k).linked
    && !s.conns[k].dropped && !s.conns[k].closed
    && MayRun(s.slots, ClientOf(s, k).slot)
  }

  lemma CallIsLegal(s: State, k: Connection, kind: CallKind, succeeds: bool)
    requires Ready(s, k) && (kind == Close ==> !s.conns[k].attached)
    ensures Legal(s, CallSteps(k, kind, succeeds)[..3])
    ensures var n, c := Run(s, CallSteps(k, kind, succeeds)[..3]), s.conns[k];
      n == Execute(Update(s, k, WithCall(c, Some(Posted(kind, c.client.value.slot)))), k, succeeds)
  {
    var steps := CallSteps(k, kind, succeeds);
    var s1 := Do(s, steps[0]);
    var s2 := Do(s1, steps[1]);
    One(s, steps[0]);
    assert steps[..1] == [steps[0]];
    Append(s, steps[..1], steps[1]);
    assert steps[..1] + [steps[1]] == steps[..2];
    Append(s, steps[..2], steps[2]);
    assert steps[..2] + [steps[2]] == steps[..3];
    assert s2 == Update(s, k, WithCall(s.conns[k], Some(Posted(kind, ClientOf(s, k).slot))));
  }

  /** The connection after the body and the return of a call. */
  function AfterBody(c: Conn, kind: CallKind, succeeds: bool): Conn
    requires c.client.Some?
  {
    Executed(WithCall(c, Some(Posted(kind, c.client.value.slot))), kind, succeeds)
  }

  lemma WholeCall(s: State, k: Connection, kind: CallKind, succeeds: bool)
    requires Ready(s, k) && (kind == Close ==> !s.conns[k].attached)
    ensures Legal(s, CallSteps(k, kind, succeeds))
    ensures var n, c := Run(s, CallSteps(k, kind, succeeds)), s.conns[k];
      && n == s.(slots := n.slots, conns := s.conns[k := Finished(AfterBody(c, kind, succeeds))])
      && n.slots == if kind == Abort && c.attached then Invalidated(s.slots, c.client.value.slot) else s.slots
  {
    hide Finished;
    var steps := CallSteps(k, kind, succeeds);
    CallIsLegal(s, k, kind, succeeds);
    var n := Run(s, steps[..3]);
    hide Legal, Run;
    assert n.conns[k] == AfterBody(s.conns[k], kind, succeeds);
    Append(s, steps[..3], steps[3]);
    assert steps[..3] + [steps[3]] == steps;
  }

  /** A call that only uses the PCB leaves everything as it was. */
  lemma UseChangesNothing(s: State, k: Connection, succeeds: bool)
    requires Ready(s, k)
    ensures Legal(s, CallSteps(k, Use, succeeds)) && Run(s, CallSteps(k, Use, succeeds)) == s
  {
    hide Legal, Run, CallSteps;
    WholeCall(s, k, Use, succeeds);
    assert s.conns[k := s.conns[k]] == s.conns;
  }

  lemma SlotInRange(s: State, k: Connection)
    requires Inv(s) && Live(s, k)
    ensures -1 <= ClientOf(s, k).slot < |s.slots|
  {
    assert SlotOf(s.conns[k]) == ClientOf(s, k).slot;
  }

  /** Aborting an attached connection releases its PCB once, unlinks the client and shuts its slot. */
  lemma AbortReleases(s: State, k: Connection, succeeds: bool)
    requires Inv(s) && Ready(s, k)
    ensures Legal(s, CallSteps(k, Abort, succeeds))
    ensures var n, c := Run(s, CallSteps(k, Abort, succeeds)), s.conns[k];
      && n == s.(slots := n.slots,
                 conns := s.conns[k := Conn(Some(Client(false, c.client.value.slot, None)), false, false, true)])
      && n.slots == if c.attached && c.client.value.slot != -1 then s.slots[c.client.value.slot := INVALIDATED]
                    else s.slots
  {
    SlotInRange(s, k);
    hide Legal, Run, CallSteps, Inv;
    WholeCall(s, k, Abort, succeeds);
  }

  /** Taking off the callbacks of a linked connection leaves everything else as it was; then it can
      be closed. */
  lemma DetachLeavesTheRest(s: State, k: Connection)
    requires Ready(s, k) && s.conns[k].attached
    ensures Legal(s, [Detach(k)])
    ensures var n := Run(s, [Detach(k)]);
      n == s.(conns := s.conns[k := s.conns[k].(attached := false)]) && Ready(n, k)
  {
    One(s, Detach(k));
  }

  /** A close that succeeds releases the PCB once and unlinks the client; one that fails is followed
      by an abort, which does. */
  lemma CloseReleases(s: State, k: Connection, succeeds: bool)
    requires Inv(s) && Ready(s, k) && !s.conns[k].attached
    ensures Legal(s, CallSteps(k, Close, succeeds))
    ensures var n, slot := Run(s, CallSteps(k, Close, succeeds)), ClientOf(s, k).slot;
      n == s.(conns := s.conns[k := if succeeds then Conn(Some(Client(false, slot, None)), false, false, true)
                                    else Conn(Some(Client(true, slot, Some(Issuing(Abort)))), false, false, false)])
  {
    hide Legal, Run, CallSteps, Inv;
    WholeCall(s, k, Close, succeeds);
  }

  /** The abort after a failed close. */
  lemma FallbackReleases(s: State, k: Connection, succeeds: bool)
    requires Inv(s) && s.lwip == Idle && Calling(s, k) && CallOf(s, k) == Issuing(Abort) && ClientOf(s, k).linked
    requires !s.conns[k].attached && !s.conns[k].dropped && !s.conns[k].closed && MayRun(s.slots, ClientOf(s, k).slot)
    ensures var steps := [ReadSlot(k), RunBody(k, succeeds), Return(k)];
      && Legal(s, steps)
      && Run(s, steps) == s.(conns := s.conns[k := Conn(Some(Client(false, ClientOf(s, k).slot, None)), false, false,
                                                        true)])
  {
    hide Inv, MayRun;
    var steps := [ReadSlot(k), RunBody(k, succeeds), Return(k)];
    One(s, steps[0]);
    assert steps[..1] == [steps[0]];
    FallbackBody(s, k, succeeds);
    hide Legal, Run;
    Append(s, steps[..1], steps[1]);
    assert steps[..1] + [steps[1]] == steps[..2];
    Append(s, steps[..2], steps[2]);
    assert steps[..2] + [steps[2]] == steps;
  }

  lemma FallbackBody(s: State, k: Connection, succeeds: bool)
    requires s.lwip == Idle && Calling(s, k) && CallOf(s, k) == Issuing(Abort) && ClientOf(s, k).linked
    requires !s.conns[k].attached && MayRun(s.slots, ClientOf(s, k).slot)
    ensures var n, slot := Do(s, ReadSlot(k)), ClientOf(s, k).slot;
      && Enabled(n, RunBody(k, succeeds))
      && Do(n, RunBody(k, succeeds)) == s.(conns := s.conns[k := s.conns[k].(
             client := Some(Client(true, slot, Some(Returned(Abort, true)))), closed := true)])
  {
  }

  /** Once it is unlinked a client can be destroyed, and its slot gets the release index. */
  lemma DestroyFreesSlot(s: State, k: Connection)
    requires Inv(s) && Live(s, k) && !Calling(s, k) && !ClientOf(s, k).linked
    ensures Enabled(s, Destroy(k))
    ensures var n, slot := Do(s, Destroy(k)), ClientOf(s, k).slot;
      && n.conns == s.conns[k := s.conns[k].(client := None)] && n.lwip == s.lwip
      && (if slot == -1 then n.slots == s.slots && n.closedIndex == s.closedIndex
          else n.slots == s.slots[slot := s.closedIndex] && n.closedIndex == NextIndex(s.closedIndex))
  {
    assert -1 <= SlotOf(s.conns[k]) < |s.slots|;
  }

  /** A connection that the peer resets, or ends, is dropped; the slot is shut before the client
      forgets the PCB, and everything else stays as it was. */
  lemma PeerIsNoticed(s: State, k: Connection, fin: bool)
    requires Inv(s) && s.lwip == Idle && k < |s.conns| && s.conns[k].attached
    ensures var steps := [PeerGone(k, fin), InvalidateSlot, ClearPcb];
      && Legal(s, steps) && Live(s, k)
      && var n, c := Run(s, steps), ClientOf(s, k);
      && n == s.(slots := n.slots,
                 conns := s.conns[k := Conn(Some(c.(linked := false)), false, true, s.conns[k].closed)])
      && n.slots == if c.slot != -1 then s.slots[c.slot := INVALIDATED] else s.slots
  {
    assert ConnCoherent(s, k);
    var steps := [PeerGone(k, fin), InvalidateSlot, ClearPcb];
    One(s, steps[0]);
    assert steps[..1] == [steps[0]];
    Append(s, steps[..1], steps[1]);
    assert steps[..1] + [steps[1]] == steps[..2];
    Append(s, steps[..2], steps[2]);
    assert steps[..2] + [steps[2]] == steps;
  }

  /** A body that meets a shut slot does nothing but return. */
  lemma ShutCallDoesNothing(s: State, k: Connection, succeeds: bool)
    requires Inv(s) && Enabled(s, RunBody(k, succeeds)) && GuardOf(s.slots, CallOf(s, k).slot) == Shut
    ensures Do(s, RunBody(k, succeeds)) ==
      s.(conns := s.conns[k := WithCall(s.conns[k], Some(Returned(CallOf(s, k).kind, false)))])
  {
  }
}
