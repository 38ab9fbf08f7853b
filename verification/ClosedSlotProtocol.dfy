/**
 Clients, their PCBs and the slot table as an interleaving of the lwIP thread with any
 number of tasks. Connection `k` is the k-th accepted PCB together with the client that
 was constructed for it. A client has at most one call under way at a time, as it is when
 one service task issues all calls.
 */
module ClosedSlotProtocol {
  import opened Wrappers
  import opened ClosedSlots

  type Connection = nat

  datatype CallKind = Use | Close | Abort

  /** A call into lwIP: `_pcb` was read; `_closed_slot` was read and the message posted; the
      body ran, and released the PCB or not. */
  datatype Call =
    | Issuing(kind: CallKind)
    | Posted(kind: CallKind, slot: int)
    | Returned(kind: CallKind, released: bool)

  /** `linked` says that `_pcb` is still set. */
  datatype Client = Client(linked: bool, slot: int, call: Option<Call>)

  /** `attached`: the PCB still calls back. `dropped`: `_lwip_fin` closed it or an error freed
      it. `closed`: an API call released it. The client is gone once it is destroyed. */
  datatype Conn = Conn(client: Option<Client>, attached: bool, dropped: bool, closed: bool)

  /** Inside `_lwip_fin` or `_lwip_error`: the PCB is gone; the slot is invalidated too. */
  datatype LwipThread = Idle | PcbGone(k: Connection) | SlotInvalidated(k: Connection)

  datatype State = State(slots: seq<nat>, closedIndex: nat, conns: seq<Conn>, lwip: LwipThread)

  datatype Step =
    | Accept
    | PeerGone(k: Connection, fin: bool)
    | InvalidateSlot
    | ClearPcb
    | Detach(k: Connection)
    | ReadPcb(k: Connection, kind: CallKind)
    | ReadSlot(k: Connection)
    | RunBody(k: Connection, succeeds: bool)
    | Return(k: Connection)
    | Destroy(k: Connection)

  function Initial(slots: nat): State {
    State(seq(slots, _ => 1), 1, [], Idle)
  }

  predicate Live(s: State, k: Connection) {
    k < |s.conns| && s.conns[k].client.Some?
  }

  function ClientOf(s: State, k: Connection): Client
    requires Live(s, k)
  {
    s.conns[k].client.value
  }

  predicate Calling(s: State, k: Connection) {
    Live(s, k) && ClientOf(s, k).call.Some?
  }

  function CallOf(s: State, k: Connection): Call
    requires Calling(s, k)
  {
    ClientOf(s, k).call.value
  }

  /** The slot of a client; none for a connection whose client is gone. */
  function SlotOf(c: Conn): int {
    if c.client.Some? then c.client.value.slot else -1
  }

  /** The guard of every `_tcp_*_api` body. */
  predicate MayRun(slots: seq<nat>, slot: int) {
    slot == -1 || (0 <= slot < |slots| && IsActive(slots[slot]))
  }

  predicate Enabled(s: State, step: Step) {
    match step
    case Accept => s.lwip == Idle
    case PeerGone(k, _) => s.lwip == Idle && k < |s.conns| && s.conns[k].attached
    case InvalidateSlot => s.lwip.PcbGone?
    case ClearPcb => s.lwip.SlotInvalidated?
    case Detach(k) => Live(s, k) && !Calling(s, k) && ClientOf(s, k).linked
    case ReadPcb(k, kind) =>
      Live(s, k) && !Calling(s, k) && ClientOf(s, k).linked && (kind == Close ==> !s.conns[k].attached)
    case ReadSlot(k) => Calling(s, k) && CallOf(s, k).Issuing?
    case RunBody(k, _) => s.lwip == Idle && Calling(s, k) && CallOf(s, k).Posted?
    case Return(k) => Calling(s, k) && CallOf(s, k).Returned?
    case Destroy(k) => Live(s, k) && !Calling(s, k) && !ClientOf(s, k).linked
  }

  // ----- What a step does to its connection -----

  function WithCall(c: Conn, call: Option<Call>): Conn
    requires c.client.Some?
  {
    c.(client := Some(c.client.value.(call := call)))
  }

  function Unlink(c: Conn): Conn {
    if c.client.Some? then c.(client := Some(c.client.value.(linked := false))) else c
  }

  function Invalidated(slots: seq<nat>, slot: int): seq<nat> {
    if 0 <= slot < |slots| then slots[slot := Invalidate(slots[slot])] else slots
  }

  predicate Releases(kind: CallKind, succeeds: bool) {
    kind == Abort || (kind == Close && succeeds)
  }

  /** A body that was let through. Aborting an attached PCB runs the error callback. */
  function Executed(c: Conn, kind: CallKind, succeeds: bool): Conn
    requires c.client.Some?
  {
    var released := Releases(kind, succeeds);
    var n := WithCall(c, Some(Returned(kind, released))).(closed := c.closed || released);
    if kind == Abort && c.attached then Unlink(n.(attached := false)) else n
  }

  /** After the call: a failed close falls back to an abort, if `_pcb` is still set. */
  function Finished(c: Conn): Conn
    requires c.client.Some? && c.client.value.call.Some? && c.client.value.call.value.Returned?
  {
    var call := c.client.value.call.value;
    if call.kind == Use then WithCall(c, None)
    else if call.kind == Close && !call.released && c.client.value.linked then WithCall(c, Some(Issuing(Abort)))
    else Unlink(WithCall(c, None))
  }

  function Update(s: State, k: Connection, c: Conn): State
    requires k < |s.conns|
  {
    s.(conns := s.conns[k := c])
  }

  function Construct(s: State): State {
    var slot := Oldest(s.slots, |s.slots|);
    s.(slots := if slot == -1 then s.slots else s.slots[slot := ACTIVE],
       conns := s.conns + [Conn(Some(Client(true, slot, None)), true, false, false)])
  }

  /** `_lwip_fin` closes the PCB unless its client has forgotten it; an error has freed it already. */
  function Drop(s: State, k: Connection, fin: bool): State
    requires k < |s.conns|
  {
    if fin && !(Live(s, k) && ClientOf(s, k).linked) then s
    else Update(s, k, s.conns[k].(dropped := true, attached := false)).(lwip := PcbGone(k))
  }

  function Execute(s: State, k: Connection, succeeds: bool): State
    requires Calling(s, k)
  {
    var c, kind := s.conns[k], CallOf(s, k).kind;
    Update(s, k, Executed(c, kind, succeeds)).(
      slots := if kind == Abort && c.attached then Invalidated(s.slots, SlotOf(c)) else s.slots)
  }

  function Delete(s: State, k: Connection): State
    requires k < |s.conns|
  {
    var slot, n := SlotOf(s.conns[k]), Update(s, k, s.conns[k].(client := None));
    if 0 <= slot < |s.slots| then n.(slots := s.slots[slot := s.closedIndex], closedIndex := NextIndex(s.closedIndex))
    else n
  }

  function Do(s: State, step: Step): State
    requires Enabled(s, step)
  {
    match step
    case Accept => Construct(s)
    case PeerGone(k, fin) => Drop(s, k, fin)
    case InvalidateSlot =>
      var k := s.lwip.k;
      s.(lwip := SlotInvalidated(k), slots := if k < |s.conns| then Invalidated(s.slots, SlotOf(s.conns[k]))
          else s.slots)
    case ClearPcb =>
      var k := s.lwip.k;
      if k < |s.conns| then Update(s, k, Unlink(s.conns[k])).(lwip := Idle) else s.(lwip := Idle)
    case Detach(k) => Update(s, k, s.conns[k].(attached := false))
    case ReadPcb(k, kind) => Update(s, k, WithCall(s.conns[k], Some(Issuing(kind))))
    case ReadSlot(k) => Update(s, k, WithCall(s.conns[k], Some(Posted(CallOf(s, k).kind, ClientOf(s, k).slot))))
    case RunBody(k, succeeds) =>
      if MayRun(s.slots, CallOf(s, k).slot) then Execute(s, k, succeeds)
      else Update(s, k, WithCall(s.conns[k], Some(Returned(CallOf(s, k).kind, false))))
    case Return(k) => Update(s, k, Finished(s.conns[k]))
    case Destroy(k) => Delete(s, k)
  }

  // ----- The invariant -----

  ghost predicate Owned(conns: seq<Conn>, slot: nat) {
    exists k :: 0 <= k < |conns| && SlotOf(conns[k]) == slot
  }

  /** No two clients own one slot, and the slots that are not reusable are exactly the owned ones. */
  ghost predicate SlotsOwned(s: State) {
    && IsReusable(s.closedIndex) && s.closedIndex <= INVALIDATED
    && (forall k :: 0 <= k < |s.conns| ==> -1 <= SlotOf(s.conns[k]) < |s.slots|)
    && (forall j, k :: 0 <= j < k < |s.conns| && SlotOf(s.conns[k]) != -1 ==> SlotOf(s.conns[j]) != SlotOf(s.conns[k]))
    && (forall k :: 0 <= k < |s.conns| && SlotOf(s.conns[k]) != -1 ==> !IsReusable(s.slots[SlotOf(s.conns[k])]))
    && (forall i :: 0 <= i < |s.slots| && !IsReusable(s.slots[i]) ==> Owned(s.conns, i))
  }

  /** What a client's slot tells the bodies: it has none, or calls may run, or they may not. */
  datatype Guard = Unguarded | Open | Shut

  function GuardOf(slots: seq<nat>, slot: int): Guard {
    if !(0 <= slot < |slots|) then Unguarded else if IsActive(slots[slot]) then Open else Shut
  }

  /** Where the lwIP thread is with a connection. */
  datatype Phase = Quiet | Gone | Marked

  function PhaseOf(lwip: LwipThread, k: Connection): Phase {
    if lwip == PcbGone(k) then Gone else if lwip == SlotInvalidated(k) then Marked else Quiet
  }

  predicate CallCoherent(c: Client, attached: bool, phase: Phase) {
    match c.call
    case None => true
    case Some(Issuing(kind)) => kind == Close ==> !attached
    case Some(Posted(kind, slot)) => slot == c.slot && (kind == Close ==> !attached)
    case Some(Returned(kind, released)) => if kind == Use then !released else !attached && phase == Quiet
  }

  /** What the guard says about the PCB. */
  predicate Coherent(c: Conn, guard: Guard, phase: Phase) {
    && (c.attached ==> c.client.Some? && c.client.value.linked && !c.dropped && !c.closed)
    && (phase != Quiet ==> c.client.Some? && c.client.value.linked && c.dropped && !c.attached)
    && (phase == Marked ==> guard != Open)
    && (c.client.Some? ==> CallCoherent(c.client.value, c.attached, phase))
    && (guard == Shut ==> c.dropped || c.closed)
    && (guard == Open && c.client.Some? ==> OpenCoherent(c, c.client.value, phase))
  }

  /** An open guard: the PCB lives, up to the moment between its release and the next step. */
  predicate OpenCoherent(c: Conn, client: Client, phase: Phase) {
    && (c.dropped ==> phase == Gone)
    && (c.closed && client.linked ==> client.call.Some? && client.call.value.Returned? && client.call.value.released)
    && (client.call.Some? && !client.call.value.Returned? ==> client.linked)
  }

  predicate ConnCoherent(s: State, k: Connection)
    requires k < |s.conns|
  {
    Coherent(s.conns[k], GuardOf(s.slots, SlotOf(s.conns[k])), PhaseOf(s.lwip, k))
  }

  ghost predicate Inv(s: State) {
    && SlotsOwned(s)
    && (s.lwip != Idle ==> s.lwip.k < |s.conns|)
    && forall k :: 0 <= k < |s.conns| ==> ConnCoherent(s, k)
  }
}
