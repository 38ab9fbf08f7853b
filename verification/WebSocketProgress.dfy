/**
 What the sending half of a WebSocket client gets done: the frame that a run of the queue writes,
 and how many acknowledgements it takes until every accepted message has been sent and has left.
 */
module WebSocketProgress {
  import opened Numbers
  import opened Bytes
  import opened WebSocketFrame
  import opened WebSocketSender
  import opened WebSocketState
  import opened WebSocketSteps
  import opened WebSocketAccounting

  // ----- One run of the queue -----

  /** The messages behind the finished one, if any, at the head. */
  function Open(s: Sender): seq<Message> {
    if s.messages != [] && s.messages[0].status != Sending then s.messages[1..] else s.messages
  }

  function Gone(s: Sender): seq<Message> {
    s.messages[..|s.messages| - |Open(s)|]
  }

  lemma RetireIs(s: Sender)
    requires QueuesOk(s)
    ensures Retire(s) == s.(messages := Open(s), retired := s.retired + Gone(s))
    ensures forall i :: 0 <= i < |Open(s)| ==> Open(s)[i].status == Sending && MessageOk(Open(s)[i])
  {
    hide MessageOk;
    assert s.retired + [] == s.retired;
    if s.messages != [] && s.messages[0].status != Sending {
      var n := s.(messages := s.messages[1..], retired := s.retired + [s.messages[0]]);
      assert n.messages != [] ==> n.messages[0] == s.messages[1];
      assert Retire(n) == n;
      assert s.messages[..1] == [s.messages[0]];
    }
  }

  /** A head control that has not been sent, between two frames of the first open message, goes out
      as soon as the window takes it: exactly this frame is written. */
  lemma ControlGoesOut(s: Sender, space: nat, key: seq<byte>, acked: nat)
    requires Inv(State(s, acked)) && s.hasClient && s.controls != [] && !s.controls[0].finished
    requires space >= 8 + ControlLength(s.controls[0])
    requires Open(s) == [] || Open(s)[0].acked == Open(s)[0].ack
    ensures var c, n := s.controls[0], RunQueue(s, space, key);
      && n.wire == s.wire + [Frame(true, c.opcode, [], c.payload)]
      && n.controls == [c.(finished := true)] + s.controls[1..]
      && n.messages == Open(s) && n.retired == s.retired + Gone(s)
  {
    RetireIs(s);
    assert ControlOk(s.controls[0]);
  }

  /** A head control that goes before the messages, or keeps them waiting once it is sent. */
  predicate ControlFits(s: Sender, space: nat) {
    s.controls != [] && space >= 8 + ControlLength(s.controls[0])
  }

  /** Otherwise the first open message, between two frames and with bytes left, writes exactly one
      frame, with as many bytes as the window takes. */
  lemma MessageGoesOut(s: Sender, space: nat, key: seq<byte>, acked: nat)
    requires Inv(State(s, acked)) && s.hasClient && 9 <= space < 0x1_0000 && |key| == 4 && !ControlFits(s, space)
    requires Open(s) != [] && Open(s)[0].acked == Open(s)[0].ack && Open(s)[0].sent < |Open(s)[0].data|
    ensures var m, n := Open(s)[0], RunQueue(s, space, key);
      var k := Min(|m.data| - m.sent, space - 8);
      var f := Frame(m.sent + k == |m.data|, if m.sent == 0 then m.opcode else WS_CONTINUATION,
                     if m.mask then key else [], m.data[m.sent..m.sent + k]);
      && n.wire == s.wire + [f] && n.controls == s.controls && n.retired == s.retired + Gone(s)
      && n.messages == [m.(sent := m.sent + k, ack := m.ack + FrameSize(f), frames := m.frames + [f])] + Open(s)[1..]
  {
    hide MessageOk, FrameSize;
    RetireIs(s);
    var m := Open(s)[0];
    MessageFacts(m);
    NextFrameAdds(m, Window(space), key);
  }

  /** In all other cases nothing is written. */
  lemma NothingGoesOut(s: Sender, space: nat, key: seq<byte>, acked: nat)
    requires Inv(State(s, acked)) && |key| == 4 && space < 0x1_0000
    requires s.hasClient ==>
      || (ControlFits(s, space) && s.controls[0].finished)
      || (Open(s) != [] && Open(s)[0].acked < Open(s)[0].ack)
      || (!ControlFits(s, space) && (space < 9 || Open(s) == [] || Open(s)[0].sent == |Open(s)[0].data|))
    ensures RunQueue(s, space, key).wire == s.wire && RunQueue(s, space, key).controls == s.controls
  {
    hide Fragments, WireSize;
    RetireIs(s);
    assert s.wire + [] == s.wire;
    if s.controls != [] && s.controls[0].finished { assert [s.controls[0]] + s.controls[1..] == s.controls; }
  }

  // ----- The work that is left -----

  function MessageWork(m: Message): nat {
    2 * (if m.sent < |m.data| then |m.data| - m.sent else 0) + if m.status == Sending then 2 else 1
  }

  function MessagesWork(ms: seq<Message>): nat {
    if ms == [] then 0 else MessageWork(ms[0]) + MessagesWork(ms[1..])
  }

  function ControlsWork(cs: seq<Control>): nat {
    if cs == [] then 0 else (if cs[0].finished then 0 else 2) + ControlsWork(cs[1..])
  }

  function Work(s: Sender): nat {
    MessagesWork(s.messages) + ControlsWork(s.controls)
  }

  /** How many acknowledgements or polls it takes at most. */
  function StepsLeft(st: State): nat {
    Work(st.s) + if InFlight(st) > 0 then 1 else 0
  }

  // ----- Everything is acknowledged -----

  datatype Room = Room(space: nat, key: seq<byte>)

  predicate Enough(room: Room) {
    9 <= room.space < 0x1_0000 && |room.key| == 4
  }

  /** All bytes in flight are acknowledged; without any, TCP polls. */
  function Drive(st: State, room: Room): State
    requires Enabled(st, DriveStep(st))
  {
    Do(st, DriveStep(st), room.space, room.key)
  }

  function DriveStep(st: State): Step {
    if InFlight(st) > 0 then Ack(InFlight(st)) else Poll(false)
  }

  ghost predicate Healthy(st: State) {
    Inv(st) && st.s.hasClient && st.s.status == Connected && !st.s.lagging
  }

  lemma DriveIsEnabled(st: State)
    requires Healthy(st)
    ensures Enabled(st, DriveStep(st))
  {
    hide MessageOk, WireSize;
    if HeadFinished(st.s) {
      FrontAck(st.s);
      assert InFlight(st) == Pending(st.s) >= ControlLength(st.s.controls[0]);
    }
  }

  lemma FrontAck(s: Sender)
    requires QueuesOk(s)
    ensures s.messages != [] ==> s.messages[0].acked <= s.messages[0].ack && s.messages[0].sent <= |s.messages[0].data|
  {
    hide WireSize;
    if s.messages != [] {
      FragmentsBound(s.messages[0].frames, s.messages[0].opcode, s.messages[0].data, s.messages[0].sent);
    }
  }

  /** Nothing in flight: no head control waits for its acknowledgement, and no message. */
  lemma NothingPending(s: Sender, acked: nat)
    requires Inv(State(s, acked)) && s.hasClient && InFlight(State(s, acked)) == 0
    ensures !HeadFinished(s) && (s.messages != [] ==> s.messages[0].acked == s.messages[0].ack)
    ensures Open(s) != [] ==> Open(s)[0].acked == Open(s)[0].ack && Open(s)[0].sent <= |Open(s)[0].data|
  {
    hide MessageOk, WireSize;
    FrontAck(s);
    if Open(s) != [] && Open(s) != s.messages { assert Waiting(s.messages[1]); }
  }

  lemma RetiringWorks(s: Sender)
    ensures MessagesWork(Open(s)) == MessagesWork(s.messages) - if Open(s) == s.messages then 0
                                     else MessageWork(s.messages[0])
  {
    if s.messages != [] && s.messages[0].status != Sending { assert |Open(s)| < |s.messages|; }
  }

  lemma FrontWorks(m: Message, rest: seq<Message>)
    ensures MessagesWork([m] + rest) == MessageWork(m) + MessagesWork(rest)
  {
    assert ([m] + rest)[1..] == rest;
  }

  lemma ControlWorks(c: Control, rest: seq<Control>)
    requires !c.finished
    ensures ControlsWork([c] + rest) == ControlsWork([c.(finished := true)] + rest) + 2
  {
    assert ([c] + rest)[1..] == rest && ([c.(finished := true)] + rest)[1..] == rest;
  }

  /** A message without bytes left is finished by the run. */
  lemma EmptyIsFinished(s: Sender, room: Room, acked: nat)
    requires Inv(State(s, acked)) && s.hasClient && Enough(room) && !ControlFits(s, room.space)
    requires Open(s) != [] && Open(s)[0].acked == Open(s)[0].ack && Open(s)[0].sent == |Open(s)[0].data|
    ensures var n := RunQueue(s, room.space, room.key);
      n.messages == [Open(s)[0].(status := Sent)] + Open(s)[1..] && n.controls == s.controls && n.wire == s.wire
  {
    hide MessageOk;
    RetireIs(s);
    NothingToSend(Open(s)[0], Window(room.space), room.key);
    assert s.wire + [] == s.wire;
  }

  lemma NothingOpen(s: Sender, room: Room)
    requires QueuesOk(s) && s.hasClient && Enough(room) && !ControlFits(s, room.space) && Open(s) == []
    ensures RunQueue(s, room.space, room.key) == s.(messages := [], retired := s.retired + Gone(s))
  {
    RetireIs(s);
  }

  /** A run of the queue with nothing in flight does a part of the work. */
  lemma QueueWorks(s: Sender, room: Room, acked: nat)
    requires Inv(State(s, acked)) && s.hasClient && InFlight(State(s, acked)) == 0 && Enough(room) && s.messages != []
    ensures StepsLeft(State(RunQueue(s, room.space, room.key), acked)) < Work(s)
  {
    hide Inv, RunQueue, WireSize, MessagesWork, ControlsWork, ControlFits, Open, Gone;
    var n, open := RunQueue(s, room.space, room.key), Open(s);
    NothingPending(s, acked);
    RetiringWorks(s);
    InvQueues(s, acked);
    if ControlFits(s, room.space) {
      ControlHead(s, room.space);
      ControlGoesOut(s, room.space, room.key, acked);
      assert s.controls == [s.controls[0]] + s.controls[1..];
      ControlWorks(s.controls[0], s.controls[1..]);
    } else if open == [] {
      NothingOpen(s, room);
    } else {
      assert open == [open[0]] + open[1..];
      FrontWorks(open[0], open[1..]);
      RetireIs(s);
      if open[0].sent < |open[0].data| {
        MessageGoesOut(s, room.space, room.key, acked);
        FrontWorks(n.messages[0], open[1..]);
      } else {
        EmptyIsFinished(s, room, acked);
        FrontWorks(n.messages[0], open[1..]);
      }
    }
  }

  lemma ControlHead(s: Sender, space: nat)
    requires ControlFits(s, space)
    ensures s.controls != [] && space >= 8 + ControlLength(s.controls[0])
  {
  }

  lemma InvQueues(s: Sender, acked: nat)
    requires Inv(State(s, acked))
    ensures QueuesOk(s)
  {
  }

  lemma RunQueueKeepsHealth(s: Sender, space: nat, key: seq<byte>)
    ensures var n := RunQueue(s, space, key);
      n.hasClient == s.hasClient && n.status == s.status && n.lagging == s.lagging
    ensures s.messages == [] ==> RunQueue(s, space, key).messages == []
  {
    hide SendMessage;
    RetireKeepsHealth(s);
  }

  lemma {:induction false} RetireKeepsHealth(s: Sender)
    ensures var n := Retire(s); n.hasClient == s.hasClient && n.status == s.status && n.lagging == s.lagging
    decreases |s.messages|
  {
    if s.messages != [] && s.messages[0].status != Sending {
      RetireKeepsHealth(s.(messages := s.messages[1..], retired := s.retired + [s.messages[0]]));
    }
  }

  /** After all bytes in flight were acknowledged. */
  function Acked(s: Sender, len: nat): Sender {
    CreditFront(Acknowledge(s), Remainder(s, len))
  }

  lemma AckingWorks(s: Sender, len: nat)
    ensures Work(Acked(s, len)) <= Work(s) && (s.messages == [] ==> Acked(s, len).messages == [])
    ensures var n := Acked(s, len); n.hasClient == s.hasClient && n.status == s.status && n.lagging == s.lagging
  {
    var n := Acked(s, len);
    if s.messages != [] {
      assert s.messages == [s.messages[0]] + s.messages[1..];
      FrontWorks(s.messages[0], s.messages[1..]);
      FrontWorks(n.messages[0], s.messages[1..]);
    }
  }

  lemma AckWorks(st: State, room: Room)
    requires Healthy(st) && InFlight(st) > 0 && Enough(room)
    ensures Enabled(st, DriveStep(st)) && Healthy(Drive(st, room))
    ensures st.s.messages == [] ==> Drive(st, room).s.messages == []
    ensures Drive(st, room).s.messages == [] || StepsLeft(Drive(st, room)) < StepsLeft(st)
  {
    hide Inv, RunQueue, InFlight, Work, Acked, Acknowledge, CreditFront, Remainder;
    DriveIsEnabled(st);
    var len := InFlight(st);
    var n := Acked(st.s, len);
    StepKeepsInv(st, Ack(len), room.space, room.key);
    AckedKeeps(st, len, room);
    AckingWorks(st.s, len);
    RunQueueKeepsHealth(n, room.space, room.key);
    if n.messages != [] { QueueWorks(n, room, st.acked + len); }
  }

  lemma AckedKeeps(st: State, len: nat, room: Room)
    requires Healthy(st) && len == InFlight(st) && len > 0
    ensures Inv(State(Acked(st.s, len), st.acked + len)) && InFlight(State(Acked(st.s, len), st.acked + len)) == 0
    ensures OnAck(st.s, len, room.space, room.key) == RunQueue(Acked(st.s, len), room.space, room.key)
  {
    hide Inv, RunQueue, WireSize;
    DriveIsEnabled(st);
    AcknowledgeKeeps(st.s, len, st.acked);
    AckingWorks(st.s, len);
  }

  lemma PollWorks(st: State, room: Room)
    requires Healthy(st) && InFlight(st) <= 0 && Enough(room)
    ensures Enabled(st, DriveStep(st)) && Healthy(Drive(st, room))
    ensures st.s.messages == [] ==> Drive(st, room).s.messages == []
    ensures Drive(st, room).s.messages == [] || StepsLeft(Drive(st, room)) < StepsLeft(st)
  {
    hide Inv, RunQueue, InFlight, Work;
    DriveIsEnabled(st);
    NotNegative(st);
    StepKeepsInv(st, Poll(false), room.space, room.key);
    RunQueueKeepsHealth(st.s, room.space, room.key);
    if st.s.messages != [] { QueueWorks(st.s, room, st.acked); }
  }

  lemma NotNegative(st: State)
    requires Healthy(st)
    ensures InFlight(st) >= 0
  {
    hide WireSize;
    FrontAck(st.s);
  }

  // ----- Everything is sent -----

  ghost function DriveAll(st: State, rooms: seq<Room>): State
    requires Healthy(st) && forall i :: 0 <= i < |rooms| ==> Enough(rooms[i])
    ensures Healthy(DriveAll(st, rooms))
    decreases |rooms|
  {
    if rooms == [] then st else
      DriveIsEnabled(st);
      DriveIsHealthy(st, rooms[0]);
      DriveAll(Drive(st, rooms[0]), rooms[1..])
  }

  lemma DriveIsHealthy(st: State, room: Room)
    requires Healthy(st) && Enough(room)
    ensures Enabled(st, DriveStep(st)) && Healthy(Drive(st, room))
    ensures st.s.messages == [] ==> Drive(st, room).s.messages == []
    ensures Drive(st, room).s.messages == [] || StepsLeft(Drive(st, room)) < StepsLeft(st)
  {
    if InFlight(st) > 0 { AckWorks(st, room); } else { PollWorks(st, room); }
  }

  lemma {:induction false} WorkIsDone(st: State, rooms: seq<Room>)
    requires Healthy(st) && forall i :: 0 <= i < |rooms| ==> Enough(rooms[i])
    requires st.s.messages == [] || |rooms| >= StepsLeft(st)
    ensures DriveAll(st, rooms).s.messages == []
    decreases |rooms|
  {
    hide Healthy, Drive, StepsLeft;
    if rooms == [] {
      if st.s.messages != [] { SomethingLeft(st); }
    } else {
      DriveIsHealthy(st, rooms[0]);
      WorkIsDone(Drive(st, rooms[0]), rooms[1..]);
    }
  }

  lemma SomethingLeft(st: State)
    requires st.s.messages != []
    ensures StepsLeft(st) > 0
  {
  }

  lemma {:induction false} DrivingKeepsAccepted(st: State, rooms: seq<Room>)
    requires Healthy(st) && forall i :: 0 <= i < |rooms| ==> Enough(rooms[i])
    ensures Accepted(DriveAll(st, rooms).s) == Accepted(st.s)
    decreases |rooms|
  {
    hide Healthy, Do, Accepted, InFlight;
    if rooms != [] {
      DriveIsHealthy(st, rooms[0]);
      MessagesKeepTheirOrder(st, DriveStep(st), rooms[0].space, rooms[0].key);
      DrivingKeepsAccepted(Drive(st, rooms[0]), rooms[1..]);
    }
  }

  /** From every reachable state of a connected client that keeps up: when bytes in flight are
      acknowledged, or else TCP polls, and there is room for a byte of payload each time, all
      accepted messages have left after a number of steps known in advance, in their order, each
      sent whole. */
  lemma AllMessagesAreSent(run: seq<Moment>, rooms: seq<Room>)
    requires Legal(State(FRESH, 0), run)
    requires var s := Run(State(FRESH, 0), run).s; s.hasClient && s.status == Connected && !s.lagging
    requires |rooms| >= StepsLeft(Run(State(FRESH, 0), run)) && forall i :: 0 <= i < |rooms| ==> Enough(rooms[i])
    ensures Healthy(Run(State(FRESH, 0), run))
    ensures var s, n := Run(State(FRESH, 0), run).s, DriveAll(Run(State(FRESH, 0), run), rooms).s;
      && n.messages == [] && |n.retired| == |Accepted(s)|
      && (forall i :: 0 <= i < |n.retired| ==> (n.retired[i].opcode, n.retired[i].data) == Accepted(s)[i])
      && (forall i :: 0 <= i < |n.retired| ==> Payloads(n.retired[i].frames) == n.retired[i].data)
      && DataOf(n.wire) == FramesOf(n.retired)
  {
    hide Run, Legal, StepsLeft, DriveAll, Do;
    InitialInv();
    RunKeepsInv(State(FRESH, 0), run);
    var st := Run(State(FRESH, 0), run);
    WorkIsDone(st, rooms);
    DrivingKeepsAccepted(st, rooms);
    var n := DriveAll(st, rooms).s;
    NothingQueued(n);
    RetiredPayloads(n);
  }

  lemma NothingQueued(n: Sender)
    requires n.messages == [] && WireOk(n)
    ensures DataOf(n.wire) == FramesOf(n.retired) && n.retired + n.messages == n.retired
  {
    assert FramesOf(n.retired) + [] == FramesOf(n.retired);
  }

  lemma RetiredPayloads(n: Sender)
    requires RetiredOk(n)
    ensures forall i :: 0 <= i < |n.retired| ==> Payloads(n.retired[i].frames) == n.retired[i].data
  {
    forall i | 0 <= i < |n.retired| ensures Payloads(n.retired[i].frames) == n.retired[i].data {
      var m := n.retired[i];
      assert MessageOk(m) && m.data[..|m.data|] == m.data;
    }
  }
}
