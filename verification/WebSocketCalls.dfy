/**
 What the calls and callbacks of the sending half come to: which of them write, which refuse,
 and how a connection is closed.
 */
module WebSocketCalls {
  import opened Numbers
  import opened Bytes
  import opened WebSocketFrame
  import opened WebSocketSender
  import opened WebSocketState
  import opened WebSocketSteps
  import opened WebSocketAccounting
  import opened WebSocketProgress

  datatype Moment = Moment(space: nat, key: seq<byte>)

  /** Room for any control frame. */
  predicate Wide(t: Moment) {
    135 <= t.space < 0x1_0000 && |t.key| == 4
  }

  /** Connected, with nothing in its queues and nothing in flight. */
  ghost predicate Idle(st: State) {
    && Inv(st) && st.s.hasClient && st.s.status == Connected && !st.s.lagging
    && st.s.controls == [] && st.s.messages == []
  }

  // ----- An idle connection -----

  /** A message is written at once, as far as there is room for it. */
  lemma MessageIsWritten(st: State, step: Step, t: Moment)
    requires Idle(st) && step.Text? && 0 < |step.data| < MEMORY && 9 <= t.space < 0x1_0000 && |t.key| == 4
    ensures var k := Min(|step.data|, t.space - 8);
      Do(st, step, t.space, t.key).s.wire == st.s.wire
        + [Frame(k == |step.data|, step.opcode % 8, if step.mask then t.key else [], step.data[..k])]
  {
    hide Inv, RunQueue, MessageOk;
    var s, m := st.s, NewMessage(step.shared, step.opcode, step.mask, step.data);
    NewMessageOk(step.shared, step.opcode, step.mask, step.data);
    var n := s.(messages := s.messages + [m]);
    QueuesOkOf(st);
    EnqueueMessageKeeps(s, m, st.acked);
    assert Open(n) == [m] && step.data[0..|step.data|] == step.data;
    MessageGoesOut(n, t.space, t.key, st.acked);
  }

  lemma QueuesOkOf(st: State)
    requires Inv(st)
    ensures QueuesOk(st.s)
  {
  }

  /** What is left of an idle connection when a control frame was queued: the frame is on the wire. */
  lemma ControlIsQueued(st: State, opcode: nat, payload: seq<byte>, t: Moment)
    requires Inv(st) && st.s.hasClient && st.s.controls == [] && st.s.messages == []
    requires 8 <= opcode < 16 && Wide(t)
    ensures var p := if |payload| > 125 then payload[..125] else payload;
      var n := QueueControl(st.s, NewControl(opcode, payload), t.space, t.key);
      && n == st.s.(controls := [Control(opcode, p, true)], wire := st.s.wire + [Frame(true, opcode, [], p)])
      && Inv(State(n, st.acked))
  {
    hide Inv, RunQueue;
    var s, c := st.s, NewControl(opcode, payload);
    var n := s.(controls := s.controls + [c]);
    EnqueueControlKeeps(s, c, st.acked);
    assert n.controls == [c] && Open(n) == [] && Gone(n) == [];
    QueueControlKeeps(s, c, t.space, t.key, st.acked);
    ControlGoesOut(n, t.space, t.key, st.acked);
    OnlyQueuesChange(n, t);
    assert n.retired + [] == n.retired && [c.(finished := true)] + n.controls[1..] == [c.(finished := true)];
  }

  lemma OnlyQueuesChange(s: Sender, t: Moment)
    requires s.messages == []
    ensures var n := RunQueue(s, t.space, t.key);
      n == s.(controls := n.controls, wire := n.wire)
  {
  }

  /** A control frame is written at once, its payload cut to the 125 bytes of section 5.5 of RFC 6455. */
  lemma ControlIsWritten(st: State, step: Step, t: Moment)
    requires Idle(st) && step.SendControlFrame? && Enabled(st, step) && Wide(t)
    ensures Do(st, step, t.space, t.key).s.wire
      == st.s.wire + [Frame(true, step.opcode, [], step.payload[..Min(|step.payload|, 125)])]
  {
    hide Inv, QueueControl;
    ControlIsQueued(st, step.opcode, step.payload, t);
    assert step.payload[..|step.payload|] == step.payload;
  }

  /** A poll writes a ping if one is due, and otherwise nothing. */
  lemma PollPings(st: State, due: bool, t: Moment)
    requires Idle(st) && Wide(t)
    ensures Do(st, Poll(due), t.space, t.key).s.wire
      == st.s.wire + if due then [Frame(true, 9, [], PING_PAYLOAD)] else []
  {
    hide Inv, QueueControl;
    if due { ControlIsQueued(st, WS_PING, PING_PAYLOAD, t); }
    assert st.s.wire + [] == st.s.wire;
  }

  // ----- A connection that falls behind -----

  /** A message that finds 32 others queued is refused, and so are all later ones; the next poll
      ends the connection. Nothing more is written. */
  lemma LaggingEnds(st: State, step: Step, later: Step, t: Moment)
    requires st.s.hasClient && st.s.status == Connected && |st.s.messages| >= 32
    requires step.Text? && later.Text? && Enabled(st, step) && Enabled(st, later)
    ensures var n := Do(st, step, t.space, t.key).s;
      && n == st.s.(lagging := true) && Do(State(n, st.acked), later, t.space, t.key).s == n
      && Do(State(n, st.acked), Poll(false), t.space, t.key).s == n.(hasClient := false, status := Disconnected)
  {
  }

  /** Once the client is gone, no step writes anything. */
  lemma NothingAfterDisconnect(st: State, step: Step, t: Moment)
    requires Enabled(st, step) && !st.s.hasClient && st.s.status != Connected
    ensures var n := Do(st, step, t.space, t.key).s;
      !n.hasClient && n.status != Connected && n.wire == st.s.wire && n.retired == st.s.retired
  {
  }

  // ----- A poll that finds work -----

  /** A poll writes the next frame of the first open message. */
  lemma PollWritesMessage(st: State, due: bool, t: Moment)
    requires Inv(st) && st.s.hasClient && !st.s.lagging && 9 <= t.space < 0x1_0000 && |t.key| == 4
    requires !ControlFits(st.s, t.space) && Open(st.s) != []
    requires Open(st.s)[0].acked == Open(st.s)[0].ack && Open(st.s)[0].sent < |Open(st.s)[0].data|
    ensures var m := Open(st.s)[0];
      var k := Min(|m.data| - m.sent, t.space - 8);
      Do(st, Poll(due), t.space, t.key).s.wire == st.s.wire
        + [Frame(m.sent + k == |m.data|, if m.sent == 0 then m.opcode else WS_CONTINUATION,
                 if m.mask then t.key else [], m.data[m.sent..m.sent + k])]
  {
    hide Inv, RunQueue;
    MessageGoesOut(st.s, t.space, t.key, st.acked);
  }

  /** And a head control that waits. */
  lemma PollWritesControl(st: State, due: bool, t: Moment)
    requires Inv(st) && st.s.hasClient && !st.s.lagging && Wide(t)
    requires st.s.controls != [] && !st.s.controls[0].finished
    requires Open(st.s) == [] || Open(st.s)[0].acked == Open(st.s)[0].ack
    ensures var c := st.s.controls[0];
      Do(st, Poll(due), t.space, t.key).s.wire == st.s.wire + [Frame(true, c.opcode, [], c.payload)]
  {
    hide RunQueue, WireSize, FramesOf, ControlFrames, MessageOk;
    assert ControlOk(st.s.controls[0]);
    ControlGoesOut(st.s, t.space, t.key, st.acked);
  }

  // ----- Closing -----

  /** The peer closes an idle connection: its payload comes back in one close frame, and the
      acknowledgement of that frame ends the connection. */
  lemma PeerCloses(st: State, payload: seq<byte>, t: Moment, t2: Moment)
    requires Idle(st) && |payload| <= 125 && Wide(t)
    ensures var n := Do(st, PeerClose(payload), t.space, t.key);
      && n.s.wire == st.s.wire + [Frame(true, 8, [], payload)]
      && n.s.status == Disconnecting && n.s.hasClient && InFlight(n) == |payload| + 2
      && Enabled(n, Ack(|payload| + 2))
      && var end := Do(n, Ack(|payload| + 2), t2.space, t2.key).s;
         !end.hasClient && end.status == Disconnected && end.wire == n.s.wire
  {
    hide Inv, QueueControl;
    var closing := st.s.(status := WebSocketFrame.Disconnecting);
    ClosingKeeps(st.s, st.acked);
    ControlIsQueued(State(closing, st.acked), WS_DISCONNECT, payload, t);
    ControlInFlight(Do(st, PeerClose(payload), t.space, t.key));
  }

  lemma ControlInFlight(st: State)
    requires Inv(st) && st.s.hasClient && st.s.messages == []
    ensures InFlight(st) == if HeadFinished(st.s) then |st.s.controls[0].payload| + 2 else 0
  {
  }

  /** A second close frame of the peer ends the connection without an answer. */
  lemma SecondCloseEnds(st: State, payload: seq<byte>, t: Moment)
    requires st.s.status == Disconnecting
    ensures Do(st, PeerClose(payload), t.space, t.key).s == st.s.(hasClient := false, status := Disconnected)
  {
  }

  /** A close that begins here is not remembered. After its acknowledgement the connection is idle
      as before: further messages are still written, and the peer's close frame, which answers it,
      is answered by a second one, where section 5.5.1 of RFC 6455 forbids the one and has the
      connection closed instead of the other. */
  lemma OwnCloseIsNotRemembered(st: State, own: seq<byte>, t: Moment)
    requires Idle(st) && |own| <= 125 && Wide(t)
    ensures var n := Do(st, SendControlFrame(8, own), t.space, t.key);
      && n.s.wire == st.s.wire + [Frame(true, 8, [], own)]
      && Enabled(n, Ack(|own| + 2))
      && var end := Do(n, Ack(|own| + 2), t.space, t.key);
         Idle(end) && end.s.wire == n.s.wire
  {
    hide Inv, QueueControl;
    ControlIsQueued(st, WS_DISCONNECT, own, t);
    var n := Do(st, SendControlFrame(8, own), t.space, t.key);
    ControlInFlight(n);
    StepKeepsInv(n, Ack(|own| + 2), t.space, t.key);
    assert n.s.controls[1..] == [];
  }

  // ----- Which controls there are -----

  type Named = (nat, seq<byte>)

  function Names(cs: seq<Control>): (r: seq<Named>)
    ensures |r| == |cs| && forall i :: 0 <= i < |cs| ==> r[i] == (cs[i].opcode, cs[i].payload)
  {
    seq(|cs|, i requires 0 <= i < |cs| => (cs[i].opcode, cs[i].payload))
  }

  /** The controls that were ever queued: those that have left, and those that wait. */
  function AllControls(s: Sender): seq<Named> {
    Names(s.answered) + Names(s.controls)
  }

  /** What a step queues: the caller's control while there is a client, the answer to the first
      close frame, and a ping if one is due and nothing else is to be sent. */
  function Queues(s: Sender, step: Step): seq<Named> {
    match step
    case SendControlFrame(opcode, payload) =>
      if s.hasClient then [(opcode, payload[..Min(|payload|, 125)])] else []
    case PeerClose(payload) =>
      if s.hasClient && s.status != Disconnecting then [(8, payload[..Min(|payload|, 125)])] else []
    case Poll(due) =>
      if due && s.hasClient && !s.lagging && s.status == Connected && s.controls == [] && s.messages == []
      then [(9, PING_PAYLOAD)] else []
    case _ => []
  }

  lemma SameNames(s: Sender, n: Sender)
    requires n.answered == s.answered && |n.controls| == |s.controls|
    requires forall i :: 0 <= i < |s.controls| ==>
      n.controls[i].opcode == s.controls[i].opcode && n.controls[i].payload == s.controls[i].payload
    ensures AllControls(n) == AllControls(s)
  {
    assert Names(n.controls) == Names(s.controls);
  }

  lemma {:induction false} RetiringKeepsControls(s: Sender)
    ensures Retire(s).controls == s.controls && Retire(s).answered == s.answered
    decreases |s.messages|
  {
    if s.messages != [] && s.messages[0].status != Sending {
      RetiringKeepsControls(s.(messages := s.messages[1..], retired := s.retired + [s.messages[0]]));
    }
  }

  lemma RunningKeepsControls(s: Sender, space: nat, key: seq<byte>)
    ensures AllControls(RunQueue(s, space, key)) == AllControls(s)
    ensures AllControls(RunIfWritable(s, space, key)) == AllControls(s)
  {
    hide SendMessage, AllControls, Retire;
    RetiringKeepsControls(s);
    SameNames(s, RunQueue(s, space, key));
  }

  lemma NameQueued(s: Sender, opcode: nat, payload: seq<byte>, space: nat, key: seq<byte>)
    requires s.hasClient
    ensures AllControls(QueueControl(s, NewControl(opcode, payload), space, key))
      == AllControls(s) + [(opcode, payload[..Min(|payload|, 125)])]
  {
    hide RunIfWritable;
    var c := NewControl(opcode, payload);
    assert c.payload == payload[..Min(|payload|, 125)];
    RunningKeepsControls(s.(controls := s.controls + [c]), space, key);
    assert Names(s.controls + [c]) == Names(s.controls) + [(c.opcode, c.payload)];
  }

  lemma HeadAnswered(s: Sender)
    ensures AllControls(Acknowledge(s)) == AllControls(s)
  {
    if s.controls != [] && s.controls[0].finished {
      var c, rest := s.controls[0], s.controls[1..];
      assert Names(s.controls) == [(c.opcode, c.payload)] + Names(rest);
      assert Names(s.answered + [c]) == Names(s.answered) + [(c.opcode, c.payload)];
    }
  }

  /** Each step adds at the end the controls that it queues, and nothing else adds, drops or
      reorders one. */
  lemma ControlsKeepTheirOrder(st: State, step: Step, t: Moment)
    requires Enabled(st, step)
    ensures AllControls(Do(st, step, t.space, t.key).s) == AllControls(st.s) + Queues(st.s, step)
  {
    hide AllControls, RunQueue, RunIfWritable, QueueControl, Acknowledge;
    var s := st.s;
    var closing := s.(status := WebSocketFrame.Disconnecting);
    SameNames(s, closing);
    SameNames(s, Disconnect(s));
    assert AllControls(s) + [] == AllControls(s);
    match step
    case Text(shared, opcode, mask, data) =>
      var n := s.(messages := s.messages + [NewMessage(shared, opcode, mask, data)]);
      SameNames(s, n);
      SameNames(s, s.(lagging := true));
      RunningKeepsControls(n, t.space, t.key);
    case SendControlFrame(opcode, payload) => OwnControl(st, step, t);
    case Ack(len) =>
      HeadAnswered(s);
      var n := Acknowledge(s);
      SameNames(n, Disconnect(n));
      SameNames(n, CreditFront(n, Remainder(s, len)));
      RunningKeepsControls(CreditFront(n, Remainder(s, len)), t.space, t.key);
    case Poll(due) =>
      RunningKeepsControls(s, t.space, t.key);
      assert PING_PAYLOAD[..|PING_PAYLOAD|] == PING_PAYLOAD && |PING_PAYLOAD| == 22;
      if s.hasClient { NameQueued(s, WS_PING, PING_PAYLOAD, t.space, t.key); }
    case PeerClose(payload) => PeerControl(st, payload, t);
    case ConnectionLost =>
  }

  lemma OwnControl(st: State, step: Step, t: Moment)
    requires step.SendControlFrame? && Enabled(st, step)
    ensures AllControls(Do(st, step, t.space, t.key).s) == AllControls(st.s) + Queues(st.s, step)
  {
    hide AllControls;
    if st.s.hasClient { NameQueued(st.s, step.opcode, step.payload, t.space, t.key); }
    assert AllControls(st.s) + [] == AllControls(st.s);
  }

  lemma PeerControl(st: State, payload: seq<byte>, t: Moment)
    ensures AllControls(Do(st, PeerClose(payload), t.space, t.key).s)
      == AllControls(st.s) + Queues(st.s, PeerClose(payload))
  {
    hide AllControls;
    var s := st.s;
    var closing := s.(status := WebSocketFrame.Disconnecting);
    SameNames(s, closing);
    SameNames(s, Disconnect(s));
    if s.hasClient { NameQueued(closing, WS_DISCONNECT, payload, t.space, t.key); }
    assert AllControls(s) + [] == AllControls(s);
  }
}
