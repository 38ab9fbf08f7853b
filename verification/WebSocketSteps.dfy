/** Every step of the sending half keeps the accounts. */
module WebSocketSteps {
  import opened Bytes
  import opened WebSocketFrame
  import opened WebSocketSender
  import opened WebSocketState

  /** A finished message leaves the queue; what is on the wire stays accounted for. */
  lemma RetireOneKeeps(s: Sender, acked: nat)
    requires Inv(State(s, acked)) && s.messages != [] && s.messages[0].status != Sending
    ensures Inv(State(s.(messages := s.messages[1..], retired := s.retired + [s.messages[0]]), acked))
  {
    hide MessageOk, WireSize, ControlsOf, DataOf, ControlFrames;
    var m := s.messages[0];
    var n := s.(messages := s.messages[1..], retired := s.retired + [m]);
    FrontIsComplete(m);
    assert (s.retired + [m])[..|s.retired|] == s.retired;
    assert n.messages != [] ==> n.messages[0] == s.messages[1] && Waiting(n.messages[0]);
    assert FramesOf(n.retired) == FramesOf(s.retired) + m.frames && FrontFrames(n) == [];
    assert FramesOf(n.retired) + [] == FramesOf(n.retired);
  }

  lemma FrontIsComplete(m: Message)
    requires MessageOk(m) && m.status != Sending
    ensures m.status == Sent && m.acked == m.ack
  {
    hide WireSize, Fragments;
  }

  lemma {:induction false} RetireKeeps(s: Sender, acked: nat)
    requires Inv(State(s, acked))
    ensures Inv(State(Retire(s), acked))
    ensures var n := Retire(s); n.messages != [] ==> n.messages[0].status == Sending
    ensures Retire(s).controls == s.controls && Retire(s).hasClient == s.hasClient
    decreases |s.messages|
  {
    if s.messages != [] && s.messages[0].status != Sending {
      RetireOneKeeps(s, acked);
      RetireKeeps(s.(messages := s.messages[1..], retired := s.retired + [s.messages[0]]), acked);
    }
  }

  lemma SendControlKeeps(s: Sender, acked: nat)
    requires Inv(State(s, acked)) && s.controls != []
    ensures Inv(State(SendControl(s), acked))
  {
    hide MessageOk, WireSize, DataOf, ControlsOf, FramesOf, ControlFrames;
    var c := s.controls[0];
    if !c.finished {
      var n := SendControl(s);
      OneMoreFrame(s.wire, ControlFrame(c));
      assert FrameSize(ControlFrame(c)) == ControlLength(c);
      assert HeadFinished(n) && ControlFrame(n.controls[0]) == ControlFrame(c);
      assert FrontFrames(n) == FrontFrames(s);
    }
  }

  lemma SendFrontKeeps(s: Sender, window: nat, key: seq<byte>, acked: nat)
    requires Inv(State(s, acked)) && s.messages != [] && BetweenFrames(s.messages[0]) && s.messages[0].status == Sending
    requires 0 < window < 0x1_0000 && |key| == 4
    ensures Inv(State(SendFront(s, window, key), acked))
  {
    hide MessageOk, WireSize, DataOf, ControlsOf, FramesOf, ControlFrames, SendMessage, FrameSize;
    var m, n := s.messages[0], SendMessage(s.messages[0], window, key);
    SendKeepsMessage(m, window, key);
    var t := SendFront(s, window, key);
    if |n.frames| > |m.frames| {
      var f := n.frames[|m.frames|];
      OneMoreFrame(s.wire, f);
      assert t.wire == s.wire + [f] && n.frames == m.frames + [f];
      assert FramesOf(s.retired) + n.frames == FramesOf(s.retired) + m.frames + [f];
    } else {
      assert t.wire == s.wire;
    }
  }

  lemma RunQueueKeeps(s: Sender, space: nat, key: seq<byte>, acked: nat)
    requires Inv(State(s, acked)) && space < 0x1_0000 && |key| == 4
    ensures Inv(State(RunQueue(s, space, key), acked))
  {
    if s.hasClient {
      var n := Retire(s);
      RetireKeeps(s, acked);
      var window, between := Window(space), n.messages == [] || BetweenFrames(n.messages[0]);
      if n.controls != [] && between && window > ControlLength(n.controls[0]) - 1 {
        SendControlKeeps(n, acked);
      } else if n.messages != [] && between && window > 0 {
        SendFrontKeeps(n, window, key, acked);
      }
    }
  }

  lemma EnqueueMessageKeeps(s: Sender, m: Message, acked: nat)
    requires Inv(State(s, acked)) && Waiting(m) && MessageOk(m)
    ensures Inv(State(s.(messages := s.messages + [m]), acked))
  {
  }

  lemma EnqueueControlKeeps(s: Sender, c: Control, acked: nat)
    requires Inv(State(s, acked)) && !c.finished && ControlOk(c)
    ensures Inv(State(s.(controls := s.controls + [c]), acked))
  {
  }

  lemma PendingBound(s: Sender)
    requires QueuesOk(s) && WireOk(s)
    ensures Pending(s) < SIZE_LIMIT
  {
  }

  lemma AcknowledgeKeeps(s: Sender, len: nat, acked: nat)
    requires Inv(State(s, acked)) && s.hasClient && 0 < len <= InFlight(State(s, acked)) && !Closes(s)
    requires HeadFinished(s) ==> len >= ControlLength(s.controls[0])
    ensures Inv(State(CreditFront(Acknowledge(s), Remainder(s, len)), acked + len))
  {
    hide MessageOk, WireSize, DataOf, ControlsOf, FramesOf, AckMessage;
    var a := Acknowledge(s);
    var rest := Remainder(s, len);
    assert HeadFinished(s) ==> (s.answered + [s.controls[0]])[..|s.answered|] == s.answered;
    PendingBound(s);
    assert !HeadFinished(a) && Pending(a) == Pending(s) - (len - rest);
    if rest > 0 {
      AckKeepsMessage(a.messages[0], rest);
    }
  }

  // ----- Steps and runs -----

  lemma RunIfWritableKeeps(s: Sender, space: nat, key: seq<byte>, acked: nat)
    requires Inv(State(s, acked)) && space < 0x1_0000 && |key| == 4
    ensures Inv(State(RunIfWritable(s, space, key), acked))
  {
    hide RunQueue;
    RunQueueKeeps(s, space, key, acked);
  }

  lemma QueueMessageKeeps(s: Sender, m: Message, space: nat, key: seq<byte>, acked: nat)
    requires Inv(State(s, acked)) && Waiting(m) && MessageOk(m) && space < 0x1_0000 && |key| == 4
    ensures Inv(State(QueueMessage(s, m, space, key), acked))
  {
    hide RunIfWritable, MessageOk, WireSize, DataOf, ControlsOf;
    if s.status == Connected && !s.lagging && |s.messages| < HIGH_WATER {
      EnqueueMessageKeeps(s, m, acked);
      RunIfWritableKeeps(s.(messages := s.messages + [m]), space, key, acked);
    }
  }

  lemma QueueControlKeeps(s: Sender, c: Control, space: nat, key: seq<byte>, acked: nat)
    requires Inv(State(s, acked)) && !c.finished && ControlOk(c) && space < 0x1_0000 && |key| == 4
    ensures Inv(State(QueueControl(s, c, space, key), acked))
  {
    hide RunIfWritable, Inv, ControlOk;
    if s.hasClient {
      EnqueueControlKeeps(s, c, acked);
      RunIfWritableKeeps(s.(controls := s.controls + [c]), space, key, acked);
    }
  }

  lemma DisconnectKeeps(s: Sender, acked: nat, now: nat)
    requires Inv(State(s, acked))
    ensures Inv(State(Disconnect(s), now))
  {
    hide MessageOk, WireSize, DataOf, ControlsOf, FramesOf, ControlFrames;
  }

  /** The acknowledged close frame leaves the queue. */
  lemma CloseKeeps(s: Sender, acked: nat, now: nat)
    requires Inv(State(s, acked)) && HeadFinished(s)
    ensures Inv(State(Disconnect(Acknowledge(s)), now))
  {
    hide MessageOk, WireSize, DataOf, ControlsOf, FramesOf;
    assert (s.answered + [s.controls[0]])[..|s.answered|] == s.answered;
  }

  lemma AckKeeps(st: State, len: nat, space: nat, key: seq<byte>)
    requires Inv(st) && Enabled(st, Ack(len)) && space < 0x1_0000 && |key| == 4
    ensures Inv(Do(st, Ack(len), space, key))
  {
    hide Inv, RunQueue, Acknowledge, CreditFront, Remainder, Disconnect, InFlight;
    if Closes(st.s) {
      CloseKeeps(st.s, st.acked, st.acked + len);
    } else {
      AcknowledgeKeeps(st.s, len, st.acked);
      RunQueueKeeps(CreditFront(Acknowledge(st.s), Remainder(st.s, len)), space, key, st.acked + len);
    }
  }

  lemma PollKeeps(st: State, pingDue: bool, space: nat, key: seq<byte>)
    requires Inv(st) && space < 0x1_0000 && |key| == 4
    ensures Inv(Do(st, Poll(pingDue), space, key))
  {
    hide Inv, RunQueue, QueueControl, Disconnect;
    var s := st.s;
    DisconnectKeeps(s, st.acked, st.acked);
    RunQueueKeeps(s, space, key, st.acked);
    QueueControlKeeps(s, NewControl(WS_PING, PING_PAYLOAD), space, key, st.acked);
  }

  lemma ClosingKeeps(s: Sender, acked: nat)
    requires Inv(State(s, acked))
    ensures Inv(State(s.(status := WebSocketFrame.Disconnecting), acked))
  {
    hide MessageOk, WireSize, DataOf, ControlsOf, FramesOf, ControlFrames;
  }

  lemma PeerCloseKeeps(st: State, payload: seq<byte>, space: nat, key: seq<byte>)
    requires Inv(st) && space < 0x1_0000 && |key| == 4
    ensures Inv(Do(st, PeerClose(payload), space, key))
  {
    hide Inv, QueueControl, Disconnect;
    var s := st.s;
    DisconnectKeeps(s, st.acked, st.acked);
    var closing := s.(status := WebSocketFrame.Disconnecting);
    ClosingKeeps(s, st.acked);
    QueueControlKeeps(closing, NewControl(WS_DISCONNECT, payload), space, key, st.acked);
  }

  lemma NewMessageOk(shared: bool, opcode: nat, mask: bool, data: seq<byte>)
    requires |data| < MEMORY
    ensures var m := NewMessage(shared, opcode, mask, data); Waiting(m) && MessageOk(m)
  {
  }

  lemma StepKeepsInv(st: State, step: Step, space: nat, key: seq<byte>)
    requires Inv(st) && Enabled(st, step) && space < 0x1_0000 && |key| == 4
    ensures Inv(Do(st, step, space, key))
  {
    hide Inv, MessageOk, QueueMessage, QueueControl, OnAck, OnPoll, OnPeerClose, Disconnect;
    match step
    case Text(shared, opcode, mask, data) =>
      NewMessageOk(shared, opcode, mask, data);
      QueueMessageKeeps(st.s, NewMessage(shared, opcode, mask, data), space, key, st.acked);
    case SendControlFrame(opcode, payload) =>
      QueueControlKeeps(st.s, NewControl(opcode, payload), space, key, st.acked);
    case Ack(len) => AckKeeps(st, len, space, key);
    case Poll(pingDue) => PollKeeps(st, pingDue, space, key);
    case PeerClose(payload) => PeerCloseKeeps(st, payload, space, key);
    case ConnectionLost => DisconnectKeeps(st.s, st.acked, st.acked);
  }

  /** A step together with the room in the TCP window, and a masking key, at that moment. */
  datatype Moment = Moment(step: Step, space: nat, key: seq<byte>)

  ghost predicate Legal(st: State, run: seq<Moment>)
    decreases |run|
  {
    run == [] || (
      Enabled(st, run[0].step) && run[0].space < 0x1_0000 && |run[0].key| == 4
      && Legal(Do(st, run[0].step, run[0].space, run[0].key), run[1..]))
  }

  ghost function Run(st: State, run: seq<Moment>): State
    requires Legal(st, run)
    decreases |run|
  {
    if run == [] then st else Run(Do(st, run[0].step, run[0].space, run[0].key), run[1..])
  }

  lemma {:induction false} RunKeepsInv(st: State, run: seq<Moment>)
    requires Inv(st) && Legal(st, run)
    ensures Inv(Run(st, run))
    decreases |run|
  {
    hide Inv, Do;
    if run != [] {
      StepKeepsInv(st, run[0].step, run[0].space, run[0].key);
      RunKeepsInv(Do(st, run[0].step, run[0].space, run[0].key), run[1..]);
    }
  }

  lemma InitialInv()
    ensures Inv(State(FRESH, 0))
  {
  }
}
