/**
 What the sending half of a WebSocket client keeps over every run: the bytes in flight are
 those of the finished head control and of the first message's frame, every message goes out
 as one fragmented message (section 5.4 of RFC 6455), and every control at most once.
 */
module WebSocketAccounting {
  import opened Bytes
  import opened WebSocketFrame
  import opened WebSocketSender
  import opened WebSocketState
  import opened WebSocketSteps

  /** In every run, while the connection is open, the bytes handed to TCP and not acknowledged
      are the finished head control, if any, and what the first message has sent beyond what it
      was credited with. Queued controls were written once if finished, and never otherwise;
      message frames follow each other without interleaving. */
  lemma AccountsBalance(run: seq<Moment>)
    requires Legal(State(FRESH, 0), run)
    ensures var st := Run(State(FRESH, 0), run);
      var s := st.s;
      && (s.hasClient ==>
           InFlight(st) == (if HeadFinished(s) then ControlLength(s.controls[0]) else 0)
                           + (if s.messages != [] then s.messages[0].ack - s.messages[0].acked else 0))
      && ControlsOf(s.wire) == ControlFrames(s.answered)
          + (if HeadFinished(s) then [ControlFrame(s.controls[0])] else [])
      && DataOf(s.wire) == FramesOf(s.retired) + FrontFrames(s)
      && (forall i :: 0 < i < |s.controls| ==> !s.controls[i].finished)
      && (forall i :: 0 < i < |s.messages| ==> s.messages[i].frames == [])
  {
    RunKeepsInv(State(FRESH, 0), run);
  }

  /** A message that has left the queue was sent as one complete fragmented message, and all
      its wire bytes were acknowledged; an empty one was never sent. */
  lemma RetiredAreComplete(run: seq<Moment>, i: nat)
    requires Legal(State(FRESH, 0), run) && i < |Run(State(FRESH, 0), run).s.retired|
    ensures var m := Run(State(FRESH, 0), run).s.retired[i];
      && Fragments(m.frames, m.opcode, m.data, |m.data|)
      && m.acked == WireSize(m.frames)
      && (m.data == [] <==> m.frames == [])
  {
    RunKeepsInv(State(FRESH, 0), run);
    NoFramesNothingSent(Run(State(FRESH, 0), run).s.retired[i]);
  }

  predicate Unfinished(m: Message) {
    m.sent < |m.data| || m.acked < m.ack
  }

  /** And it leaves as soon as they are: after an acknowledgement the first message, unless it
      is empty, still has data to send or wire bytes to be acknowledged. */
  lemma CompleteMessagesLeave(run: seq<Moment>, len: nat, space: nat, key: seq<byte>)
    requires Legal(State(FRESH, 0), run) && space < 0x1_0000 && |key| == 4
    requires Enabled(Run(State(FRESH, 0), run), Ack(len)) && !Closes(Run(State(FRESH, 0), run).s)
    ensures var s := Do(Run(State(FRESH, 0), run), Ack(len), space, key).s;
      s.messages != [] && s.messages[0].data != [] ==> Unfinished(s.messages[0])
  {
    RunKeepsInv(State(FRESH, 0), run);
    var st := Run(State(FRESH, 0), run);
    AcknowledgeKeeps(st.s, len, st.acked);
    NoCompleteFront(CreditFront(Acknowledge(st.s), Remainder(st.s, len)), space, key, st.acked + len);
  }

  lemma NoCompleteFront(s: Sender, space: nat, key: seq<byte>, acked: nat)
    requires Inv(State(s, acked)) && s.hasClient && space < 0x1_0000 && |key| == 4
    ensures var n := RunQueue(s, space, key);
      n.messages != [] && n.messages[0].data != [] ==> Unfinished(n.messages[0])
  {
    hide Fragments, WireSize, WireOk, RetiredOk, Retire, SendMessage;
    RetireKeeps(s, acked);
    var r := Retire(s);
    if r.messages != [] && r.messages[0].data != [] {
      var m := r.messages[0];
      assert MessageOk(m);
      FragmentsBound(m.frames, m.opcode, m.data, m.sent);
      assert Unfinished(m);
      if BetweenFrames(m) && Window(space) > 0 { NextFrameAdds(m, Window(space), key); }
    }
  }

  // ----- No message is lost or overtakes another -----

  /** The messages accepted so far, first those that have left the queue. */
  function Accepted(s: Sender): (r: seq<(nat, seq<byte>)>)
    ensures |r| == |s.retired| + |s.messages|
  {
    var all := s.retired + s.messages;
    seq(|all|, i requires 0 <= i < |all| => (all[i].opcode, all[i].data))
  }

  lemma {:induction false} RetireKeepsAccepted(s: Sender)
    ensures Accepted(Retire(s)) == Accepted(s)
    decreases |s.messages|
  {
    if s.messages != [] && s.messages[0].status != Sending {
      var n := s.(messages := s.messages[1..], retired := s.retired + [s.messages[0]]);
      assert n.retired + n.messages == s.retired + s.messages;
      RetireKeepsAccepted(n);
    }
  }

  lemma RunQueueKeepsAccepted(s: Sender, space: nat, key: seq<byte>)
    ensures Accepted(RunQueue(s, space, key)) == Accepted(s)
  {
    hide Retire, SendMessage, Accepted;
    RetireKeepsAccepted(s);
    if s.hasClient { SameAccepted(Retire(s), RunQueue(s, space, key)); }
  }

  lemma SameAccepted(s: Sender, n: Sender)
    requires n.retired == s.retired && |n.messages| == |s.messages|
    requires forall i :: 0 <= i < |s.messages| ==>
      n.messages[i].data == s.messages[i].data && n.messages[i].opcode == s.messages[i].opcode
    ensures Accepted(n) == Accepted(s)
  {
  }

  lemma CreditKeepsAccepted(s: Sender, len: nat)
    ensures Accepted(CreditFront(Acknowledge(s), len)) == Accepted(s) == Accepted(Disconnect(Acknowledge(s)))
  {
  }

  /** A message is accepted at the end of the queue exactly if the client is connected, does not
      lag and has fewer than 32 messages queued; no other step adds, drops or reorders one. */
  lemma MessagesKeepTheirOrder(st: State, step: Step, space: nat, key: seq<byte>)
    requires Enabled(st, step)
    ensures var s := st.s;
      Accepted(Do(st, step, space, key).s) ==
        if step.Text? && s.status == Connected && !s.lagging && |s.messages| < HIGH_WATER
        then Accepted(s) + [(step.opcode % 8, step.data)] else Accepted(s)
  {
    hide RunQueue, CreditFront, Acknowledge;
    var s := st.s;
    match step
    case Text(shared, opcode, mask, data) =>
      RunQueueKeepsAccepted(s.(messages := s.messages + [NewMessage(shared, opcode, mask, data)]), space, key);
    case SendControlFrame(opcode, payload) =>
      RunQueueKeepsAccepted(s.(controls := s.controls + [NewControl(opcode, payload)]), space, key);
    case Ack(len) =>
      CreditKeepsAccepted(s, Remainder(s, len));
      RunQueueKeepsAccepted(CreditFront(Acknowledge(s), Remainder(s, len)), space, key);
    case Poll(_) =>
      RunQueueKeepsAccepted(s, space, key);
      RunQueueKeepsAccepted(s.(controls := s.controls + [NewControl(WS_PING, PING_PAYLOAD)]), space, key);
    case PeerClose(payload) =>
      RunQueueKeepsAccepted(s.(status := WebSocketFrame.Disconnecting,
                               controls := s.controls + [NewControl(WS_DISCONNECT, payload)]), space, key);
    case ConnectionLost =>
  }

  // ----- Acknowledgements that split a control -----

  /** How many bytes of the head control an acknowledgement leaves out; none if it covers it. */
  function Missing(s: Sender, len: nat): int
    requires s.controls != []
  {
    ControlLength(s.controls[0]) - len
  }

  /** The first message has acknowledged bytes to lend. */
  predicate CanLend(s: Sender, bytes: int) {
    s.messages != [] && s.messages[0].status == Sending && s.messages[0].acked >= bytes
  }

  /** An acknowledgement that ends inside the head control keeps the books exactly if the first
      message already has enough acknowledged bytes to lend. */
  lemma SplitControlAck(st: State, len: nat, space: nat, key: seq<byte>)
    requires Inv(st) && st.s.hasClient && HeadFinished(st.s) && !Closes(st.s) && space < 0x1_0000 && |key| == 4
    requires 0 < len <= InFlight(st)
    ensures Balanced(State(OnAck(st.s, len, space, key), st.acked + len)) <==>
      Missing(st.s, len) <= 0 || CanLend(st.s, Missing(st.s, len))
  {
    hide Inv, QueuesOk, WireOk, RetiredOk, WireSize, Acknowledge, CreditFront, Remainder, RunQueue, CanLend, Balanced,
      InFlight;
    var s, missing := st.s, Missing(st.s, len);
    if missing <= 0 {
      AcknowledgeKeeps(s, len, st.acked);
      RunQueueKeeps(CreditFront(Acknowledge(s), Remainder(s, len)), space, key, st.acked + len);
      InvBalanced(State(OnAck(s, len, space, key), st.acked + len));
    } else {
      BorrowedCredit(s, len, missing, space, key, st.acked);
    }
  }

  lemma InvBalanced(st: State)
    requires Inv(st)
    ensures Balanced(st)
  {
  }

  /** The first message after it has been credited with less than nothing. */
  function Borrower(m: Message, missing: nat): Message
    requires missing <= SIZE_LIMIT
  {
    AckMessage(m, SIZE_LIMIT - missing)
  }

  lemma BorrowedCredit(s: Sender, len: nat, missing: nat, space: nat, key: seq<byte>, acked: nat)
    requires Inv(State(s, acked)) && s.hasClient && HeadFinished(s) && !Closes(s) && space < 0x1_0000 && |key| == 4
    requires missing > 0 && len + missing == ControlLength(s.controls[0])
    ensures Balanced(State(OnAck(s, len, space, key), acked + len)) <==> CanLend(s, missing)
  {
    hide MessageOk, WireSize, RetiredOk, DataOf, ControlsOf, AckMessage, ControlFrames, FramesOf, RunQueue, Window,
      Transmit;
    var n := CreditFront(Acknowledge(s), Remainder(s, len));
    assert ControlOk(s.controls[0]) && Remainder(s, len) == SIZE_LIMIT - missing;
    assert n.hasClient && n.wire == s.wire && n.controls == s.controls[1..];
    if s.messages == [] {
      AfterRetiring(n, space, key);
      GapWithoutMessage(s, n, len, missing, space, key, acked);
    } else {
      var m := s.messages[0];
      WrappedCredit(m, missing);
      assert n.messages == [Borrower(m, missing)] + s.messages[1..];
      if Borrower(m, missing).status == Sending {
        WaitingBorrower(n, space, key);
        LentBytes(s, n, m, len, missing, acked);
      } else {
        RetiredBorrower(s, n, m, len, missing, space, key, acked);
      }
    }
  }

  lemma WrappedCredit(m: Message, missing: nat)
    requires 0 < missing <= 127 && MessageOk(m)
    ensures var n := Borrower(m, missing);
      && n.ack == m.ack && n.acked == (if m.acked >= missing then m.acked - missing else SIZE_LIMIT + m.acked - missing)
      && n.acked != n.ack && 0 <= m.acked <= m.ack
      && (n.status == Sending ==> m.status == Sending)
      && (n.status != Sending ==> m.status == Sent || m.acked < missing)
  {
    hide Fragments, WireSize;
    FragmentsBound(m.frames, m.opcode, m.data, m.sent);
  }

  /** A borrower is never between frames: nothing is sent before its bytes come back. */
  lemma WaitingBorrower(n: Sender, space: nat, key: seq<byte>)
    requires n.messages != [] && n.messages[0].status == Sending && !BetweenFrames(n.messages[0])
    ensures RunQueue(n, space, key) == n
  {
  }

  lemma LentBytes(s: Sender, n: Sender, m: Message, len: nat, missing: nat, acked: nat)
    requires Balanced(State(s, acked)) && s.hasClient && HeadFinished(s)
    requires len + missing == ControlLength(s.controls[0]) && missing > 0
    requires s.messages != [] && m == s.messages[0] && m.status == Sending && m.acked <= m.ack
    requires n.hasClient && n.wire == s.wire && !HeadFinished(n) && n.messages != []
    requires n.messages[0].ack == m.ack
    requires n.messages[0].acked == if m.acked >= missing then m.acked - missing else SIZE_LIMIT + m.acked - missing
    ensures Balanced(State(n, acked + len)) <==> CanLend(s, missing)
  {
    hide WireSize;
  }

  // ----- The gap between the accounts and the wire -----

  function Gap(st: State): int {
    InFlight(st) - Pending(st.s)
  }

  /** What is queued can be sent: its head is not finished, its first message not begun. */
  ghost predicate Sendable(s: Sender) {
    && s.hasClient && !HeadFinished(s) && (s.controls != [] ==> ControlOk(s.controls[0]))
    && (s.messages != [] ==> Waiting(s.messages[0]) && MessageOk(s.messages[0]))
  }

  /** Sending adds to both sides. */
  lemma SendingKeepsGap(s: Sender, window: nat, key: seq<byte>, acked: nat)
    requires Sendable(s) && window < 0x1_0000 && |key| == 4
    ensures Gap(State(Transmit(s, window, key), acked)) == Gap(State(s, acked)) && Transmit(s, window, key).hasClient
  {
    hide MessageOk, WireSize, SendMessage, FrameSize;
    if s.controls != [] && window > ControlLength(s.controls[0]) - 1 {
      OneMoreFrame(s.wire, ControlFrame(s.controls[0]));
      ControlFrameSize(s.controls[0]);
    } else if s.messages != [] && window > 0 {
      var m := s.messages[0];
      SendKeepsMessage(m, window, key);
      var n := SendMessage(m, window, key);
      var t := Transmit(s, window, key);
      assert t.messages[0] == n && t.controls == s.controls;
      if |n.frames| > 0 {
        OneMoreFrame(s.wire, n.frames[0]);
        assert t.wire == s.wire + [n.frames[0]] && n.ack == m.ack + FrameSize(n.frames[0]);
      } else {
        assert t.wire == s.wire;
      }
    }
  }

  lemma ControlFrameSize(c: Control)
    requires ControlOk(c)
    ensures FrameSize(ControlFrame(c)) == ControlLength(c)
  {
  }

  lemma AfterRetiring(n: Sender, space: nat, key: seq<byte>)
    requires n.hasClient && n.messages == []
    ensures RunQueue(n, space, key) == Transmit(n, Window(space), key)
  {
  }

  lemma GapWithoutMessage(s: Sender, n: Sender, len: nat, missing: nat, space: nat, key: seq<byte>, acked: nat)
    requires Inv(State(s, acked)) && s.hasClient && HeadFinished(s) && space < 0x1_0000 && |key| == 4
    requires missing > 0 && len + missing == ControlLength(s.controls[0]) && s.messages == []
    requires n.hasClient && n.wire == s.wire && n.controls == s.controls[1..] && n.messages == []
    ensures Gap(State(Transmit(n, Window(space), key), acked + len)) == missing
    ensures Transmit(n, Window(space), key).hasClient
  {
    hide MessageOk, WireSize, RetiredOk, DataOf, ControlsOf, ControlFrames, FramesOf, Transmit;
    assert n.controls != [] ==> n.controls[0] == s.controls[1];
    SendingKeepsGap(n, Window(space), key, acked + len);
  }

  /** A message that is taken for finished leaves with bytes in flight that nothing accounts for. */
  lemma RetiredBorrower(s: Sender, n: Sender, m: Message, len: nat, missing: nat, space: nat, key: seq<byte>,
                        acked: nat)
    requires Inv(State(s, acked)) && s.hasClient && HeadFinished(s) && space < 0x1_0000 && |key| == 4
    requires missing > 0 && len + missing == ControlLength(s.controls[0])
    requires s.messages != [] && m == s.messages[0] && (m.status == Sent || m.acked < missing)
    requires n.hasClient && n.wire == s.wire && n.controls == s.controls[1..]
    requires |n.messages| == |s.messages| && n.messages[1..] == s.messages[1..] && n.messages[0].status != Sending
    ensures !Balanced(State(RunQueue(n, space, key), acked + len)) && !CanLend(s, missing)
  {
    hide MessageOk, WireSize, RetiredOk, DataOf, ControlsOf, ControlFrames, FramesOf, Transmit;
    var t := n.(messages := n.messages[1..], retired := n.retired + [n.messages[0]]);
    assert t.messages != [] ==> t.messages[0] == s.messages[1];
    assert n.controls != [] ==> n.controls[0] == s.controls[1];
    RetiresOne(n);
    AckedBound(m);
    SendingKeepsGap(t, Window(space), key, acked + len);
  }

  lemma AckedBound(m: Message)
    requires MessageOk(m)
    ensures m.acked <= m.ack
  {
  }

  lemma RetiresOne(n: Sender)
    requires n.messages != [] && n.messages[0].status != Sending
    requires (|n.messages| > 1 ==> n.messages[1].status == Sending)
    ensures Retire(n) == n.(messages := n.messages[1..], retired := n.retired + [n.messages[0]])
  {
  }

  /** From the start: a control is sent, and an acknowledgement that covers only a part of it
      leaves the rest of its bytes to be credited to some message. */
  lemma SplitIsReachable(payload: seq<byte>, len: nat, key: seq<byte>) returns (run: seq<Moment>)
    requires 0 < len < |payload| + 2 <= 127 && |key| == 4
    ensures Legal(State(FRESH, 0), run)
    ensures var st := Run(State(FRESH, 0), run);
      && HeadFinished(st.s) && !Closes(st.s) && 0 < len <= InFlight(st) && Missing(st.s, len) > 0
      && !Balanced(State(OnAck(st.s, len, 0, key), st.acked + len))
  {
    hide Do, InFlight, Balanced, CanLend, OnAck;
    run := [Moment(SendControlFrame(WS_PING, payload), 1000, key)];
    var st, n := State(FRESH, 0), PingSent(payload);
    PingIsSent(payload, key);
    assert run[1..] == [] && Legal(n, []) && Run(n, []) == n;
    InitialInv();
    RunKeepsInv(st, run);
    SplitControlAck(n, len, 0, key);
    assert !CanLend(n.s, Missing(n.s, len)) by { NothingToLend(n.s, Missing(n.s, len)); }
  }

  /** A single ping, sent. */
  function PingSent(payload: seq<byte>): State {
    var c := NewControl(WS_PING, payload);
    State(FRESH.(controls := [c.(finished := true)], wire := [ControlFrame(c)]), 0)
  }

  lemma PingIsSent(payload: seq<byte>, key: seq<byte>)
    requires |payload| <= 125
    ensures var step := SendControlFrame(WS_PING, payload);
      Enabled(State(FRESH, 0), step) && Do(State(FRESH, 0), step, 1000, key) == PingSent(payload)
    ensures InFlight(PingSent(payload)) == |payload| + 2
  {
    var c := NewControl(WS_PING, payload);
    OneMoreFrame([], ControlFrame(c));
    ControlFrameSize(c);
    assert WireSize([]) == 0 && [] + [ControlFrame(c)] == [ControlFrame(c)];
  }

  lemma NothingToLend(s: Sender, bytes: int)
    requires s.messages == []
    ensures !CanLend(s, bytes)
  {
  }
}
