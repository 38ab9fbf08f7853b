/**
 The sending half of a WebSocket client as a state machine over calls and callbacks, and the
 invariant of its accounts: what the queues hold, what the wire has seen, what is in flight.
 */
module WebSocketState {
  import opened Bytes
  import opened WebSocketFrame
  import opened WebSocketSender

  /** `acked` counts the bytes that TCP has acknowledged. */
  datatype State = State(s: Sender, acked: nat)

  datatype Step =
    | Text(shared: bool, opcode: nat, mask: bool, data: seq<byte>)
    | SendControlFrame(opcode: nat, payload: seq<byte>)
    | Ack(len: nat)
    | Poll(pingDue: bool)
    | PeerClose(payload: seq<byte>)
    | ConnectionLost

  /** A message that fits in memory: its frames stay below 2^32 bytes even with one byte each. */
  const MEMORY: nat := 0x1000_0000

  function FrameSize(f: Frame): nat {
    HeaderLength(|f.payload|, f.key != []) + |f.payload|
  }

  function WireSize(fs: seq<Frame>): nat {
    if fs == [] then 0 else WireSize(fs[..|fs| - 1]) + FrameSize(fs[|fs| - 1])
  }

  function InFlight(st: State): int {
    WireSize(st.s.wire) - st.acked
  }

  predicate HeadFinished(s: Sender) {
    s.controls != [] && s.controls[0].finished
  }

  /** Acknowledgements cover bytes in flight, and none ends inside a control frame. */
  predicate Enabled(st: State, step: Step) {
    match step
    case Text(_, _, _, data) => |data| < MEMORY
    case SendControlFrame(opcode, _) => opcode in {WS_DISCONNECT, WS_PING, WS_PONG}
    case Ack(len) =>
      && st.s.hasClient && 0 < len <= InFlight(st)
      && (HeadFinished(st.s) ==> len >= ControlLength(st.s.controls[0]))
    case _ => true
  }

  /** One callback or call, at a moment when the TCP window has room for `space` bytes. */
  function Do(st: State, step: Step, space: nat, key: seq<byte>): State
    requires Enabled(st, step)
  {
    var s := st.s;
    match step
    case Text(shared, opcode, mask, data) =>
      st.(s := QueueMessage(s, NewMessage(shared, opcode, mask, data), space, key))
    case SendControlFrame(opcode, payload) => st.(s := QueueControl(s, NewControl(opcode, payload), space, key))
    case Ack(len) => State(OnAck(s, len, space, key), st.acked + len)
    case Poll(pingDue) => st.(s := OnPoll(s, pingDue, space, key))
    case PeerClose(payload) => st.(s := OnPeerClose(s, payload, space, key))
    case ConnectionLost => st.(s := Disconnect(s))
  }

  // ----- Messages -----

  function Payloads(fs: seq<Frame>): seq<byte> {
    if fs == [] then [] else Payloads(fs[..|fs| - 1]) + fs[|fs| - 1].payload
  }

  /** `fs` are the frames of the first `sent` bytes of a message: opcode first, continuation
      after, FIN only on the frame that ends the message. */
  ghost predicate Fragments(fs: seq<Frame>, opcode: nat, data: seq<byte>, sent: nat) {
    && sent <= |data| && Payloads(fs) == data[..sent]
    && forall i :: 0 <= i < |fs| ==>
         && fs[i].opcode == (if i == 0 then opcode else WS_CONTINUATION)
         && (fs[i].final <==> i == |fs| - 1 && sent == |data|)
         && 0 < |fs[i].payload| < 0x1_0000 && (fs[i].key == [] || |fs[i].key| == 4)
  }

  ghost predicate MessageOk(m: Message) {
    && m.opcode < 8 && |m.data| < MEMORY
    && Fragments(m.frames, m.opcode, m.data, m.sent)
    && m.acked <= m.ack == WireSize(m.frames) <= 9 * m.sent
    && (m.status == Sent <==> m.sent == |m.data| && m.acked == m.ack && (m.data != [] || m.status == Sent))
    && m.status != Failed
  }

  /** Nothing of the message has been sent. */
  predicate Waiting(m: Message) {
    m.sent == 0 && m.ack == 0 && m.acked == 0 && m.frames == [] && m.status == Sending
  }

  ghost predicate QueuesOk(s: Sender) {
    && (forall i :: 0 < i < |s.controls| ==> !s.controls[i].finished)
    && (forall i :: 0 <= i < |s.messages| ==> MessageOk(s.messages[i]))
    && (forall i :: 0 < i < |s.messages| ==> Waiting(s.messages[i]))
  }

  /** Retired messages are complete, and all their wire bytes are acknowledged. */
  ghost predicate RetiredOk(s: Sender) {
    forall i :: 0 <= i < |s.retired| ==> MessageOk(s.retired[i]) && s.retired[i].status == Sent
  }

  // ----- What is on the wire -----

  function Pending(s: Sender): int {
    (if HeadFinished(s) then ControlLength(s.controls[0]) else 0)
    + (if s.messages != [] then s.messages[0].ack - s.messages[0].acked else 0)
  }

  function FramesOf(ms: seq<Message>): seq<Frame> {
    if ms == [] then [] else FramesOf(ms[..|ms| - 1]) + ms[|ms| - 1].frames
  }

  function ControlFrames(cs: seq<Control>): seq<Frame> {
    if cs == [] then [] else ControlFrames(cs[..|cs| - 1]) + [ControlFrame(cs[|cs| - 1])]
  }

  function FrontFrames(s: Sender): seq<Frame> {
    if s.messages == [] then [] else s.messages[0].frames
  }

  predicate ControlOk(c: Control) {
    8 <= c.opcode < 16 && |c.payload| <= 125
  }

  /** Messages follow each other frame by frame, and each control was written once, in order. */
  ghost predicate WireOk(s: Sender) {
    && DataOf(s.wire) == FramesOf(s.retired) + FrontFrames(s)
    && ControlsOf(s.wire) == ControlFrames(s.answered) + (if HeadFinished(s) then [ControlFrame(s.controls[0])] else [])
    && (forall i :: 0 <= i < |s.controls| ==> ControlOk(s.controls[i]))
    && (forall i :: 0 <= i < |s.answered| ==> ControlOk(s.answered[i]))
  }

  ghost predicate Balanced(st: State) {
    st.s.hasClient ==> InFlight(st) == Pending(st.s)
  }

  ghost predicate Inv(st: State) {
    QueuesOk(st.s) && RetiredOk(st.s) && WireOk(st.s) && Balanced(st)
  }

  // ----- One frame -----

  lemma FragmentsSnoc(fs: seq<Frame>, opcode: nat, data: seq<byte>, sent: nat, f: Frame)
    requires Fragments(fs, opcode, data, sent) && sent < |data| && (fs == [] <==> sent == 0)
    requires var n := |f.payload|; 0 < n <= |data| - sent && n < 0x1_0000 && f.payload == data[sent..sent + n]
    requires f.final == (sent + |f.payload| == |data|) && f.opcode == (if sent == 0 then opcode else WS_CONTINUATION)
    requires f.key == [] || |f.key| == 4
    ensures Fragments(fs + [f], opcode, data, sent + |f.payload|)
  {
    assert (fs + [f])[..|fs|] == fs;
    assert data[..sent] + f.payload == data[..sent + |f.payload|];
  }

  lemma {:induction false} PayloadsLength(fs: seq<Frame>)
    requires forall i :: 0 <= i < |fs| ==> fs[i].payload != []
    ensures |Payloads(fs)| >= |fs|
  {
    if fs != [] { PayloadsLength(fs[..|fs| - 1]); }
  }

  lemma NoFramesNothingSent(m: Message)
    requires MessageOk(m)
    ensures m.frames == [] <==> m.sent == 0
  {
    PayloadsLength(m.frames);
    if m.frames == [] { assert |m.data[..m.sent]| == 0; }
  }

  ghost predicate WroteAtMostOneFrame(m: Message, n: Message) {
    if |n.frames| == |m.frames| then n.frames == m.frames && n.ack == m.ack
    else
      && |n.frames| == |m.frames| + 1 && n.frames[..|m.frames|] == m.frames
      && n.ack == m.ack + FrameSize(n.frames[|m.frames|]) && n.frames[|m.frames|].opcode < 8
  }

  /** The frame that a message with data left writes, and what it adds to the counters. */
  lemma NextFrameAdds(m: Message, window: nat, key: seq<byte>)
    requires m.acked >= m.ack && m.status == Sending && 0 < window < 0x1_0000 && |key| == 4
    requires m.sent < |m.data| && m.opcode < 8
    ensures var f := NextFrame(m, window, key);
      && 0 < |f.payload| <= |m.data| - m.sent && |f.payload| < 0x1_0000
      && f.payload == m.data[m.sent..m.sent + |f.payload|]
      && f.final == (m.sent + |f.payload| == |m.data|)
      && f.opcode == (if m.sent == 0 then m.opcode else WS_CONTINUATION) && (f.key == [] || |f.key| == 4)
      && 0 < FrameSize(f) <= 8 + |f.payload|
      && SendMessage(m, window, key) ==
           m.(sent := m.sent + |f.payload|, ack := m.ack + FrameSize(f), frames := m.frames + [f])
  {
  }

  lemma SendKeepsMessage(m: Message, window: nat, key: seq<byte>)
    requires MessageOk(m) && BetweenFrames(m) && m.status == Sending && 0 < window < 0x1_0000 && |key| == 4
    ensures var n := SendMessage(m, window, key);
      MessageOk(n) && n.acked == m.acked && WroteAtMostOneFrame(m, n)
  {
    hide Fragments, SendMessage, WireSize;
    FragmentsBound(m.frames, m.opcode, m.data, m.sent);
    if m.sent < |m.data| {
      SendKeepsLongMessage(m, window, key);
    } else {
      NothingToSend(m, window, key);
    }
  }

  lemma SendKeepsLongMessage(m: Message, window: nat, key: seq<byte>)
    requires MessageOk(m) && BetweenFrames(m) && m.status == Sending && 0 < window < 0x1_0000 && |key| == 4
    requires m.sent < |m.data|
    ensures var n := SendMessage(m, window, key);
      MessageOk(n) && n.acked == m.acked && WroteAtMostOneFrame(m, n)
  {
    hide MessageOk, Fragments, NextFrame, FrameSize, SendMessage, WireSize, WroteAtMostOneFrame;
    var f := NextFrame(m, window, key);
    MessageFacts(m);
    NextFrameAdds(m, window, key);
    FragmentsSnoc(m.frames, m.opcode, m.data, m.sent, f);
    OneMoreFrame(m.frames, f);
    OneFrameLater(m, f);
  }

  lemma MessageFacts(m: Message)
    requires MessageOk(m)
    ensures m.opcode < 8 && Fragments(m.frames, m.opcode, m.data, m.sent) && (m.frames == [] <==> m.sent == 0)
  {
    NoFramesNothingSent(m);
  }

  lemma OneFrameLater(m: Message, f: Frame)
    requires MessageOk(m) && BetweenFrames(m) && m.status == Sending && f.opcode < 8
    requires f.payload != [] && 0 < FrameSize(f) <= 8 + |f.payload|
    requires Fragments(m.frames + [f], m.opcode, m.data, m.sent + |f.payload|)
    requires WireSize(m.frames + [f]) == WireSize(m.frames) + FrameSize(f)
    ensures var n := m.(sent := m.sent + |f.payload|, ack := m.ack + FrameSize(f), frames := m.frames + [f]);
      MessageOk(n) && WroteAtMostOneFrame(m, n)
  {
    hide Fragments, WireSize, FrameSize;
    assert (m.frames + [f])[..|m.frames|] == m.frames;
  }

  lemma NothingToSend(m: Message, window: nat, key: seq<byte>)
    requires BetweenFrames(m) && m.status == Sending && m.sent == |m.data|
    ensures SendMessage(m, window, key) == m.(status := Sent)
  {
  }

  lemma FragmentsBound(fs: seq<Frame>, opcode: nat, data: seq<byte>, sent: nat)
    requires Fragments(fs, opcode, data, sent)
    ensures sent <= |data|
  {
  }

  lemma AckKeepsMessage(m: Message, len: nat)
    requires MessageOk(m) && 0 < len <= m.ack - m.acked
    ensures var n := AckMessage(m, len);
      MessageOk(n) && n.acked == m.acked + len && n.ack == m.ack && n.frames == m.frames
  {
    NoFramesNothingSent(m);
    assert m.ack < SIZE_LIMIT;
  }

  // ----- The queues -----

  ghost predicate Kept(s: Sender, n: Sender, acked: nat) {
    Inv(State(s, acked)) ==> Inv(State(n, acked))
  }

  lemma OneMoreFrame(wire: seq<Frame>, f: Frame)
    ensures WireSize(wire + [f]) == WireSize(wire) + FrameSize(f)
    ensures DataOf(wire + [f]) == DataOf(wire) + (if f.opcode < 8 then [f] else [])
    ensures ControlsOf(wire + [f]) == ControlsOf(wire) + (if f.opcode >= 8 then [f] else [])
  {
    assert (wire + [f])[..|wire|] == wire;
  }
}
