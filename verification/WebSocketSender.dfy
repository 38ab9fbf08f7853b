/**
 The sending half of a WebSocket client: control frames and messages wait in two queues, a
 message goes out one frame at a time as the TCP window allows, and acknowledged bytes are
 credited to the control at the head and then to the first message.
 */
module WebSocketSender {
  import opened Numbers
  import opened Bytes
  import opened WebSocketFrame

  datatype MessageStatus = Sending | Sent | Failed

  const SIZE_LIMIT: nat := 0x1_0000_0000
  const HIGH_WATER: nat := 32

  /** A queued message, in its own buffer or in a shared one. `sent`, `ack` and `acked` are the
      counters of the source: payload bytes handed to TCP, wire bytes handed to TCP, and wire
      bytes acknowledged. `frames` records the frames themselves. */
  datatype Message = Message(
    shared: bool, opcode: nat, mask: bool, data: seq<byte>,
    sent: nat, ack: nat, acked: nat, status: MessageStatus, frames: seq<Frame>)

  function NewMessage(shared: bool, opcode: nat, mask: bool, data: seq<byte>): Message {
    Message(shared, opcode % 8, mask, data, 0, 0, 0, Sending, [])
  }

  predicate BetweenFrames(m: Message) {
    m.acked == m.ack
  }

  /** A queued control frame; it stays at the head of its queue until it is acknowledged. */
  datatype Control = Control(opcode: nat, payload: seq<byte>, finished: bool)

  function NewControl(opcode: nat, payload: seq<byte>): Control {
    Control(opcode, if |payload| > 125 then payload[..125] else payload, false)
  }

  function ControlLength(c: Control): nat {
    |c.payload| + 2
  }

  function ControlFrame(c: Control): Frame {
    Frame(true, c.opcode % 16, [], c.payload)
  }

  /** `wire` are the frames handed to TCP; `retired` and `answered` the messages and controls
      that have left the queues. */
  datatype Sender = Sender(
    status: Status, lagging: bool, hasClient: bool, controls: seq<Control>, messages: seq<Message>,
    wire: seq<Frame>, retired: seq<Message>, answered: seq<Control>)

  const FRESH := Sender(Connected, false, true, [], [], [], [], [])

  /** What the TCP window leaves for the payload of a frame. */
  function Window(space: nat): nat {
    if space < 9 then 0 else space - 8
  }

  // ----- Sending -----

  /** The next frame of a message: the rest of it, or as much as the window takes. */
  function NextFrame(m: Message, window: nat, key: seq<byte>): Frame
    requires m.sent <= |m.data|
  {
    var n := Min(|m.data| - m.sent, window);
    Frame(m.sent + n == |m.data|, if n > 0 && m.sent == 0 then m.opcode else WS_CONTINUATION,
          if m.mask && n > 0 then key else [], m.data[m.sent..m.sent + n])
  }

  function SendMessage(m: Message, window: nat, key: seq<byte>): (n: Message)
    ensures n.data == m.data && n.opcode == m.opcode
  {
    if m.status != Sending || m.acked < m.ack then m
    else if m.sent == |m.data| then (if m.shared || m.acked == m.ack then m.(status := Sent) else m)
    else if m.sent > |m.data| then m.(status := Failed)
    else
      var f := NextFrame(m, window, key);
      var n := |f.payload|;
      m.(sent := m.sent + n, ack := m.ack + n + (if n < 126 then 2 else 4) + (if m.mask then 4 else 0),
         frames := m.frames + [f])
  }

  function AckMessage(m: Message, len: nat): Message {
    var acked := (m.acked + len) % SIZE_LIMIT;
    var done := if m.shared then m.sent >= |m.data| && acked >= m.ack else m.sent == |m.data| && acked == m.ack;
    m.(acked := acked, status := if done then Sent else m.status)
  }

  /** Removes finished messages from the head of the queue. */
  function Retire(s: Sender): Sender
    decreases |s.messages|
  {
    if s.messages != [] && s.messages[0].status != Sending then
      Retire(s.(messages := s.messages[1..], retired := s.retired + [s.messages[0]]))
    else s
  }

  function SendControl(s: Sender): Sender
    requires s.controls != []
  {
    var c := s.controls[0];
    if c.finished then s
    else s.(controls := [c.(finished := true)] + s.controls[1..], wire := s.wire + [ControlFrame(c)])
  }

  /** A frame that the first message writes goes to TCP. */
  function SendFront(s: Sender, window: nat, key: seq<byte>): Sender
    requires s.messages != []
  {
    var m := s.messages[0];
    var n := SendMessage(m, window, key);
    s.(messages := [n] + s.messages[1..], wire := s.wire + if |n.frames| > |m.frames| then [n.frames[|m.frames|]]
        else [])
  }

  /** A control goes out only between the frames of the first message. */
  function Transmit(s: Sender, window: nat, key: seq<byte>): Sender {
    var between := s.messages == [] || BetweenFrames(s.messages[0]);
    if s.controls != [] && between && window > ControlLength(s.controls[0]) - 1 then SendControl(s)
    else if s.messages != [] && between && window > 0 then SendFront(s, window, key)
    else s
  }

  function RunQueue(s: Sender, space: nat, key: seq<byte>): Sender {
    if s.hasClient then Transmit(Retire(s), Window(space), key) else s
  }

  /** The callers leave room for the data behind the header: no frame is cut. */
  lemma CallersLeaveRoom(space: nat, n: nat, masked: bool, c: Control)
    ensures 0 < n <= Window(space) ==> HeaderLength(n, masked) + n <= space
    ensures Window(space) > ControlLength(c) - 1 && |c.payload| <= 125 ==>
      HeaderLength(|c.payload|, false) + |c.payload| <= space
  {
  }

  // ----- Callers -----

  function RunIfWritable(s: Sender, space: nat, key: seq<byte>): Sender {
    if s.hasClient && space > 0 then RunQueue(s, space, key) else s
  }

  function QueueMessage(s: Sender, m: Message, space: nat, key: seq<byte>): Sender {
    if s.status != Connected then s
    else if s.lagging || |s.messages| >= HIGH_WATER then s.(lagging := true)
    else RunIfWritable(s.(messages := s.messages + [m]), space, key)
  }

  function QueueControl(s: Sender, c: Control, space: nat, key: seq<byte>): Sender {
    if !s.hasClient then s else RunIfWritable(s.(controls := s.controls + [c]), space, key)
  }

  /** The TCP connection is closed, and its callbacks with it. */
  function Disconnect(s: Sender): Sender {
    s.(hasClient := false, status := Disconnected)
  }

  /** Removes the head control if it was sent. */
  function Acknowledge(s: Sender): Sender {
    if s.controls != [] && s.controls[0].finished then
      s.(controls := s.controls[1..], answered := s.answered + [s.controls[0]])
    else s
  }

  /** The bytes that are left for the first message; the subtraction wraps around. */
  function Remainder(s: Sender, len: nat): nat {
    if s.controls != [] && s.controls[0].finished then (len - ControlLength(s.controls[0])) % SIZE_LIMIT else len
  }

  function CreditFront(s: Sender, len: nat): Sender {
    if len > 0 && s.messages != [] then s.(messages := [AckMessage(s.messages[0], len)] + s.messages[1..]) else s
  }

  function Closes(s: Sender): bool {
    s.controls != [] && s.controls[0].finished && s.status == Disconnecting && s.controls[0].opcode == WS_DISCONNECT
  }

  function OnAck(s: Sender, len: nat, space: nat, key: seq<byte>): Sender {
    if Closes(s) then Disconnect(Acknowledge(s))
    else RunQueue(CreditFront(Acknowledge(s), Remainder(s, len)), space, key)
  }

  function OnPoll(s: Sender, pingDue: bool, space: nat, key: seq<byte>): Sender {
    if !s.hasClient then s
    else if s.lagging then Disconnect(s)
    else if space > 0 && (s.controls != [] || s.messages != []) then RunQueue(s, space, key)
    else if pingDue && s.controls == [] && s.messages == [] && s.status == Connected then
      QueueControl(s, NewControl(WS_PING, PING_PAYLOAD), space, key)
    else s
  }

  /** A close frame of the peer is answered with its own payload. */
  function OnPeerClose(s: Sender, payload: seq<byte>, space: nat, key: seq<byte>): Sender {
    if s.status == Disconnecting then Disconnect(s)
    else QueueControl(s.(status := Disconnecting), NewControl(WS_DISCONNECT, payload), space, key)
  }
}
