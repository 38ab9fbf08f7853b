/**
 The receiving half of a WebSocket client: `_onData` takes TCP buffers as they come, parses
 frame headers, unmasks payload in place and reports each piece of payload as an event.
 */
module WebSocketReceiver {
  import opened Numbers
  import opened Wrappers
  import opened Bytes
  import opened WebSocketFrame

  /** Event handler calls, control frames that are queued in reply, and a TCP close. */
  datatype Event =
    | Data(info: FrameInfo, index: nat, messageOpcode: nat, num: nat, chunk: seq<byte>)
    | CloseReason(code: nat, text: seq<byte>)
    | PongReceived(chunk: seq<byte>)
    | QueueControl(opcode: nat, payload: seq<byte>)
    | InvalidClose
    | CloseTcp

  /** `inFrame` is `_pstate`; `info`, `index`, `messageOpcode` and `num` are `_pinfo`. */
  datatype Receiver = Receiver(
    inFrame: bool, info: FrameInfo, index: nat, messageOpcode: nat, num: nat, status: Status, events: seq<Event>)

  /** `HeaderCut`: a header is not complete in its buffer, and the code reads past the end.
      `TooLong`: a frame of 2^32 bytes or more, which is not part of this model. */
  datatype Outcome = Ran | HeaderCut | TooLong

  const SIZE_LIMIT: nat := 0x1_0000_0000

  /** Part of a frame: only the first part of a frame updates the message opcode and frame number. */
  function Partial(r: Receiver, chunk: seq<byte>): (n: Receiver) {
    var opcode := if r.index == 0 && r.info.opcode != 0 then r.info.opcode else r.messageOpcode;
    var num := if r.index == 0 then (if r.info.opcode != 0 then 0 else r.num + 1) else r.num;
    r.(inFrame := true, messageOpcode := opcode, num := num, index := r.index + |chunk|,
       events := r.events + [Data(r.info, r.index, opcode, num, chunk)])
  }

  function ClosingReason(chunk: seq<byte>): seq<Event> {
    if |chunk| < 2 then [] else
      var code: nat := 256 * (chunk[0] as int) + chunk[1];
      if code > 1001 then [CloseReason(code, chunk[2..])] else []
  }

  /** A close frame: the first one is answered, a second one ends the connection. */
  function Closed(r: Receiver, chunk: seq<byte>): Receiver {
    if |chunk| == 1 then r.(events := r.events + [InvalidClose])
    else if r.status == Disconnecting then
      r.(status := Disconnected, events := r.events + ClosingReason(chunk) + [CloseTcp])
    else
      r.(status := Disconnecting, events := r.events + ClosingReason(chunk) + [QueueControl(WS_DISCONNECT, chunk)])
  }

  /** The last part of a frame. */
  function Last(r: Receiver, chunk: seq<byte>): (n: Receiver) {
    var n := r.(inFrame := false);
    if r.info.opcode == WS_DISCONNECT then Closed(n, chunk)
    else if r.info.opcode == WS_PING then n.(events := r.events + [QueueControl(WS_PONG, chunk)])
    else if r.info.opcode == WS_PONG then
      if chunk != PING_PAYLOAD then n.(events := r.events + [PongReceived(chunk)]) else n
    else if r.info.opcode < 8 then
      n.(events := r.events + [Data(r.info, r.index, r.messageOpcode, r.num, chunk)])
    else n
  }

  /** A close frame that is invalid, or that ends the connection, ends the loop too. */
  predicate Stops(r: Receiver, chunk: seq<byte>) {
    r.info.opcode == WS_DISCONNECT && (|chunk| == 1 || r.status == Disconnecting)
  }

  /** Between buffers, and with a key as long as the masked flag says. */
  predicate Valid(r: Receiver) {
    |r.info.key| == (if r.info.masked then 4 else 0) && (r.inFrame ==> r.index < r.info.len < SIZE_LIMIT)
  }

  /** One pass of the loop of `_onData`: it ends the loop, or goes on after `used` bytes. */
  datatype Pass = Stop(outcome: Outcome, r: Receiver) | Go(r: Receiver, used: nat)

  /** The current frame takes what it needs of the payload bytes `b`. */
  function Payload(r: Receiver, b: seq<byte>): (p: Pass)
    requires Valid(r.(inFrame := false)) && r.index <= r.info.len < SIZE_LIMIT
    ensures Valid(p.r) && (p.Go? ==> p.used == Min(r.info.len - r.index, |b|))
  {
    var n := Min(r.info.len - r.index, |b|);
    var chunk := Masked(r.info.key, b[..n], r.index);
    if n + r.index < r.info.len then Go(Partial(r, chunk), n)
    else if Stops(r, chunk) then Stop(Ran, Last(r, chunk))
    else Go(Last(r, chunk), n)
  }

  function After(p: Pass, size: nat): Pass {
    if p.Go? then Go(p.r, size + p.used) else p
  }

  function OnePass(r: Receiver, b: seq<byte>): (p: Pass)
    requires Valid(r) && b != []
    ensures Valid(p.r) && (p.Go? ==> 0 < p.used <= |b|)
  {
    if r.inFrame then Payload(r, b) else
      var h := ParseHeader(b);
      if h.CutShort? then Stop(HeaderCut, r)
      else if h.info.len >= SIZE_LIMIT then Stop(TooLong, r)
      else After(Payload(r.(info := h.info, index := 0), b[h.size..]), h.size)
  }

  function OnData(r: Receiver, b: seq<byte>): (result: (Outcome, Receiver))
    requires Valid(r)
    ensures Valid(result.1)
    decreases |b|
  {
    if b == [] then (Ran, r) else
      match OnePass(r, b)
      case Stop(outcome, n) => (outcome, n)
      case Go(n, used) => OnData(n, b[used..])
  }

  lemma OnDataByPass(r: Receiver, b: seq<byte>)
    requires Valid(r) && b != []
    ensures var p := OnePass(r, b);
      OnData(r, b) == if p.Stop? then (p.outcome, p.r) else OnData(p.r, b[p.used..])
  {
  }

  /** The buffers of a connection, until the code reads past one of them. */
  function Feed(r: Receiver, buffers: seq<seq<byte>>): (Outcome, Receiver)
    requires Valid(r)
    decreases |buffers|
  {
    if buffers == [] then (Ran, r) else
      var (outcome, n) := OnData(r, buffers[0]);
      if outcome == Ran then Feed(n, buffers[1..]) else (outcome, n)
  }

  // ----- The client -----

  /** The receiving fields of AsyncWebSocketClient. */
  class AsyncWebSocketClient {
    var inFrame: bool
    var info: FrameInfo
    var index: nat
    var messageOpcode: nat
    var num: nat
    var status: Status
    var events: seq<Event>

    function View(): Receiver
      reads this
    {
      Receiver(inFrame, info, index, messageOpcode, num, status, events)
    }

    constructor ()
      ensures Valid(View()) && View() == FRESH
    {
      inFrame, info, index := false, FRESH.info, 0;
      messageOpcode, num, status, events := 0, 0, Connected, [];
    }

    /** Unmasks `n` bytes of the buffer in place. */
    method Unmask(data: array<byte>, from: nat, n: nat)
      requires from + n <= data.Length && |info.key| == if info.masked then 4 else 0
      modifies data
      ensures data[from..from + n] == Masked(info.key, old(data[from..from + n]), index)
      ensures data[from + n..] == old(data[from + n..])
    {
      if info.masked {
        MaskInPlace(data, from, n, info.key, index);
      }
    }

    method TakePart(data: array<byte>, from: nat, n: nat)
      requires from + n <= data.Length
      modifies this
      ensures View() == Partial(old(View()), data[from..from + n])
    {
      inFrame := true;
      if index == 0 {
        if info.opcode != 0 {
          messageOpcode, num := info.opcode, 0;
        } else {
          num := num + 1;
        }
      }
      events := events + [Data(info, index, messageOpcode, num, data[from..from + n])];
      index := index + n;
    }

    method TakeClose(data: array<byte>, from: nat, n: nat)
      requires from + n <= data.Length
      modifies this
      ensures View() == Closed(old(View()), data[from..from + n])
    {
      if n >= 2 {
        var code := 256 * (data[from] as int) + data[from + 1];
        if code > 1001 {
          assert data[from..from + n][2..] == data[from + 2..from + n];
          events := events + [CloseReason(code, data[from + 2..from + n])];
        }
      } else if n == 1 {
        events := events + [InvalidClose];
        return;
      }
      if status == Disconnecting {
        status := Disconnected;
        events := events + [CloseTcp];
      } else {
        status := Disconnecting;
        events := events + [QueueControl(WS_DISCONNECT, data[from..from + n])];
      }
    }

    method TakeLast(data: array<byte>, from: nat, n: nat)
      requires from + n <= data.Length
      modifies this
      ensures View() == Last(old(View()), data[from..from + n])
    {
      inFrame := false;
      if info.opcode == WS_DISCONNECT {
        TakeClose(data, from, n);
      } else if info.opcode == WS_PING {
        events := events + [QueueControl(WS_PONG, data[from..from + n])];
      } else if info.opcode == WS_PONG {
        if data[from..from + n] != PING_PAYLOAD {
          events := events + [PongReceived(data[from..from + n])];
        }
      } else if info.opcode < 8 {
        events := events + [Data(info, index, messageOpcode, num, data[from..from + n])];
      }
    }

    /** Gives the payload bytes from `from` on to the current frame. */
    method HandlePayload(data: array<byte>, from: nat) returns (stopped: bool, used: nat)
      requires Valid(View().(inFrame := false)) && index <= info.len < SIZE_LIMIT
      requires from <= data.Length
      modifies this, data
      ensures from + used <= data.Length && data[from + used..] == old(data[from + used..])
      ensures var p := Payload(old(View()), old(data[from..]));
        p == if stopped then Stop(Ran, View()) else Go(View(), used)
    {
      hide Masked;
      ghost var rest := data[from..];
      used := Min(info.len - index, data.Length - from);
      assert rest[..used] == data[from..from + used];
      ghost var before, chunk := View(), Masked(info.key, rest[..used], index);
      Unmask(data, from, used);
      assert View() == before && data[from..from + used] == chunk && |chunk| == used;
      stopped := false;
      if index + used < info.len {
        TakePart(data, from, used);
      } else {
        stopped := info.opcode == WS_DISCONNECT && (used == 1 || status == Disconnecting);
        TakeLast(data, from, used);
      }
    }

    method HandlePass(data: array<byte>, at: nat) returns (outcome: Option<Outcome>, used: nat)
      requires at < data.Length && Valid(View())
      modifies this, data
      ensures at + used <= data.Length && data[at + used..] == old(data[at + used..])
      ensures OnePass(old(View()), old(data[at..])) ==
        if outcome.Some? then Stop(outcome.value, View()) else Go(View(), used)
    {
      hide Payload;
      var size := 0;
      if !inFrame {
        var h := ParseHeader(data[at..]);
        if h.CutShort? { return Some(HeaderCut), 0; }
        if h.info.len >= SIZE_LIMIT { return Some(TooLong), 0; }
        info, index, size := h.info, 0, h.size;
      }
      assert data[at + size..] == data[at..][size..];
      var stopped, n := HandlePayload(data, at + size);
      outcome, used := if stopped then Some(Ran) else None, size + n;
    }

    method HandleData(data: array<byte>) returns (outcome: Outcome)
      requires Valid(View())
      modifies this, data
      ensures (outcome, View()) == OnData(old(View()), old(data[..]))
    {
      hide OnePass;
      var at := 0;
      while at < data.Length
        invariant 0 <= at <= data.Length && Valid(View())
        invariant data[at..] == old(data[at..])
        invariant OnData(View(), data[at..]) == OnData(old(View()), old(data[..]))
      {
        OnDataByPass(View(), data[at..]);
        ghost var rest := data[at..];
        var stop, used := HandlePass(data, at);
        if stop.Some? { return stop.value; }
        assert rest[used..] == data[at + used..];
        at := at + used;
      }
      outcome := Ran;
    }
  }

  const FRESH := Receiver(false, FrameInfo(false, 0, false, 0, []), 0, 0, 0, Connected, [])
}
