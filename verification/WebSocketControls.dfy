/** What the receiver does with control frames that end a connection or are cut, and with the mask. */
module WebSocketControls {
  import opened Numbers
  import opened Buffers
  import opened Bytes
  import opened WebSocketFrame
  import opened WebSocketReceiver
  import opened WebSocketRoundTrip

  /** Byte `i` of the data is masked with byte `i` modulo 4 of the key (section 5.3 of RFC 6455). */
  lemma {:induction false} MaskedByte(key: seq<byte>, payload: seq<byte>, at: nat, i: nat)
    requires |key| == 4 && i < |payload|
    ensures Masked(key, payload, at)[i] == Xor(payload[i], key[(at + i) % 4])
  {
    hide Xor;
    if i > 0 { MaskedByte(key, payload[1..], at + 1, i - 1); }
  }

  /** The status code of a close frame: the first two bytes, big-endian, reported above 1001. */
  function Reason(payload: seq<byte>): seq<Event> {
    if |payload| >= 2 && 256 * (payload[0] as int) + payload[1] > 1001
    then [CloseReason(256 * (payload[0] as int) + payload[1], payload[2..])] else []
  }

  lemma WholeFrame(r: Receiver, f: Frame, tail: seq<byte>)
    requires Valid(r) && !r.inFrame && ValidFrame(f) && |f.payload| < 126
    ensures var n := r.(info := InfoOf(f), index := 0);
      OnePass(r, Encoded(f) + tail) == if Stops(n, f.payload) then Stop(Ran, Last(n, f.payload))
                                       else Go(Last(n, f.payload), |Encoded(f)|)
  {
    hide Masked, Header, Last, Stops;
    var m := Masked(f.key, f.payload, 0);
    assert Encoded(f) + tail == Header(f) + (m + tail);
    ParsedHeader(f, m + tail);
    assert (Header(f) + (m + tail))[|Header(f)|..] == m + tail;
    assert (m + tail)[..|m|] == m;
    MaskedTwice(f.key, f.payload, 0);
  }

  lemma Continues(r: Receiver, f: Frame, tail: seq<byte>, n: Receiver)
    requires Valid(r) && ValidFrame(f) && OnePass(r, Encoded(f) + tail) == Go(n, |Encoded(f)|)
    ensures OnData(r, Encoded(f) + tail) == OnData(n, tail)
  {
    hide OnePass;
    assert (Encoded(f) + tail)[|Encoded(f)|..] == tail;
    OnDataByPass(r, Encoded(f) + tail);
  }

  /** The first close frame is answered with its own payload, and its reason reported. */
  lemma FirstCloseIsAnswered(r: Receiver, f: Frame, tail: seq<byte>)
    requires Valid(r) && !r.inFrame && ValidFrame(f) && |f.payload| < 126 && f.opcode == 8
    requires |f.payload| != 1 && r.status != Disconnecting
    ensures var n := r.(info := InfoOf(f), index := 0, status := Disconnecting,
                        events := r.events + Reason(f.payload) + [QueueControl(8, f.payload)]);
      Valid(n) && OnData(r, Encoded(f) + tail) == OnData(n, tail)
  {
    hide OnData, OnePass;
    WholeFrame(r, f, tail);
    Continues(r, f, tail, Last(r.(info := InfoOf(f), index := 0), f.payload));
  }

  /** A close frame after one that was answered closes the connection; what is left of the buffer
      is dropped. */
  lemma SecondCloseEnds(r: Receiver, f: Frame, tail: seq<byte>)
    requires Valid(r) && !r.inFrame && ValidFrame(f) && |f.payload| < 126 && f.opcode == 8
    requires |f.payload| != 1 && r.status == Disconnecting
    ensures OnData(r, Encoded(f) + tail) == (Ran, r.(info := InfoOf(f), index := 0, status := Disconnected,
      events := r.events + Reason(f.payload) + [CloseTcp]))
  {
    hide OnePass;
    WholeFrame(r, f, tail);
    OnDataByPass(r, Encoded(f) + tail);
  }

  /** A close frame with half a status code is refused, whatever the status, and the rest of the
      buffer is dropped. */
  lemma HalfACodeIsRefused(r: Receiver, f: Frame, tail: seq<byte>)
    requires Valid(r) && !r.inFrame && ValidFrame(f) && f.opcode == 8 && |f.payload| == 1
    ensures OnData(r, Encoded(f) + tail)
      == (Ran, r.(info := InfoOf(f), index := 0, events := r.events + [InvalidClose]))
  {
    hide OnePass;
    WholeFrame(r, f, tail);
    OnDataByPass(r, Encoded(f) + tail);
  }

  /** Pings are answered with their payload, pongs reported unless they are the keep-alive's, and
      other control frames skipped. */
  lemma ControlIsHandled(r: Receiver, f: Frame, tail: seq<byte>)
    requires Valid(r) && !r.inFrame && ValidFrame(f) && |f.payload| < 126 && f.opcode > 8
    ensures var n := r.(info := InfoOf(f), index := 0,
                        events := r.events + if f.opcode == 9 then [QueueControl(10, f.payload)]
                            else if f.opcode == 10 && f.payload != PING_PAYLOAD then [PongReceived(f.payload)]
                            else []);
      Valid(n) && OnData(r, Encoded(f) + tail) == OnData(n, tail)
  {
    hide OnData, OnePass;
    WholeFrame(r, f, tail);
    assert r.events + [] == r.events;
    Continues(r, f, tail, Last(r.(info := InfoOf(f), index := 0), f.payload));
  }

  lemma Parts(f: Frame, k: nat)
    requires ValidFrame(f) && 0 < k < |f.payload|
    ensures var m := Masked(f.key, f.payload, 0);
      && Encoded(f) == Header(f) + m[..k] + m[k..] && |m| == |f.payload|
      && Masked(f.key, m[..k], 0) == f.payload[..k] && Masked(f.key, m[k..], k) == f.payload[k..]
  {
    hide Masked, Header;
    var m := Masked(f.key, f.payload, 0);
    MaskedPart(f.key, f.payload, 0, k);
    MaskedPart(f.key, f.payload, k, |f.payload|);
    MaskedTwice(f.key, f.payload[..k], 0);
    MaskedTwice(f.key, f.payload[k..], k);
    assert m[0..k] == m[..k] && m[k..|f.payload|] == m[k..];
    assert f.payload[0..k] == f.payload[..k] && f.payload[k..|f.payload|] == f.payload[k..];
    assert Header(f) + (m[..k] + m[k..]) == Header(f) + m[..k] + m[k..];
  }

  /** A ping whose payload is cut by the end of a TCP buffer: the first part reaches the handler as
      data, and only the second part is answered. */
  lemma CutPingIsData(r: Receiver, f: Frame, k: nat)
    requires Valid(r) && !r.inFrame && ValidFrame(f) && f.opcode == 9 && 0 < k < |f.payload| < 126
    ensures var (outcome, n) := Feed(r, [Encoded(f)[..|Header(f)| + k], Encoded(f)[|Header(f)| + k..]]);
      && outcome == Ran && !n.inFrame
      && n.events == r.events + [Data(InfoOf(f), 0, 9, 0, f.payload[..k]), QueueControl(10, f.payload[k..])]
  {
    hide Masked, Header;
    var m := Masked(f.key, f.payload, 0);
    Parts(f, k);
    var a, b := Encoded(f)[..|Header(f)| + k], Encoded(f)[|Header(f)| + k..];
    assert a == Header(f) + m[..k] && b == m[k..];
    var n1 := FirstPart(r, f, k);
    assert OnePass(n1, b) == Go(Last(n1, f.payload[k..]), |b|) by { assert b[..|b|] == b; }
    var n2 := Last(n1, f.payload[k..]);
    OnDataByPass(n1, b);
    assert OnData(n2, b[|b|..]) == (Ran, n2);
    FeedTwo(r, a, b);
  }

  lemma FirstPart(r: Receiver, f: Frame, k: nat) returns (n: Receiver)
    requires Valid(r) && !r.inFrame && ValidFrame(f) && f.opcode == 9 && 0 < k < |f.payload| < 126
    ensures OnData(r, Header(f) + Masked(f.key, f.payload, 0)[..k]) == (Ran, n) && Valid(n)
    ensures n == r.(info := InfoOf(f), index := k, inFrame := true, messageOpcode := 9, num := 0,
                    events := r.events + [Data(InfoOf(f), 0, 9, 0, f.payload[..k])])
  {
    hide Masked, Header;
    var first := Masked(f.key, f.payload, 0)[..k];
    Parts(f, k);
    ParsedHeader(f, first);
    assert (Header(f) + first)[|Header(f)|..] == first && first[..k] == first;
    OnDataByPass(r, Header(f) + first);
    n := OnData(r, Header(f) + first).1;
  }

  lemma FeedTwo(r: Receiver, a: seq<byte>, b: seq<byte>)
    requires Valid(r) && OnData(r, a).0 == Ran
    ensures Feed(r, [a, b]) == OnData(OnData(r, a).1, b)
  {
    var n := OnData(r, a).1;
    assert [a, b][1..] == [b] && [b][1..] == [];
    assert Feed(n, [b]) == OnData(n, b) by {
      var (outcome, n2) := OnData(n, b);
      assert outcome == Ran ==> Feed(n2, [b][1..]) == (Ran, n2);
    }
  }
}
