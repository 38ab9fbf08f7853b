/** One WebSocket frame and its bytes (section 5.2 of RFC 6455), as the sender writes it. */
module WebSocketFrame {
  import opened Bytes

  const WS_CONTINUATION: nat := 0
  const WS_TEXT: nat := 1
  const WS_BINARY: nat := 2
  const WS_DISCONNECT: nat := 8
  const WS_PING: nat := 9
  const WS_PONG: nat := 10

  /** The payload of keep-alive pings. */
  const PING_PAYLOAD: seq<byte> :=
    [69, 83, 80, 65, 115, 121, 110, 99, 87, 101, 98, 83, 101, 114, 118, 101, 114, 45, 80, 73, 78, 71]

  /** The state of a connection. */
  datatype Status = Disconnected | Connected | Disconnecting

  /** `key` is empty in an unmasked frame; `payload` is the data before masking. */
  datatype Frame = Frame(final: bool, opcode: nat, key: seq<byte>, payload: seq<byte>)

  predicate ValidFrame(f: Frame) {
    f.opcode < 16 && (f.key == [] || (|f.key| == 4 && f.payload != []))
  }

  /** The data frames of a stream: text, binary and continuation. */
  function DataOf(fs: seq<Frame>): seq<Frame> {
    if fs == [] then [] else DataOf(fs[..|fs| - 1]) + if fs[|fs| - 1].opcode < 8 then [fs[|fs| - 1]] else []
  }

  /** Its control frames. */
  function ControlsOf(fs: seq<Frame>): seq<Frame> {
    if fs == [] then [] else ControlsOf(fs[..|fs| - 1]) + if fs[|fs| - 1].opcode >= 8 then [fs[|fs| - 1]] else []
  }

  /** What a length looks like in a header: at most two extension bytes are ever written. */
  function LengthBytes(len: nat): (b: seq<byte>)
    ensures |b| == if len < 126 then 0 else 2
  {
    if len < 126 then [] else [High(len), Low(len)]
  }

  function Low(n: nat): byte { n % 256 }

  function High(n: nat): byte { n / 256 % 256 }

  function Header(f: Frame): (r: seq<byte>)
    requires ValidFrame(f)
    ensures |r| == HeaderLength(|f.payload|, f.key != [])
  {
    HeaderBytes(f.final, f.opcode, f.key, |f.payload|)
  }

  function HeaderBytes(final: bool, opcode: nat, key: seq<byte>, len: nat): (r: seq<byte>)
    requires opcode < 16 && (key == [] || |key| == 4)
    ensures |r| == HeaderLength(len, key != [])
  {
    var short := if len < 126 then len else 126;
    [opcode + (if final then 128 else 0), short + (if key != [] then 128 else 0)] + LengthBytes(len) + key
  }

  function HeaderLength(len: nat, masked: bool): nat {
    2 + (if len < 126 then 0 else 2) + (if masked then 4 else 0)
  }

  function KeyByte(key: seq<byte>, i: nat): byte
    requires |key| == 4
  {
    key[i % 4]
  }

  /** `payload` is the part of a frame's data that begins at offset `at`. */
  function Masked(key: seq<byte>, payload: seq<byte>, at: nat): (r: seq<byte>)
    requires key == [] || |key| == 4
    ensures |r| == |payload|
    ensures key == [] ==> r == payload
  {
    if key == [] then payload
    else if payload == [] then []
    else [Xor(payload[0], KeyByte(key, at))] + Masked(key, payload[1..], at + 1)
  }

  function Encoded(f: Frame): (r: seq<byte>)
    requires ValidFrame(f)
    ensures |r| == HeaderLength(|f.payload|, f.key != []) + |f.payload|
  {
    Header(f) + Masked(f.key, f.payload, 0)
  }

  // ----- Reading a header back -----

  /** What `_onData` knows of a frame. */
  datatype FrameInfo = FrameInfo(final: bool, opcode: nat, masked: bool, len: nat, key: seq<byte>)

  /** The header at the start of a buffer and its length; none if the buffer ends before it does. */
  datatype Parsed = CutShort | Parsed(info: FrameInfo, size: nat)

  function BigEndian(b: seq<byte>): nat {
    if b == [] then 0 else 256 * BigEndian(b[..|b| - 1]) + b[|b| - 1]
  }

  function ExtensionSize(short: nat): nat {
    if short == 126 then 2 else if short == 127 then 8 else 0
  }

  function ParseHeader(b: seq<byte>): (r: Parsed)
    ensures r.Parsed? ==> 2 <= r.size <= |b| && |r.info.key| == if r.info.masked then 4 else 0
  {
    if |b| < 2 then CutShort else
      var short, masked := b[1] % 128, b[1] >= 128;
      var extension := 2 + ExtensionSize(short);
      var size := extension + if masked then 4 else 0;
      if |b| < size then CutShort else
        var len, key := if short >= 126 then BigEndian(b[2..extension]) else short, b[extension..size];
        Parsed(FrameInfo(b[0] >= 128, b[0] % 16, masked, len, key), size)
  }

  function InfoOf(f: Frame): FrameInfo {
    FrameInfo(f.final, f.opcode, f.key != [], |f.payload|, f.key)
  }

  lemma ShortBigEndian(hi: byte, lo: byte)
    ensures BigEndian([hi, lo]) == 256 * hi + lo
  {
    assert [hi, lo][..1] == [hi];
    assert BigEndian([hi]) == 256 * BigEndian([]) + hi by { assert [hi][..0] == []; }
  }

  /** The length of a parsed header is the payload length modulo 2^16 once it is extended. */
  lemma ParsedHeader(f: Frame, rest: seq<byte>)
    requires ValidFrame(f)
    ensures var len := if |f.payload| < 126 then |f.payload| else |f.payload| % 0x1_0000;
      ParseHeader(Header(f) + rest) == Parsed(InfoOf(f).(len := len), |Header(f)|)
  {
    hide LengthBytes, BigEndian, High, Low;
    var h := Header(f);
    var b := h + rest;
    assert b[0] == h[0] && b[1] == h[1];
    var extension := 2 + |LengthBytes(|f.payload|)|;
    assert b[extension..|h|] == f.key;
    if |f.payload| >= 126 {
      assert b[2..4] == LengthBytes(|f.payload|);
      LengthIsReadBack(|f.payload|);
    }
  }

  lemma LengthIsReadBack(n: nat)
    requires n >= 126
    ensures BigEndian(LengthBytes(n)) == n % 0x1_0000
  {
    hide BigEndian;
    ShortBigEndian(High(n), Low(n));
    TwoDigits(n);
  }

  lemma TwoDigits(n: nat)
    ensures 256 * (n / 256 % 256) + n % 256 == n % 0x1_0000
  {
    var q := n / 256;
    var p, low := q / 256, 256 * (q % 256) + n % 256;
    assert n == 256 * q + n % 256 && q == 256 * p + q % 256;
    SameRemainder(n, p, low);
  }

  lemma SameRemainder(n: nat, p: nat, low: nat)
    requires n == 0x1_0000 * p + low && low < 0x1_0000
    ensures n % 0x1_0000 == low
  {
  }

  /** The receiver of a frame learns its true length exactly when it fits in two bytes. */
  lemma HeaderIsReadBack(f: Frame, rest: seq<byte>)
    requires ValidFrame(f)
    ensures ParseHeader(Header(f) + rest) == Parsed(InfoOf(f), |Header(f)|) <==> |f.payload| < 0x1_0000
  {
    ParsedHeader(f, rest);
  }

  /** A buffer that ends inside the header is not enough. */
  lemma HeaderCutShort(f: Frame, n: nat)
    requires ValidFrame(f) && n < |Header(f)|
    ensures ParseHeader(Header(f)[..n]) == CutShort
  {
    var h := Header(f);
    if n >= 2 { assert h[..n][1] == h[1]; }
  }

  // ----- Frames of any length -----

  /** The lowest `k` bytes of a number, highest first. */
  function LowBytes(n: nat, k: nat): (b: seq<byte>)
    ensures |b| == k
  {
    if k == 0 then [] else LowBytes(n / 256, k - 1) + [Low(n)]
  }

  /** The length in a header as section 5.2 of RFC 6455 has it: two or eight bytes, if it takes them. */
  function PeerLength(len: nat): (b: seq<byte>)
    ensures |b| == if len < 126 then 0 else if len < 0x1_0000 then 2 else 8
  {
    if len < 126 then [] else if len < 0x1_0000 then LowBytes(len, 2) else LowBytes(len, 8)
  }

  /** The header that a peer writes. */
  function PeerHeader(f: Frame): (r: seq<byte>)
    requires ValidFrame(f)
    ensures |r| == 2 + |PeerLength(|f.payload|)| + |f.key| >= 2
  {
    var len := |f.payload|;
    var short := if len < 126 then len else if len < 0x1_0000 then 126 else 127;
    [f.opcode + (if f.final then 128 else 0), short + (if f.key != [] then 128 else 0)] + PeerLength(len) + f.key
  }

  function PeerEncoded(f: Frame): (r: seq<byte>)
    requires ValidFrame(f)
    ensures |r| == |PeerHeader(f)| + |f.payload|
  {
    PeerHeader(f) + Masked(f.key, f.payload, 0)
  }

  function Pow256(k: nat): nat {
    if k == 0 then 1 else 256 * Pow256(k - 1)
  }

  lemma {:induction false} LowBytesAreRead(n: nat, k: nat)
    requires n < Pow256(k)
    ensures BigEndian(LowBytes(n, k)) == n
  {
    if k > 0 {
      LowBytesAreRead(n / 256, k - 1);
      assert LowBytes(n, k)[..k - 1] == LowBytes(n / 256, k - 1);
    }
  }

  lemma PeerLengthIsRead(len: nat)
    requires 126 <= len < 0x1_0000_0000_0000_0000
    ensures BigEndian(PeerLength(len)) == len
  {
    if len < 0x1_0000 {
      assert Pow256(2) == 0x1_0000 by { assert Pow256(1) == 256; }
      LowBytesAreRead(len, 2);
    } else {
      assert Pow256(4) == 0x1_0000_0000 by { assert Pow256(2) == 0x1_0000 by { assert Pow256(1) == 256; } }
      assert Pow256(8) == 0x1_0000_0000_0000_0000 by { assert Pow256(6) == 0x1_0000_0000_0000; }
      LowBytesAreRead(len, 8);
    }
  }

  /** Any header of section 5.2 of RFC 6455 is read: flags, opcode, key and length. */
  lemma PeerHeaderIsRead(f: Frame, rest: seq<byte>)
    requires ValidFrame(f) && |f.payload| < 0x1_0000_0000_0000_0000
    ensures ParseHeader(PeerHeader(f) + rest) == Parsed(InfoOf(f), |PeerHeader(f)|)
  {
    hide PeerLength, BigEndian;
    var h, len := PeerHeader(f), |f.payload|;
    var b, extension := h + rest, 2 + |PeerLength(len)|;
    assert b[0] == h[0] && b[1] == h[1];
    assert h[extension..] == f.key && b[extension..|h|] == h[extension..];
    assert h[2..extension] == PeerLength(len) && b[2..extension] == h[2..extension];
    if len >= 126 { PeerLengthIsRead(len); }
  }

  lemma PeerHeaderCutShort(f: Frame, n: nat)
    requires ValidFrame(f) && n < |PeerHeader(f)|
    ensures ParseHeader(PeerHeader(f)[..n]) == CutShort
  {
    hide PeerLength;
    var h := PeerHeader(f);
    if n >= 2 { assert h[..n][1] == h[1]; }
  }

  /** The sender's frames are of this form as long as two bytes hold their length. */
  lemma SenderIsPeer(f: Frame)
    requires ValidFrame(f) && |f.payload| < 0x1_0000
    ensures Encoded(f) == PeerEncoded(f)
  {
    var len := |f.payload|;
    if len >= 126 {
      assert LowBytes(len, 2) == LowBytes(len / 256, 1) + [Low(len)];
      assert LowBytes(len / 256, 1) == LowBytes(len / 256 / 256, 0) + [High(len)];
      assert PeerLength(len) == LengthBytes(len);
    }
  }

  lemma {:induction false} MaskedConcat(key: seq<byte>, a: seq<byte>, b: seq<byte>, at: nat)
    requires key == [] || |key| == 4
    ensures Masked(key, a + b, at) == Masked(key, a, at) + Masked(key, b, at + |a|)
  {
    hide Xor, KeyByte, Masked;
    if key != [] {
      if a == [] {
        assert a + b == b && Masked(key, a, at) == [];
      } else {
        MaskedHead(key, a, at);
        MaskedHead(key, a + b, at);
        assert (a + b)[1..] == a[1..] + b && (a + b)[0] == a[0];
        MaskedConcat(key, a[1..], b, at + 1);
        var first, more := [Xor(a[0], KeyByte(key, at))], Masked(key, a[1..], at + 1);
        assert first + (more + Masked(key, b, at + |a|)) == (first + more) + Masked(key, b, at + |a|);
      }
    }
  }

  lemma MaskedHead(key: seq<byte>, a: seq<byte>, at: nat)
    requires |key| == 4 && a != []
    ensures Masked(key, a, at) == [Xor(a[0], KeyByte(key, at))] + Masked(key, a[1..], at + 1)
  {
    hide Xor, KeyByte;
  }

  /** Unmasking a part of the data with the key gives the data back. */
  lemma {:induction false} MaskedTwice(key: seq<byte>, payload: seq<byte>, at: nat)
    requires key == [] || |key| == 4
    ensures Masked(key, Masked(key, payload, at), at) == payload
  {
    hide Xor, KeyByte;
    if key != [] && payload != [] {
      XorTwice(payload[0], KeyByte(key, at));
      MaskedTwice(key, payload[1..], at + 1);
    }
  }

  lemma MaskedPart(key: seq<byte>, payload: seq<byte>, from: nat, to: nat)
    requires key == [] || |key| == 4
    requires from <= to <= |payload|
    ensures Masked(key, payload, 0)[from..to] == Masked(key, payload[from..to], from)
  {
    hide Masked;
    var a, b, c := payload[..from], payload[from..to], payload[to..];
    assert payload == a + (b + c);
    MaskedConcat(key, a, b + c, 0);
    MaskedConcat(key, b, c, from);
  }

  lemma MaskedSnoc(key: seq<byte>, payload: seq<byte>, at: nat, i: nat)
    requires |key| == 4 && i < |payload|
    ensures Masked(key, payload[..i + 1], at) == Masked(key, payload[..i], at) + [Xor(payload[i], KeyByte(key, at + i))]
  {
    hide Xor, KeyByte;
    assert payload[..i + 1] == payload[..i] + [payload[i]];
    MaskedConcat(key, payload[..i], [payload[i]], at);
  }

  // ----- Writing a frame -----

  /** Masks, or unmasks, `n` bytes of a frame in place; the first is at offset `at` of its data. */
  method MaskInPlace(data: array<byte>, from: nat, n: nat, key: seq<byte>, at: nat)
    requires from + n <= data.Length && |key| == 4
    modifies data
    ensures data[from..from + n] == Masked(key, old(data[from..from + n]), at)
    ensures data[..from] == old(data[..from]) && data[from + n..] == old(data[from + n..])
  {
    hide Xor, KeyByte, Masked;
    ghost var was := data[from..from + n];
    for i := 0 to n
      invariant data[..from] == old(data[..from])
      invariant forall j :: from + i <= j < data.Length ==> data[j] == old(data[j])
      invariant data[from..from + i] == Masked(key, was[..i], at)
    {
      ghost var before := data[from..from + i];
      MaskedSnoc(key, was, at, i);
      var masked := Xor(data[from + i], KeyByte(key, at + i));
      data[from + i] := masked;
      assert data[from..from + i] == before;
      assert data[from..from + i + 1] == before + [masked];
    }
    assert was[..n] == was;
  }

  /** The part of AsyncClient that a frame is written to. */
  class AsyncClient {
    var room: nat
    var written: seq<byte>

    method Add(data: seq<byte>) returns (n: nat)
      modifies this
      ensures n == (if old(room) < |data| then old(room) else |data|)
      ensures written == old(written) + data[..n] && room == old(room) - n
    {
      n := if room < |data| then room else |data|;
      written, room := written + data[..n], room - n;
    }
  }

  // ----- Frames that are cut to the room there is -----

  /** The header for `m` bytes in the memory that was reserved for `n`: what is not set keeps the
      bytes that were there before. */
  function CutHeader(final: bool, opcode: nat, mask: bool, n: nat, m: nat, key: seq<byte>,
                     memory: seq<byte>): (r: seq<byte>)
    requires opcode < 16 && m <= n && |key| == 4 && |memory| >= 8
    ensures |r| == HeaderLength(n, mask && n > 0)
  {
    var size := HeaderLength(n, mask && n > 0);
    [opcode + (if final then 128 else 0), (if m < 126 then m else 126) + (if mask && m > 0 then 128 else 0)]
    + (if n < 126 then [] else if m < 126 then memory[2..4] else LengthBytes(m))
    + (if !mask || n == 0 then [] else if m == 0 then memory[size - 4..size] else key)
  }

  /** The frame that the sender means to write. */
  function CutFrame(final: bool, opcode: nat, mask: bool, payload: seq<byte>, key: seq<byte>): Frame {
    Frame(final, opcode % 16, if mask && payload != [] then key else [], payload)
  }

  /** A header that was reserved for more bytes still tells how many there are: exactly if it did
      not reserve a length or a key that is now left out. */
  lemma CutHeaderIsReadBackIff(final: bool, opcode: nat, mask: bool, n: nat, payload: seq<byte>, key: seq<byte>,
                               memory: seq<byte>, rest: seq<byte>)
    requires opcode < 16 && |payload| <= n && |key| == 4 && |memory| >= 8 && |payload| < 0x1_0000
    ensures var header := CutHeader(final, opcode, mask, n, |payload|, key, memory);
      ParseHeader(header + rest) == Parsed(InfoOf(CutFrame(final, opcode, mask, payload, key)), |header|) <==>
        (n < 126 || |payload| >= 126) && (!mask || n == 0 || payload != [])
  {
    var f, header := CutFrame(final, opcode, mask, payload, key),
      CutHeader(final, opcode, mask, n, |payload|, key, memory);
    if (n < 126 || |payload| >= 126) && (!mask || n == 0 || payload != []) {
      assert header == Header(f);
      ParsedHeader(f, rest);
    } else {
      assert (header + rest)[1] == header[1];
    }
  }

  method BuildHeader(final: bool, opcode: nat, mask: bool, n: nat, m: nat, key: seq<byte>, memory: seq<byte>)
    returns (buf: array<byte>)
    requires |key| == 4 && m <= n && |memory| >= 8
    ensures fresh(buf) && buf[..] == CutHeader(final, opcode % 16, mask, n, m, key, memory)
  {
    hide High, Low;
    var headLen := 2;
    if mask && n > 0 { headLen := headLen + 4; }
    if n > 125 { headLen := headLen + 2; }
    buf := new byte[headLen](i requires 0 <= i < headLen => memory[i]);
    buf[0] := opcode % 16;
    if final { buf[0] := buf[0] + 128; }
    if m < 126 {
      buf[1] := m;
    } else {
      buf[1], buf[2], buf[3] := 126, High(m), Low(m);
    }
    if m > 0 && mask {
      buf[1] := buf[1] + 128;
      buf[headLen - 4], buf[headLen - 3], buf[headLen - 2], buf[headLen - 1] := key[0], key[1], key[2], key[3];
    }
  }

  /** Masks and writes the data of a frame, for which there is room. */
  method SendPayload(client: AsyncClient, mask: bool, data: array<byte>, from: nat, n: nat, key: seq<byte>)
    requires from + n <= data.Length && |key| == 4 && client.room >= n
    modifies client, data
    ensures client.written == old(client.written) + Masked(if mask then key else [], old(data[from..from + n]), 0)
    ensures data[..from] == old(data[..from]) && data[from + n..] == old(data[from + n..])
  {
    hide Masked;
    if n > 0 {
      if mask { MaskInPlace(data, from, n, key, 0); }
      var masked := data[from..from + n];
      assert masked == Masked(if mask then key else [], old(data[from..from + n]), 0);
      var added := client.Add(masked);
      assert masked[..n] == masked;
    } else {
      assert Masked(if mask then key else [], old(data[from..from + n]), 0) == [];
      assert client.written + [] == client.written;
    }
  }

  /** Writes one frame, if its header fits, with as much of the data as there is room for;
      `memory` is what the buffer of the header held before. */
  method WebSocketSendFrame(client: AsyncClient, final: bool, opcode: nat, mask: bool, data: array<byte>, from: nat,
                            n: nat, key: seq<byte>, memory: seq<byte>) returns (sent: nat)
    requires from + n <= data.Length && |key| == 4 && |memory| >= 8
    modifies client, data
    ensures var size := HeaderLength(n, mask && n > 0);
      if old(client.room) < size then
        sent == 0 && client.written == old(client.written) && data[..] == old(data[..])
      else
        && sent == (if old(client.room) - size < n then old(client.room) - size else n)
        && client.written == old(client.written) + CutHeader(final, opcode % 16, mask, n, sent, key, memory)
                             + Masked(if mask then key else [], old(data[from..from + sent]), 0)
    ensures old(client.room) >= HeaderLength(n, mask && n > 0) + n ==>
      client.written == old(client.written) + Encoded(CutFrame(final, opcode, mask, old(data[from..from + n]), key))
    ensures data[..from] == old(data[..from]) && data[from + n..] == old(data[from + n..])
  {
    hide Masked, HeaderBytes, CutHeader;
    if client.room < HeaderLength(n, mask && n > 0) { return 0; }
    ghost var before := client.written;
    var room := client.room - HeaderLength(n, mask && n > 0);
    sent := if room < n then room else n;
    ghost var payload := data[from..from + sent];
    var buf := BuildHeader(final, opcode, mask, n, sent, key, memory);
    var added := client.Add(buf[..]);
    assert buf[..][..added] == CutHeader(final, opcode % 16, mask, n, sent, key, memory);
    SendPayload(client, mask, data, from, sent, key);
    assert data[from + n..] == data[from + sent..][n - sent..];
    if sent == n { WholeFrame(final, opcode, mask, payload, key, memory, before); }
  }

  /** A frame that is not cut. */
  lemma WholeFrame(final: bool, opcode: nat, mask: bool, payload: seq<byte>, key: seq<byte>, memory: seq<byte>,
                   before: seq<byte>)
    requires |key| == 4 && |memory| >= 8
    ensures before + CutHeader(final, opcode % 16, mask, |payload|, |payload|, key, memory)
      + Masked(if mask then key else [], payload, 0)
         == before + Encoded(CutFrame(final, opcode, mask, payload, key))
  {
    var f := CutFrame(final, opcode, mask, payload, key);
    assert CutHeader(final, opcode % 16, mask, |payload|, |payload|, key, memory) == Header(f);
    assert Masked(if mask then key else [], payload, 0) == Masked(f.key, payload, 0);
    assert before + Header(f) + Masked(f.key, payload, 0) == before + (Header(f) + Masked(f.key, payload, 0));
  }
}
