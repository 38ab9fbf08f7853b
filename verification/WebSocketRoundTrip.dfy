/**
 A stream of frames read back by the receiver from TCP buffers that are cut anywhere but
 inside a frame header or the payload of a control frame (sections 5.2 to 5.5 of RFC 6455).
 */
module WebSocketRoundTrip {
  import opened Numbers
  import opened Buffers
  import opened Wrappers
  import opened Bytes
  import opened WebSocketFrame
  import opened WebSocketReceiver

  type StreamFrame = f: Frame | ValidFrame(f) && |f.payload| < 0x1_0000_0000
    && (f.opcode == WS_DISCONNECT ==> |f.payload| != 1)
    witness Frame(true, WS_TEXT, [], [])

  predicate IsControl(f: Frame) {
    f.opcode >= 8
  }

  predicate IsClose(f: Frame) {
    f.opcode == WS_DISCONNECT
  }

  /** A second close frame would end the connection. */
  predicate OneClose(fs: seq<Frame>) {
    forall i, j :: 0 <= i < j < |fs| && IsClose(fs[i]) ==> !IsClose(fs[j])
  }

  function Wire(fs: seq<StreamFrame>): seq<byte> {
    if fs == [] then [] else PeerEncoded(fs[0]) + Wire(fs[1..])
  }

  // ----- What the events of a receiver say -----

  /** Frames reassembled from data events, the payload of an unfinished one, and all other events. */
  datatype Assembly = Assembly(frames: seq<Frame>, partial: seq<byte>, reports: seq<Event>)

  /** Every data event must continue its frame at the frame's own index. */
  function Assemble(events: seq<Event>): Option<Assembly> {
    if events == [] then Some(Assembly([], [], [])) else
      match (Assemble(events[..|events| - 1]), events[|events| - 1])
      case (None, _) => None
      case (Some(a), Data(info, index, _, _, chunk)) => Continue(a, info, index, chunk)
      case (Some(a), e) => Some(a.(reports := a.reports + [e]))
  }

  function Continue(a: Assembly, info: FrameInfo, index: nat, chunk: seq<byte>): Option<Assembly> {
    if index != |a.partial| || index + |chunk| > info.len then None
    else if index + |chunk| < info.len then Some(a.(partial := a.partial + chunk))
    else Some(a.(frames := a.frames + [Frame(info.final, info.opcode, info.key, a.partial + chunk)], partial := []))
  }

  lemma AssembleSnoc(events: seq<Event>, e: Event)
    requires e.Data? && Assemble(events).Some?
    ensures Assemble(events + [e]) == Continue(Assemble(events).value, e.info, e.index, e.chunk)
  {
    assert (events + [e])[..|events|] == events;
  }

  lemma {:induction false} AssembleReports(events: seq<Event>, reports: seq<Event>)
    requires Assemble(events).Some? && forall i :: 0 <= i < |reports| ==> !reports[i].Data?
    ensures var a := Assemble(events).value;
      Assemble(events + reports) == Some(a.(reports := a.reports + reports))
  {
    var a := Assemble(events).value;
    if reports == [] {
      assert events + [] == events && a.reports + [] == a.reports;
    } else {
      var init, e := reports[..|reports| - 1], reports[|reports| - 1];
      AssembleReports(events, init);
      assert (events + reports)[..|events + reports| - 1] == events + init;
      assert a.reports + init + [e] == a.reports + reports;
    }
  }

  /** What the receiver does about a control frame: it answers pings and the first close frame,
      and reports the reason of a close and any pong that is not the keep-alive's. */
  function ReportOf(f: Frame): seq<Event> {
    if f.opcode == WS_DISCONNECT then ClosingReason(f.payload) + [QueueControl(WS_DISCONNECT, f.payload)]
    else if f.opcode == WS_PING then [QueueControl(WS_PONG, f.payload)]
    else if f.opcode == WS_PONG && f.payload != PING_PAYLOAD then [PongReceived(f.payload)]
    else []
  }

  function ReportsOf(fs: seq<Frame>): seq<Event> {
    if fs == [] then [] else ReportsOf(fs[..|fs| - 1]) + ReportOf(fs[|fs| - 1])
  }

  // ----- Where the receiver stands in the stream -----

  /** The frames still to be received; of the first one `at` payload bytes have been, once its
      header has been read. */
  datatype Position = Position(rest: seq<StreamFrame>, inFrame: bool, at: nat)

  predicate ValidPosition(p: Position) {
    p.inFrame ==> p.rest != [] && p.at < |p.rest[0].payload| && !IsControl(p.rest[0])
  }

  /** Where a buffer can end. */
  datatype End = At(p: Position) | InHeader | InControl

  /** The payload of a frame from `at` on, as it is on the wire, and everything after it. */
  function PayloadLeft(rest: seq<StreamFrame>, at: nat): seq<byte>
    requires rest != [] && at <= |rest[0].payload|
  {
    Masked(rest[0].key, rest[0].payload, 0)[at..] + Wire(rest[1..])
  }

  function Left(p: Position): seq<byte>
    requires ValidPosition(p)
  {
    if p.inFrame then PayloadLeft(p.rest, p.at) else Wire(p.rest)
  }

  /** After `n` more payload bytes of the first frame. */
  function Within(rest: seq<StreamFrame>, at: nat): (p: Position)
    requires rest != [] && at <= |rest[0].payload| && (IsControl(rest[0]) ==> at == |rest[0].payload|)
    ensures ValidPosition(p)
  {
    if at < |rest[0].payload| then Position(rest, true, at) else Position(rest[1..], false, 0)
  }

  /** Where the next `n` bytes lead. */
  function Advance(p: Position, n: nat): (q: End)
    requires ValidPosition(p)
    ensures q.At? ==> ValidPosition(q.p)
    decreases n
  {
    if n == 0 then At(p)
    else if p.rest == [] then InHeader
    else if p.inFrame then AdvancePayload(p.rest, p.at, n)
    else
      var header := |PeerHeader(p.rest[0])|;
      if n < header then InHeader else
        var k := Min(|p.rest[0].payload|, n - header);
        if IsControl(p.rest[0]) && k < |p.rest[0].payload| then InControl
        else Advance(Within(p.rest, k), n - header - k)
  }

  function AdvancePayload(rest: seq<StreamFrame>, at: nat, n: nat): (q: End)
    requires rest != [] && at < |rest[0].payload| && !IsControl(rest[0]) && n > 0
    ensures q.At? ==> ValidPosition(q.p)
    decreases n, 0
  {
    var k := Min(|rest[0].payload| - at, n);
    Advance(Within(rest, at + k), n - k)
  }

  /** Everything before `rest` has been assembled, and `partial`. */
  ghost predicate Assembled(r: Receiver, all: seq<StreamFrame>, rest: seq<StreamFrame>, partial: seq<byte>) {
    && OneClose(all) && |rest| <= |all| && rest == all[|all| - |rest|..]
    && var read := all[..|all| - |rest|];
    && Assemble(r.events) == Some(Assembly(DataOf(read), partial, ReportsOf(read)))
    && (r.status == Disconnecting <==> exists i :: 0 <= i < |read| && IsClose(read[i]))
  }

  /** The receiver has read the stream of `all` up to `p`. */
  ghost predicate Reached(r: Receiver, all: seq<StreamFrame>, p: Position) {
    && ValidPosition(p) && Valid(r) && r.inFrame == p.inFrame
    && if p.inFrame then InPayload(r, all, p.rest, p.at) else Assembled(r, all, p.rest, [])
  }

  ghost predicate InPayload(r: Receiver, all: seq<StreamFrame>, rest: seq<StreamFrame>, at: nat) {
    && rest != [] && at <= |rest[0].payload|
    && r.info == InfoOf(rest[0]) && r.index == at
    && Assembled(r, all, rest, rest[0].payload[..at])
  }

  // ----- One pass of the receiver's loop -----

  /** A pass over payload bytes: it consumes `k` of them, or ends the frame. */
  lemma PayloadPass(r: Receiver, all: seq<StreamFrame>, rest: seq<StreamFrame>, at: nat, b: seq<byte>)
    requires Valid(r.(inFrame := false)) && InPayload(r, all, rest, at) && (at == |rest[0].payload| ==> at == 0)
    requires IsControl(rest[0]) ==> at == 0 && |b| >= |rest[0].payload|
    requires b <= PayloadLeft(rest, at)
    ensures var k := Min(|rest[0].payload| - at, |b|);
      var pass := Payload(r, b);
      && pass.Go? && pass.used == k && Reached(pass.r, all, Within(rest, at + k))
      && Left(Within(rest, at + k)) == PayloadLeft(rest, at)[k..]
  {
    hide PayloadLeft, Left, Masked, Assembled;
    var k := Min(|rest[0].payload| - at, |b|);
    var chunk := rest[0].payload[at..at + k];
    ChunkIsPayload(rest, at, b, k);
    LeftAfter(rest, at, k);
    if at + k < |rest[0].payload| {
      FrameGoesOn(r, all, rest, at, k);
      assert Payload(r, b) == Go(Partial(r, chunk), k);
    } else {
      assert rest[0].payload[..at] + chunk == rest[0].payload;
      if IsControl(rest[0]) {
        assert chunk == rest[0].payload;
        ControlIsReported(r, all, rest);
      } else {
        FrameEnds(r, all, rest, at, chunk);
      }
      assert Payload(r, b) == Go(Last(r, chunk), k);
    }
  }

  lemma FrameGoesOn(r: Receiver, all: seq<StreamFrame>, rest: seq<StreamFrame>, at: nat, k: nat)
    requires InPayload(r, all, rest, at) && at + k < |rest[0].payload|
    ensures InPayload(Partial(r, rest[0].payload[at..at + k]), all, rest, at + k)
  {
    hide DataOf, ReportsOf, OneClose;
    var chunk := rest[0].payload[at..at + k];
    assert rest[0].payload[..at] + chunk == rest[0].payload[..at + k];
    AssembleSnoc(r.events, Partial(r, chunk).events[|r.events|]);
  }

  /** One frame more has been read. */
  lemma ReadOneMore(all: seq<StreamFrame>, rest: seq<StreamFrame>)
    requires rest != [] && |rest| <= |all| && rest == all[|all| - |rest|..]
    ensures var read, more := all[..|all| - |rest|], all[..|all| - |rest[1..]|];
      && rest[1..] == all[|all| - |rest[1..]|..]
      && DataOf(more) == DataOf(read) + (if IsControl(rest[0]) then [] else [rest[0]])
      && ReportsOf(more) == ReportsOf(read) + ReportOf(rest[0])
      && ((exists i :: 0 <= i < |more| && IsClose(more[i]))
          <==> IsClose(rest[0]) || exists i :: 0 <= i < |read| && IsClose(read[i]))
  {
    hide DataOf, ReportsOf, ReportOf;
    var read, more := all[..|all| - |rest|], all[..|all| - |rest[1..]|];
    assert more == read + [rest[0]];
    ReadSnoc(read, rest[0]);
  }

  lemma ReadSnoc(read: seq<Frame>, f: Frame)
    ensures DataOf(read + [f]) == DataOf(read) + (if IsControl(f) then [] else [f])
    ensures ReportsOf(read + [f]) == ReportsOf(read) + ReportOf(f)
    ensures (exists i :: 0 <= i < |read + [f]| && IsClose((read + [f])[i]))
      <==> IsClose(f) || exists i :: 0 <= i < |read| && IsClose(read[i])
  {
    hide ReportOf;
    var more := read + [f];
    assert more[..|read|] == read;
    if IsClose(f) { assert IsClose(more[|read|]); }
    if exists i :: 0 <= i < |read| && IsClose(read[i]) {
      var i :| 0 <= i < |read| && IsClose(read[i]);
      assert IsClose(more[i]);
    }
  }

  lemma FrameEnds(r: Receiver, all: seq<StreamFrame>, rest: seq<StreamFrame>, at: nat, chunk: seq<byte>)
    requires InPayload(r, all, rest, at) && rest[0].payload[..at] + chunk == rest[0].payload && !IsControl(rest[0])
    ensures Assembled(Last(r, chunk), all, rest[1..], []) && !Stops(r, chunk)
  {
    hide DataOf, ReportsOf, OneClose, Assemble;
    var e := Data(r.info, r.index, r.messageOpcode, r.num, chunk);
    AssembleSnoc(r.events, e);
    assert Last(r, chunk).events == r.events + [e];
    var read := all[..|all| - |rest|];
    assert Continue(Assemble(r.events).value, r.info, r.index, chunk)
        == Some(Assembly(DataOf(read) + [rest[0]], [], ReportsOf(read)));
    ReadOneMore(all, rest);
    assert ReportsOf(read) + ReportOf(rest[0]) == ReportsOf(read);
  }

  lemma ControlIsReported(r: Receiver, all: seq<StreamFrame>, rest: seq<StreamFrame>)
    requires InPayload(r, all, rest, 0) && IsControl(rest[0])
    ensures Assembled(Last(r, rest[0].payload), all, rest[1..], []) && !Stops(r, rest[0].payload)
  {
    hide DataOf, ReportsOf, ClosingReason, Assemble, OneClose, ReportOf, Last;
    var f, read := rest[0], all[..|all| - |rest|];
    ReadOneMore(all, rest);
    FirstClose(all, rest, r.status);
    ReportIsAdded(r, f);
    assert f.payload[..0] == [] && DataOf(read) + [] == DataOf(read);
    AssembleReports(r.events, ReportOf(f));
  }

  lemma FirstClose(all: seq<StreamFrame>, rest: seq<StreamFrame>, status: Status)
    requires OneClose(all) && rest != [] && |rest| <= |all| && rest == all[|all| - |rest|..]
    requires var read := all[..|all| - |rest|];
      status == Disconnecting <==> exists i :: 0 <= i < |read| && IsClose(read[i])
    ensures IsClose(rest[0]) ==> status != Disconnecting
  {
    assert all[|all| - |rest|] == rest[0];
  }

  /** A control frame that does not end the connection adds its report. */
  lemma ReportIsAdded(r: Receiver, f: StreamFrame)
    requires IsControl(f) && r.info.opcode == f.opcode && (IsClose(f) ==> r.status != Disconnecting)
    ensures var n := Last(r, f.payload);
      && n.events == r.events + ReportOf(f) && !n.inFrame && !Stops(r, f.payload)
      && (n.status == Disconnecting <==> IsClose(f) || r.status == Disconnecting)
    ensures forall i :: 0 <= i < |ReportOf(f)| ==> !ReportOf(f)[i].Data?
  {
    hide ClosingReason;
    ClosingReports(f.payload);
    assert r.events + (ClosingReason(f.payload) + [QueueControl(WS_DISCONNECT, f.payload)])
        == r.events + ClosingReason(f.payload) + [QueueControl(WS_DISCONNECT, f.payload)];
    assert r.events + [] == r.events;
  }

  lemma ClosingReports(payload: seq<byte>)
    ensures forall i :: 0 <= i < |ClosingReason(payload)| ==> !ClosingReason(payload)[i].Data?
  {
  }

  lemma ChunkIsPayload(rest: seq<StreamFrame>, at: nat, b: seq<byte>, k: nat)
    requires rest != [] && at <= |rest[0].payload| && b <= PayloadLeft(rest, at)
    requires k == Min(|rest[0].payload| - at, |b|)
    ensures Masked(rest[0].key, b[..k], at) == rest[0].payload[at..at + k]
  {
    UnmaskedChunk(rest[0], at, k, b, Wire(rest[1..]));
  }

  lemma UnmaskedChunk(f: StreamFrame, at: nat, k: nat, b: seq<byte>, tail: seq<byte>)
    requires at + k <= |f.payload| && k <= |b| && b <= Masked(f.key, f.payload, 0)[at..] + tail
    ensures Masked(f.key, b[..k], at) == f.payload[at..at + k]
  {
    hide Masked;
    assert b[..k] == Masked(f.key, f.payload, 0)[at..at + k];
    MaskedPart(f.key, f.payload, at, at + k);
    MaskedTwice(f.key, f.payload[at..at + k], at);
  }

  lemma DropFromFirst(x: seq<byte>, y: seq<byte>, k: nat)
    requires k <= |x|
    ensures (x + y)[k..] == x[k..] + y
    ensures k == |x| ==> (x + y)[k..] == y
  {
  }

  lemma LeftAfter(rest: seq<StreamFrame>, at: nat, k: nat)
    requires rest != [] && at + k <= |rest[0].payload| && (IsControl(rest[0]) ==> at + k == |rest[0].payload|)
    ensures Left(Within(rest, at + k)) == PayloadLeft(rest, at)[k..]
  {
    hide Masked, Wire;
    var m := Masked(rest[0].key, rest[0].payload, 0);
    DropFromFirst(m[at..], Wire(rest[1..]), k);
    assert m[at..][k..] == m[at + k..];
  }

  lemma WireSplit(rest: seq<StreamFrame>)
    requires rest != []
    ensures Wire(rest) == PeerHeader(rest[0]) + PayloadLeft(rest, 0)
  {
    var m := Masked(rest[0].key, rest[0].payload, 0);
    assert m[0..] == m;
    assert PeerHeader(rest[0]) + m + Wire(rest[1..]) == PeerHeader(rest[0]) + (m + Wire(rest[1..]));
  }

  /** A pass over a buffer that ends inside a header. */
  lemma CutPass(r: Receiver, rest: seq<StreamFrame>, b: seq<byte>)
    requires Valid(r) && !r.inFrame && rest != [] && b != [] && b <= Wire(rest) && |b| < |PeerHeader(rest[0])|
    ensures OnePass(r, b) == Stop(HeaderCut, r)
  {
    WireSplit(rest);
    assert b == PeerHeader(rest[0])[..|b|];
    PeerHeaderCutShort(rest[0], |b|);
  }

  lemma HeaderThenPayload(r: Receiver, f: StreamFrame, body: seq<byte>)
    requires Valid(r) && !r.inFrame
    ensures OnePass(r, PeerHeader(f) + body) == After(Payload(r.(info := InfoOf(f), index := 0), body), |PeerHeader(f)|)
  {
    PeerHeaderIsRead(f, body);
    assert (PeerHeader(f) + body)[|PeerHeader(f)|..] == body;
  }

  lemma Parts(b: seq<byte>, h: seq<byte>, t: seq<byte>, k: nat)
    requires b <= h + t && |h| <= |b| && k <= |t|
    ensures b == h + b[|h|..] && b[|h|..] <= t
    ensures (h + t)[|h| + k..] == t[k..]
  {
  }

  /** The payload after a complete header. */
  lemma HeaderPass(r: Receiver, all: seq<StreamFrame>, rest: seq<StreamFrame>, b: seq<byte>)
    requires !r.inFrame && Valid(r) && Assembled(r, all, rest, []) && rest != [] && b <= Wire(rest)
    requires |b| >= |PeerHeader(rest[0])| + if IsControl(rest[0]) then |rest[0].payload| else 0
    ensures var header, body := |PeerHeader(rest[0])|, b[|PeerHeader(rest[0])|..];
      var k := Min(|rest[0].payload|, |body|);
      var pass := Payload(r.(info := InfoOf(rest[0]), index := 0), body);
      && b == PeerHeader(rest[0]) + body
      && pass.Go? && pass.used == k && Reached(pass.r, all, Within(rest, k))
      && Left(Within(rest, k)) == Wire(rest)[header + k..]
  {
    hide Masked, Wire, Assemble, PeerHeader, Payload;
    var h, body := PeerHeader(rest[0]), b[|PeerHeader(rest[0])|..];
    WireSplit(rest);
    Parts(b, h, PayloadLeft(rest, 0), Min(|rest[0].payload|, |body|));
    assert rest[0].payload[..0] == [];
    PayloadPass(r.(info := InfoOf(rest[0]), index := 0), all, rest, 0, body);
  }

  /** What a buffer of `n` bytes at `p` must come to. */
  ghost predicate Reads(outcome: Outcome, n: Receiver, all: seq<StreamFrame>, p: Position, size: nat)
    requires ValidPosition(p) && size <= |Left(p)|
  {
    match Advance(p, size)
    case InControl => true
    case InHeader => outcome == HeaderCut
    case At(q) => outcome == Ran && Reached(n, all, q) && Left(q) == Left(p)[size..]
  }

  lemma AdvanceOverHeader(p: Position, n: nat)
    requires ValidPosition(p) && !p.inFrame && p.rest != [] && n >= |PeerHeader(p.rest[0])|
    ensures var header := |PeerHeader(p.rest[0])|;
      var k := Min(|p.rest[0].payload|, n - header);
      Advance(p, n) == if IsControl(p.rest[0]) && k < |p.rest[0].payload| then InControl
                       else Advance(Within(p.rest, k), n - header - k)
  {
  }

  lemma AdvanceOverPayload(p: Position, n: nat)
    requires ValidPosition(p) && p.inFrame && n > 0
    ensures var k := Min(|p.rest[0].payload| - p.at, n);
      Advance(p, n) == Advance(Within(p.rest, p.at + k), n - k)
  {
  }

  /** The receiver takes a buffer exactly if the buffer does not end inside a header. */
  lemma {:induction false} BufferIsRead(r: Receiver, all: seq<StreamFrame>, p: Position, b: seq<byte>)
    requires Reached(r, all, p) && b <= Left(p)
    ensures Reads(OnData(r, b).0, OnData(r, b).1, all, p, |b|)
    decreases |b|, 2
  {
    hide Payload, Masked, PeerHeader;
    if b == [] {
    } else if p.inFrame {
      PayloadIsRead(r, all, p, b);
    } else if |b| < |PeerHeader(p.rest[0])| {
      CutPass(r, p.rest, b);
      OnDataByPass(r, b);
    } else if IsControl(p.rest[0]) && |b| < |PeerHeader(p.rest[0])| + |p.rest[0].payload| {
      AdvanceOverHeader(p, |b|);
    } else {
      HeaderIsRead(r, all, p, b);
    }
  }

  lemma {:induction false} PayloadIsRead(r: Receiver, all: seq<StreamFrame>, p: Position, b: seq<byte>)
    requires Reached(r, all, p) && p.inFrame && b != [] && b <= Left(p)
    ensures Reads(OnData(r, b).0, OnData(r, b).1, all, p, |b|)
    decreases |b|, 1
  {
    hide OnData, Advance, Wire, Masked, Assembled, Reads;
    PayloadPass(r, all, p.rest, p.at, b);
    var k := Min(|p.rest[0].payload| - p.at, |b|);
    var q := Within(p.rest, p.at + k);
    NextPass(r, all, b, q, Payload(r, b).r, k);
    AdvanceOverPayload(p, |b|);
    SameEnd(OnData(r, b).0, OnData(r, b).1, all, p, q, |b|, k);
  }

  lemma {:induction false} HeaderIsRead(r: Receiver, all: seq<StreamFrame>, p: Position, b: seq<byte>)
    requires Reached(r, all, p) && !p.inFrame && b != [] && b <= Left(p)
    requires |b| >= |PeerHeader(p.rest[0])| + if IsControl(p.rest[0]) then |p.rest[0].payload| else 0
    ensures Reads(OnData(r, b).0, OnData(r, b).1, all, p, |b|)
    decreases |b|, 1
  {
    hide OnData, OnePass, Payload, Advance, Masked, Assembled, Reads;
    var header, body := |PeerHeader(p.rest[0])|, b[|PeerHeader(p.rest[0])|..];
    HeaderPass(r, all, p.rest, b);
    HeaderThenPayload(r, p.rest[0], body);
    var k := Min(|p.rest[0].payload|, |body|);
    var q, n := Within(p.rest, k), Payload(r.(info := InfoOf(p.rest[0]), index := 0), body).r;
    NextPass(r, all, b, q, n, header + k);
    AdvanceOverHeader(p, |b|);
    SameEnd(OnData(r, b).0, OnData(r, b).1, all, p, q, |b|, header + k);
  }

  lemma {:induction false} NextPass(r: Receiver, all: seq<StreamFrame>, b: seq<byte>, q: Position, n: Receiver,
                                    used: nat)
    requires Valid(r) && b != [] && 0 < used <= |b| && ValidPosition(q) && b[used..] <= Left(q)
    requires OnePass(r, b) == Go(n, used) && Reached(n, all, q)
    ensures Reads(OnData(r, b).0, OnData(r, b).1, all, q, |b| - used)
    decreases |b|, 0
  {
    hide OnData, OnePass, Payload, Advance, Assembled, Left;
    OnDataByPass(r, b);
    BufferIsRead(n, all, q, b[used..]);
  }

  lemma SameEnd(outcome: Outcome, n: Receiver, all: seq<StreamFrame>, p: Position, q: Position, size: nat, used: nat)
    requires ValidPosition(p) && ValidPosition(q) && used <= size <= |Left(p)| && Left(q) == Left(p)[used..]
    requires Advance(p, size) == Advance(q, size - used) && Reads(outcome, n, all, q, size - used)
    ensures Reads(outcome, n, all, p, size)
  {
    assert Left(p)[used..][size - used..] == Left(p)[size..];
  }

  // ----- The whole stream -----

  /** The stream position `n` is strictly inside a frame header. */
  predicate InsideHeader(fs: seq<StreamFrame>, n: nat) {
    fs != [] &&
    if n < |PeerEncoded(fs[0])| then 0 < n < |PeerHeader(fs[0])| else InsideHeader(fs[1..], n - |PeerEncoded(fs[0])|)
  }

  /** The stream position `n` is in the payload of a control frame, before its end. */
  predicate InsideControl(fs: seq<StreamFrame>, n: nat) {
    fs != [] &&
    if n < |PeerEncoded(fs[0])| then IsControl(fs[0]) && n >= |PeerHeader(fs[0])|
    else InsideControl(fs[1..], n - |PeerEncoded(fs[0])|)
  }

  lemma {:induction false} AdvanceFromStart(fs: seq<StreamFrame>, n: nat)
    requires n <= |Wire(fs)|
    ensures Advance(Position(fs, false, 0), n).InHeader? <==> InsideHeader(fs, n)
    ensures Advance(Position(fs, false, 0), n).InControl? <==> InsideControl(fs, n)
  {
    if n > 0 && n >= |PeerEncoded(fs[0])| {
      hide PeerHeader, Masked, Encoded;
      AdvanceFromStart(fs[1..], n - |PeerEncoded(fs[0])|);
    }
  }

  lemma AdvanceZero(p: Position)
    requires ValidPosition(p)
    ensures Advance(p, 0) == At(p)
  {
  }

  lemma {:induction false} AdvanceTwice(p: Position, a: nat, b: nat)
    requires ValidPosition(p) && Advance(p, a).At?
    ensures Advance(p, a + b) == Advance(Advance(p, a).p, b)
    decreases a, 1
  {
    hide Advance;
    if a == 0 {
      AdvanceZero(p);
    } else if p.inFrame {
      AdvanceTwiceInPayload(p, a, b);
    } else {
      AdvanceTwiceFromHeader(p, a, b);
    }
  }

  lemma {:induction false} AdvanceTwiceInPayload(p: Position, a: nat, b: nat)
    requires ValidPosition(p) && p.inFrame && a > 0 && Advance(p, a).At?
    ensures Advance(p, a + b) == Advance(Advance(p, a).p, b)
    decreases a, 0
  {
    hide Advance;
    var left := |p.rest[0].payload| - p.at;
    AdvanceOverPayload(p, a);
    if a < left {
      var q := Within(p.rest, p.at + a);
      AdvanceZero(q);
      if b > 0 {
        AdvanceOverPayload(p, a + b);
        AdvanceOverPayload(q, b);
      }
    } else {
      AdvanceOverPayload(p, a + b);
      AdvanceTwice(Within(p.rest, p.at + left), a - left, b);
    }
  }

  lemma {:induction false} AdvanceTwiceFromHeader(p: Position, a: nat, b: nat)
    requires ValidPosition(p) && !p.inFrame && a > 0 && Advance(p, a).At?
    ensures Advance(p, a + b) == Advance(Advance(p, a).p, b)
    decreases a, 0
  {
    hide Advance, PeerHeader, Within;
    CompleteHeader(p, a);
    var header, len := |PeerHeader(p.rest[0])|, |p.rest[0].payload|;
    AdvanceOverHeader(p, a);
    AdvanceOverHeader(p, a + b);
    if a - header < len {
      AdvanceZero(Within(p.rest, a - header));
      WithinMore(p.rest, a - header, b);
    } else {
      AdvanceTwice(Within(p.rest, len), a - header - len, b);
    }
  }

  lemma WithinMore(rest: seq<StreamFrame>, at: nat, n: nat)
    requires rest != [] && at < |rest[0].payload| && !IsControl(rest[0])
    ensures var k := Min(|rest[0].payload| - at, n);
      Advance(Within(rest, at), n) == Advance(Within(rest, at + k), n - k)
  {
    if n > 0 { AdvanceOverPayload(Within(rest, at), n); }
  }

  lemma CompleteHeader(p: Position, n: nat)
    requires ValidPosition(p) && !p.inFrame && n > 0 && Advance(p, n).At?
    ensures p.rest != [] && n >= |PeerHeader(p.rest[0])| + if IsControl(p.rest[0]) then |p.rest[0].payload| else 0
  {
  }

  /** No buffer ends inside a header or a control. */
  ghost predicate CutsAllowed(p: Position, buffers: seq<seq<byte>>)
    requires ValidPosition(p)
    decreases |buffers|
  {
    buffers == [] ||
    (Advance(p, |buffers[0]|).At? && CutsAllowed(Advance(p, |buffers[0]|).p, buffers[1..]))
  }

  /** Up to the first buffer that ends inside a header, none ends inside a control. */
  ghost predicate ControlsWhole(p: Position, buffers: seq<seq<byte>>)
    requires ValidPosition(p)
    decreases |buffers|
  {
    buffers == [] ||
    match Advance(p, |buffers[0]|)
    case InControl => false
    case InHeader => true
    case At(q) => ControlsWhole(q, buffers[1..])
  }

  lemma {:induction false} CutsAreEnds(p: Position, buffers: seq<seq<byte>>)
    requires ValidPosition(p)
    requires forall i :: 0 <= i <= |buffers| ==> !Advance(p, |Flatten(buffers[..i])|).InControl?
    ensures ControlsWhole(p, buffers)
    ensures CutsAllowed(p, buffers) <==> forall i :: 0 <= i <= |buffers| ==> Advance(p, |Flatten(buffers[..i])|).At?
    decreases |buffers|
  {
    if buffers == [] {
      assert buffers[..0] == [];
    } else {
      hide Advance;
      assert Flatten(buffers[..1]) == buffers[0] by { assert buffers[..1][1..] == []; }
      if Advance(p, |buffers[0]|).At? {
        var q := Advance(p, |buffers[0]|).p;
        assert Advance(p, |Flatten(buffers[..0])|).At? by { AdvanceZero(p); }
        forall i | 0 <= i < |buffers|
          ensures Advance(q, |Flatten(buffers[1..][..i])|) == Advance(p, |Flatten(buffers[..i + 1])|)
        {
          EndAfterFirst(p, buffers, i);
        }
        forall i | 0 < i <= |buffers|
          ensures Advance(p, |Flatten(buffers[..i])|) == Advance(q, |Flatten(buffers[1..][..i - 1])|)
        {
          EndAfterFirst(p, buffers, i - 1);
        }
        CutsAreEnds(q, buffers[1..]);
      }
    }
  }

  lemma EndAfterFirst(p: Position, buffers: seq<seq<byte>>, i: nat)
    requires ValidPosition(p) && i < |buffers| && Advance(p, |buffers[0]|).At?
    ensures Advance(p, |Flatten(buffers[..i + 1])|) == Advance(Advance(p, |buffers[0]|).p, |Flatten(buffers[1..][..i])|)
  {
    hide Advance;
    assert buffers[..i + 1][1..] == buffers[1..][..i];
    AdvanceTwice(p, |buffers[0]|, |Flatten(buffers[1..][..i])|);
  }

  lemma {:induction false} BuffersAreRead(r: Receiver, all: seq<StreamFrame>, p: Position, buffers: seq<seq<byte>>)
    requires Reached(r, all, p) && Flatten(buffers) == Left(p) && ControlsWhole(p, buffers)
    ensures var (outcome, n) := Feed(r, buffers);
      if CutsAllowed(p, buffers) then outcome == Ran && Finished(n, all) else outcome == HeaderCut
    decreases |buffers|
  {
    hide OnData, Advance, Assembled, Left;
    if buffers == [] {
      SomethingLeft(p);
      assert all[|all| - 0..] == [];
    } else {
      var b, rest := buffers[0], Flatten(buffers[1..]);
      assert Left(p) == b + rest;
      BufferIsRead(r, all, p, b);
      if Advance(p, |b|).At? {
        assert Left(p)[|b|..] == rest;
        BuffersAreRead(OnData(r, b).1, all, Advance(p, |b|).p, buffers[1..]);
      }
    }
  }

  lemma SomethingLeft(p: Position)
    requires ValidPosition(p)
    ensures Left(p) == [] <==> p.rest == []
  {
    hide Masked;
  }

  /** The receiver has read the stream of `all` to its end. */
  ghost predicate Finished(r: Receiver, all: seq<StreamFrame>) {
    !r.inFrame && Assembled(r, all, [], [])
  }

  /** A stream of data and control frames, in buffers cut anywhere but inside a header or a
      control, is read back: the events give every data frame with its flags and its unmasked
      payload, in order, and report or answer every control frame once, in order. A cut inside a
      header makes the code read past a buffer. */
  lemma StreamIsReadBack(fs: seq<StreamFrame>, buffers: seq<seq<byte>>)
    requires Flatten(buffers) == Wire(fs) && OneClose(fs)
    requires forall i :: 0 <= i <= |buffers| ==> !InsideControl(fs, |Flatten(buffers[..i])|)
    ensures var (outcome, n) := Feed(FRESH, buffers);
      && outcome == (if exists i :: 0 <= i <= |buffers| && InsideHeader(fs, |Flatten(buffers[..i])|) then HeaderCut
          else Ran)
      && (outcome == Ran ==> !n.inFrame && Assemble(n.events) == Some(Assembly(DataOf(fs), [], ReportsOf(fs))))
  {
    hide Advance, Wire, InsideHeader, InsideControl, OneClose, DataOf, ReportsOf;
    var start := Position(fs, false, 0);
    assert fs[0..] == fs && fs[..0] == [];
    NothingRead(fs);
    forall i | 0 <= i <= |buffers|
      ensures Advance(start, |Flatten(buffers[..i])|).InHeader? <==> InsideHeader(fs, |Flatten(buffers[..i])|)
      ensures !Advance(start, |Flatten(buffers[..i])|).InControl?
    {
      FlattenPrefix(buffers, i);
      AdvanceFromStart(fs, |Flatten(buffers[..i])|);
    }
    CutsAreEnds(start, buffers);
    BuffersAreRead(FRESH, fs, start, buffers);
    assert fs[..|fs|] == fs;
  }

  lemma NothingRead(fs: seq<StreamFrame>)
    requires OneClose(fs)
    ensures Assembled(FRESH, fs, fs, [])
  {
    assert fs[|fs| - |fs|..] == fs && fs[..0] == [];
  }

  lemma {:induction false} FlattenPrefix(buffers: seq<seq<byte>>, i: nat)
    requires i <= |buffers|
    ensures |Flatten(buffers[..i])| <= |Flatten(buffers)|
  {
    if i > 0 {
      assert buffers[..i][1..] == buffers[1..][..i - 1];
      FlattenPrefix(buffers[1..], i - 1);
    }
  }
}
