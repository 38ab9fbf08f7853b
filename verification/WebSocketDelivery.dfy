/** Every message that a run of the sender completes arrives as it was queued. */
module WebSocketDelivery {
  import opened Buffers
  import opened Wrappers
  import opened Bytes
  import opened WebSocketFrame
  import opened WebSocketRoundTrip
  import opened WebSocketSender
  import opened WebSocketState
  import opened WebSocketSteps

  /** Frames whose headers tell their length. */
  ghost predicate AllReadable(fs: seq<Frame>) {
    forall i :: 0 <= i < |fs| ==> ValidFrame(fs[i]) && |fs[i].payload| < 0x1_0000
  }

  lemma {:induction false} MessagesAreReadable(ms: seq<Message>)
    requires forall i :: 0 <= i < |ms| ==> MessageOk(ms[i])
    ensures AllReadable(FramesOf(ms))
  {
    hide MessageOk;
    if ms != [] {
      MessagesAreReadable(ms[..|ms| - 1]);
      MessageIsReadable(ms[|ms| - 1]);
    }
  }

  lemma MessageIsReadable(m: Message)
    requires MessageOk(m)
    ensures AllReadable(m.frames)
  {
  }

  lemma {:induction false} ControlsAreReadable(cs: seq<Control>)
    requires forall i :: 0 <= i < |cs| ==> ControlOk(cs[i])
    ensures AllReadable(ControlFrames(cs))
  {
    if cs != [] { ControlsAreReadable(cs[..|cs| - 1]); }
  }

  lemma {:induction false} ReadableParts(fs: seq<Frame>)
    requires AllReadable(DataOf(fs)) && AllReadable(ControlsOf(fs))
    ensures AllReadable(fs)
  {
    if fs != [] {
      var init, f := fs[..|fs| - 1], fs[|fs| - 1];
      var more := if f.opcode < 8 then DataOf(fs) else ControlsOf(fs);
      assert more == (if f.opcode < 8 then DataOf(init) else ControlsOf(init)) + [f] && more[|more| - 1] == f;
      assert DataOf(init) == DataOf(fs)[..|DataOf(init)|] && ControlsOf(init) == ControlsOf(fs)[..|ControlsOf(init)|];
      ReadableParts(init);
    }
  }

  lemma WireIsReadable(st: State)
    requires Inv(st)
    ensures AllReadable(st.s.wire)
  {
    hide MessageOk, Balanced, DataOf, ControlsOf, FramesOf, ControlFrames, ControlFrame;
    var s := st.s;
    MessagesAreReadable(s.retired);
    if s.messages != [] { MessageIsReadable(s.messages[0]); }
    ControlsAreReadable(s.answered);
    if HeadFinished(s) { HeadIsReadable(s.controls[0]); }
    ReadableParts(s.wire);
  }

  lemma HeadIsReadable(c: Control)
    requires ControlOk(c)
    ensures AllReadable([ControlFrame(c)])
  {
  }

  /** Only controls are reported. */
  lemma {:induction false} ReportsOfControls(fs: seq<Frame>)
    ensures ReportsOf(fs) == ReportsOf(ControlsOf(fs))
  {
    hide ReportOf;
    if fs != [] {
      var init, f := fs[..|fs| - 1], fs[|fs| - 1];
      ReportsOfControls(init);
      if f.opcode >= 8 {
        assert (ControlsOf(init) + [f])[..|ControlsOf(init)|] == ControlsOf(init);
      } else {
        DataIsNotReported(f);
        assert ReportsOf(init) + [] == ReportsOf(init) && ControlsOf(init) + [] == ControlsOf(init);
      }
    }
  }

  lemma DataIsNotReported(f: Frame)
    requires f.opcode < 8
    ensures ReportOf(f) == []
  {
  }

  /** The bytes of the frames that a sender has written. */
  function Written(fs: seq<Frame>): seq<byte>
    requires AllReadable(fs)
  {
    if fs == [] then [] else Encoded(fs[0]) + Written(fs[1..])
  }

  lemma {:induction false} WrittenIsWire(fs: seq<StreamFrame>)
    requires AllReadable(fs)
    ensures Written(fs) == Wire(fs)
  {
    hide Encoded, PeerEncoded;
    if fs != [] {
      SenderIsPeer(fs[0]);
      WrittenIsWire(fs[1..]);
    }
  }

  /** Buffers that carry everything a sender has written, cut outside headers and controls. */
  ghost predicate Carries(buffers: seq<seq<byte>>, wire: seq<StreamFrame>)
    requires AllReadable(wire)
  {
    && Flatten(buffers) == Written(wire)
    && forall i :: 0 <= i <= |buffers| ==>
         !InsideHeader(wire, |Flatten(buffers[..i])|) && !InsideControl(wire, |Flatten(buffers[..i])|)
  }

  /** Not two close frames, and none with a single byte, which would be invalid. */
  predicate ClosesProperly(wire: seq<Frame>) {
    OneClose(wire) && forall i :: 0 <= i < |wire| && IsClose(wire[i]) ==> |wire[i].payload| != 1
  }

  /** The controls that are on the wire: those that were acknowledged, and the one that waits to be. */
  function SentControls(s: Sender): seq<Frame> {
    ControlFrames(s.answered) + if HeadFinished(s) then [ControlFrame(s.controls[0])] else []
  }

  /** Everything that a run has written, controls between fragments included, is read as the
      fragments of the retired messages, in order, and of the one being sent, and every control
      is reported or answered once, in order. */
  lemma MessagesAreDelivered(run: seq<Moment>, buffers: seq<seq<byte>>)
    requires Legal(State(FRESH, 0), run)
    ensures var s := Run(State(FRESH, 0), run).s;
      && AllReadable(s.wire)
      && (ClosesProperly(s.wire) && Carries(buffers, s.wire) ==>
          var (outcome, n) := WebSocketReceiver.Feed(WebSocketReceiver.FRESH, buffers);
          outcome == WebSocketReceiver.Ran
          && Assemble(n.events) == Some(Assembly(FramesOf(s.retired) + FrontFrames(s), [], ReportsOf(SentControls(s)))))
  {
    hide MessageOk, InsideHeader, InsideControl, Wire, WireSize, Do, Enabled, WebSocketReceiver.Feed, Assemble, Flatten,
      ReportsOf, DataOf, ControlsOf, OneClose;
    InitialInv();
    RunKeepsInv(State(FRESH, 0), run);
    var s := Run(State(FRESH, 0), run).s;
    WireIsReadable(Run(State(FRESH, 0), run));
    if ClosesProperly(s.wire) && Carries(buffers, s.wire) {
      WrittenIsWire(s.wire);
      StreamIsReadBack(s.wire, buffers);
      ReportsOfControls(s.wire);
    }
  }

  // ----- Frames joined to messages -----

  /** An opcode and data. */
  type Text = (nat, seq<byte>)

  /** Complete messages, and the one whose frames are still arriving. */
  datatype Inbox = Inbox(messages: seq<Text>, unfinished: Option<Text>)

  /** Messages joined from frames as section 5.4 of RFC 6455 says. */
  function Join(fs: seq<Frame>): Inbox {
    if fs == [] then Inbox([], None) else JoinOne(Join(fs[..|fs| - 1]), fs[|fs| - 1])
  }

  function JoinOne(b: Inbox, f: Frame): Inbox {
    var (opcode, data) :=
      if f.opcode == WS_CONTINUATION && b.unfinished.Some? then b.unfinished.value else (f.opcode, []);
    var joined := (opcode, data + f.payload);
    if f.final then Inbox(b.messages + [joined], None) else b.(unfinished := Some(joined))
  }

  /** The messages that have data. */
  function Texts(ms: seq<Message>): seq<Text> {
    if ms == [] then [] else Texts(ms[..|ms| - 1]) + TextOf(ms[|ms| - 1])
  }

  function TextOf(m: Message): seq<Text> {
    if m.data == [] then [] else [(m.opcode, m.data)]
  }

  /** A message of which `sent` bytes have arrived. */
  function Arrived(b: Inbox, opcode: nat, data: seq<byte>, sent: nat): Inbox
    requires sent <= |data|
  {
    if sent == 0 then b
    else if sent == |data| then b.(messages := b.messages + [(opcode, data)])
    else b.(unfinished := Some((opcode, data[..sent])))
  }

  lemma JoinSnoc(fs: seq<Frame>, f: Frame)
    ensures Join(fs + [f]) == JoinOne(Join(fs), f)
  {
    assert (fs + [f])[..|fs|] == fs;
  }

  lemma PayloadsSnoc(fs: seq<Frame>, f: Frame)
    ensures Payloads(fs + [f]) == Payloads(fs) + f.payload
    ensures fs == [] ==> Payloads(fs + [f]) == f.payload
  {
    assert (fs + [f])[..|fs|] == fs;
  }

  lemma {:induction false} FragmentsAreJoined(before: seq<Frame>, fs: seq<Frame>, opcode: nat, data: seq<byte>,
                                              sent: nat, n: nat)
    requires Fragments(fs, opcode, data, sent) && n <= |fs| && Join(before).unfinished == None
    ensures var b := Join(before);
      Join(before + fs[..n]) ==
        if n == 0 then b
        else if n == |fs| && sent == |data| then b.(messages := b.messages + [(opcode, Payloads(fs[..n]))])
        else b.(unfinished := Some((opcode, Payloads(fs[..n]))))
  {
    hide Join, Payloads;
    if n == 0 {
      assert before + fs[..0] == before;
    } else {
      FragmentsAreJoined(before, fs, opcode, data, sent, n - 1);
      assert before + fs[..n] == before + fs[..n - 1] + [fs[n - 1]] && fs[..n] == fs[..n - 1] + [fs[n - 1]];
      JoinSnoc(before + fs[..n - 1], fs[n - 1]);
      PayloadsSnoc(fs[..n - 1], fs[n - 1]);
    }
  }

  lemma MessageArrives(before: seq<Frame>, m: Message)
    requires MessageOk(m) && Join(before).unfinished == None
    ensures Join(before + m.frames) == Arrived(Join(before), m.opcode, m.data, m.sent)
  {
    hide Join, Arrived;
    MessageFacts(m);
    FragmentsAreJoined(before, m.frames, m.opcode, m.data, m.sent, |m.frames|);
    assert m.frames[..|m.frames|] == m.frames;
    ArrivedIs(Join(before), m.opcode, m.data, m.sent);
  }

  lemma ArrivedIs(b: Inbox, opcode: nat, data: seq<byte>, sent: nat)
    requires sent <= |data|
    ensures Arrived(b, opcode, data, sent) ==
      if sent == 0 then b
      else if sent == |data| then b.(messages := b.messages + [(opcode, data[..sent])])
      else b.(unfinished := Some((opcode, data[..sent])))
  {
    assert data[..|data|] == data;
  }

  lemma {:induction false} RetiredArrive(ms: seq<Message>)
    requires forall i :: 0 <= i < |ms| ==> MessageOk(ms[i]) && ms[i].status == Sent
    ensures Join(FramesOf(ms)) == Inbox(Texts(ms), None)
  {
    hide MessageOk, Join;
    if ms == [] {
      NothingJoined();
    } else {
      var before, m := ms[..|ms| - 1], ms[|ms| - 1];
      RetiredArrive(before);
      MessageArrives(FramesOf(before), m);
      SentIsWhole(m);
    }
  }

  lemma NothingJoined()
    ensures Join([]) == Inbox([], None)
  {
  }

  lemma SentIsWhole(m: Message)
    requires MessageOk(m)
    ensures m.sent <= |m.data| && (m.status == Sent ==> m.sent == |m.data|)
  {
    hide Fragments, WireSize;
    FragmentsBound(m.frames, m.opcode, m.data, m.sent);
  }

  /** What the receiver must have of a sender's messages: the retired ones whole and in order,
      and of the one being sent the bytes that were. */
  function Due(s: Sender): Inbox
    requires s.messages != [] ==> s.messages[0].sent <= |s.messages[0].data|
  {
    var b := Inbox(Texts(s.retired), None);
    if s.messages == [] then b else Arrived(b, s.messages[0].opcode, s.messages[0].data, s.messages[0].sent)
  }

  /** The frames that a run has written join to exactly the messages due, and the complete ones
      are a prefix of the messages with data that were accepted, in the order of acceptance. */
  lemma WireJoinsToMessages(run: seq<Moment>)
    requires Legal(State(FRESH, 0), run)
    ensures var s := Run(State(FRESH, 0), run).s;
      && (s.messages != [] ==> s.messages[0].sent <= |s.messages[0].data|)
      && Join(FramesOf(s.retired) + FrontFrames(s)) == Due(s)
      && Due(s).messages <= Texts(s.retired + s.messages)
  {
    hide MessageOk, Join, Texts, WireOk, Arrived;
    InitialInv();
    RunKeepsInv(State(FRESH, 0), run);
    var s := Run(State(FRESH, 0), run).s;
    RetiredArrive(s.retired);
    TextsConcat(s.retired, s.messages);
    if s.messages == [] {
      assert FramesOf(s.retired) + [] == FramesOf(s.retired);
    } else {
      var m := s.messages[0];
      SentIsWhole(m);
      MessageArrives(FramesOf(s.retired), m);
      FirstText(s.messages);
      ArrivedPrefix(Inbox(Texts(s.retired), None), m);
    }
  }

  lemma ArrivedPrefix(b: Inbox, m: Message)
    requires m.sent <= |m.data|
    ensures Arrived(b, m.opcode, m.data, m.sent).messages <= b.messages + TextOf(m)
  {
  }

  lemma {:induction false} TextsConcat(a: seq<Message>, b: seq<Message>)
    ensures Texts(a + b) == Texts(a) + Texts(b)
    decreases |b|
  {
    if b == [] {
      assert a + b == a;
    } else {
      assert (a + b)[..|a + b| - 1] == a + b[..|b| - 1];
      TextsConcat(a, b[..|b| - 1]);
    }
  }

  lemma FirstText(ms: seq<Message>)
    requires ms != []
    ensures TextOf(ms[0]) <= Texts(ms)
  {
    assert ms == [ms[0]] + ms[1..];
    TextsConcat([ms[0]], ms[1..]);
    assert [ms[0]][..0] == [] && Texts([]) == [];
  }

  /** End to end: what is queued at one end is what the other end joins from its events, for every
      run of the sender and every cut of its bytes outside headers and controls. */
  lemma MessagesAreReceived(run: seq<Moment>, buffers: seq<seq<byte>>)
    requires Legal(State(FRESH, 0), run)
    requires var wire := Run(State(FRESH, 0), run).s.wire;
      AllReadable(wire) && ClosesProperly(wire) && Carries(buffers, wire)
    ensures var s := Run(State(FRESH, 0), run).s;
      var received := Assemble(WebSocketReceiver.Feed(WebSocketReceiver.FRESH, buffers).1.events);
      && (s.messages != [] ==> s.messages[0].sent <= |s.messages[0].data|)
      && received.Some? && Join(received.value.frames) == Due(s)
      && Due(s).messages <= Texts(s.retired + s.messages)
      && received.value.reports == ReportsOf(SentControls(s))
  {
    hide Join, Due, Wire, Do, Enabled, WebSocketReceiver.Feed, Assemble, Flatten, FramesOf, DataOf, ControlsOf, Carries,
      ClosesProperly, ReportsOf, SentControls;
    MessagesAreDelivered(run, buffers);
    WireJoinsToMessages(run);
  }
}
