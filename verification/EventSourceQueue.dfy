/**
 The queue of an event source client: messages are written whole when TCP has room for them,
 and acknowledged bytes are credited to the queued messages from the front.
 */
module EventSourceQueue {
  const MAX_QUEUED: nat := 32

  datatype Entry = Entry(data: string, sent: nat, acked: nat)

  predicate IsSent(e: Entry) {
    e.sent == |e.data|
  }

  predicate IsFinished(e: Entry) {
    e.acked == |e.data|
  }

  /** `wire` is what was handed to TCP, `retired` are the messages that left the queue. */
  datatype Client = Client(queue: seq<Entry>, retired: seq<Entry>, wire: string)

  const FRESH := Client([], [], "")

  /** `AsyncEventSourceMessage::ack`: the message, and the bytes that are not its own. */
  function AckEntry(e: Entry, len: nat): (Entry, nat)
    requires e.acked <= |e.data|
  {
    if e.acked + len > |e.data| then (e.(acked := |e.data|), e.acked + len - |e.data|)
    else (e.(acked := e.acked + len), 0)
  }

  predicate AcksFit(q: seq<Entry>) {
    forall i :: 0 <= i < |q| ==> q[i].acked <= |q[i].data|
  }

  /** The loop of `_onAck`. */
  function Credit(c: Client, len: nat): (n: Client)
    requires AcksFit(c.queue)
    ensures AcksFit(n.queue)
    decreases |c.queue|
  {
    if len == 0 || c.queue == [] then c else
      var (e, extra) := AckEntry(c.queue[0], len);
      if IsFinished(e) then Credit(c.(queue := c.queue[1..], retired := c.retired + [e]), extra)
      else c.(queue := [e] + c.queue[1..])
  }

  function Retire(c: Client): (n: Client)
    ensures AcksFit(c.queue) ==> AcksFit(n.queue)
    decreases |c.queue|
  {
    if c.queue != [] && IsFinished(c.queue[0]) then
      Retire(c.(queue := c.queue[1..], retired := c.retired + [c.queue[0]]))
    else c
  }

  /** A message is written only as a whole. */
  predicate Fits(e: Entry, space: nat) {
    !IsSent(e) && e.sent <= |e.data| && |e.data| - e.sent <= space
  }

  function SendOne(e: Entry, space: nat): (r: (Entry, string))
    ensures |r.1| <= space && r.0.acked == e.acked && r.0.data == e.data
  {
    if Fits(e, space) then (e.(sent := |e.data|), e.data[e.sent..]) else (e, "")
  }

  /** The queue after a pass that sends what fits, and the bytes it sent. */
  function SendAll(q: seq<Entry>, space: nat): (r: (seq<Entry>, string))
    ensures |r.0| == |q|
    ensures forall i :: 0 <= i < |q| ==> r.0[i].acked == q[i].acked && r.0[i].data == q[i].data
  {
    if q == [] then ([], "") else
      var (e, out) := SendOne(q[0], space);
      var (rest, more) := SendAll(q[1..], space - |out|);
      ([e] + rest, out + more)
  }

  lemma SendAllHead(q: seq<Entry>, space: nat)
    requires q != []
    ensures var (e, out) := SendOne(q[0], space);
      var (rest, more) := SendAll(q[1..], space - |out|);
      SendAll(q, space) == ([e] + rest, out + more)
  {
  }

  function Prefixed(q: seq<Entry>, wire: string, r: (seq<Entry>, string)): (seq<Entry>, string) {
    (q + r.0, wire + r.1)
  }

  lemma PrefixedStep(q: seq<Entry>, wire: string, t: seq<Entry>, room: nat)
    requires t != []
    ensures var (e, out) := SendOne(t[0], room);
      Prefixed(q, wire, SendAll(t, room)) == Prefixed(q + [e], wire + out, SendAll(t[1..], room - |out|))
  {
    hide SendAll, SendOne;
    SendAllHead(t, room);
    var (e, out) := SendOne(t[0], room);
    var (rest, more) := SendAll(t[1..], room - |out|);
    assert q + ([e] + rest) == q + [e] + rest;
    assert wire + (out + more) == wire + out + more;
  }

  lemma PrefixedNone(q: seq<Entry>, wire: string, room: nat)
    ensures Prefixed(q, wire, SendAll([], room)) == (q, wire)
  {
    assert q + [] == q && wire + "" == wire;
  }

  function RunQueue(c: Client, space: nat): Client {
    var r := Retire(c);
    var (q, out) := SendAll(r.queue, space);
    r.(queue := q, wire := r.wire + out)
  }

  function QueueMessage(c: Client, data: string, space: nat): Client {
    var n := if |c.queue| >= MAX_QUEUED then c else c.(queue := c.queue + [Entry(data, 0, 0)]);
    if space > 0 then RunQueue(n, space) else n
  }

  function OnAck(c: Client, len: nat, space: nat): Client
    requires AcksFit(c.queue)
  {
    RunQueue(Credit(c, len), space)
  }

  class AsyncEventSourceClient {
    var queue: seq<Entry>
    var retired: seq<Entry>
    var wire: string

    function View(): Client
      reads this
    {
      Client(queue, retired, wire)
    }

    constructor ()
      ensures View() == FRESH
    {
      queue, retired, wire := [], [], "";
    }

    method Run(space: nat)
      modifies this
      ensures View() == RunQueue(old(View()), space)
    {
      while queue != [] && IsFinished(queue[0])
        invariant Retire(View()) == Retire(old(View()))
        decreases |queue|
      {
        retired := retired + [queue[0]];
        queue := queue[1..];
      }
      SendFitting(space);
    }

    method SendFitting(space: nat)
      modifies this`queue, this`wire
      ensures (queue, wire) == Prefixed([], old(wire), SendAll(old(queue), space))
    {
      hide SendAll, SendOne, Prefixed;
      ghost var start, goal := queue, Prefixed([], wire, SendAll(queue, space));
      var room: nat := space;
      assert start[0..] == start && queue[..0] == [];
      for i := 0 to |queue|
        invariant |queue| == |start| && queue[i..] == start[i..]
        invariant Prefixed(queue[..i], wire, SendAll(start[i..], room)) == goal
      {
        ghost var done := queue[..i];
        PrefixedStep(done, wire, start[i..], room);
        assert start[i..][0] == queue[i] && start[i..][1..] == start[i + 1..];
        var (e, out) := SendOne(queue[i], room);
        queue, wire, room := queue[i := e], wire + out, room - |out|;
        assert queue[..i + 1] == done + [e];
      }
      assert queue[..|queue|] == queue && start[|queue|..] == [];
      PrefixedNone(queue, wire, room);
    }

    method Enqueue(data: string, space: nat)
      modifies this
      ensures View() == QueueMessage(old(View()), data, space)
    {
      if |queue| < MAX_QUEUED { queue := queue + [Entry(data, 0, 0)]; }
      if space > 0 { Run(space); }
    }

    method HandleAck(len: nat, space: nat)
      requires AcksFit(View().queue)
      modifies this
      ensures View() == OnAck(old(View()), len, space)
    {
      var rest := len;
      while rest > 0 && queue != []
        invariant AcksFit(queue) && wire == old(wire)
        invariant Credit(View(), rest) == Credit(old(View()), len)
        decreases |queue|, rest
      {
        ghost var before := View();
        var (e, extra) := AckEntry(queue[0], rest);
        if IsFinished(e) {
          queue, retired, rest := queue[1..], retired + [e], extra;
        } else {
          queue, rest := [e] + queue[1..], 0;
        }
      }
      Run(space);
    }
  }

  lemma SendAllEmpty(space: nat)
    ensures SendAll([], space) == ([], "")
  {
  }

  // ----- The order of messages on the wire -----

  /** No message was sent before one that is ahead of it. */
  ghost predicate InOrder(q: seq<Entry>) {
    && (forall i :: 0 <= i < |q| ==> q[i].sent == 0 || IsSent(q[i]))
    && (forall i, j :: 0 <= i < j < |q| && q[j].sent > 0 ==> IsSent(q[i]))
  }

  /** A pass overtakes: it skips a message for which there is no room and sends a later one. */
  ghost predicate Overtakes(q: seq<Entry>, space: nat) {
    q != [] &&
    if IsSent(q[0]) then Overtakes(q[1..], space)
    else if Fits(q[0], space) then Overtakes(q[1..], space - (|q[0].data| - q[0].sent))
    else exists j :: 0 < j < |q| && Fits(q[j], space)
  }

  lemma {:induction false} SomethingIsSent(q: seq<Entry>, space: nat, j: nat)
    requires InOrder(q) && j < |q| && Fits(q[j], space)
    ensures exists k :: 0 <= k < |q| && q[k].sent == 0 && SendAll(q, space).0[k].sent > 0
  {
    hide SendAll, InOrder;
    SendAllHead(q, space);
    if Fits(q[0], space) {
      assert q[0].sent == 0 by { HeadUnsent(q); }
      assert SendAll(q, space).0[0].sent > 0;
    } else {
      TailInOrder(q);
      SomethingIsSent(q[1..], space, j - 1);
      var k :| 0 <= k < |q| - 1 && q[1..][k].sent == 0 && SendAll(q[1..], space).0[k].sent > 0;
      assert q[k + 1].sent == 0 && SendAll(q, space).0[k + 1].sent > 0;
    }
  }

  lemma HeadUnsent(q: seq<Entry>)
    requires InOrder(q) && q != [] && !IsSent(q[0])
    ensures q[0].sent == 0
  {
  }

  lemma {:induction false} NothingFits(q: seq<Entry>, space: nat)
    requires forall j :: 0 <= j < |q| ==> !Fits(q[j], space)
    ensures SendAll(q, space).0 == q
  {
    if q != [] { NothingFits(q[1..], space); }
  }

  lemma OvertakesHead(q: seq<Entry>, space: nat)
    requires q != [] && (IsSent(q[0]) || Fits(q[0], space))
    ensures Overtakes(q, space) <==> Overtakes(q[1..], space - |SendOne(q[0], space).1|)
  {
  }

  /** A pass keeps the messages in order exactly if it does not overtake. */
  lemma {:induction false} PassKeepsOrder(q: seq<Entry>, space: nat)
    requires InOrder(q)
    ensures InOrder(SendAll(q, space).0) <==> !Overtakes(q, space)
  {
    hide SendAll, Overtakes;
    if q == [] {
      SendAllEmpty(space);
      OvertakesNone(space);
    } else if IsSent(q[0]) || Fits(q[0], space) {
      TailInOrder(q);
      SendAllHead(q, space);
      OvertakesHead(q, space);
      PassKeepsOrder(q[1..], space - |SendOne(q[0], space).1|);
      assert SendAll(q, space).0[1..] == SendAll(q[1..], space - |SendOne(q[0], space).1|).0;
      HeadSent(SendAll(q, space).0);
    } else {
      SkipKeepsOrder(q, space);
    }
  }

  lemma OvertakesNone(space: nat)
    ensures !Overtakes([], space)
  {
  }

  lemma TailInOrder(q: seq<Entry>)
    requires q != [] && InOrder(q)
    ensures InOrder(q[1..])
  {
  }

  lemma SkipKeepsOrder(q: seq<Entry>, space: nat)
    requires InOrder(q) && q != [] && !IsSent(q[0]) && !Fits(q[0], space)
    ensures InOrder(SendAll(q, space).0) <==> !Overtakes(q, space)
  {
    if exists j :: 0 < j < |q| && Fits(q[j], space) {
      var j :| 0 < j < |q| && Fits(q[j], space);
      SomethingIsSent(q, space, j);
      SendAllHead(q, space);
    } else {
      NothingFits(q, space);
    }
  }

  lemma HeadSent(r: seq<Entry>)
    requires r != [] && IsSent(r[0])
    ensures InOrder(r) <==> InOrder(r[1..])
  {
    if InOrder(r[1..]) {
      assert forall i :: 0 < i < |r| ==> r[i] == r[1..][i - 1];
    }
  }

  // ----- The accounts -----

  function Flat(q: seq<Entry>): string {
    if q == [] then "" else q[0].data + Flat(q[1..])
  }

  function SentPart(q: seq<Entry>): string {
    if q == [] then "" else (if IsSent(q[0]) then q[0].data else "") + SentPart(q[1..])
  }

  lemma {:induction false} FlatConcat(a: seq<Entry>, b: seq<Entry>)
    ensures Flat(a + b) == Flat(a) + Flat(b)
  {
    if a == [] {
      assert a + b == b;
    } else {
      assert (a + b)[1..] == a[1..] + b;
      FlatConcat(a[1..], b);
    }
  }

  /** `acked` is what TCP has acknowledged. Only the first message is credited in part. */
  ghost predicate Inv(c: Client, acked: nat) {
    && InOrder(c.queue) && AcksFit(c.queue)
    && (forall i :: 0 < i < |c.queue| ==> c.queue[i].acked == 0)
    && (c.queue != [] ==> c.queue[0].acked <= c.queue[0].sent)
    && (forall i :: 0 <= i < |c.retired| ==> IsSent(c.retired[i]) && IsFinished(c.retired[i]))
    && c.wire == Flat(c.retired) + SentPart(c.queue)
    && acked == |Flat(c.retired)| + (if c.queue != [] then c.queue[0].acked else 0)
  }

  lemma RetireOneKeeps(c: Client, e: Entry, acked: nat)
    requires Inv(c, acked) && c.queue != [] && IsSent(c.queue[0]) && e == c.queue[0].(acked := |c.queue[0].data|)
    ensures Inv(c.(queue := c.queue[1..], retired := c.retired + [e]), acked + |e.data| - c.queue[0].acked)
  {
    FlatConcat(c.retired, [e]);
    assert Flat([e]) == e.data by { assert [e][1..] == []; }
    HeadSent(c.queue);
  }

  lemma {:induction false} RetireKeeps(c: Client, acked: nat)
    requires Inv(c, acked)
    ensures Inv(Retire(c), acked)
    decreases |c.queue|
  {
    if c.queue != [] && IsFinished(c.queue[0]) {
      assert c.queue[0] == c.queue[0].(acked := |c.queue[0].data|);
      RetireOneKeeps(c, c.queue[0], acked);
      RetireKeeps(c.(queue := c.queue[1..], retired := c.retired + [c.queue[0]]), acked);
    }
  }

  /** Messages behind one that is not sent are not sent either. */
  lemma {:induction false} NoneSentBehind(q: seq<Entry>)
    requires InOrder(q) && (q != [] ==> !IsSent(q[0]))
    ensures forall i :: 0 <= i < |q| && q[i].data != "" ==> !IsSent(q[i])
    ensures SentPart(q) == ""
  {
    if q != [] {
      assert forall i :: 0 < i < |q| ==> q[i].sent == 0;
      EmptySentPart(q);
    }
  }

  lemma {:induction false} EmptySentPart(q: seq<Entry>)
    requires forall i :: 0 <= i < |q| ==> q[i].sent == 0
    ensures SentPart(q) == ""
  {
    if q != [] { EmptySentPart(q[1..]); }
  }

  lemma {:induction false} CreditKeeps(c: Client, len: nat, acked: nat)
    requires Inv(c, acked) && acked + len <= |c.wire|
    ensures Inv(Credit(c, len), acked + len)
    decreases |c.queue|
  {
    if len > 0 && c.queue != [] {
      var front := c.queue[0];
      if !IsSent(front) { NoneSentBehind(c.queue); }
      var (e, extra) := AckEntry(front, len);
      if IsFinished(e) {
        RetireOneKeeps(c, e, acked);
        CreditKeeps(c.(queue := c.queue[1..], retired := c.retired + [e]), extra, acked + len - extra);
      }
    }
  }

  /** A pass that does not overtake appends what it sends after everything sent before. */
  lemma {:induction false} SendAllExtends(q: seq<Entry>, space: nat)
    requires InOrder(q) && !Overtakes(q, space)
    ensures SentPart(SendAll(q, space).0) == SentPart(q) + SendAll(q, space).1
  {
    hide SendAll, Overtakes, InOrder;
    if q == [] {
      SendAllEmpty(space);
    } else if IsSent(q[0]) || Fits(q[0], space) {
      TailInOrder(q);
      OvertakesHead(q, space);
      SendAllHead(q, space);
      SendAllExtends(q[1..], space - |SendOne(q[0], space).1|);
      HeadExtends(q, SendAll(q[1..], space - |SendOne(q[0], space).1|).0, space);
    } else {
      NoOvertaking(q, space);
      NothingFits(q, space);
      NothingSent(q, space);
      assert SentPart(q) + "" == SentPart(q);
    }
  }

  lemma HeadExtends(q: seq<Entry>, rest: seq<Entry>, space: nat)
    requires q != [] && InOrder(q) && (IsSent(q[0]) || Fits(q[0], space))
    ensures !IsSent(q[0]) ==> SentPart(q) == "" && SentPart(q[1..]) == ""
    ensures var (e, out) := SendOne(q[0], space);
      && SentPart([e] + rest) == e.data + SentPart(rest) && out == if IsSent(q[0]) then "" else e.data
  {
    var (e, out) := SendOne(q[0], space);
    assert ([e] + rest)[1..] == rest;
    if !IsSent(q[0]) {
      NoneSentBehind(q);
      assert q[0].data[0..] == q[0].data;
    }
  }

  lemma NoOvertaking(q: seq<Entry>, space: nat)
    requires q != [] && !Overtakes(q, space) && !IsSent(q[0]) && !Fits(q[0], space)
    ensures forall j :: 0 <= j < |q| ==> !Fits(q[j], space)
  {
  }

  lemma {:induction false} NothingSent(q: seq<Entry>, space: nat)
    requires forall j :: 0 <= j < |q| ==> !Fits(q[j], space)
    ensures SendAll(q, space).1 == ""
  {
    if q != [] { NothingSent(q[1..], space); }
  }

  lemma PassKeeps(c: Client, space: nat, acked: nat)
    requires Inv(c, acked) && !Overtakes(c.queue, space)
    ensures var (q, out) := SendAll(c.queue, space); Inv(c.(queue := q, wire := c.wire + out), acked)
  {
    hide InOrder, Overtakes, SendAll;
    PassKeepsOrder(c.queue, space);
    SendAllExtends(c.queue, space);
    if c.queue != [] { FrontGrows(c.queue, space); }
  }

  lemma FrontGrows(q: seq<Entry>, space: nat)
    requires q != []
    ensures SendAll(q, space).0[0].sent >= q[0].sent
  {
    SendAllHead(q, space);
  }

  lemma RunQueueKeeps(c: Client, space: nat, acked: nat)
    requires Inv(c, acked) && !Overtakes(Retire(c).queue, space)
    ensures Inv(RunQueue(c, space), acked)
  {
    hide Inv, Overtakes;
    RetireKeeps(c, acked);
    PassKeeps(Retire(c), space, acked);
  }

  // ----- Runs -----

  datatype Step = Send(data: string) | Ack(len: nat) | Poll

  /** A step at a moment when TCP has room for `space` bytes. */
  datatype Moment = Moment(step: Step, space: nat)

  datatype State = State(c: Client, acked: nat)

  /** The client before the pass over its queue, if the step makes one. */
  function Before(st: State, m: Moment): Client
    requires AcksFit(st.c.queue)
  {
    match m.step
    case Send(data) =>
      if |st.c.queue| >= MAX_QUEUED then st.c else st.c.(queue := st.c.queue + [Entry(data, 0, 0)])
    case Ack(len) => Credit(st.c, len)
    case Poll => st.c
  }

  predicate Runs(st: State, m: Moment) {
    match m.step
    case Send(_) => m.space > 0
    case Ack(_) => true
    case Poll => st.c.queue != []
  }

  ghost predicate Enabled(st: State, m: Moment) {
    && AcksFit(st.c.queue) && (m.step.Ack? ==> st.acked + m.step.len <= |st.c.wire|)
  }

  /** The step's pass sends messages in the order of the queue. */
  ghost predicate Orderly(st: State, m: Moment)
    requires AcksFit(st.c.queue)
  {
    Runs(st, m) ==> !Overtakes(Retire(Before(st, m)).queue, m.space)
  }

  function Do(st: State, m: Moment): State
    requires AcksFit(st.c.queue)
  {
    match m.step
    case Send(data) => st.(c := QueueMessage(st.c, data, m.space))
    case Ack(len) => State(OnAck(st.c, len, m.space), st.acked + len)
    case Poll => if st.c.queue != [] then st.(c := RunQueue(st.c, m.space)) else st
  }

  lemma EnqueueKeeps(c: Client, data: string, acked: nat)
    requires Inv(c, acked)
    ensures Inv(c.(queue := c.queue + [Entry(data, 0, 0)]), acked)
  {
    SentPartSnoc(c.queue, Entry(data, 0, 0));
  }

  lemma {:induction false} SentPartSnoc(q: seq<Entry>, e: Entry)
    requires e.sent == 0
    ensures SentPart(q + [e]) == SentPart(q)
  {
    if q == [] {
      assert [e][1..] == [] && q + [e] == [e];
    } else {
      assert (q + [e])[1..] == q[1..] + [e];
      SentPartSnoc(q[1..], e);
    }
  }

  lemma StepKeepsInv(st: State, m: Moment)
    requires Inv(st.c, st.acked) && Enabled(st, m) && Orderly(st, m)
    ensures Inv(Do(st, m).c, Do(st, m).acked)
  {
    hide Inv, Overtakes, RunQueue, Credit;
    var b, acked := Before(st, m), if m.step.Ack? then st.acked + m.step.len else st.acked;
    assert Inv(b, acked) by {
      if m.step.Send? { EnqueueKeeps(st.c, m.step.data, st.acked); }
      if m.step.Ack? { CreditKeeps(st.c, m.step.len, st.acked); }
    }
    if Runs(st, m) { RunQueueKeeps(b, m.space, acked); }
  }

  ghost predicate Legal(st: State, run: seq<Moment>)
    decreases |run|
  {
    run == [] || (Enabled(st, run[0]) && Legal(Do(st, run[0]), run[1..]))
  }

  /** No step of the run lets a message overtake another. */
  ghost predicate OrderlyRun(st: State, run: seq<Moment>)
    requires Legal(st, run)
    decreases |run|
  {
    run == [] || (Orderly(st, run[0]) && OrderlyRun(Do(st, run[0]), run[1..]))
  }

  ghost function Run(st: State, run: seq<Moment>): State
    requires Legal(st, run)
    decreases |run|
  {
    if run == [] then st else Run(Do(st, run[0]), run[1..])
  }

  lemma {:induction false} RunKeepsInv(st: State, run: seq<Moment>)
    requires Inv(st.c, st.acked) && Legal(st, run) && OrderlyRun(st, run)
    ensures Inv(Run(st, run).c, Run(st, run).acked)
    decreases |run|
  {
    hide Inv, Do, Orderly;
    if run != [] {
      StepKeepsInv(st, run[0]);
      RunKeepsInv(Do(st, run[0]), run[1..]);
    }
  }

  lemma FreshInv()
    ensures Inv(FRESH, 0)
  {
  }

  /** In a run that never overtakes, the wire carries the retired messages in order and then
      the sent ones, and a message is retired only when TCP has acknowledged all its bytes. */
  lemma MessagesArriveInOrder(run: seq<Moment>)
    requires Legal(State(FRESH, 0), run) && OrderlyRun(State(FRESH, 0), run)
    ensures var st := Run(State(FRESH, 0), run);
      && st.c.wire == Flat(st.c.retired) + SentPart(st.c.queue)
      && |Flat(st.c.retired)| <= st.acked
      && (forall i :: 0 <= i < |st.c.retired| ==> IsSent(st.c.retired[i]))
  {
    hide Enabled, Orderly, Do, InOrder;
    FreshInv();
    RunKeepsInv(State(FRESH, 0), run);
  }

  // ----- What overtaking does -----

  /** The credit does not ask whether the first message was sent: bytes of messages that
      overtook it retire it unsent. */
  lemma UnsentFrontIsRetired(c: Client, len: nat)
    requires AcksFit(c.queue) && c.queue != [] && len > 0
    requires c.queue[0].sent == 0 && c.queue[0].acked + len == |c.queue[0].data|
    ensures Credit(c, len) == c.(queue := c.queue[1..],
        retired := c.retired + [Entry(c.queue[0].data, 0, |c.queue[0].data|)])
  {
    var e := c.queue[0].(acked := |c.queue[0].data|);
    assert AckEntry(c.queue[0], len) == (e, 0);
  }

  lemma {:induction false} LastIsSent(q: seq<Entry>, e: Entry, space: nat)
    requires Fits(e, space) && forall i :: 0 <= i < |q| ==> !Fits(q[i], space)
    ensures SendAll(q + [e], space) == (q + [e.(sent := |e.data|)], e.data[e.sent..])
  {
    hide SendAll;
    SendAllHead(q + [e], space);
    if q == [] {
      assert (q + [e])[1..] == [];
      SendAllEmpty(space - (|e.data| - e.sent));
      var out := e.data[e.sent..];
      assert out + "" == out && [e.(sent := |e.data|)] + [] == q + [e.(sent := |e.data|)];
    } else {
      assert (q + [e])[1..] == q[1..] + [e];
      LastIsSent(q[1..], e, space);
      var sent, out := e.(sent := |e.data|), e.data[e.sent..];
      assert SendOne(q[0], space) == (q[0], "") && "" + out == out;
      assert [q[0]] + (q[1..] + [sent]) == q + [sent];
    }
  }

  predicate Stuck(c: Client, space: nat) {
    (c.queue != [] ==> !IsFinished(c.queue[0])) && forall i :: 0 <= i < |c.queue| ==> !Fits(c.queue[i], space)
  }

  lemma NothingHappens(c: Client, space: nat)
    requires Stuck(c, space)
    ensures RunQueue(c, space) == c
  {
    hide SendAll;
    NothingFits(c.queue, space);
    NothingSent(c.queue, space);
    assert c.wire + "" == c.wire;
  }

  /** A short message goes out although longer ones ahead of it wait for room. */
  lemma ShortMessageOvertakes(c: Client, data: string, space: nat)
    requires Stuck(c, space) && |c.queue| < MAX_QUEUED && 0 < |data| <= space
    ensures QueueMessage(c, data, space) == Client(c.queue + [Entry(data, |data|, 0)], c.retired, c.wire + data)
  {
    hide SendAll;
    LastIsSent(c.queue, Entry(data, 0, 0), space);
    assert data[0..] == data;
  }

  lemma LongMessageWaits(data: string, space: nat)
    requires 0 < space < |data|
    ensures QueueMessage(FRESH, data, space) == Client([Entry(data, 0, 0)], [], "")
  {
    hide SendAll;
    assert [] + [Entry(data, 0, 0)] == [Entry(data, 0, 0)];
    NothingHappens(Client([Entry(data, 0, 0)], [], ""), space);
  }

  /** So a message can leave the queue without ever being written: `a` does not fit, `b` and
      `d` do, and their acknowledged bytes are credited to `a`. */
  lemma OvertakenMessageIsLost(a: string, b: string, d: string, space: nat)
    requires 0 < |b| <= space < |a| && 0 < |a| - |b| <= |d| <= space
    ensures var c2 := QueueMessage(QueueMessage(FRESH, a, space), b, space);
      AcksFit(c2.queue) && |b| <= |c2.wire| &&
      var c4 := QueueMessage(OnAck(c2, |b|, 0), d, space);
      AcksFit(c4.queue) && |a| <= |c4.wire| &&
      var c5 := OnAck(c4, |a| - |b|, 0);
      c5.retired == [Entry(a, 0, |a|)] && c5.wire == b + d
  {
    hide QueueMessage, RunQueue, Credit, SendAll;
    LongMessageWaits(a, space);
    var c1 := QueueMessage(FRESH, a, space);
    ShortMessageOvertakes(c1, b, space);
    var c2 := Client([Entry(a, 0, 0), Entry(b, |b|, 0)], [], b);
    assert c1.queue + [Entry(b, |b|, 0)] == c2.queue && "" + b == b;
    var c3 := Client([Entry(a, 0, |b|), Entry(b, |b|, 0)], [], b);
    PartialCredit(c2, |b|);
    assert [c3.queue[0]] + c2.queue[1..] == c3.queue;
    NothingHappens(c3, 0);
    assert OnAck(c2, |b|, 0) == c3;
    ShortMessageOvertakes(c3, d, space);
    var c4 := Client(c3.queue + [Entry(d, |d|, 0)], [], b + d);
    UnsentFrontIsRetired(c4, |a| - |b|);
    var left := Client(c4.queue[1..], [Entry(a, 0, |a|)], b + d);
    assert [] + [Entry(a, 0, |a|)] == left.retired;
    assert left.queue == [Entry(b, |b|, 0), Entry(d, |d|, 0)];
    NothingHappens(left, 0);
  }

  lemma PartialCredit(c: Client, len: nat)
    requires AcksFit(c.queue) && c.queue != [] && 0 < len && c.queue[0].acked + len < |c.queue[0].data|
    ensures Credit(c, len) == c.(queue := [c.queue[0].(acked := c.queue[0].acked + len)] + c.queue[1..])
  {
  }

  // ----- When messages are lost -----

  /** From the front on, the acknowledged bytes reach the end of the first message that is not sent. */
  predicate Covers(q: seq<Entry>, len: nat)
    requires AcksFit(q)
  {
    q != [] && q[0].acked + len >= |q[0].data| &&
      (!IsSent(q[0]) || Covers(q[1..], q[0].acked + len - |q[0].data|))
  }

  ghost predicate AllSent(q: seq<Entry>) {
    forall i :: 0 <= i < |q| ==> IsSent(q[i])
  }

  /** Nothing was lost: what is not sent lacks credit, and what has left was sent. */
  ghost predicate Lossless(c: Client) {
    && AcksFit(c.queue) && AllSent(c.retired)
    && forall i :: 0 <= i < |c.queue| && !IsSent(c.queue[i]) ==> !IsFinished(c.queue[i])
  }

  lemma {:induction false} CreditKeepsRetired(c: Client, len: nat)
    requires AcksFit(c.queue)
    ensures c.retired <= Credit(c, len).retired
    decreases |c.queue|
  {
    if len > 0 && c.queue != [] {
      var (e, extra) := AckEntry(c.queue[0], len);
      if IsFinished(e) { CreditKeepsRetired(c.(queue := c.queue[1..], retired := c.retired + [e]), extra); }
    }
  }

  lemma {:induction false} RetireKeepsRetired(c: Client)
    ensures c.retired <= Retire(c).retired
    decreases |c.queue|
  {
    if c.queue != [] && IsFinished(c.queue[0]) {
      RetireKeepsRetired(c.(queue := c.queue[1..], retired := c.retired + [c.queue[0]]));
    }
  }

  lemma {:induction false} NothingCovered(q: seq<Entry>)
    requires AcksFit(q) && forall i :: 0 <= i < |q| && !IsSent(q[i]) ==> !IsFinished(q[i])
    ensures !Covers(q, 0)
  {
    if q != [] && IsSent(q[0]) { NothingCovered(q[1..]); }
  }

  /** A credit removes a message that is not sent exactly if it covers one. */
  lemma {:induction false} CreditLosesIff(c: Client, len: nat)
    requires Lossless(c)
    ensures AllSent(Credit(c, len).retired) <==> !Covers(c.queue, len)
    ensures !Covers(c.queue, len) ==> Lossless(Credit(c, len))
    decreases |c.queue|
  {
    if len == 0 {
      NothingCovered(c.queue);
    } else if c.queue != [] {
      var (e, extra) := AckEntry(c.queue[0], len);
      var n := c.(queue := c.queue[1..], retired := c.retired + [e]);
      if IsFinished(e) {
        if IsSent(e) {
          CreditLosesIff(n, extra);
        } else {
          CreditKeepsRetired(n, extra);
          assert Credit(c, len).retired[|c.retired|] == e;
        }
      }
    }
  }

  lemma {:induction false} RetireIsLossless(c: Client)
    requires Lossless(c)
    ensures Lossless(Retire(c))
    decreases |c.queue|
  {
    if c.queue != [] && IsFinished(c.queue[0]) {
      RetireIsLossless(c.(queue := c.queue[1..], retired := c.retired + [c.queue[0]]));
    }
  }

  lemma {:induction false} SentStays(q: seq<Entry>, space: nat)
    ensures forall i :: 0 <= i < |q| && IsSent(q[i]) ==> IsSent(SendAll(q, space).0[i])
  {
    hide SendAll;
    if q != [] {
      SendAllHead(q, space);
      SentStays(q[1..], space - |SendOne(q[0], space).1|);
    }
  }

  lemma RunQueueIsLossless(c: Client, space: nat)
    requires Lossless(c)
    ensures Lossless(RunQueue(c, space))
  {
    hide SendAll;
    RetireIsLossless(c);
    SentStays(Retire(c).queue, space);
  }

  /** An acknowledgement, with the run of the queue that follows, removes a message that was
      never written exactly if it covers one. */
  lemma AckLosesIff(c: Client, len: nat, space: nat)
    requires Lossless(c)
    ensures AllSent(OnAck(c, len, space).retired) <==> !Covers(c.queue, len)
    ensures !Covers(c.queue, len) ==> Lossless(OnAck(c, len, space))
  {
    hide Lossless, Credit, SendAll, Covers;
    LosslessFits(c);
    CreditLosesIff(c, len);
    if Covers(c.queue, len) {
      RetireKeepsRetired(Credit(c, len));
    } else {
      RunQueueIsLossless(Credit(c, len), space);
      LosslessFits(OnAck(c, len, space));
    }
  }

  lemma LosslessFits(c: Client)
    requires Lossless(c)
    ensures AcksFit(c.queue) && AllSent(c.retired)
  {
  }

  /** The step is an acknowledgement that covers a message that is not sent. */
  predicate Loses(st: State, m: Moment)
    requires AcksFit(st.c.queue)
  {
    m.step.Ack? && Covers(st.c.queue, m.step.len)
  }

  lemma StepLosesIff(st: State, m: Moment)
    requires Lossless(st.c) && Enabled(st, m)
    ensures if Loses(st, m) then !AllSent(Do(st, m).c.retired) else Lossless(Do(st, m).c)
  {
    hide Lossless, Credit, RunQueue, Covers;
    match m.step
    case Send(data) =>
      EnqueueIsLossless(st.c, data);
      RunQueueIsLossless(Before(st, m), m.space);
    case Ack(len) => AckLosesIff(st.c, len, m.space);
    case Poll => RunQueueIsLossless(st.c, m.space);
  }

  lemma EnqueueIsLossless(c: Client, data: string)
    requires Lossless(c)
    ensures Lossless(if |c.queue| >= MAX_QUEUED then c else c.(queue := c.queue + [Entry(data, 0, 0)]))
  {
  }

  lemma StepKeepsRetired(st: State, m: Moment)
    requires Enabled(st, m)
    ensures st.c.retired <= Do(st, m).c.retired
  {
    hide Credit, SendAll, Retire;
    RetireKeepsRetired(Before(st, m));
    if m.step.Ack? { CreditKeepsRetired(st.c, m.step.len); }
  }

  ghost predicate SomeStepLoses(st: State, run: seq<Moment>)
    requires Legal(st, run)
    decreases |run|
  {
    run != [] && (Loses(st, run[0]) || SomeStepLoses(Do(st, run[0]), run[1..]))
  }

  lemma {:induction false} RunKeepsRetired(st: State, run: seq<Moment>)
    requires Legal(st, run)
    ensures st.c.retired <= Run(st, run).c.retired
    decreases |run|
  {
    hide Do;
    if run != [] {
      StepKeepsRetired(st, run[0]);
      RunKeepsRetired(Do(st, run[0]), run[1..]);
    }
  }

  lemma {:induction false} RunLosesIff(st: State, run: seq<Moment>)
    requires Lossless(st.c) && Legal(st, run)
    ensures AllSent(Run(st, run).c.retired) <==> !SomeStepLoses(st, run)
    decreases |run|
  {
    hide Enabled, Do, Lossless, Loses;
    LosslessFits(st.c);
    if run != [] {
      var n := Do(st, run[0]);
      StepLosesIff(st, run[0]);
      if Loses(st, run[0]) {
        RunKeepsRetired(n, run[1..]);
      } else {
        RunLosesIff(n, run[1..]);
      }
    }
  }

  /** In any run from the start, every message that left the queue was written exactly if no
      acknowledgement covered a message that was not sent yet. */
  lemma MessagesAreLostIff(run: seq<Moment>)
    requires Legal(State(FRESH, 0), run)
    ensures AllSent(Run(State(FRESH, 0), run).c.retired) <==> !SomeStepLoses(State(FRESH, 0), run)
  {
    RunLosesIff(State(FRESH, 0), run);
  }
}
