/** What a client of the event source accepts leaves in the order of acceptance, and with room and
    acknowledgements all of it leaves. */
module EventSourceProgress {
  import opened EventSourceQueue

  // ----- What is accepted -----

  function Data(q: seq<Entry>): (r: seq<string>)
    ensures |r| == |q| && forall i :: 0 <= i < |q| ==> r[i] == q[i].data
  {
    seq(|q|, i requires 0 <= i < |q| => q[i].data)
  }

  /** The messages that were accepted: those that left and those that wait. */
  function Accepted(c: Client): seq<string> {
    Data(c.retired) + Data(c.queue)
  }

  lemma FrontLeaves(c: Client, e: Entry)
    requires c.queue != [] && e.data == c.queue[0].data
    ensures Accepted(c.(queue := c.queue[1..], retired := c.retired + [e])) == Accepted(c)
  {
    hide Data;
    var rest := c.queue[1..];
    DataConcat(c.retired, [e]);
    DataConcat([c.queue[0]], rest);
    assert [c.queue[0]] + rest == c.queue && Data([c.queue[0]]) == Data([e]);
    assert Data(c.retired) + Data([e]) + Data(rest) == Data(c.retired) + (Data([e]) + Data(rest));
  }

  lemma DataConcat(a: seq<Entry>, b: seq<Entry>)
    ensures Data(a + b) == Data(a) + Data(b)
  {
  }

  lemma {:induction false} CreditKeepsAccepted(c: Client, len: nat)
    requires AcksFit(c.queue)
    ensures Accepted(Credit(c, len)) == Accepted(c) && Credit(c, len).wire == c.wire
    decreases |c.queue|
  {
    hide Accepted;
    if len > 0 && c.queue != [] {
      var (e, extra) := AckEntry(c.queue[0], len);
      if IsFinished(e) {
        FrontLeaves(c, e);
        CreditKeepsAccepted(c.(queue := c.queue[1..], retired := c.retired + [e]), extra);
      } else {
        SameData(c, c.(queue := [e] + c.queue[1..]));
      }
    }
  }

  lemma SameData(c: Client, n: Client)
    requires c.retired == n.retired && |c.queue| == |n.queue|
    requires forall i :: 0 <= i < |c.queue| ==> n.queue[i].data == c.queue[i].data
    ensures Accepted(n) == Accepted(c)
  {
    assert Data(n.queue) == Data(c.queue);
  }

  lemma {:induction false} RetireKeepsAccepted(c: Client)
    ensures Accepted(Retire(c)) == Accepted(c) && Retire(c).wire == c.wire
    decreases |c.queue|
  {
    hide Accepted;
    if c.queue != [] && IsFinished(c.queue[0]) {
      FrontLeaves(c, c.queue[0]);
      RetireKeepsAccepted(c.(queue := c.queue[1..], retired := c.retired + [c.queue[0]]));
    }
  }

  lemma RunKeepsAccepted(c: Client, space: nat)
    ensures Accepted(RunQueue(c, space)) == Accepted(c)
  {
    hide Accepted, SendAll, Retire;
    RetireKeepsAccepted(c);
    SameData(Retire(c), RunQueue(c, space));
  }

  /** A message is accepted at the end exactly if fewer than 32 wait, and nothing else changes
      what was accepted or its order. */
  lemma MessagesKeepTheirOrder(st: State, m: Moment)
    requires AcksFit(st.c.queue)
    ensures Accepted(Do(st, m).c) == Accepted(st.c)
      + if m.step.Send? && |st.c.queue| < 32 then [m.step.data] else []
  {
    hide Accepted, RunQueue, Credit;
    match m.step
    case Send(data) =>
      if |st.c.queue| < MAX_QUEUED { Appended(st.c, Entry(data, 0, 0)); }
      RunKeepsAccepted(Before(st, m), m.space);
    case Ack(len) =>
      CreditKeepsAccepted(st.c, len);
      RunKeepsAccepted(Credit(st.c, len), m.space);
    case Poll => RunKeepsAccepted(st.c, m.space);
  }

  lemma Appended(c: Client, e: Entry)
    ensures Accepted(c.(queue := c.queue + [e])) == Accepted(c) + [e.data]
  {
    DataConcat(c.queue, [e]);
    assert Data(c.retired) + (Data(c.queue) + [e.data]) == Data(c.retired) + Data(c.queue) + [e.data];
  }

  // ----- The next message goes out -----

  /** The first message that is not sent. */
  function Next(q: seq<Entry>): (r: seq<Entry>)
    ensures |r| <= 1 && (r == [] <==> AllSent(q)) && forall e <- r :: e in q && !IsSent(e)
  {
    if q == [] then [] else if IsSent(q[0]) then
      assert q == [q[0]] + q[1..];
      Next(q[1..]) else [q[0]]
  }

  lemma {:induction false} CreditKeepsNext(c: Client, len: nat, acked: nat)
    requires Inv(c, acked) && acked + len <= |c.wire|
    ensures Next(Credit(c, len).queue) == Next(c.queue)
    decreases |c.queue|
  {
    if len > 0 && c.queue != [] {
      if !IsSent(c.queue[0]) { NoneSentBehind(c.queue); }
      var (e, extra) := AckEntry(c.queue[0], len);
      if IsFinished(e) {
        RetireOneKeeps(c, e, acked);
        CreditKeepsNext(c.(queue := c.queue[1..], retired := c.retired + [e]), extra, acked + len - extra);
      } else {
        assert ([e] + c.queue[1..])[1..] == c.queue[1..];
      }
    }
  }

  lemma {:induction false} RetireKeepsNext(c: Client, acked: nat)
    requires Inv(c, acked)
    ensures Next(Retire(c).queue) == Next(c.queue)
    decreases |c.queue|
  {
    if c.queue != [] && IsFinished(c.queue[0]) {
      assert c.queue[0] == c.queue[0].(acked := |c.queue[0].data|);
      RetireOneKeeps(c, c.queue[0], acked);
      RetireKeepsNext(c.(queue := c.queue[1..], retired := c.retired + [c.queue[0]]), acked);
    }
  }

  lemma {:induction false} NextIsSent(q: seq<Entry>, space: nat)
    requires InOrder(q) && Next(q) != [] && |Next(q)[0].data| <= space
    ensures Next(q)[0].data <= SendAll(q, space).1
  {
    hide SendAll;
    SendAllHead(q, space);
    var (e, out) := SendOne(q[0], space);
    var more := SendAll(q[1..], space - |out|).1;
    if IsSent(q[0]) {
      hide InOrder;
      TailInOrder(q);
      NextIsSent(q[1..], space);
      assert "" + more == more;
    } else {
      HeadUnsent(q);
      assert q[0].data[0..] == q[0].data && SendAll(q, space).1 == q[0].data + more;
    }
  }

  /** A pass for which the next message is not too long writes it, right behind what was
      written before. */
  lemma PassWritesNext(c: Client, space: nat, acked: nat)
    requires Inv(c, acked) && Next(c.queue) != [] && |Next(c.queue)[0].data| <= space
    ensures c.wire + Next(c.queue)[0].data <= RunQueue(c, space).wire
  {
    hide SendAll, Next, Retire;
    RetireKeeps(c, acked);
    RetireKeepsNext(c, acked);
    RetireKeepsAccepted(c);
    NextIsSent(Retire(c).queue, space);
  }

  lemma NextOf(e: Entry)
    ensures Next([e]) == if IsSent(e) then [] else [e]
  {
    assert [e][1..] == [];
  }

  lemma {:induction false} NextSnoc(q: seq<Entry>, e: Entry)
    ensures Next(q + [e]) == if Next(q) != [] then Next(q) else Next([e])
  {
    if q == [] {
      assert q + [e] == [e];
    } else {
      assert (q + [e])[1..] == q[1..] + [e];
      NextSnoc(q[1..], e);
    }
  }

  /** What goes out next at a step: the first message that waits, or else the step's own. */
  function NextAt(st: State, m: Moment): seq<Entry> {
    if Next(st.c.queue) != [] then Next(st.c.queue)
    else if m.step.Send? && |st.c.queue| < 32 && m.step.data != "" then [Entry(m.step.data, 0, 0)]
    else []
  }

  /** Every step writes the next message if TCP has room for it. */
  lemma NextGoesOut(st: State, m: Moment)
    requires Inv(st.c, st.acked) && Enabled(st, m)
    requires NextAt(st, m) != [] && |NextAt(st, m)[0].data| <= m.space
    ensures st.c.wire + NextAt(st, m)[0].data <= Do(st, m).c.wire
  {
    hide Inv, RunQueue, Credit, Next;
    match m.step
    case Send(data) =>
      var e := Entry(data, 0, 0);
      EnqueueKeeps(st.c, data, st.acked);
      NextSnoc(st.c.queue, e);
      NextOf(e);
      if Next(st.c.queue) != [] { NextNotEmpty(st.c, st.acked); }
      PassWritesNext(Before(st, m), m.space, st.acked);
    case Ack(len) =>
      CreditKeeps(st.c, len, st.acked);
      CreditKeepsNext(st.c, len, st.acked);
      CreditKeepsAccepted(st.c, len);
      PassWritesNext(Credit(st.c, len), m.space, st.acked + len);
    case Poll =>
      NextNotEmpty(st.c, st.acked);
      PassWritesNext(st.c, m.space, st.acked);
  }

  lemma NextNotEmpty(c: Client, acked: nat)
    requires Inv(c, acked) && Next(c.queue) != []
    ensures c.queue != [] && Next(c.queue)[0].data != ""
  {
    var e := Next(c.queue)[0];
    assert e in c.queue && (e.sent == 0 || IsSent(e));
  }

  // ----- Everything goes out -----

  function Unsent(q: seq<Entry>): (n: nat)
    ensures n <= |q| && (n == 0 <==> Next(q) == [])
  {
    if q == [] then 0 else (if IsSent(q[0]) then 0 else 1) + Unsent(q[1..])
  }

  lemma UnsentHead(e: Entry, rest: seq<Entry>)
    ensures Unsent([e] + rest) == (if IsSent(e) then 0 else 1) + Unsent(rest)
    ensures Next([e] + rest) == if IsSent(e) then Next(rest) else [e]
  {
    assert ([e] + rest)[1..] == rest;
  }

  lemma {:induction false} FewerInRest(q: seq<Entry>, space: nat)
    ensures Unsent(SendAll(q, space).0) <= Unsent(q)
    ensures Next(q) != [] && Next(q)[0].sent == 0 && |Next(q)[0].data| <= space ==>
      Unsent(SendAll(q, space).0) < Unsent(q)
  {
    hide SendAll, Unsent, Next;
    if q == [] {
      SendAllEmpty(space);
    } else {
      SendAllHead(q, space);
      var (e, out) := SendOne(q[0], space);
      FewerInRest(q[1..], space - |out|);
      UnsentHead(e, SendAll(q[1..], space - |out|).0);
      UnsentHead(q[0], q[1..]);
      assert [q[0]] + q[1..] == q;
    }
  }

  lemma {:induction false} CreditKeepsUnsent(c: Client, len: nat)
    requires AcksFit(c.queue)
    ensures Unsent(Credit(c, len).queue) <= Unsent(c.queue)
    decreases |c.queue|
  {
    if len > 0 && c.queue != [] {
      var (e, extra) := AckEntry(c.queue[0], len);
      if IsFinished(e) {
        CreditKeepsUnsent(c.(queue := c.queue[1..], retired := c.retired + [e]), extra);
      } else {
        assert ([e] + c.queue[1..])[1..] == c.queue[1..];
      }
    }
  }

  lemma {:induction false} RetireKeepsUnsent(c: Client)
    ensures Unsent(Retire(c).queue) <= Unsent(c.queue)
    decreases |c.queue|
  {
    if c.queue != [] && IsFinished(c.queue[0]) {
      RetireKeepsUnsent(c.(queue := c.queue[1..], retired := c.retired + [c.queue[0]]));
    }
  }

  /** Once all is sent and acknowledged, the queue is empty. */
  lemma {:induction false} AllIsRetired(c: Client)
    requires Inv(c, |c.wire|) && AllSent(c.queue)
    ensures Retire(c).queue == []
    decreases |c.queue|
  {
    if c.queue != [] {
      HeadIsWritten(c);
      RetireOneKeeps(c, c.queue[0], |c.wire|);
      AllIsRetired(c.(queue := c.queue[1..], retired := c.retired + [c.queue[0]]));
    }
  }

  lemma HeadIsWritten(c: Client)
    requires c.queue != [] && IsSent(c.queue[0])
    ensures SentPart(c.queue) == c.queue[0].data + SentPart(c.queue[1..])
  {
  }

  lemma {:induction false} AllIsCredited(c: Client, len: nat, acked: nat)
    requires Inv(c, acked) && AllSent(c.queue) && acked + len == |c.wire|
    ensures Retire(Credit(c, len)).queue == []
    decreases |c.queue|
  {
    if len == 0 {
      AllIsRetired(c);
    } else if c.queue != [] {
      var (e, extra) := AckEntry(c.queue[0], len);
      HeadIsWritten(c);
      RetireOneKeeps(c, e, acked);
      AllIsCredited(c.(queue := c.queue[1..], retired := c.retired + [e]), extra, acked + len - extra);
    }
  }

  /** An acknowledgement of all that was written, at a moment when TCP has room for each of the
      messages that wait. */
  ghost predicate Generous(st: State, m: Moment) {
    && m.step.Ack? && st.acked + m.step.len == |st.c.wire|
    && forall e <- st.c.queue :: |e.data| <= m.space
  }

  lemma RunWorks(c: Client, space: nat, acked: nat)
    requires Inv(c, acked) && Next(c.queue) != [] && |Next(c.queue)[0].data| <= space
    ensures Unsent(RunQueue(c, space).queue) < Unsent(c.queue)
  {
    hide SendAll, Next, Unsent, Retire;
    RetireKeeps(c, acked);
    RetireKeepsNext(c, acked);
    RetireKeepsUnsent(c);
    NextNotEmpty(c, acked);
    var e := Next(Retire(c).queue)[0];
    assert e in Retire(c).queue && e.sent == 0;
    FewerInRest(Retire(c).queue, space);
  }

  lemma StepWorks(st: State, m: Moment)
    requires Inv(st.c, st.acked) && Enabled(st, m) && Generous(st, m)
    ensures if Next(st.c.queue) == [] then Do(st, m).c.queue == []
            else Unsent(Do(st, m).c.queue) < Unsent(st.c.queue)
  {
    hide Inv, Next, Unsent, Credit, Retire, SendAll;
    var c := Credit(st.c, m.step.len);
    CreditKeeps(st.c, m.step.len, st.acked);
    CreditKeepsNext(st.c, m.step.len, st.acked);
    CreditKeepsUnsent(st.c, m.step.len);
    if Next(st.c.queue) == [] {
      AllIsCredited(st.c, m.step.len, st.acked);
    } else {
      RunWorks(c, m.space, st.acked + m.step.len);
    }
  }

  lemma EmptyStays(st: State, m: Moment)
    requires Inv(st.c, st.acked) && Enabled(st, m) && m.step.Ack? && st.c.queue == []
    ensures Do(st, m).c.queue == []
  {
  }

  ghost predicate GenerousRun(st: State, run: seq<Moment>)
    requires Legal(st, run)
    decreases |run|
  {
    run == [] || (Generous(st, run[0]) && GenerousRun(Do(st, run[0]), run[1..]))
  }

  lemma {:induction false} RunEmpties(st: State, run: seq<Moment>)
    requires Inv(st.c, st.acked) && Legal(st, run) && OrderlyRun(st, run) && GenerousRun(st, run)
    requires st.c.queue == [] || |run| > Unsent(st.c.queue)
    ensures Run(st, run).c.queue == [] && Accepted(Run(st, run).c) == Accepted(st.c)
    decreases |run|
  {
    hide Inv, Do, Orderly, Next, Unsent, Accepted, AcksFit;
    if run != [] {
      var n := Do(st, run[0]);
      StepKeepsInv(st, run[0]);
      StepWorks(st, run[0]);
      MessagesKeepTheirOrder(st, run[0]);
      if st.c.queue == [] { EmptyStays(st, run[0]); }
      RunEmpties(n, run[1..]);
    }
  }

  /** In an orderly run of acknowledgements with room, one more than there are messages waiting
      is enough: then all that was ever accepted was written, in the order of acceptance, and
      has left the queue. */
  lemma AllMessagesAreSent(st: State, run: seq<Moment>)
    requires Inv(st.c, st.acked) && Legal(st, run) && OrderlyRun(st, run) && GenerousRun(st, run)
    requires |run| > |st.c.queue|
    ensures var n := Run(st, run);
      && n.c.queue == [] && Data(n.c.retired) == Accepted(st.c) && n.c.wire == Flat(n.c.retired)
  {
    hide Do, Orderly, Next, Unsent, Legal, OrderlyRun, GenerousRun, Run;
    RunEmpties(st, run);
    RunKeepsInv(st, run);
    var n := Run(st, run);
    assert n.c.wire == Flat(n.c.retired) + SentPart([]);
    assert Accepted(n.c) == Data(n.c.retired) + [];
  }
}
