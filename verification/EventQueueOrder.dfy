/**
 The order in which events are delivered. Every event that is stored gets a ticket; an event at
 the back ranks behind all earlier ones, an event at the front ahead of them. Whatever the tasks do
 in between, removals included, the service task receives the event of the lowest rank.
 */
module EventQueueOrder {
  import opened EventQueue
  import opened Wrappers
  import Q = EventQueueProtocol

  /** The `id`-th event that was stored. */
  datatype Ticket = Ticket(e: Event, front: bool, id: nat)

  function Rank(t: Ticket): int {
    if t.front then -1 - t.id else t.id
  }

  /** A received event, and how many had been stored by then. */
  datatype Delivery = Delivery(ticket: Ticket, stored: nat)

  /** `stores` are all tickets as they were given out, `queue` those of the queued events in order,
      `taken` those of the received events, `dropped` those of the events that a removal freed. */
  datatype History = History(stores: seq<Ticket>, queue: seq<Ticket>, taken: seq<Delivery>, dropped: seq<Ticket>)

  const EMPTY := History([], [], [], [])

  function Keep(ts: seq<Ticket>, owner: nat, own: bool): seq<Ticket> {
    if ts == [] then [] else
      (if (ts[0].e.arg == owner) == own then [ts[0]] else []) + Keep(ts[1..], owner, own)
  }

  /** What a step of the protocol does to the history; a rotation counts when it has ended. */
  ghost function Recorded(h: History, s: Q.State, step: Q.Step): History
    requires Q.Enabled(s, step)
  {
    match step
    case SendEvent(t) =>
      var p := s.producers[t];
      var ticket := Ticket(p.e, p.toFront, |h.stores|);
      h.(stores := h.stores + [ticket], queue := if p.toFront then [ticket] + h.queue else h.queue + [ticket])
    case Receive =>
      if h.queue == [] then h else
        h.(queue := h.queue[1..], taken := h.taken + [Delivery(h.queue[0], |h.stores|)])
    case EndRotation =>
      var owner := s.service.owner;
      h.(queue := Keep(h.queue, owner, false), dropped := h.dropped + Keep(h.queue, owner, true))
    case _ => h
  }

  ghost function HistoryOf(h: History, s: Q.State, steps: seq<Q.Step>): History
    requires Q.Legal(s, steps)
    decreases |steps|
  {
    if steps == [] then h else HistoryOf(Recorded(h, s, steps[0]), Q.Do(s, steps[0]), steps[1..])
  }

  /** The event that the service task gets in a step. */
  ghost function Got(s: Q.State, step: Q.Step): seq<Event>
    requires Q.Enabled(s, step)
  {
    var n := Q.Do(s, step);
    if step.Receive? && n.service.Received? then [n.service.e] else []
  }

  /** The event that a producer stores in a step. */
  ghost function Put(s: Q.State, step: Q.Step): seq<Event>
    requires Q.Enabled(s, step)
  {
    if step.SendEvent? then [s.producers[step.t].e] else []
  }

  /** The events that the service task got, in order. */
  ghost function Received(s: Q.State, steps: seq<Q.Step>): seq<Event>
    requires Q.Legal(s, steps)
    decreases |steps|
  {
    if steps == [] then [] else Got(s, steps[0]) + Received(Q.Do(s, steps[0]), steps[1..])
  }

  // ----- The history is that of the queue -----

  function Events(ts: seq<Ticket>): seq<Event> {
    seq(|ts|, i requires 0 <= i < |ts| => ts[i].e)
  }

  function TakenEvents(ds: seq<Delivery>): seq<Event> {
    seq(|ds|, i requires 0 <= i < |ds| => ds[i].ticket.e)
  }

  /** During a rotation the tickets are those of the queue when it began. */
  ghost predicate Tracks(h: History, s: Q.State) {
    Events(h.queue) == Content(s)
  }

  lemma {:induction false} KeptEvents(ts: seq<Ticket>, owner: nat)
    ensures Events(Keep(ts, owner, false)) == Others(Events(ts), owner)
    ensures Events(Keep(ts, owner, true)) == Owned(Events(ts), owner)
  {
    if ts != [] {
      KeptEvents(ts[1..], owner);
      assert Events(ts)[1..] == Events(ts[1..]) && Events(ts)[0] == ts[0].e;
    }
  }

  /** The events that the tickets of the history stand for. */
  function Content(s: Q.State): seq<Event> {
    if s.service.Rotating? then s.snapshot else s.queue
  }

  lemma SendTracks(h: History, s: Q.State, step: Q.Step)
    requires Q.LockConsistent(s) && Q.Room(s) && Q.Enabled(s, step) && step.SendEvent? && Tracks(h, s)
    ensures Tracks(Recorded(h, s, step), Q.Do(s, step))
  {
    var p, n := s.producers[step.t], Q.Do(s, step);
    var ticket := Ticket(p.e, p.toFront, |h.stores|);
    assert n.queue == if p.toFront then [p.e] + s.queue else s.queue + [p.e];
    assert Events([ticket] + h.queue) == [p.e] + Events(h.queue);
    assert Events(h.queue + [ticket]) == Events(h.queue) + [p.e];
  }

  lemma ReceiveTracks(h: History, s: Q.State)
    requires Q.Enabled(s, Q.Receive) && Tracks(h, s)
    ensures h.queue != [] && Tracks(Recorded(h, s, Q.Receive), Q.Do(s, Q.Receive))
    ensures Got(s, Q.Receive) == [h.queue[0].e]
  {
    assert Events(h.queue)[0] == h.queue[0].e && Events(h.queue)[1..] == Events(h.queue[1..]);
  }

  lemma EndTracks(h: History, s: Q.State)
    requires Q.RotationConsistent(s) && Q.Enabled(s, Q.EndRotation) && Tracks(h, s)
    ensures Tracks(Recorded(h, s, Q.EndRotation), Q.Do(s, Q.EndRotation))
  {
    hide Others, Owned, Events;
    KeptEvents(h.queue, s.service.owner);
    var n := |s.snapshot|;
    assert s.snapshot[..n] == s.snapshot && s.snapshot[n..] == [];
  }

  lemma QuietTracks(s: Q.State, step: Q.Step)
    requires Q.Enabled(s, step) && !step.SendEvent? && !step.Receive? && !step.EndRotation?
    ensures Content(Q.Do(s, step)) == Content(s) && Got(s, step) == []
  {
  }

  lemma StepTracks(h: History, s: Q.State, step: Q.Step)
    requires Q.Inv(s) && Q.Enabled(s, step) && Tracks(h, s)
    ensures Tracks(Recorded(h, s, step), Q.Do(s, step))
    ensures TakenEvents(Recorded(h, s, step).taken) == TakenEvents(h.taken) + Got(s, step)
  {
    hide Q.PermitsConserved, Q.EventsConserved, Q.PbufsConserved, Q.LockConsistent, Q.RotationConsistent, Q.Room, Q.Do,
      Q.Enabled, Events, Got;
    Q.PermitsGiveRoom(s);
    assert TakenEvents(h.taken) + [] == TakenEvents(h.taken);
    if step.SendEvent? {
      SendTracks(h, s, step);
      NothingGot(s, step);
    } else if step.Receive? {
      ReceiveTracks(h, s);
    } else {
      if step.EndRotation? { EndTracks(h, s); } else { QuietTracks(s, step); }
      NothingGot(s, step);
    }
  }

  lemma NothingGot(s: Q.State, step: Q.Step)
    requires Q.Enabled(s, step) && !step.Receive?
    ensures Got(s, step) == []
  {
  }

  // ----- Ranks -----

  ghost predicate Ranked(ts: seq<Ticket>) {
    forall i, j :: 0 <= i < j < |ts| ==> Rank(ts[i]) < Rank(ts[j])
  }

  function Tickets(ds: seq<Delivery>): seq<Ticket> {
    seq(|ds|, i requires 0 <= i < |ds| => ds[i].ticket)
  }

  ghost predicate QueueRanked(h: History) {
    Ranked(h.queue) && forall t <- h.queue :: t.id < |h.stores|
  }

  /** What was there when an event was received, and is queued still, ranks behind it. */
  ghost predicate Ahead(d: Delivery, ts: seq<Ticket>) {
    forall t <- ts :: t.id < d.stored ==> Rank(d.ticket) < Rank(t)
  }

  ghost predicate TakenRanked(ds: seq<Delivery>, stored: nat) {
    && (forall i :: 0 <= i < |ds| ==> ds[i].ticket.id < ds[i].stored <= stored)
    && forall i, j :: 0 <= i < j < |ds| && ds[j].ticket.id < ds[i].stored ==> Rank(ds[i].ticket) < Rank(ds[j].ticket)
  }

  /** The queue is sorted by rank, and what was there when an event was received ranked behind it. */
  ghost predicate InRankOrder(h: History) {
    && QueueRanked(h) && TakenRanked(h.taken, |h.stores|)
    && forall i :: 0 <= i < |h.taken| ==> Ahead(h.taken[i], h.queue)
  }

  /** Every stored event is queued, received or removed: exactly one of them. */
  ghost predicate Complete(h: History) {
    && multiset(h.stores) == multiset(h.queue) + multiset(Tickets(h.taken)) + multiset(h.dropped)
    && forall i :: 0 <= i < |h.stores| ==> h.stores[i].id == i
  }

  lemma {:induction false} KeptTickets(ts: seq<Ticket>, owner: nat)
    ensures multiset(Keep(ts, owner, true)) + multiset(Keep(ts, owner, false)) == multiset(ts)
    ensures forall t <- Keep(ts, owner, false) :: t in ts
  {
    if ts != [] {
      assert ts == [ts[0]] + ts[1..];
      KeptTickets(ts[1..], owner);
    }
  }

  lemma {:induction false} KeptRanked(ts: seq<Ticket>, owner: nat)
    requires Ranked(ts)
    ensures Ranked(Keep(ts, owner, false))
  {
    if ts != [] {
      KeptRanked(ts[1..], owner);
      KeptTickets(ts[1..], owner);
      assert forall t <- ts[1..] :: Rank(ts[0]) < Rank(t);
      FirstRanked(ts[0], Keep(ts[1..], owner, false));
    }
  }

  lemma FirstRanked(t: Ticket, ts: seq<Ticket>)
    requires Ranked(ts) && forall x <- ts :: Rank(t) < Rank(x)
    ensures Ranked([t] + ts)
  {
  }

  lemma LastRanked(ts: seq<Ticket>, t: Ticket)
    requires Ranked(ts) && forall x <- ts :: Rank(x) < Rank(t)
    ensures Ranked(ts + [t])
  {
  }

  lemma StoreKeepsOrder(h: History, e: Event, front: bool)
    requires InRankOrder(h)
    ensures var ticket := Ticket(e, front, |h.stores|);
      InRankOrder(h.(stores := h.stores + [ticket], queue := if front then [ticket] + h.queue else h.queue + [ticket]))
  {
    hide Ranked;
    var ticket := Ticket(e, front, |h.stores|);
    if front { FirstRanked(ticket, h.queue); } else { LastRanked(h.queue, ticket); }
  }

  lemma RestRanked(ts: seq<Ticket>)
    requires ts != [] && Ranked(ts)
    ensures Ranked(ts[1..]) && forall t <- ts[1..] :: Rank(ts[0]) < Rank(t)
  {
  }

  /** The first of the queue joins those that were received. */
  lemma TakenSnoc(ds: seq<Delivery>, d: Delivery, stored: nat)
    requires TakenRanked(ds, stored) && d.ticket.id < d.stored <= stored
    requires forall i :: 0 <= i < |ds| && d.ticket.id < ds[i].stored ==> Rank(ds[i].ticket) < Rank(d.ticket)
    ensures TakenRanked(ds + [d], stored)
  {
  }

  lemma TakeKeepsOrder(h: History)
    requires InRankOrder(h) && h.queue != []
    ensures InRankOrder(h.(queue := h.queue[1..], taken := h.taken + [Delivery(h.queue[0], |h.stores|)]))
  {
    hide Ranked, TakenRanked;
    var t, d := h.queue[0], Delivery(h.queue[0], |h.stores|);
    RestRanked(h.queue);
    assert t in h.queue;
    forall i | 0 <= i < |h.taken| && t.id < h.taken[i].stored ensures Rank(h.taken[i].ticket) < Rank(t) {
      assert Ahead(h.taken[i], h.queue);
    }
    TakenSnoc(h.taken, d, |h.stores|);
    forall i | 0 <= i < |h.taken| ensures Ahead(h.taken[i], h.queue[1..]) {
      assert Ahead(h.taken[i], h.queue);
    }
    assert Ahead(d, h.queue[1..]);
  }

  lemma DropKeepsOrder(h: History, owner: nat)
    requires InRankOrder(h)
    ensures InRankOrder(h.(queue := Keep(h.queue, owner, false), dropped := h.dropped + Keep(h.queue, owner, true)))
  {
    hide Ranked, TakenRanked;
    KeptTickets(h.queue, owner);
    KeptRanked(h.queue, owner);
    forall i | 0 <= i < |h.taken| ensures Ahead(h.taken[i], Keep(h.queue, owner, false)) {
      assert Ahead(h.taken[i], h.queue);
    }
  }

  lemma TicketsSnoc(ds: seq<Delivery>, d: Delivery)
    ensures Tickets(ds + [d]) == Tickets(ds) + [d.ticket]
  {
  }

  lemma StepKeepsOrder(h: History, s: Q.State, step: Q.Step)
    requires Q.Enabled(s, step) && InRankOrder(h) && Complete(h)
    ensures InRankOrder(Recorded(h, s, step)) && Complete(Recorded(h, s, step))
  {
    hide InRankOrder, Complete;
    match step
    case SendEvent(t) =>
      StoreKeepsOrder(h, s.producers[t].e, s.producers[t].toFront);
      StoreKeepsComplete(h, s.producers[t].e, s.producers[t].toFront);
    case Receive =>
      if h.queue != [] {
        TakeKeepsOrder(h);
        TakeKeepsComplete(h);
      }
    case EndRotation =>
      DropKeepsOrder(h, s.service.owner);
      DropKeepsComplete(h, s.service.owner);
    case _ =>
  }

  lemma StoreKeepsComplete(h: History, e: Event, front: bool)
    requires Complete(h)
    ensures var ticket := Ticket(e, front, |h.stores|);
      Complete(h.(stores := h.stores + [ticket], queue := if front then [ticket] + h.queue else h.queue + [ticket]))
  {
  }

  lemma TakeKeepsComplete(h: History)
    requires Complete(h) && h.queue != []
    ensures Complete(h.(queue := h.queue[1..], taken := h.taken + [Delivery(h.queue[0], |h.stores|)]))
  {
    TicketsSnoc(h.taken, Delivery(h.queue[0], |h.stores|));
    assert h.queue == [h.queue[0]] + h.queue[1..];
  }

  lemma DropKeepsComplete(h: History, owner: nat)
    requires Complete(h)
    ensures Complete(h.(queue := Keep(h.queue, owner, false), dropped := h.dropped + Keep(h.queue, owner, true)))
  {
    KeptTickets(h.queue, owner);
  }

  // ----- Runs -----

  lemma {:induction false} RunIsRecorded(h: History, s: Q.State, steps: seq<Q.Step>)
    requires Q.Inv(s) && Q.Legal(s, steps) && Tracks(h, s) && InRankOrder(h) && Complete(h)
    ensures var n := HistoryOf(h, s, steps);
      && Tracks(n, Q.Run(s, steps)) && InRankOrder(n) && Complete(n)
      && TakenEvents(n.taken) == TakenEvents(h.taken) + Received(s, steps)
    decreases |steps|
  {
    hide Q.Inv, Q.Enabled, Q.Do, Got, Recorded, Tracks, InRankOrder, Complete, TakenEvents;
    if steps == [] {
      assert TakenEvents(h.taken) + [] == TakenEvents(h.taken);
    } else {
      StepTracks(h, s, steps[0]);
      StepKeepsOrder(h, s, steps[0]);
      Q.StepKeepsInv(s, steps[0]);
      RunIsRecorded(Recorded(h, s, steps[0]), Q.Do(s, steps[0]), steps[1..]);
    }
  }

  /** In every run, with any number of producers, prepended events and removals: the events received
      are the taken ones in this order, the queue holds the queued ones, every stored event is in
      one place, and each was received at a time when no queued event had a lower rank. */
  lemma DeliveryFollowsRanks(steps: seq<Q.Step>)
    requires Q.Legal(Q.INITIAL, steps)
    ensures var h, s := HistoryOf(EMPTY, Q.INITIAL, steps), Q.Run(Q.INITIAL, steps);
      && TakenEvents(h.taken) == Received(Q.INITIAL, steps)
      && (!s.service.Rotating? ==> Events(h.queue) == s.queue)
      && InRankOrder(h) && Complete(h)
  {
    hide Q.Inv, Q.Run, HistoryOf, Received, InRankOrder, Complete;
    Q.InitialInv();
    EmptyOrder();
    RunIsRecorded(EMPTY, Q.INITIAL, steps);
    assert TakenEvents(EMPTY.taken) == [];
  }

  lemma EmptyOrder()
    ensures InRankOrder(EMPTY) && Complete(EMPTY) && Tracks(EMPTY, Q.INITIAL)
  {
  }

  /** So an event of a lower rank, stored in time, is received earlier, unless it was removed. */
  lemma LowerRankFirst(steps: seq<Q.Step>, i: nat, a: Ticket)
    requires Q.Legal(Q.INITIAL, steps)
    requires var h := HistoryOf(EMPTY, Q.INITIAL, steps);
      i < |h.taken| && a in h.stores && a.id < h.taken[i].stored && Rank(a) < Rank(h.taken[i].ticket)
    ensures var h := HistoryOf(EMPTY, Q.INITIAL, steps);
      a in h.dropped || exists k :: 0 <= k < i && h.taken[k].ticket == a
  {
    hide Q.Run, HistoryOf, Received;
    DeliveryFollowsRanks(steps);
    var h := HistoryOf(EMPTY, Q.INITIAL, steps);
    assert a in multiset(h.stores);
    assert Ahead(h.taken[i], h.queue);
    if a !in h.dropped { assert a in Tickets(h.taken); }
  }

  /** Of two events that were stored at the back, the one stored first is received first. */
  lemma BackIsInOrder(steps: seq<Q.Step>, i: nat, a: Ticket)
    requires Q.Legal(Q.INITIAL, steps)
    requires var h := HistoryOf(EMPTY, Q.INITIAL, steps);
      i < |h.taken| && a in h.stores && !a.front && !h.taken[i].ticket.front && a.id < h.taken[i].ticket.id
    ensures var h := HistoryOf(EMPTY, Q.INITIAL, steps);
      a in h.dropped || exists k :: 0 <= k < i && h.taken[k].ticket == a
  {
    hide Q.Run, HistoryOf, Received;
    DeliveryFollowsRanks(steps);
    var h := HistoryOf(EMPTY, Q.INITIAL, steps);
    LowerRankFirst(steps, i, a);
  }

  /** An event stored at the front is received before everything that was queued at that moment. */
  lemma FrontGoesFirst(steps: seq<Q.Step>, i: nat, a: Ticket)
    requires Q.Legal(Q.INITIAL, steps)
    requires var h := HistoryOf(EMPTY, Q.INITIAL, steps);
      i < |h.taken| && a in h.stores && a.front && h.taken[i].ticket.id < a.id < h.taken[i].stored
    ensures var h := HistoryOf(EMPTY, Q.INITIAL, steps);
      a in h.dropped || exists k :: 0 <= k < i && h.taken[k].ticket == a
  {
    LowerRankFirst(steps, i, a);
  }

  // ----- Without removals and prepended events -----

  ghost predicate Plain(s: Q.State, steps: seq<Q.Step>)
    requires Q.Legal(s, steps)
    decreases |steps|
  {
    steps == [] || (
      && !steps[0].BeginRemoval? && (steps[0].SendEvent? ==> !s.producers[steps[0].t].toFront)
      && Plain(Q.Do(s, steps[0]), steps[1..]))
  }

  /** The events that producers have stored, in order. */
  ghost function StoredBy(s: Q.State, steps: seq<Q.Step>): seq<Event>
    requires Q.Legal(s, steps)
    decreases |steps|
  {
    if steps == [] then [] else Put(s, steps[0]) + StoredBy(Q.Do(s, steps[0]), steps[1..])
  }

  lemma {:induction false} PlainRun(s: Q.State, steps: seq<Q.Step>)
    requires Q.Inv(s) && Q.Legal(s, steps) && Plain(s, steps) && !s.service.Rotating?
    ensures Received(s, steps) + Q.Run(s, steps).queue == s.queue + StoredBy(s, steps)
    decreases |steps|
  {
    hide Q.Inv, Q.Enabled, Q.Do, Got, Put;
    if steps == [] {
      assert [] + s.queue == s.queue + [];
    } else {
      var n := Q.Do(s, steps[0]);
      Q.StepKeepsInv(s, steps[0]);
      PlainStep(s, steps[0]);
      PlainRun(n, steps[1..]);
      var got, put := Got(s, steps[0]), Put(s, steps[0]);
      assert got + (Received(n, steps[1..]) + Q.Run(n, steps[1..]).queue) == got + n.queue + StoredBy(n, steps[1..]);
      assert s.queue + put + StoredBy(n, steps[1..]) == s.queue + (put + StoredBy(n, steps[1..]));
    }
  }

  lemma PlainStep(s: Q.State, step: Q.Step)
    requires Q.Inv(s) && Q.Enabled(s, step) && !s.service.Rotating? && !step.BeginRemoval?
    requires step.SendEvent? ==> !s.producers[step.t].toFront
    ensures var n := Q.Do(s, step);
      !n.service.Rotating? && Got(s, step) + n.queue == s.queue + Put(s, step)
  {
    hide Q.PermitsConserved, Q.EventsConserved, Q.PbufsConserved;
    assert Q.Room(s) by { Q.PermitsGiveRoom(s); }
    if step.Receive? { assert s.queue == [s.queue[0]] + s.queue[1..]; }
  }

  /** Without them the queue is first in, first out: what was received and what is queued are what
      was stored, in this order. */
  lemma PlainQueueIsFifo(steps: seq<Q.Step>)
    requires Q.Legal(Q.INITIAL, steps) && Plain(Q.INITIAL, steps)
    ensures Received(Q.INITIAL, steps) + Q.Run(Q.INITIAL, steps).queue == StoredBy(Q.INITIAL, steps)
  {
    hide Q.Inv;
    Q.InitialInv();
    PlainRun(Q.INITIAL, steps);
    assert [] + StoredBy(Q.INITIAL, steps) == StoredBy(Q.INITIAL, steps);
  }

  // ----- Packet buffers -----

  /** How many of the stored events carried this packet buffer. */
  function Carriers(ts: seq<Ticket>, buffer: nat): nat {
    if ts == [] then 0 else
      Carriers(ts[..|ts| - 1], buffer)
        + if ts[|ts| - 1].e.kind == Recv && ts[|ts| - 1].e.pbuf == Some(buffer) then 1 else 0
  }

  lemma CarriersSnoc(ts: seq<Ticket>, t: Ticket, buffer: nat)
    ensures Carriers(ts + [t], buffer) ==
      Carriers(ts, buffer) + if t.e.kind == Recv && t.e.pbuf == Some(buffer) then 1 else 0
  {
    assert (ts + [t])[..|ts|] == ts;
  }

  lemma StepCarries(h: History, s: Q.State, step: Q.Step, buffer: nat)
    requires Q.Inv(s) && Q.Enabled(s, step) && s.carried[buffer] == Carriers(h.stores, buffer)
    ensures Q.Do(s, step).carried[buffer] == Carriers(Recorded(h, s, step).stores, buffer)
  {
    hide Q.PermitsConserved, Q.EventsConserved, Q.PbufsConserved, Q.RotationConsistent, Carriers;
    Q.PermitsGiveRoom(s);
    if step.SendEvent? {
      var p := s.producers[step.t];
      CarriersSnoc(h.stores, Ticket(p.e, p.toFront, |h.stores|), buffer);
    }
  }

  lemma {:induction false} RunCarries(h: History, s: Q.State, steps: seq<Q.Step>, buffer: nat)
    requires Q.Inv(s) && Q.Legal(s, steps) && s.carried[buffer] == Carriers(h.stores, buffer)
    ensures Q.Run(s, steps).carried[buffer] == Carriers(HistoryOf(h, s, steps).stores, buffer)
    decreases |steps|
  {
    hide Q.Inv, Q.Enabled, Q.Do, Recorded, Carriers;
    if steps != [] {
      StepCarries(h, s, steps[0], buffer);
      Q.StepKeepsInv(s, steps[0]);
      RunCarries(Recorded(h, s, steps[0]), Q.Do(s, steps[0]), steps[1..], buffer);
    }
  }

  /** When nothing is queued or being handled, every packet buffer has been released as often as a
      receive event brought it along. */
  lemma BuffersAreReleased(steps: seq<Q.Step>, buffer: nat)
    requires Q.Legal(Q.INITIAL, steps)
    requires var s := Q.Run(Q.INITIAL, steps); s.queue == [] && s.service == Q.Waiting
    ensures Q.Run(Q.INITIAL, steps).released[buffer] == Carriers(HistoryOf(EMPTY, Q.INITIAL, steps).stores, buffer)
  {
    hide Q.Run, HistoryOf;
    Q.InitialInv();
    Q.RunKeepsInv(Q.INITIAL, steps);
    RunCarries(EMPTY, Q.INITIAL, steps, buffer);
    var s := Q.Run(Q.INITIAL, steps);
    assert Q.PbufsOf([]) == multiset{};
  }
}
