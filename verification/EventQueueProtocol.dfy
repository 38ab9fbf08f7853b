/**
 The event queue as an interleaving of atomic FreeRTOS operations: any number of
 producer tasks, one service task, a counting semaphore, a mutex and a bounded queue.
 */
module EventQueueProtocol {
  import opened Wrappers
  import opened EventQueue

  type Task = nat

  /** Where a producer is inside `_queue_async_event`; a task that is not in it has no entry. */
  datatype Producer =
    | HasPermit(e: Event, toFront: bool)
    | HasLock(e: Event, toFront: bool)
    | Stored(e: Event)
    | Refused(e: Event)
    | GivingUp(e: Event)

  /** Where the service task is. */
  datatype Service =
    | Waiting
    | Received(e: Event)
    | Handling(e: Event, dispatched: bool)
    | Rotating(e: Event, owner: nat, todo: nat, held: Option<Event>, removed: nat)
    | Releasing(e: Event, left: nat)

  datatype Holder = Nobody | HeldBy(task: Task) | HeldByService

  /** `entered` and `carried` record the events that were queued and the packet buffers they
      brought along, `freed` and `released` the queued events freed and the buffers released,
      each as often as it happened; `snapshot` is the queue when the current rotation began. */
  datatype State = State(
    permits: nat, queue: seq<Event>, lock: Holder, producers: map<Task, Producer>, service: Service,
    entered: multiset<Event>, freed: multiset<Event>, carried: multiset<nat>, released: multiset<nat>,
    snapshot: seq<Event>)

  const INITIAL :=
    State(XQUEUE_SIZE, [], Nobody, map[], Waiting, multiset{}, multiset{}, multiset{}, multiset{}, [])

  datatype Step =
    | TakePermit(t: Task, e: Event, toFront: bool)
    | TakeLock(t: Task)
    | LockFails(t: Task)
    | SendEvent(t: Task)
    | GiveLock(t: Task)
    | ReturnPermit(t: Task)
    | Receive
    | ReleaseReceived
    | Dispatch
    | BeginRemoval(owner: nat)
    | PopEvent
    | KeepOrFree
    | EndRotation
    | ReleaseRemoved
    | FinishHandling

  /** The steps that the code can take; waiting operations are disabled until they can proceed. */
  ghost predicate Enabled(s: State, step: Step) {
    match step
    case TakePermit(t, e, f) => t !in s.producers && s.permits > 0
    case TakeLock(t) => t in s.producers && s.producers[t].HasPermit? && s.lock == Nobody
    case LockFails(t) => t in s.producers && s.producers[t].HasPermit?
    case SendEvent(t) => t in s.producers && s.producers[t].HasLock?
    case GiveLock(t) => t in s.producers && (s.producers[t].Stored? || s.producers[t].Refused?)
    case ReturnPermit(t) => t in s.producers && s.producers[t].GivingUp?
    case Receive => s.service == Waiting && s.queue != []
    case ReleaseReceived => s.service.Received?
    case Dispatch => s.service.Handling? && !s.service.dispatched
    case BeginRemoval(owner) => s.service.Handling? && s.service.dispatched && s.lock == Nobody
    case PopEvent => s.service.Rotating? && s.service.todo > 0 && s.service.held == None
    case KeepOrFree => s.service.Rotating? && s.service.held.Some?
    case EndRotation => s.service.Rotating? && s.service.todo == 0 && s.service.held == None
    case ReleaseRemoved => s.service.Releasing?
    case FinishHandling => s.service.Handling? && s.service.dispatched
  }

  /** `xSemaphoreGive` on the counting semaphore: it refuses to exceed its maximum. */
  function Give(permits: nat): nat {
    if permits < XQUEUE_SIZE then permits + 1 else permits
  }

  function PbufOf(e: Event): multiset<nat> {
    if e.kind == Recv && e.pbuf.Some? then multiset{e.pbuf.value} else multiset{}
  }

  /** `_free_async_event`: the packet, and the packet buffer it still carries. */
  function Free(s: State, e: Event, pbufs: multiset<nat>): State {
    s.(freed := s.freed + multiset{e}, released := s.released + pbufs)
  }

  /** The buffer that an event still carries after dispatch: a client took it over, if there is one. */
  function AfterDispatch(e: Event): multiset<nat> {
    if e.arg != 0 then multiset{} else PbufOf(e)
  }

  /** `xQueueSend` and `xQueueSendToFront` without waiting. */
  function Send(s: State, t: Task, e: Event, toFront: bool): State {
    if |s.queue| < XQUEUE_SIZE then
      s.(queue := if toFront then [e] + s.queue else s.queue + [e],
         entered := s.entered + multiset{e}, carried := s.carried + PbufOf(e), producers := s.producers[t := Stored(e)])
    else
      s.(producers := s.producers[t := Refused(e)])
  }

  function Pop(s: State): State
    requires s.service.Rotating? && s.service.todo > 0
  {
    if s.queue == [] then s.(service := s.service.(todo := 0))
    else s.(queue := s.queue[1..], service := s.service.(held := Some(s.queue[0]), todo := s.service.todo - 1))
  }

  /** Frees an event of the owner, puts any other one back. */
  function Rotate(s: State, e: Event): State
    requires s.service.Rotating?
  {
    if e.arg == s.service.owner then
      Free(s, e, PbufOf(e)).(service := s.service.(held := None, removed := s.service.removed + 1))
    else if |s.queue| < XQUEUE_SIZE then
      s.(queue := s.queue + [e], service := s.service.(held := None))
    else
      s.(service := s.service.(held := None))
  }

  ghost function Do(s: State, step: Step): State
    requires Enabled(s, step)
  {
    match step
    case TakePermit(t, e, toFront) => s.(permits := s.permits - 1, producers := s.producers[t := HasPermit(e, toFront)])
    case TakeLock(t) =>
      var p := s.producers[t];
      s.(lock := HeldBy(t), producers := s.producers[t := HasLock(p.e, p.toFront)])
    case LockFails(t) => s.(producers := s.producers[t := GivingUp(s.producers[t].e)])
    case SendEvent(t) => Send(s, t, s.producers[t].e, s.producers[t].toFront)
    case GiveLock(t) =>
      var p := s.producers[t];
      s.(lock := Nobody, producers := if p.Stored? then s.producers - {t} else s.producers[t := GivingUp(p.e)])
    case ReturnPermit(t) => s.(permits := Give(s.permits), producers := s.producers - {t})
    case Receive => s.(queue := s.queue[1..], service := Received(s.queue[0]))
    case ReleaseReceived => s.(permits := Give(s.permits), service := Handling(s.service.e, false))
    case Dispatch =>
      // A receive event of a client hands its buffer over and forgets it.
      var e := s.service.e;
      s.(service := Handling(e, true), released := if e.arg != 0 then s.released + PbufOf(e) else s.released)
    case BeginRemoval(owner) =>
      s.(lock := HeldByService, snapshot := s.queue,
         service := Rotating(s.service.e, owner, |s.queue|, None, 0))
    case PopEvent => Pop(s)
    case KeepOrFree => Rotate(s, s.service.held.value)
    case EndRotation =>
      var v := s.service;
      s.(lock := Nobody, service := if v.removed == 0 then Handling(v.e, true) else Releasing(v.e, v.removed))
    case ReleaseRemoved =>
      var v := s.service;
      s.(permits := Give(s.permits),
         service := if v.left <= 1 then Handling(v.e, true) else Releasing(v.e, v.left - 1))
    case FinishHandling =>
      Free(s, s.service.e, AfterDispatch(s.service.e)).(service := Waiting)
  }

  // ----- The invariant -----

  /** A producer whose permit stands for no event in the queue. */
  ghost predicate Reserves(p: Producer) {
    !p.Stored?
  }

  ghost function Reserving(producers: map<Task, Producer>): set<Task> {
    set t | t in producers && Reserves(producers[t])
  }

  ghost function Reserved(producers: map<Task, Producer>): nat {
    |Reserving(producers)|
  }

  /** Slots of events that left the queue but have not been given back. */
  ghost function Unreleased(v: Service): nat {
    match v
    case Received(_) => 1
    case Rotating(_, _, _, held, removed) => removed + if held.Some? then 1 else 0
    case Releasing(_, left) => left
    case _ => 0
  }

  /** Events that the service task has in hand. */
  ghost function InHand(v: Service): multiset<Event> {
    match v
    case Waiting => multiset{}
    case Rotating(e, _, _, held, _) => multiset{e} + if held.Some? then multiset{held.value} else multiset{}
    case _ => multiset{v.e}
  }

  /** Permits are conserved. */
  ghost predicate PermitsConserved(s: State) {
    s.permits + |s.queue| + Reserved(s.producers) + Unreleased(s.service) == XQUEUE_SIZE
  }

  /** Every event that was queued is in the queue, in hand, or freed: exactly one of them. */
  ghost predicate EventsConserved(s: State) {
    s.entered == multiset(s.queue) + InHand(s.service) + s.freed
  }

  ghost function PbufsOf(q: seq<Event>): multiset<nat> {
    if q == [] then multiset{} else PbufOf(q[0]) + PbufsOf(q[1..])
  }

  /** Every packet buffer that was queued is carried by a live event, or released. */
  ghost predicate PbufsConserved(s: State) {
    s.carried == PbufsOf(s.queue) + CarriedBy(s.service) + s.released
  }

  /** The buffers of the events that the service task has in hand. */
  ghost function CarriedBy(v: Service): multiset<nat> {
    match v
    case Waiting => multiset{}
    case Received(e) => PbufOf(e)
    case Handling(e, dispatched) => if dispatched then AfterDispatch(e) else PbufOf(e)
    case Rotating(e, _, _, held, _) => AfterDispatch(e) + if held.Some? then PbufOf(held.value) else multiset{}
    case Releasing(e, _) => AfterDispatch(e)
  }

  ghost predicate HasQueueLock(p: Producer) {
    p.HasLock? || p.Stored? || p.Refused?
  }

  ghost predicate LockConsistent(s: State) {
    && (s.lock == HeldByService <==> s.service.Rotating?)
    && (forall t :: t in s.producers ==> !s.producers[t].Refused?)
    && (forall t :: t in s.producers && HasQueueLock(s.producers[t]) ==> s.lock == HeldBy(t))
    && (s.lock.HeldBy? ==> s.lock.task in s.producers && HasQueueLock(s.producers[s.lock.task]))
  }

  /** During a rotation the queue is what is left of the snapshot, then what was kept. */
  ghost predicate RotationConsistent(s: State) {
    match s.service
    case Rotating(_, owner, todo, held, removed) =>
      var n := |s.snapshot|;
      && todo + (if held.Some? then 1 else 0) <= n
      && var done := n - todo - (if held.Some? then 1 else 0);
      && s.queue == s.snapshot[n - todo..] + Others(s.snapshot[..done], owner)
      && removed == |Owned(s.snapshot[..done], owner)|
      && (held.Some? ==> held.value == s.snapshot[done])
    case Releasing(_, left) => left > 0
    case _ => true
  }

  ghost predicate Inv(s: State) {
    PermitsConserved(s) && EventsConserved(s) && PbufsConserved(s) && LockConsistent(s) && RotationConsistent(s)
  }

  // ----- Counting producers -----

  lemma ReservedUpdate(m: map<Task, Producer>, t: Task, p: Producer)
    ensures Reserved(m[t := p]) ==
      Reserved(m) - (if t in m && Reserves(m[t]) then 1 else 0) + (if Reserves(p) then 1 else 0)
  {
    var m' := m[t := p];
    assert Reserving(m') - {t} == Reserving(m) - {t};
    RemoveOne(Reserving(m), t);
    RemoveOne(Reserving(m'), t);
  }

  lemma ReservedRemove(m: map<Task, Producer>, t: Task)
    ensures Reserved(m - {t}) == Reserved(m) - if t in m && Reserves(m[t]) then 1 else 0
  {
    assert Reserving(m - {t}) == Reserving(m) - {t};
    RemoveOne(Reserving(m), t);
  }

  lemma RemoveOne(a: set<Task>, t: Task)
    ensures |a - {t}| == |a| - if t in a then 1 else 0
  {
    if t !in a { assert a - {t} == a; }
  }

  /** What permit conservation is for: whoever stores an event finds room, and whoever
      gives a slot back had taken one. */
  ghost predicate Room(s: State) {
    && (forall t :: t in s.producers && s.producers[t].HasLock? ==> |s.queue| < XQUEUE_SIZE)
    && (forall t :: t in s.producers && s.producers[t].GivingUp? ==> s.permits < XQUEUE_SIZE)
    && (s.service.Rotating? && s.service.held.Some? ==> |s.queue| < XQUEUE_SIZE)
    && (s.service.Received? ==> s.permits < XQUEUE_SIZE)
    && (s.service.Releasing? && s.service.left > 0 ==> s.permits < XQUEUE_SIZE)
  }

  lemma PermitsGiveRoom(s: State)
    requires PermitsConserved(s)
    ensures Room(s)
  {
    forall t | t in s.producers && Reserves(s.producers[t])
      ensures |s.queue| < XQUEUE_SIZE && s.permits < XQUEUE_SIZE
    {
      ReservedRemove(s.producers, t);
    }
  }

  // ----- Preservation -----

  /** The steps of producers. */
  ghost predicate OfProducer(step: Step) {
    step.TakePermit? || step.TakeLock? || step.LockFails? || step.SendEvent? || step.GiveLock? || step.ReturnPermit?
  }

  lemma PermitsProducerStep(s: State, step: Step)
    requires PermitsConserved(s) && Room(s) && Enabled(s, step) && OfProducer(step)
    requires forall t :: t in s.producers ==> !s.producers[t].Refused?
    ensures PermitsConserved(Do(s, step))
  {
    var t := step.t;
    if step.ReturnPermit? || (step.GiveLock? && s.producers[t].Stored?) {
      ReservedRemove(s.producers, t);
    } else {
      var n := Do(s, step);
      assert n.producers == s.producers[t := n.producers[t]];
      ReservedUpdate(s.producers, t, n.producers[t]);
    }
  }

  lemma PermitsServiceStep(s: State, step: Step)
    requires PermitsConserved(s) && Room(s) && Enabled(s, step) && !OfProducer(step)
    requires s.service.Releasing? ==> s.service.left > 0
    ensures PermitsConserved(Do(s, step))
  {
    assert Do(s, step).producers == s.producers;
  }

  lemma EventsStep(s: State, step: Step)
    requires EventsConserved(s) && Room(s) && Enabled(s, step)
    ensures EventsConserved(Do(s, step))
  {
    match step
    case SendEvent(t) => SendConserves(s, t, s.producers[t].e, s.producers[t].toFront);
    case Receive => assert s.queue == [s.queue[0]] + s.queue[1..];
    case PopEvent => PopConserves(s);
    case KeepOrFree => RotateConserves(s, s.service.held.value);
    case _ => if OfProducer(step) { ProducerFrame(s, step); } else { EventsQuietStep(s, step); }
  }

  lemma ProducerFrame(s: State, step: Step)
    requires Enabled(s, step) && OfProducer(step) && !step.SendEvent?
    ensures var n := Do(s, step);
      && n.queue == s.queue && n.service == s.service && n.entered == s.entered && n.freed == s.freed
      && n.carried == s.carried && n.released == s.released
  {
  }

  /** The service steps that move no event in or out of the queue. */
  ghost predicate Quiet(step: Step) {
    step in {ReleaseReceived, Dispatch, EndRotation, ReleaseRemoved, FinishHandling} || step.BeginRemoval?
  }

  lemma EventsQuietStep(s: State, step: Step)
    requires EventsConserved(s) && Enabled(s, step) && Quiet(step)
    ensures EventsConserved(Do(s, step))
  {
    if step == FinishHandling {
      assert multiset(s.queue) + multiset{s.service.e} + s.freed
          == multiset(s.queue) + multiset{} + (s.freed + multiset{s.service.e});
    } else {
      var n := Do(s, step);
      assert n.queue == s.queue && n.entered == s.entered && n.freed == s.freed;
      HandAlong(s, step);
    }
  }

  lemma HandAlong(s: State, step: Step)
    requires Enabled(s, step) && Quiet(step) && step != FinishHandling
    ensures InHand(Do(s, step).service) == InHand(s.service)
  {
    hide Do, Enabled;
    QuietService(s, step);
    assert multiset{s.service.e} + multiset{} == multiset{s.service.e};
  }

  /** The service task keeps its event in hand. */
  lemma QuietService(s: State, step: Step)
    requires Enabled(s, step) && Quiet(step) && step != FinishHandling
    ensures var v, n := s.service, Do(s, step).service;
      && v != Waiting && n != Waiting && n.e == v.e
      && (v.Rotating? ==> v.held == None) && (n.Rotating? ==> n.held == None)
  {
    hide Send, Give, PbufOf, AfterDispatch, Free, Rotate, Pop;
  }

  lemma PbufsQuietStep(s: State, step: Step)
    requires PbufsConserved(s) && Enabled(s, step) && Quiet(step)
    ensures PbufsConserved(Do(s, step))
  {
    if step == Dispatch {
      DispatchKeepsPbufs(s);
    } else if step == FinishHandling {
      FinishKeepsPbufs(s);
    } else {
      var n := Do(s, step);
      assert n.queue == s.queue && n.carried == s.carried && n.released == s.released;
      CarriedAlong(s, step);
    }
  }

  lemma CarriedAlong(s: State, step: Step)
    requires Enabled(s, step) && Quiet(step) && step != Dispatch && step != FinishHandling
    ensures CarriedBy(Do(s, step).service) == CarriedBy(s.service)
  {
    hide Send, Give, PbufOf, Free, Rotate;
  }

  lemma DispatchKeepsPbufs(s: State)
    requires PbufsConserved(s) && Enabled(s, Dispatch)
    ensures PbufsConserved(Do(s, Dispatch))
  {
    MoveOver(PbufsOf(s.queue), multiset{}, PbufOf(s.service.e), s.released);
  }

  lemma FinishKeepsPbufs(s: State)
    requires PbufsConserved(s) && Enabled(s, FinishHandling)
    ensures PbufsConserved(Do(s, FinishHandling))
  {
    MoveOver(PbufsOf(s.queue), multiset{}, AfterDispatch(s.service.e), s.released);
  }

  lemma SendConserves(s: State, t: Task, e: Event, toFront: bool)
    requires EventsConserved(s) && |s.queue| < XQUEUE_SIZE
    ensures EventsConserved(Send(s, t, e, toFront))
  {
  }

  lemma PopConserves(s: State)
    requires EventsConserved(s) && s.service.Rotating? && s.service.todo > 0 && s.service.held == None
    ensures EventsConserved(Pop(s))
  {
    if s.queue != [] { assert s.queue == [s.queue[0]] + s.queue[1..]; }
  }

  lemma RotateConserves(s: State, e: Event)
    requires EventsConserved(s) && |s.queue| < XQUEUE_SIZE && s.service.Rotating? && s.service.held == Some(e)
    ensures EventsConserved(Rotate(s, e))
  {
    var n, inHand := Rotate(s, e), multiset{s.service.e};
    MoveOver(multiset(s.queue), inHand, multiset{e}, s.freed);
    assert InHand(s.service) == inHand + multiset{e} && InHand(n.service) == inHand + multiset{};
    if e.arg == s.service.owner {
      assert n.queue == s.queue && n.freed == s.freed + multiset{e};
    } else {
      assert multiset(n.queue) == multiset(s.queue) + multiset{e} && n.freed == s.freed;
    }
  }

  lemma {:induction false} PbufsConcat(a: seq<Event>, b: seq<Event>)
    ensures PbufsOf(a + b) == PbufsOf(a) + PbufsOf(b)
  {
    if a == [] {
      assert a + b == b;
    } else {
      assert (a + b)[1..] == a[1..] + b;
      PbufsConcat(a[1..], b);
    }
  }

  lemma PbufsOfOne(q: seq<Event>, e: Event)
    ensures PbufsOf(q + [e]) == PbufsOf(q) + PbufOf(e)
    ensures PbufsOf([e] + q) == PbufOf(e) + PbufsOf(q)
  {
    assert PbufsOf([e]) == PbufOf(e) + PbufsOf([e][1..]);
    PbufsConcat(q, [e]);
    PbufsConcat([e], q);
  }

  lemma PbufsStep(s: State, step: Step)
    requires PbufsConserved(s) && Room(s) && Enabled(s, step)
    ensures PbufsConserved(Do(s, step))
  {
    match step
    case SendEvent(t) => SendKeepsPbufs(s, t, s.producers[t].e, s.producers[t].toFront);
    case KeepOrFree => RotateKeepsPbufs(s, s.service.held.value);
    case Receive => ReceiveKeepsPbufs(s);
    case PopEvent => PopKeepsPbufs(s);
    case _ => if OfProducer(step) { ProducerFrame(s, step); } else { PbufsQuietStep(s, step); }
  }

  lemma SendKeepsPbufs(s: State, t: Task, e: Event, toFront: bool)
    requires PbufsConserved(s) && |s.queue| < XQUEUE_SIZE
    ensures PbufsConserved(Send(s, t, e, toFront))
  {
    PbufsOfOne(s.queue, e);
  }

  lemma ReceiveKeepsPbufs(s: State)
    requires PbufsConserved(s) && Enabled(s, Receive)
    ensures PbufsConserved(Do(s, Receive))
  {
    assert PbufsOf(s.queue) == PbufOf(s.queue[0]) + PbufsOf(s.queue[1..]);
  }

  lemma PopKeepsPbufs(s: State)
    requires PbufsConserved(s) && s.service.Rotating? && s.service.todo > 0 && s.service.held == None
    ensures PbufsConserved(Pop(s))
  {
  }

  lemma RotateKeepsPbufs(s: State, e: Event)
    requires PbufsConserved(s) && |s.queue| < XQUEUE_SIZE && s.service.Rotating? && s.service.held == Some(e)
    ensures PbufsConserved(Rotate(s, e))
  {
    PbufsOfOne(s.queue, e);
    MoveOver(PbufsOf(s.queue), AfterDispatch(s.service.e), PbufOf(e), s.released);
  }

  lemma MoveOver<T>(a: multiset<T>, b: multiset<T>, x: multiset<T>, c: multiset<T>)
    ensures a + (b + x) + c == a + (b + multiset{}) + (c + x)
    ensures a + (b + x) + c == a + x + (b + multiset{}) + c
    ensures a + x + c == a + multiset{} + (c + x)
  {
  }

  lemma LockStep(s: State, step: Step)
    requires LockConsistent(s) && Room(s) && Enabled(s, step)
    ensures LockConsistent(Do(s, step))
  {
  }

  lemma RotationStep(s: State, step: Step)
    requires RotationConsistent(s) && LockConsistent(s) && Room(s) && Enabled(s, step)
    ensures RotationConsistent(Do(s, step))
  {
    if step.PopEvent? {
      PopKeepsRotation(s);
    } else if step.KeepOrFree? {
      RotateKeepsRotation(s, s.service.held.value);
    } else if OfProducer(step) {
      RotationProducerStep(s, step);
    } else {
      RotationQuietStep(s, step);
    }
  }

  /** The rotation's lock keeps producers away from the queue. */
  lemma RotationProducerStep(s: State, step: Step)
    requires RotationConsistent(s) && LockConsistent(s) && Enabled(s, step) && OfProducer(step)
    ensures RotationConsistent(Do(s, step))
  {
    var n := Do(s, step);
    assert n.service == s.service && n.snapshot == s.snapshot;
    assert s.service.Rotating? ==> n.queue == s.queue;
  }

  lemma RotationQuietStep(s: State, step: Step)
    requires RotationConsistent(s) && Enabled(s, step) && (Quiet(step) || step == Receive)
    ensures RotationConsistent(Do(s, step))
  {
    var n := Do(s, step);
    if n.service.Rotating? {
      assert s.queue[0..] == s.queue && s.queue[..0] == [];
    } else if n.service.Releasing? {
      assert n.service.left > 0;
    }
  }

  lemma RotateKeepsRotation(s: State, e: Event)
    requires RotationConsistent(s) && |s.queue| < XQUEUE_SIZE && s.service.Rotating? && s.service.held == Some(e)
    ensures RotationConsistent(Rotate(s, e))
  {
    var n, todo, owner := |s.snapshot|, s.service.todo, s.service.owner;
    OneMore(s.snapshot, n - todo - 1, owner);
    var rest, kept := s.snapshot[n - todo..], Others(s.snapshot[..n - todo - 1], owner);
    assert rest + kept + [e] == rest + (kept + [e]);
    assert kept + [] == kept;
  }

  lemma PopKeepsRotation(s: State)
    requires RotationConsistent(s) && s.service.Rotating? && s.service.todo > 0 && s.service.held == None
    ensures RotationConsistent(Pop(s))
  {
    var n, todo, owner := |s.snapshot|, s.service.todo, s.service.owner;
    var rest, kept := s.snapshot[n - todo..], Others(s.snapshot[..n - todo], owner);
    assert s.queue[0] == s.snapshot[n - todo];
    assert (rest + kept)[1..] == rest[1..] + kept;
  }

  lemma StepKeepsInv(s: State, step: Step)
    requires Inv(s) && Enabled(s, step)
    ensures Inv(Do(s, step))
  {
    PermitsGiveRoom(s);
    if OfProducer(step) { PermitsProducerStep(s, step); } else { PermitsServiceStep(s, step); }
    EventsStep(s, step);
    PbufsStep(s, step);
    LockStep(s, step);
    RotationStep(s, step);
  }

  // ----- Runs -----

  ghost predicate Legal(s: State, steps: seq<Step>)
    decreases |steps|
  {
    steps == [] || (Enabled(s, steps[0]) && Legal(Do(s, steps[0]), steps[1..]))
  }

  ghost function Run(s: State, steps: seq<Step>): State
    requires Legal(s, steps)
    decreases |steps|
  {
    if steps == [] then s else Run(Do(s, steps[0]), steps[1..])
  }

  lemma {:induction false} RunKeepsInv(s: State, steps: seq<Step>)
    requires Inv(s) && Legal(s, steps)
    ensures Inv(Run(s, steps))
    decreases |steps|
  {
    if steps != [] {
      StepKeepsInv(s, steps[0]);
      RunKeepsInv(Do(s, steps[0]), steps[1..]);
    }
  }

  lemma InitialInv()
    ensures Inv(INITIAL)
  {
    assert Reserving(INITIAL.producers) == {};
  }

  /** In every run: permits are conserved, a permit holder never meets a full queue, and
      neither the rotation's push nor a slot release can fail its assertion. */
  lemma QueueIsSafe(steps: seq<Step>)
    requires Legal(INITIAL, steps)
    ensures var s := Run(INITIAL, steps);
      && PermitsConserved(s) && EventsConserved(s) && PbufsConserved(s)
      && (forall t :: t in s.producers && s.producers[t].HasLock? ==> |s.queue| < XQUEUE_SIZE)
      && (forall t :: t in s.producers ==> !s.producers[t].Refused?)
      && (s.service.Rotating? && s.service.held.Some? ==> |s.queue| < XQUEUE_SIZE)
      && (s.service.Received? || s.service.Releasing? ==> s.permits < XQUEUE_SIZE)
  {
    InitialInv();
    RunKeepsInv(INITIAL, steps);
    var s := Run(INITIAL, steps);
    PermitsGiveRoom(s);
  }

  /** A finished removal leaves exactly the events of other clients, in their old order. */
  lemma RemovalIsStableFilter(steps: seq<Step>)
    requires Legal(INITIAL, steps) && Enabled(Run(INITIAL, steps), EndRotation)
    ensures var s := Run(INITIAL, steps);
      && s.queue == Others(s.snapshot, s.service.owner)
      && s.service.removed == |Owned(s.snapshot, s.service.owner)|
  {
    hide Do, Others, Owned, PermitsConserved, EventsConserved, PbufsConserved, LockConsistent;
    InitialInv();
    RunKeepsInv(INITIAL, steps);
    var s := Run(INITIAL, steps);
    assert s.snapshot[..|s.snapshot|] == s.snapshot && s.snapshot[|s.snapshot|..] == [];
  }

  /** Steps of tasks that are already inside the queue code. */
  ghost predicate Proceeds(step: Step) {
    !step.TakePermit? && !step.BeginRemoval? && !step.LockFails?
  }

  /** A producer can move, or the producer that holds the queue lock can. */
  lemma ProducerStep(s: State, t: Task) returns (step: Step)
    requires Inv(s) && t in s.producers && !s.service.Rotating?
    ensures Enabled(s, step) && Proceeds(step) && OfProducer(step)
  {
    match s.producers[t]
    case HasPermit(_, _) =>
      match s.lock {
        case Nobody => step := TakeLock(t);
        case HeldBy(u) => step := if s.producers[u].HasLock? then SendEvent(u) else GiveLock(u);
        case HeldByService => assert false;
      }
    case HasLock(_, _) => step := SendEvent(t);
    case Stored(_) => step := GiveLock(t);
    case Refused(_) => step := GiveLock(t);
    case GivingUp(_) => step := ReturnPermit(t);
  }
}
