/**
 What the tasks of the event queue wait for. The lwIP thread is one of the producers; it waits
 for a permit without a time limit for urgent events and up to a second for the others. A
 handler may call into lwIP, and then the service task waits until the lwIP thread, outside
 its callbacks, has run the body. Those two waits can be for each other.
 */
module EventQueueBlocking {
  import opened Wrappers
  import opened EventQueue
  import Q = EventQueueProtocol

  const LWIP: Q.Task := 0

  /** What the lwIP thread wants to queue; an urgent event goes to the front and waits for ever. */
  datatype Entry = Entry(e: Event, urgent: bool)

  /** `wanting`: the lwIP thread waits for a permit. `calling`: the service task waits for the
      body of a call into lwIP. */
  datatype State = State(q: Q.State, wanting: Option<Entry>, calling: bool)

  const INITIAL := State(Q.INITIAL, None, false)

  datatype Step =
    | InQueue(step: Q.Step)
    | LwipEnters(e: Event, urgent: bool)
    | LwipTakesPermit
    | LwipTimesOut
    | IssueCall
    | RunBody

  /** The lwIP thread is outside its callbacks. */
  predicate LwipIdle(s: State) {
    s.wanting.None? && LWIP !in s.q.producers
  }

  /** A handler of an event for a client has begun, and may call. */
  predicate MayCall(v: Q.Service) {
    v.Handling? && v.dispatched && v.e.arg != 0
  }

  ghost predicate Enabled(s: State, step: Step) {
    match step
    case InQueue(q) =>
      Q.Enabled(s.q, q) && (q.TakePermit? ==> q.t != LWIP) && (s.calling ==> Q.OfProducer(q))
    case LwipEnters(_, _) => LwipIdle(s)
    case LwipTakesPermit => s.wanting.Some? && LWIP !in s.q.producers && s.q.permits > 0
    case LwipTimesOut => s.wanting.Some? && !s.wanting.value.urgent
    case IssueCall => !s.calling && MayCall(s.q.service)
    case RunBody => s.calling && LwipIdle(s)
  }

  ghost function Do(s: State, step: Step): State
    requires Enabled(s, step)
  {
    match step
    case InQueue(q) => s.(q := Q.Do(s.q, q))
    case LwipEnters(e, urgent) => s.(wanting := Some(Entry(e, urgent)))
    case LwipTakesPermit =>
      s.(q := Q.Do(s.q, Q.TakePermit(LWIP, s.wanting.value.e, s.wanting.value.urgent)), wanting := None)
    case LwipTimesOut => s.(wanting := None)
    case IssueCall => s.(calling := true)
    case RunBody => s.(calling := false)
  }

  ghost predicate Legal(s: State, steps: seq<Step>)
    decreases |steps|
  {
    steps == [] || (Enabled(s, steps[0]) && Legal(Do(s, steps[0]), steps[1..]))
  }

  ghost function Run(s: State, steps: seq<Step>): State
    requires Legal(s, steps)
    decreases |steps|
  {
    if steps == [] then s else Run(Do(s, steps[0]), steps[1..])
  }

  // ----- Runs of the queue -----

  ghost predicate Inv(s: State) {
    && Q.Inv(s.q)
    && (s.wanting.Some? ==> LWIP !in s.q.producers)
    && (s.calling ==> MayCall(s.q.service))
  }

  lemma StepKeepsInv(s: State, step: Step)
    requires Inv(s) && Enabled(s, step)
    ensures Inv(Do(s, step))
  {
    hide Q.Inv;
    match step
    case InQueue(q) => Q.StepKeepsInv(s.q, q);
    case LwipTakesPermit => Q.StepKeepsInv(s.q, Q.TakePermit(LWIP, s.wanting.value.e, s.wanting.value.urgent));
    case _ =>
  }

  lemma {:induction false} RunKeepsInv(s: State, steps: seq<Step>)
    requires Inv(s) && Legal(s, steps)
    ensures Inv(Run(s, steps))
    decreases |steps|
  {
    hide Inv, Enabled, Do;
    if steps != [] {
      StepKeepsInv(s, steps[0]);
      RunKeepsInv(Do(s, steps[0]), steps[1..]);
    }
  }

  lemma Reachable(steps: seq<Step>)
    requires Legal(INITIAL, steps)
    ensures Inv(Run(INITIAL, steps))
  {
    hide Legal, Run, Q.Inv;
    Q.InitialInv();
    RunKeepsInv(INITIAL, steps);
  }

  /** What the queue does in a run with waits it also does in a run of the queue alone, so
      everything that holds of those holds here. */
  lemma {:induction false} RunsAreQueueRuns(s: State, steps: seq<Step>) returns (alone: seq<Q.Step>)
    requires Legal(s, steps)
    ensures Q.Legal(s.q, alone) && Q.Run(s.q, alone) == Run(s, steps).q
    decreases |steps|
  {
    hide Q.Enabled, Q.Do;
    if steps == [] {
      alone := [];
    } else {
      var rest := RunsAreQueueRuns(Do(s, steps[0]), steps[1..]);
      match steps[0]
      case InQueue(q) => alone := [q] + rest;
      case LwipTakesPermit =>
        var take := Q.TakePermit(LWIP, s.wanting.value.e, s.wanting.value.urgent);
        assert Q.Enabled(s.q, take) by { TakeIsEnabled(s.q, s.wanting.value); }
        alone := [take] + rest;
      case _ => alone := rest;
    }
  }

  lemma TakeIsEnabled(q: Q.State, entry: Entry)
    requires LWIP !in q.producers && q.permits > 0
    ensures Q.Enabled(q, Q.TakePermit(LWIP, entry.e, entry.urgent))
  {
  }

  // ----- Who can proceed -----

  /** Steps that bring a task closer to leaving the queue code or finishing its event. */
  ghost predicate Proceeds(step: Step) {
    match step
    case InQueue(q) => Q.Proceeds(q)
    case LwipEnters(_, _) => false
    case IssueCall => false
    case _ => true
  }

  /** No permit is left, nobody else is in the queue code, the lwIP thread waits for a permit
      without a time limit, and the service task waits for the lwIP thread. */
  ghost predicate Stuck(s: State) {
    s.q.permits == 0 && s.q.producers == map[] && s.wanting.Some? && s.wanting.value.urgent && s.calling
  }

  lemma ServiceStep(q: Q.State) returns (step: Q.Step)
    requires Q.Inv(q) && (q.service != Q.Waiting || q.queue != [])
    ensures Q.Enabled(q, step) && Q.Proceeds(step) && !Q.OfProducer(step)
  {
    match q.service
    case Received(_) => step := Q.ReleaseReceived;
    case Handling(_, d) => step := if d then Q.FinishHandling else Q.Dispatch;
    case Rotating(_, _, todo, held, _) =>
      step := if held.Some? then Q.KeepOrFree else if todo > 0 then Q.PopEvent else Q.EndRotation;
    case Releasing(_, _) => step := Q.ReleaseRemoved;
    case Waiting => step := Q.Receive;
  }

  /** With no permit left and the service task idle at an empty queue, producers hold them all. */
  lemma SomeoneReserves(q: Q.State)
    requires Q.Inv(q) && q.permits == 0 && q.queue == [] && q.service == Q.Waiting
    ensures q.producers != map[]
  {
    assert Q.Reserved(q.producers) == XQUEUE_SIZE;
    assert q.producers == map[] ==> Q.Reserving(q.producers) == {};
  }

  /** Something has begun: an event is queued or being handled, a producer is in the queue code,
      or the lwIP thread waits for a permit. */
  ghost predicate HasWork(s: State) {
    s.q.producers != map[] || s.wanting.Some? || s.q.queue != [] || s.q.service != Q.Waiting
  }

  lemma FindStep(s: State) returns (step: Step)
    requires Inv(s) && HasWork(s) && !Stuck(s)
    ensures Enabled(s, step) && Proceeds(step)
  {
    hide Q.Inv, Q.Enabled, Q.Proceeds, Q.OfProducer;
    if !s.calling && (s.q.service != Q.Waiting || s.q.queue != []) {
      var q := ServiceStep(s.q);
      step := InQueue(q);
      NoEntry(q);
    } else if s.q.producers != map[] {
      var t :| t in s.q.producers;
      if s.calling { NotRotating(s.q); }
      var q := Q.ProducerStep(s.q, t);
      step := InQueue(q);
      NoEntry(q);
    } else if s.wanting.None? {
      step := RunBody;
    } else if s.q.permits > 0 {
      step := LwipTakesPermit;
    } else {
      if !s.calling { SomeoneReserves(s.q); }
      step := LwipTimesOut;
    }
  }

  lemma NoStepWithoutWork(s: State, step: Step)
    requires Inv(s) && !HasWork(s) && Enabled(s, step)
    ensures !Proceeds(step)
  {
    hide Q.Inv;
  }

  lemma WorkWithoutPermits(s: State)
    requires Inv(s) && s.q.permits == 0
    ensures HasWork(s)
  {
    hide Q.Inv;
    if !HasWork(s) { SomeoneReserves(s.q); }
  }

  lemma NoEntry(step: Q.Step)
    requires Q.Proceeds(step)
    ensures !step.TakePermit?
  {
  }

  lemma NotRotating(q: Q.State)
    requires Q.Inv(q) && MayCall(q.service)
    ensures !q.service.Rotating?
  {
  }

  /** In a stuck state no step of any task is enabled. */
  lemma StuckIsDead(s: State, step: Step)
    requires Inv(s) && Stuck(s)
    ensures !Enabled(s, step)
  {
    hide Q.Inv;
  }

  /** In every reachable state, some task inside the queue code, or the service task, can proceed
      if and only if there is work and the lwIP thread and the service task do not wait for each
      other. Without a permit there always is work. */
  lemma SomeTaskProceeds(steps: seq<Step>)
    requires Legal(INITIAL, steps)
    ensures var s := Run(INITIAL, steps);
      && ((exists step :: Enabled(s, step) && Proceeds(step)) <==> HasWork(s) && !Stuck(s))
      && (s.q.permits == 0 ==> HasWork(s))
  {
    hide Legal, Run, Inv, Stuck, Enabled, Proceeds, HasWork;
    Reachable(steps);
    var s := Run(INITIAL, steps);
    if s.q.permits == 0 { WorkWithoutPermits(s); }
    if Stuck(s) {
      forall step ensures !Enabled(s, step) { StuckIsDead(s, step); }
    } else if HasWork(s) {
      var step := FindStep(s);
    } else {
      forall step | Enabled(s, step) ensures !Proceeds(step) { NoStepWithoutWork(s, step); }
    }
  }

  /** The stuck states are exactly the deadlocks: the reachable states without any next step. */
  lemma DeadlocksAreStuck(steps: seq<Step>)
    requires Legal(INITIAL, steps)
    ensures var s := Run(INITIAL, steps);
      (forall step :: !Enabled(s, step)) <==> Stuck(s)
  {
    hide Legal, Run, Inv, Stuck, Q.Enabled;
    Reachable(steps);
    var s := Run(INITIAL, steps);
    if Stuck(s) {
      forall step ensures !Enabled(s, step) { StuckIsDead(s, step); }
    } else if HasWork(s) {
      var step := FindStep(s);
    } else {
      assert Enabled(s, LwipEnters(Event(0, Poll, 0, None), false));
    }
  }

  // ----- No way out -----

  /** The two waits for each other, while other producers may still be finishing. */
  ghost predicate Blocked(s: State) {
    && s.q.permits == 0 && s.wanting.Some? && s.wanting.value.urgent && s.calling
    && forall t :: t in s.q.producers ==> !s.q.producers[t].GivingUp?
  }

  ghost function Entering(producers: map<Q.Task, Q.Producer>): set<Q.Task> {
    set t | t in producers && producers[t].HasPermit?
  }

  /** How many steps the producers that are in the queue code still have. */
  ghost function StepsLeft(s: State): nat {
    |s.q.producers| + Q.Reserved(s.q.producers) + |Entering(s.q.producers)|
  }

  /** Taking the queue lock waits without a time limit. */
  ghost predicate LockFailure(step: Step) {
    step.InQueue? && step.step.LockFails?
  }

  lemma EnteringUpdate(m: map<Q.Task, Q.Producer>, t: Q.Task, p: Q.Producer)
    requires t in m && !p.HasPermit?
    ensures |Entering(m[t := p])| == |Entering(m)| - if m[t].HasPermit? then 1 else 0
    ensures |m[t := p]| == |m|
  {
    assert Entering(m[t := p]) == Entering(m) - {t};
    Q.RemoveOne(Entering(m), t);
    assert m[t := p].Keys == m.Keys;
    assert |m.Keys| == |m| && |m[t := p].Keys| == |m[t := p]|;
  }

  lemma EnteringRemove(m: map<Q.Task, Q.Producer>, t: Q.Task)
    requires t in m && !m[t].HasPermit?
    ensures |Entering(m - {t})| == |Entering(m)| && |m - {t}| == |m| - 1
  {
    assert Entering(m - {t}) == Entering(m);
    assert (m - {t}).Keys == m.Keys - {t};
    assert |m.Keys| == |m| && |(m - {t}).Keys| == |m - {t}|;
  }

  /** Only the other producers can move, and each of their steps is one of those left. */
  lemma BlockedStep(s: State, step: Step)
    requires Inv(s) && Blocked(s) && Enabled(s, step) && !LockFailure(step)
    ensures Blocked(Do(s, step)) && StepsLeft(Do(s, step)) + 1 == StepsLeft(s)
  {
    hide Q.PermitsConserved, Q.EventsConserved, Q.PbufsConserved, Q.RotationConsistent, Q.Reserved, Entering;
    Q.PermitsGiveRoom(s.q);
    var m, t := s.q.producers, step.step.t;
    match step.step
    case TakeLock(_) =>
      var p := Q.HasLock(m[t].e, m[t].toFront);
      Q.ReservedUpdate(m, t, p);
      EnteringUpdate(m, t, p);
    case SendEvent(_) =>
      Q.ReservedUpdate(m, t, Q.Stored(m[t].e));
      EnteringUpdate(m, t, Q.Stored(m[t].e));
    case GiveLock(_) =>
      Q.ReservedRemove(m, t);
      EnteringRemove(m, t);
    case _ =>
  }

  /** Once blocked, for ever blocked: every run only spends the steps left of the other
      producers, and when they are spent the system is stuck. */
  lemma {:induction false} BlockedEndsStuck(s: State, steps: seq<Step>)
    requires Inv(s) && Blocked(s) && Legal(s, steps)
    requires forall i :: 0 <= i < |steps| ==> !LockFailure(steps[i])
    ensures Blocked(Run(s, steps)) && |steps| + StepsLeft(Run(s, steps)) == StepsLeft(s)
    ensures |steps| == StepsLeft(s) <==> Stuck(Run(s, steps))
    decreases |steps|
  {
    hide Inv, Enabled, Do, Blocked, Stuck, StepsLeft, LockFailure;
    if steps == [] {
      NothingLeft(s);
    } else {
      BlockedStep(s, steps[0]);
      StepKeepsInv(s, steps[0]);
      BlockedEndsStuck(Do(s, steps[0]), steps[1..]);
    }
  }

  lemma NothingLeft(s: State)
    requires Blocked(s)
    ensures StepsLeft(s) == 0 <==> Stuck(s)
  {
    var m := s.q.producers;
    if m == map[] {
      assert Q.Reserving(m) == {} && Entering(m) == {};
    } else {
      var t :| t in m;
      assert |m| > 0;
    }
  }

  // ----- A run that gets stuck -----

  lemma {:induction false} Joined(s: State, a: seq<Step>, b: seq<Step>)
    requires Legal(s, a) && Legal(Run(s, a), b)
    ensures Legal(s, a + b) && Run(s, a + b) == Run(Run(s, a), b)
    decreases |a|
  {
    hide Enabled, Do;
    if a == [] {
      assert a + b == b;
    } else {
      assert (a + b)[1..] == a[1..] + b;
      Joined(Do(s, a[0]), a[1..], b);
    }
  }

  lemma One(s: State, step: Step)
    requires Enabled(s, step)
    ensures Legal(s, [step]) && Run(s, [step]) == Do(s, step)
  {
    hide Enabled, Do;
    assert [step][1..] == [];
    assert Legal(Do(s, step), []) && Run(Do(s, step), []) == Do(s, step);
  }

  /** The lwIP thread queues an ordinary event. */
  lemma PutOne(s: State, e: Event) returns (steps: seq<Step>)
    requires s.q.lock == Q.Nobody && s.q.producers == map[] && s.wanting.None? && s.q.permits > 0
    requires |s.q.queue| < XQUEUE_SIZE
    ensures Legal(s, steps)
    ensures var n := Run(s, steps);
      n == s.(q := s.q.(queue := s.q.queue + [e], permits := s.q.permits - 1, entered := n.q.entered,
          carried := n.q.carried))
  {
    hide Legal, Run;
    steps := [LwipEnters(e, false)];
    One(s, LwipEnters(e, false));
    var s1 := Run(s, steps);
    One(s1, LwipTakesPermit);
    Joined(s, steps, [LwipTakesPermit]);
    steps := steps + [LwipTakesPermit];
    var s2 := Run(s, steps);
    One(s2, InQueue(Q.TakeLock(LWIP)));
    Joined(s, steps, [InQueue(Q.TakeLock(LWIP))]);
    steps := steps + [InQueue(Q.TakeLock(LWIP))];
    var s3 := Run(s, steps);
    One(s3, InQueue(Q.SendEvent(LWIP)));
    Joined(s, steps, [InQueue(Q.SendEvent(LWIP))]);
    steps := steps + [InQueue(Q.SendEvent(LWIP))];
    var s4 := Run(s, steps);
    One(s4, InQueue(Q.GiveLock(LWIP)));
    Joined(s, steps, [InQueue(Q.GiveLock(LWIP))]);
    steps := steps + [InQueue(Q.GiveLock(LWIP))];
    assert s4.q.producers - {LWIP} == map[];
  }

  /** The lwIP thread fills the queue while the service task is busy. */
  lemma {:induction false} FillQueue(s: State, e: Event) returns (steps: seq<Step>)
    requires s.q.lock == Q.Nobody && s.q.producers == map[] && s.wanting.None?
    requires s.q.permits + |s.q.queue| == XQUEUE_SIZE
    ensures Legal(s, steps)
    ensures var n := Run(s, steps);
      && n.q.permits == 0 && n.q.producers == map[] && n.wanting.None? && n.calling == s.calling
      && n.q.service == s.q.service
    decreases s.q.permits
  {
    hide Legal, Run, Enabled, Do;
    if s.q.permits == 0 {
      steps := [];
      Nothing(s);
    } else {
      var put := PutOne(s, e);
      var rest := FillQueue(Run(s, put), e);
      Joined(s, put, rest);
      steps := put + rest;
    }
  }

  lemma Nothing(s: State)
    ensures Legal(s, []) && Run(s, []) == s
  {
  }

  /** From the start: an event of a client is being handled, the lwIP thread fills the queue
      behind it and then reports an error; the handler calls into lwIP. */
  lemma DeadlockIsReachable() returns (steps: seq<Step>)
    ensures Legal(INITIAL, steps) && Stuck(Run(INITIAL, steps))
  {
    hide Legal, Run, Stuck;
    var e, error := Event(1, Poll, 1, None), Event(2, Error, 1, None);
    steps := PutOne(INITIAL, e);
    var handling := [InQueue(Q.Receive), InQueue(Q.ReleaseReceived), InQueue(Q.Dispatch)];
    HandleOne(Run(INITIAL, steps), e);
    Joined(INITIAL, steps, handling);
    steps := steps + handling;
    var fill := FillQueue(Run(INITIAL, steps), e);
    Joined(INITIAL, steps, fill);
    steps := steps + fill;
    WaitForEachOther(Run(INITIAL, steps), error);
    Joined(INITIAL, steps, [LwipEnters(error, true), IssueCall]);
    steps := steps + [LwipEnters(error, true), IssueCall];
  }

  lemma HandleOne(s: State, e: Event)
    requires s.q.queue == [e] && s.q.service == Q.Waiting && !s.calling && e.arg != 0 && s.q.permits + 1 == XQUEUE_SIZE
    ensures var handling := [InQueue(Q.Receive), InQueue(Q.ReleaseReceived), InQueue(Q.Dispatch)];
      && Legal(s, handling)
      && var n := Run(s, handling);
      && n == s.(q := s.q.(queue := [], permits := s.q.permits + 1, service := Q.Handling(e, true),
             released := n.q.released))
  {
    hide Legal, Run;
    One(s, InQueue(Q.Receive));
    var s1 := Do(s, InQueue(Q.Receive));
    One(s1, InQueue(Q.ReleaseReceived));
    var s2 := Do(s1, InQueue(Q.ReleaseReceived));
    One(s2, InQueue(Q.Dispatch));
    Joined(s, [InQueue(Q.Receive)], [InQueue(Q.ReleaseReceived)]);
    Joined(s, [InQueue(Q.Receive)] + [InQueue(Q.ReleaseReceived)], [InQueue(Q.Dispatch)]);
    assert [InQueue(Q.Receive)] + [InQueue(Q.ReleaseReceived)] + [InQueue(Q.Dispatch)]
        == [InQueue(Q.Receive), InQueue(Q.ReleaseReceived), InQueue(Q.Dispatch)];
  }

  lemma WaitForEachOther(s: State, error: Event)
    requires s.q.permits == 0 && s.q.producers == map[] && s.wanting.None? && !s.calling && MayCall(s.q.service)
    ensures var steps := [LwipEnters(error, true), IssueCall];
      Legal(s, steps) && Stuck(Run(s, steps))
  {
    hide Legal, Run;
    One(s, LwipEnters(error, true));
    var s1 := Do(s, LwipEnters(error, true));
    One(s1, IssueCall);
    Joined(s, [LwipEnters(error, true)], [IssueCall]);
    assert [LwipEnters(error, true)] + [IssueCall] == [LwipEnters(error, true), IssueCall];
  }
}
