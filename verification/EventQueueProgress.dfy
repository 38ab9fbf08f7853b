/**
 How much the tasks of the event queue still have to do. Every step that does not bring in new work
 does a part of it, so that without new work all of it is done, or the system is stuck.
 */
module EventQueueProgress {
  import opened Wrappers
  import opened EventQueue
  import opened EventQueueBlocking
  import Q = EventQueueProtocol

  /** The steps that a producer still has, those for its event included. */
  function ProducerWork(p: Q.Producer): nat {
    match p
    case HasPermit(_, _) => 8
    case HasLock(_, _) => 7
    case Stored(_) => 1
    case Refused(_) => 2
    case GivingUp(_) => 1
  }

  ghost function ProducersWork(m: map<Q.Task, Q.Producer>): nat {
    if m == map[] then 0 else
      var t :| t in m;
      ProducerWork(m[t]) + ProducersWork(m - {t})
  }

  lemma {:induction false} WorkOf(m: map<Q.Task, Q.Producer>, t: Q.Task)
    requires t in m
    ensures ProducersWork(m) == ProducerWork(m[t]) + ProducersWork(m - {t})
    decreases |m|
  {
    var u :| u in m && ProducersWork(m) == ProducerWork(m[u]) + ProducersWork(m - {u});
    if u != t {
      assert t in m - {u} && u in m - {t};
      assert |m - {u}| < |m| && |m - {t}| < |m| by { assert (m - {u}).Keys < m.Keys && (m - {t}).Keys < m.Keys; }
      WorkOf(m - {u}, t);
      WorkOf(m - {t}, u);
      assert m - {u} - {t} == m - {t} - {u};
    }
  }

  lemma WorkUpdate(m: map<Q.Task, Q.Producer>, t: Q.Task, p: Q.Producer)
    ensures ProducersWork(m[t := p]) == ProducersWork(m - {t}) + ProducerWork(p)
  {
    WorkOf(m[t := p], t);
    assert m[t := p] - {t} == m - {t};
  }

  /** The steps that the service task still has for what it has in hand. */
  function ServiceWork(v: Q.Service): nat {
    match v
    case Waiting => 0
    case Received(_) => 3
    case Handling(_, dispatched) => if dispatched then 1 else 2
    case Rotating(_, _, todo, held, removed) => 2 + 3 * todo + removed + if held.Some? then 7 else 0
    case Releasing(_, left) => 1 + left
  }

  ghost function Work(s: State): nat {
    5 * |s.q.queue| + ServiceWork(s.q.service) + ProducersWork(s.q.producers)
      + (if s.wanting.Some? then 9 else 0) + if s.calling then 1 else 0
  }

  lemma ProducerWorks(q: Q.State, step: Q.Step)
    requires Q.Inv(q) && Q.Enabled(q, step) && Q.OfProducer(step) && Q.Proceeds(step)
    ensures var n := Q.Do(q, step);
      5 * |n.queue| + ProducersWork(n.producers) < 5 * |q.queue| + ProducersWork(q.producers) && n.service == q.service
  {
    hide Q.PermitsConserved, Q.EventsConserved, Q.PbufsConserved, Q.RotationConsistent, ProducersWork;
    var t := step.t;
    WorkOf(q.producers, t);
    Q.PermitsGiveRoom(q);
    var n := Q.Do(q, step);
    if t in n.producers {
      WorkUpdate(q.producers, t, n.producers[t]);
      assert n.producers == q.producers[t := n.producers[t]];
    } else {
      assert n.producers == q.producers - {t};
    }
  }

  lemma ServiceWorks(q: Q.State, step: Q.Step)
    requires Q.Inv(q) && Q.Enabled(q, step) && !Q.OfProducer(step) && Q.Proceeds(step)
    ensures var n := Q.Do(q, step);
      5 * |n.queue| + ServiceWork(n.service) < 5 * |q.queue| + ServiceWork(q.service) && n.producers == q.producers
  {
    hide Q.Inv;
    ReleasingLeft(q);
    match step
    case PopEvent => PopWorks(q);
    case KeepOrFree => RotateWorks(q);
    case _ =>
  }

  lemma ReleasingLeft(q: Q.State)
    requires Q.Inv(q)
    ensures q.service.Releasing? ==> q.service.left > 0
  {
    hide Q.PermitsConserved, Q.EventsConserved, Q.PbufsConserved, Q.LockConsistent;
  }

  lemma PopWorks(q: Q.State)
    requires Q.Enabled(q, Q.PopEvent)
    ensures var n := Q.Pop(q);
      5 * |n.queue| + ServiceWork(n.service) < 5 * |q.queue| + ServiceWork(q.service) && n.producers == q.producers
  {
  }

  lemma RotateWorks(q: Q.State)
    requires Q.Enabled(q, Q.KeepOrFree)
    ensures var n := Q.Rotate(q, q.service.held.value);
      5 * |n.queue| + ServiceWork(n.service) < 5 * |q.queue| + ServiceWork(q.service) && n.producers == q.producers
  {
  }

  /** Each step without new work does a part of what is left. */
  lemma StepWorks(s: State, step: Step)
    requires Inv(s) && Enabled(s, step) && Proceeds(step)
    ensures Work(Do(s, step)) < Work(s)
  {
    hide Q.Inv, Q.Enabled, Q.Do, Q.Proceeds, ProducersWork, ServiceWork;
    match step
    case InQueue(q) => if Q.OfProducer(q) { ProducerWorks(s.q, q); } else { ServiceWorks(s.q, q); }
    case LwipTakesPermit => TakingWorks(s);
    case _ =>
  }

  lemma TakingWorks(s: State)
    requires Inv(s) && Enabled(s, LwipTakesPermit)
    ensures Work(Do(s, LwipTakesPermit)) < Work(s)
  {
    hide Q.Inv, ProducersWork;
    var e := s.wanting.value;
    WorkUpdate(s.q.producers, LWIP, Q.HasPermit(e.e, e.urgent));
    assert s.q.producers - {LWIP} == s.q.producers;
  }

  ghost predicate NothingNew(steps: seq<Step>) {
    forall i :: 0 <= i < |steps| ==> Proceeds(steps[i])
  }

  /** So without new work no run is longer than the work that was there; and one that cannot go on
      has done everything, or is stuck. */
  lemma {:induction false} WorkIsDone(s: State, steps: seq<Step>)
    requires Inv(s) && Legal(s, steps) && NothingNew(steps)
    ensures |steps| + Work(Run(s, steps)) <= Work(s)
    ensures (forall step :: Enabled(Run(s, steps), step) ==> !Proceeds(step)) <==>
      !HasWork(Run(s, steps)) || Stuck(Run(s, steps))
    decreases |steps|
  {
    hide Inv, Enabled, Do, Proceeds, HasWork, Stuck, Work;
    if steps == [] {
      if HasWork(s) && !Stuck(s) {
        var step := FindStep(s);
      } else {
        forall step | Enabled(s, step) ensures !Proceeds(step) {
          if Stuck(s) { StuckIsDead(s, step); } else { NoStepWithoutWork(s, step); }
        }
      }
    } else {
      StepWorks(s, steps[0]);
      StepKeepsInv(s, steps[0]);
      assert NothingNew(steps[1..]);
      WorkIsDone(Do(s, steps[0]), steps[1..]);
    }
  }
}
