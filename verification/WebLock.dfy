/**
 The re-entrant lock that AsyncWebLockGuard takes: a binary semaphore and a field that
 names the task inside. The lock and its guards as objects, and then any number of tasks
 whose reads and writes of the field and semaphore operations interleave freely.
 */
module WebLock {
  import opened Wrappers

  type Task = nat

  class AsyncWebLock {
    var available: bool
    var lockedBy: Option<Task>

    constructor ()
      ensures available && lockedBy == None
    {
      available, lockedBy := true, None;
    }

    /** Returns once `current` is inside; it waits unless it is there already or nobody is. */
    method Lock(current: Task) returns (acquired: bool)
      requires lockedBy == Some(current) || available
      modifies this
      ensures lockedBy == Some(current)
      ensures acquired <==> old(lockedBy) != Some(current)
      ensures available == (old(available) && !acquired)
    {
      if lockedBy != Some(current) {
        available := false;
        lockedBy := Some(current);
        return true;
      }
      return false;
    }

    method Unlock()
      modifies this
      ensures available && lockedBy == None
    {
      lockedBy := None;
      available := true;
    }
  }

  class AsyncWebLockGuard {
    var lock: Option<AsyncWebLock>

    constructor (l: AsyncWebLock, current: Task)
      requires l.lockedBy == Some(current) || l.available
      modifies l
      ensures l.lockedBy == Some(current) && l.available == (old(l.available) && old(l.lockedBy) == Some(current))
      ensures lock == if old(l.lockedBy) == Some(current) then None else Some(l)
    {
      var acquired := l.Lock(current);
      lock := if acquired then Some(l) else None;
    }

    /** The destructor. */
    method Drop()
      modifies if lock.Some? then {lock.value} else {}
      ensures lock.Some? ==> lock.value.available && lock.value.lockedBy == None
    {
      if lock.Some? {
        lock.value.Unlock();
      }
    }
  }

  // ----- Interleaved tasks -----

  /** What a task may see when it looks up the running task: its own name, if the scheduler's
      field shows the task that reads it. */
  type Names = (Task, nat) -> bool

  /** Where a task is inside `lock` or `unlock`. */
  datatype Phase = Running | Waiting | Taken | Cleared

  /** `guards` are the live guards of the task, outermost first; a guard that acquired the
      lock is true and will release it. */
  datatype TaskState = TaskState(phase: Phase, guards: seq<bool>)

  datatype State = State(available: bool, lockedBy: Option<nat>, tasks: seq<TaskState>)

  /** `seen` is the name that the task reads in this step. */
  datatype Step =
    | ReadOwner(t: Task, seen: nat)
    | TakeSemaphore(t: Task)
    | WriteOwner(t: Task, seen: nat)
    | DropGuard(t: Task)
    | GiveSemaphore(t: Task)

  function Initial(tasks: nat): State {
    State(true, None, seq(tasks, _ => TaskState(Running, [])))
  }

  predicate Enabled(names: Names, s: State, step: Step) {
    step.t < |s.tasks| &&
    var task := s.tasks[step.t];
    match step
    case ReadOwner(t, seen) => task.phase == Running && names(t, seen)
    case TakeSemaphore(_) => task.phase == Waiting && s.available
    case WriteOwner(t, seen) => task.phase == Taken && names(t, seen)
    case DropGuard(_) => task.phase == Running && task.guards != []
    case GiveSemaphore(_) => task.phase == Cleared
  }

  function Update(s: State, t: Task, task: TaskState): State
    requires t < |s.tasks|
  {
    s.(tasks := s.tasks[t := task])
  }

  function Push(task: TaskState, acquired: bool): TaskState {
    TaskState(Running, task.guards + [acquired])
  }

  function Pop(task: TaskState): TaskState
    requires task.guards != []
  {
    TaskState(Running, task.guards[..|task.guards| - 1])
  }

  /** The destructor of the innermost guard clears the owner first, if the guard acquired the lock. */
  function Do(names: Names, s: State, step: Step): State
    requires Enabled(names, s, step)
  {
    var t, task := step.t, s.tasks[step.t];
    match step
    case ReadOwner(_, seen) => Update(s, t, if s.lockedBy == Some(seen) then Push(task, false)
        else task.(phase := Waiting))
    case TakeSemaphore(_) => Update(s, t, task.(phase := Taken)).(available := false)
    case WriteOwner(_, seen) => Update(s, t, Push(task, true)).(lockedBy := Some(seen))
    case DropGuard(_) =>
      if task.guards[|task.guards| - 1] then Update(s, t, Pop(task).(phase := Cleared)).(lockedBy := None)
      else Update(s, t, Pop(task))
    case GiveSemaphore(_) => Update(s, t, task.(phase := Running)).(available := true)
  }

  // ----- The invariant -----

  /** No two tasks see the same name. */
  ghost predicate Disjoint(names: Names, tasks: nat) {
    forall t, u, v :: 0 <= t < u < tasks && names(t, v) ==> !names(u, v)
  }

  /** The task holds the semaphore. */
  predicate Holds(task: TaskState) {
    task.phase == Taken || task.phase == Cleared || task.guards != []
  }

  /** The owner field holds a name that the task sees. */
  predicate Named(names: Names, s: State, t: Task) {
    s.lockedBy.Some? && names(t, s.lockedBy.value)
  }

  /** Only the outermost guard of a task acquired the lock, and the owner field names the
      task exactly while it has guards. */
  predicate Coherent(task: TaskState, named: bool) {
    && (named <==> task.guards != [])
    && (task.guards != [] ==> (task.phase == Running || task.phase == Waiting) && task.guards[0])
    && (forall i :: 0 < i < |task.guards| ==> !task.guards[i])
  }

  ghost predicate Inv(names: Names, s: State) {
    && Disjoint(names, |s.tasks|)
    && (forall t :: 0 <= t < |s.tasks| ==> Coherent(s.tasks[t], Named(names, s, t)))
    && (forall t, u :: 0 <= t < u < |s.tasks| ==> !(Holds(s.tasks[t]) && Holds(s.tasks[u])))
    && (s.available <==> forall t :: 0 <= t < |s.tasks| ==> !Holds(s.tasks[t]))
  }

  lemma StepKeepsInv(names: Names, s: State, step: Step)
    requires Inv(names, s) && Enabled(names, s, step)
    ensures Inv(names, Do(names, s, step))
  {
    var t, n := step.t, Do(names, s, step);
    assert Coherent(s.tasks[t], Named(names, s, t));
    assert forall u :: 0 <= u < |s.tasks| && u != t ==> n.tasks[u] == s.tasks[u];
    forall u | 0 <= u < |s.tasks| && u != t ensures Coherent(n.tasks[u], Named(names, n, u)) {
      assert Coherent(s.tasks[u], Named(names, s, u));
    }
    if step.GiveSemaphore? {
      assert Holds(s.tasks[t]);
    } else if !n.available {
      assert Holds(n.tasks[t]) || exists u :: 0 <= u < |s.tasks| && u != t && Holds(s.tasks[u]);
    }
  }

  // ----- Runs -----

  ghost predicate Legal(names: Names, s: State, steps: seq<Step>)
    decreases |steps|
  {
    steps == [] || (Enabled(names, s, steps[0]) && Legal(names, Do(names, s, steps[0]), steps[1..]))
  }

  ghost function Run(names: Names, s: State, steps: seq<Step>): State
    requires Legal(names, s, steps)
    decreases |steps|
  {
    if steps == [] then s else Run(names, Do(names, s, steps[0]), steps[1..])
  }

  lemma {:induction false} RunKeepsInv(names: Names, s: State, steps: seq<Step>)
    requires Inv(names, s) && Legal(names, s, steps)
    ensures Inv(names, Run(names, s, steps)) && |Run(names, s, steps).tasks| == |s.tasks|
    decreases |steps|
  {
    hide Inv;
    if steps != [] {
      StepKeepsInv(names, s, steps[0]);
      RunKeepsInv(names, Do(names, s, steps[0]), steps[1..]);
    }
  }

  lemma InitialInv(names: Names, tasks: nat)
    requires Disjoint(names, tasks)
    ensures Inv(names, Initial(tasks))
  {
  }

  predicate AtMostOneInside(s: State) {
    forall t, u :: 0 <= t < u < |s.tasks| ==> s.tasks[t].guards == [] || s.tasks[u].guards == []
  }

  /** In every interleaving at most one task is inside, only an outermost guard gives the
      semaphore back, and the semaphore is not available when it is given. */
  lemma MutualExclusion(names: Names, tasks: nat, steps: seq<Step>)
    requires Disjoint(names, tasks) && Legal(names, Initial(tasks), steps)
    ensures var s := Run(names, Initial(tasks), steps);
      && AtMostOneInside(s)
      && (forall t, i :: 0 <= t < |s.tasks| && 0 <= i < |s.tasks[t].guards| ==> (s.tasks[t].guards[i] <==> i == 0))
      && (forall t :: Enabled(names, s, GiveSemaphore(t)) ==> !s.available)
  {
    InitialInv(names, tasks);
    RunKeepsInv(names, Initial(tasks), steps);
    var s := Run(names, Initial(tasks), steps);
    forall t, i | 0 <= t < |s.tasks| && 0 <= i < |s.tasks[t].guards|
      ensures s.tasks[t].guards[i] <==> i == 0
    {
      assert Coherent(s.tasks[t], Named(names, s, t));
    }
  }

  /** `t` takes the lock under a name that `u` sees as well, and `u` walks in. */
  lemma SharedNameLetsTwoIn(names: Names, tasks: nat, t: Task, u: Task, v: nat) returns (steps: seq<Step>)
    requires t < tasks && u < tasks && t != u && names(t, v) && names(u, v)
    ensures Legal(names, Initial(tasks), steps) && !AtMostOneInside(Run(names, Initial(tasks), steps))
  {
    steps := [ReadOwner(t, v), TakeSemaphore(t), WriteOwner(t, v), ReadOwner(u, v)];
    var s1 := Do(names, Initial(tasks), steps[0]);
    var s2 := Do(names, s1, steps[1]);
    var s3 := Do(names, s2, steps[2]);
    var s4 := Do(names, s3, steps[3]);
    assert s4.tasks[t].guards == [true] && s4.tasks[u].guards == [false];
    assert Legal(names, s4, []) && Run(names, s4, []) == s4;
    assert steps[1..][1..][1..] == [ReadOwner(u, v)] && [ReadOwner(u, v)][1..] == [];
    assert Legal(names, s3, [ReadOwner(u, v)]) && Run(names, s3, [ReadOwner(u, v)]) == s4;
    assert Legal(names, s2, steps[1..][1..]) && Run(names, s2, steps[1..][1..]) == s4;
    assert Legal(names, s1, steps[1..]) && Run(names, s1, steps[1..]) == s4;
    var lo, hi := if t < u then t else u, if t < u then u else t;
    assert s4.tasks[lo].guards != [] && s4.tasks[hi].guards != [];
  }

  /** Mutual exclusion holds in all runs exactly if no two tasks see the same name. */
  lemma MutualExclusionIff(names: Names, tasks: nat)
    ensures (forall steps :: Legal(names, Initial(tasks), steps) ==> AtMostOneInside(Run(names, Initial(tasks), steps)))
      <==> Disjoint(names, tasks)
  {
    if Disjoint(names, tasks) {
      forall steps | Legal(names, Initial(tasks), steps) ensures AtMostOneInside(Run(names, Initial(tasks), steps)) {
        MutualExclusion(names, tasks, steps);
      }
    } else {
      var t, u, v :| 0 <= t < u < tasks && names(t, v) && names(u, v);
      var steps := SharedNameLetsTwoIn(names, tasks, t, u, v);
    }
  }

  // ----- Waiting -----

  /** A task sees one name, always the same. */
  ghost predicate SeesOneName(names: Names, t: Task) {
    exists v :: names(t, v) && forall w :: names(t, w) ==> w == v
  }

  /** A task that has guards does not wait. */
  predicate InsideRunning(s: State) {
    forall t :: 0 <= t < |s.tasks| && s.tasks[t].guards != [] ==> s.tasks[t].phase != Waiting
  }

  lemma StepKeepsInsideRunning(names: Names, s: State, step: Step)
    requires Inv(names, s) && InsideRunning(s) && Enabled(names, s, step) && SeesOneName(names, step.t)
    ensures InsideRunning(Do(names, s, step))
  {
    var t, n := step.t, Do(names, s, step);
    assert Coherent(s.tasks[t], Named(names, s, t));
    var v :| names(t, v) && forall w :: names(t, w) ==> w == v;
    if step.ReadOwner? && s.tasks[t].guards != [] {
      assert names(t, step.seen) && names(t, s.lockedBy.value);
    }
    assert forall u :: 0 <= u < |s.tasks| && u != t ==> n.tasks[u] == s.tasks[u];
  }

  lemma {:induction false} RunKeepsInsideRunning(names: Names, s: State, steps: seq<Step>)
    requires Inv(names, s) && InsideRunning(s) && Legal(names, s, steps)
    requires forall t :: 0 <= t < |s.tasks| ==> SeesOneName(names, t)
    ensures InsideRunning(Run(names, s, steps))
    decreases |steps|
  {
    hide Inv, InsideRunning, SeesOneName;
    if steps != [] {
      StepKeepsInv(names, s, steps[0]);
      StepKeepsInsideRunning(names, s, steps[0]);
      RunKeepsInsideRunning(names, Do(names, s, steps[0]), steps[1..]);
    }
  }

  /** When tasks see one name each, a task waits only while another task holds the semaphore, and
      that task can proceed: re-entering never blocks a task on itself. */
  lemma WaitingIsForAnother(names: Names, tasks: nat, steps: seq<Step>, t: Task) returns (u: Task, step: Step)
    requires Disjoint(names, tasks) && Legal(names, Initial(tasks), steps)
    requires forall t :: 0 <= t < tasks ==> SeesOneName(names, t)
    requires var s := Run(names, Initial(tasks), steps); t < |s.tasks| && s.tasks[t].phase == Waiting && !s.available
    ensures var s := Run(names, Initial(tasks), steps);
      u < |s.tasks| && u != t && Holds(s.tasks[u]) && step.t == u && Enabled(names, s, step)
  {
    InitialInv(names, tasks);
    RunKeepsInv(names, Initial(tasks), steps);
    RunKeepsInsideRunning(names, Initial(tasks), steps);
    var s := Run(names, Initial(tasks), steps);
    assert Coherent(s.tasks[t], Named(names, s, t));
    u :| 0 <= u < |s.tasks| && Holds(s.tasks[u]);
    assert Coherent(s.tasks[u], Named(names, s, u));
    match s.tasks[u].phase
    case Taken =>
      assert SeesOneName(names, u);
      var v :| names(u, v);
      step := WriteOwner(u, v);
    case Cleared => step := GiveSemaphore(u);
    case _ => step := DropGuard(u);
  }

  /** A task that sees two names can come to wait for itself. */
  lemma TwoNamesWaitForThemselves(names: Names, tasks: nat, t: Task, v: nat, w: nat) returns (steps: seq<Step>)
    requires t < tasks && v != w && names(t, v) && names(t, w)
    ensures Legal(names, Initial(tasks), steps)
    ensures var s := Run(names, Initial(tasks), steps);
      |s.tasks| == tasks && s.tasks[t].phase == Waiting && s.tasks[t].guards == [true] && !s.available
  {
    steps := [ReadOwner(t, v), TakeSemaphore(t), WriteOwner(t, v), ReadOwner(t, w)];
    var s1 := Do(names, Initial(tasks), steps[0]);
    var s2 := Do(names, s1, steps[1]);
    var s3 := Do(names, s2, steps[2]);
    var s4 := Do(names, s3, steps[3]);
    assert Legal(names, s4, []) && Run(names, s4, []) == s4;
    assert steps[1..][1..][1..] == [ReadOwner(t, w)] && [ReadOwner(t, w)][1..] == [];
    assert Legal(names, s3, [ReadOwner(t, w)]) && Run(names, s3, [ReadOwner(t, w)]) == s4;
    assert Legal(names, s2, steps[1..][1..]) && Run(names, s2, steps[1..][1..]) == s4;
    assert Legal(names, s1, steps[1..]) && Run(names, s1, steps[1..]) == s4;
  }

  // ----- What the scheduler shows -----

  /** One core, or a field per core: every task sees itself. */
  const OWN_NAMES: Names := (t: nat, v: nat) => v == t

  lemma OwnNamesAreGood(tasks: nat)
    ensures Disjoint(OWN_NAMES, tasks) && forall t :: 0 <= t < tasks ==> SeesOneName(OWN_NAMES, t)
  {
    forall t | 0 <= t < tasks ensures SeesOneName(OWN_NAMES, t) {
      assert OWN_NAMES(t, t);
    }
  }

  /** So with a field per core at most one task is inside, in every interleaving, and a task only
      waits for another one that can take a step. */
  lemma OwnNamesExclude(tasks: nat, steps: seq<Step>)
    requires Legal(OWN_NAMES, Initial(tasks), steps)
    ensures var s := Run(OWN_NAMES, Initial(tasks), steps);
      && AtMostOneInside(s)
      && forall t :: 0 <= t < |s.tasks| && s.tasks[t].phase == Waiting && !s.available ==>
        exists step: Step :: step.t != t && Enabled(OWN_NAMES, s, step) && Holds(s.tasks[step.t])
  {
    hide Run, Legal, Disjoint, SeesOneName;
    OwnNamesAreGood(tasks);
    MutualExclusionIff(OWN_NAMES, tasks);
    var s := Run(OWN_NAMES, Initial(tasks), steps);
    forall t | 0 <= t < |s.tasks| && s.tasks[t].phase == Waiting && !s.available
      ensures exists step: Step :: step.t != t && Enabled(OWN_NAMES, s, step) && Holds(s.tasks[step.t])
    {
      var u, step := WaitingIsForAnother(OWN_NAMES, tasks, steps, t);
    }
  }

  /** One field for two cores that shows what core 0 runs: a task on core 1 sees any task of
      core 0, or its idle task. */
  function CoreZeroNames(onCoreZero: Task -> bool, tasks: nat): Names {
    (t: nat, v: nat) => if onCoreZero(t) then v == t else v >= tasks || onCoreZero(v)
  }

  /** With such a field the lock excludes exactly if all tasks run on core 0 or there is only one. */
  lemma CoreZeroNamesExcludeIff(onCoreZero: Task -> bool, tasks: nat)
    ensures Disjoint(CoreZeroNames(onCoreZero, tasks), tasks) <==> tasks <= 1 || forall t :: 0 <= t < tasks ==>
      onCoreZero(t)
  {
    var names := CoreZeroNames(onCoreZero, tasks);
    if tasks > 1 && exists t :: 0 <= t < tasks && !onCoreZero(t) {
      var t :| 0 <= t < tasks && !onCoreZero(t);
      var u := if t == 0 then 1 else 0;
      var v := if onCoreZero(u) then u else tasks;
      assert names(t, v) && names(u, v);
      assert if t < u then names(t, v) && names(u, v) else names(u, v) && names(t, v);
    }
  }
}
