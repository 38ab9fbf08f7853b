/**
 The locks of the WebSocket server and the order in which its guarded methods nest them:
 the client list, then the queues of one client, then the shared message buffers. Tasks
 that run only such methods cannot wait for each other in a cycle, and all of them finish.
 The one exception is a handler of `forEachClient` that goes to another server.
 */
module LockOrder {
  import opened Wrappers

  type ClientId = nat
  type Task = nat

  datatype Lock = Clients(server: nat) | Queue(client: ClientId) | Buffers(server: nat)

  function Rank(l: Lock): nat {
    match l
    case Clients(_) => 0
    case Queue(_) => 1
    case Buffers(_) => 2
  }

  /** The guards of a method: a guard with the guards taken in its scope, and what follows. */
  datatype Code = Done | Guard(l: Lock, scope: Code, next: Code)

  function Then(a: Code, b: Code): Code {
    match a
    case Done => b
    case Guard(l, scope, next) => Guard(l, scope, Then(next, b))
  }

  /** One guard around nothing that takes another. */
  function Brief(l: Lock): Code {
    Guard(l, Done, Done)
  }

  // ----- AsyncWebSocketClient -----

  /** A client, and whether it was connected when a loop over the clients asked. */
  datatype Peer = Peer(id: ClientId, connected: bool)

  function Status(c: ClientId): Code { Brief(Queue(c)) }

  function QueueMessage(c: ClientId): Code { Brief(Queue(c)) }

  function QueueControl(c: ClientId): Code { Brief(Queue(c)) }

  /** `close` and `ping` look at the status without a guard. */
  function QueueControlIf(c: ClientId, connected: bool): Code {
    if connected then QueueControl(c) else Done
  }

  function CleanBuffers(server: nat): Code { Brief(Buffers(server)) }

  function MakeBuffer(server: nat): Code { Brief(Buffers(server)) }

  /** `close(true)` of the TCP client runs the disconnect callback, outside the guard. */
  function CloseTcp(server: nat, c: ClientId, found: bool): Code {
    OnDisconnect(server, c, found)
  }

  function OnAck(server: nat, c: ClientId, closes: bool, found: bool): Code {
    if closes then Guard(Queue(c), Done, CloseTcp(server, c, found))
    else Guard(Queue(c), CleanBuffers(server), Done)
  }

  datatype Poll = NoClient | Lagging | RunsQueue | Pings

  function OnPoll(server: nat, c: ClientId, poll: Poll, found: bool): Code {
    match poll
    case Pings => Guard(Queue(c), QueueControl(c), Done)
    case Lagging => Guard(Queue(c), Done, CloseTcp(server, c, found))
    case _ => Brief(Queue(c))
  }

  function OnTimeout(server: nat, c: ClientId, hasClient: bool, found: bool): Code {
    Guard(Queue(c), Done, if hasClient then CloseTcp(server, c, found) else Done)
  }

  /** The destructor of a client, which runs when it is removed from the list. */
  function DeleteClient(c: ClientId): Code { Brief(Queue(c)) }

  function OnDisconnect(server: nat, c: ClientId, found: bool): Code {
    Guard(Queue(c), Done, HandleDisconnect(server, c, found))
  }

  // ----- AsyncWebSocket -----

  function AddClient(server: nat): Code { Brief(Clients(server)) }

  function HandleDisconnect(server: nat, c: ClientId, found: bool): Code {
    Guard(Clients(server), if found then DeleteClient(c) else Done, Done)
  }

  /** `availableForWriteAll`, `availableForWrite`, `hasQueuedMessages`, `count`, `client`: some
      guarded questions to each client, until one of them ends the loop. */
  function AskEach(peers: seq<Peer>, questions: nat): Code {
    if peers == [] then Done else Then(Ask(peers[0].id, questions), AskEach(peers[1..], questions))
  }

  function Ask(c: ClientId, questions: nat): Code {
    if questions == 0 then Done else Then(Status(c), Ask(c, questions - 1))
  }

  function AskClients(server: nat, peers: seq<Peer>, questions: nat): Code {
    Guard(Clients(server), AskEach(peers, questions), Done)
  }

  /** The loop of `closeAll`, `pingAll`, `textAll`, `binaryAll` and `messageAll`. */
  function EachConnected(peers: seq<Peer>): Code {
    if peers == [] then Done
    else Then(Status(peers[0].id),
              Then(QueueControlIf(peers[0].id, peers[0].connected), EachConnected(peers[1..])))
  }

  /** `closeAll`, `pingAll`, and the broadcasts of flash strings. */
  function ControlAll(server: nat, peers: seq<Peer>): Code {
    Guard(Clients(server), EachConnected(peers), Done)
  }

  /** `textAll`, `binaryAll` and `messageAll` clean the buffers before the guard ends. */
  function MessageAll(server: nat, peers: seq<Peer>): Code {
    Guard(Clients(server), Then(EachConnected(peers), CleanBuffers(server)), Done)
  }

  /** `textAll` of a string, and `printfAll`. */
  function BufferAndMessageAll(server: nat, peers: seq<Peer>): Code {
    Then(MakeBuffer(server), MessageAll(server, peers))
  }

  /** `text`, `binary`, `message`, `ping`, `close` of one client: found first, then used. */
  function ToOne(server: nat, asked: seq<Peer>, c: Option<ClientId>): Code {
    Then(AskClients(server, asked, 1), if c.Some? then QueueMessage(c.value) else Done)
  }

  function CleanupClients(server: nat, peers: seq<Peer>, closes: Option<ClientId>): Code {
    Then(AskClients(server, peers, 1), if closes.Some? then QueueControl(closes.value) else Done)
  }

  /** All guarded methods, with every outcome of their tests; `calls` are all the guarded methods,
      of any client and any server, that the handler of `forEachClient` calls, visit after visit. */
  datatype Method =
    | MQueueMessage(c: ClientId) | MQueueControl(c: ClientId) | MStatus(c: ClientId) | MDelete(c: ClientId)
    | MOnAck(server: nat, c: ClientId, closes: bool, found: bool)
    | MOnPoll(server: nat, c: ClientId, poll: Poll, found: bool)
    | MOnTimeout(server: nat, c: ClientId, hasClient: bool, found: bool)
    | MOnDisconnect(server: nat, c: ClientId, found: bool)
    | MAddClient(server: nat) | MMakeBuffer(server: nat)
    | MAsk(server: nat, peers: seq<Peer>, questions: nat)
    | MForEachClient(server: nat, calls: seq<Method>)
    | MControlAll(server: nat, peers: seq<Peer>)
    | MMessageAll(server: nat, peers: seq<Peer>)
    | MBufferAndMessageAll(server: nat, peers: seq<Peer>)
    | MToOne(server: nat, peers: seq<Peer>, to: Option<ClientId>)
    | MCleanup(server: nat, peers: seq<Peer>, to: Option<ClientId>)

  function CodeOf(m: Method): Code
    decreases m, if m.MForEachClient? then |m.calls| + 1 else 0
  {
    match m
    case MQueueMessage(c) => QueueMessage(c)
    case MQueueControl(c) => QueueControl(c)
    case MStatus(c) => Status(c)
    case MDelete(c) => DeleteClient(c)
    case MOnAck(server, c, closes, found) => OnAck(server, c, closes, found)
    case MOnPoll(server, c, poll, found) => OnPoll(server, c, poll, found)
    case MOnTimeout(server, c, hasClient, found) => OnTimeout(server, c, hasClient, found)
    case MOnDisconnect(server, c, found) => OnDisconnect(server, c, found)
    case MAddClient(server) => AddClient(server)
    case MMakeBuffer(server) => MakeBuffer(server)
    case MAsk(server, peers, questions) => AskClients(server, peers, questions)
    case MForEachClient(server, _) => Guard(Clients(server), CallsFrom(m, 0), Done)
    case MControlAll(server, peers) => ControlAll(server, peers)
    case MMessageAll(server, peers) => MessageAll(server, peers)
    case MBufferAndMessageAll(server, peers) => BufferAndMessageAll(server, peers)
    case MToOne(server, peers, to) => ToOne(server, peers, to)
    case MCleanup(server, peers, to) => CleanupClients(server, peers, to)
  }

  /** What the handler of `forEachClient` does from the `k`-th call on. */
  function CallsFrom(m: Method, k: nat): Code
    requires m.MForEachClient? && k <= |m.calls|
    decreases m, |m.calls| - k
  {
    if k == |m.calls| then Done else Then(CodeOf(m.calls[k]), CallsFrom(m, k + 1))
  }

  // ----- The order -----

  /** Every lock is held already, or ranks above all that are held. */
  ghost predicate Ordered(code: Code, held: set<Lock>) {
    match code
    case Done => true
    case Guard(l, scope, next) =>
      && (l in held || forall h :: h in held ==> Rank(h) < Rank(l))
      && Ordered(scope, held + {l}) && Ordered(next, held)
  }

  lemma {:induction false} ThenOrdered(a: Code, b: Code, held: set<Lock>)
    requires Ordered(a, held) && Ordered(b, held)
    ensures Ordered(Then(a, b), held)
  {
    if a.Guard? { ThenOrdered(a.next, b, held); }
  }

  lemma {:induction false} AskOrdered(c: ClientId, questions: nat, server: nat)
    ensures Ordered(Ask(c, questions), {Clients(server)})
  {
    if questions > 0 {
      AskOrdered(c, questions - 1, server);
      ThenOrdered(Status(c), Ask(c, questions - 1), {Clients(server)});
    }
  }

  lemma {:induction false} AskEachOrdered(peers: seq<Peer>, questions: nat, server: nat)
    ensures Ordered(AskEach(peers, questions), {Clients(server)})
  {
    if peers != [] {
      AskOrdered(peers[0].id, questions, server);
      AskEachOrdered(peers[1..], questions, server);
      ThenOrdered(Ask(peers[0].id, questions), AskEach(peers[1..], questions), {Clients(server)});
    }
  }

  lemma {:induction false} EachConnectedOrdered(peers: seq<Peer>, server: nat)
    ensures Ordered(EachConnected(peers), {Clients(server)})
  {
    if peers != [] {
      var held, rest := {Clients(server)}, EachConnected(peers[1..]);
      EachConnectedOrdered(peers[1..], server);
      ThenOrdered(QueueControlIf(peers[0].id, peers[0].connected), rest, held);
      ThenOrdered(Status(peers[0].id), Then(QueueControlIf(peers[0].id, peers[0].connected), rest), held);
    }
  }

  /** Every guarded method that calls no handler takes its locks in the order clients, queue, buffers. */
  lemma PlainMethodsAreOrdered(m: Method)
    requires !m.MForEachClient?
    ensures Ordered(CodeOf(m), {})
  {
    match m {
      case MAsk(server, peers, questions) => AsksAreOrdered(server, peers, questions);
      case MControlAll(server, peers) => BroadcastsAreOrdered(server, peers);
      case MMessageAll(server, peers) => BroadcastsAreOrdered(server, peers);
      case MBufferAndMessageAll(server, peers) =>
        BroadcastsAreOrdered(server, peers);
        ThenOrdered(MakeBuffer(server), MessageAll(server, peers), {});
      case MToOne(server, peers, to) =>
        AsksAreOrdered(server, peers, 1);
        ThenOrdered(AskClients(server, peers, 1), if to.Some? then QueueMessage(to.value) else Done, {});
      case MCleanup(server, peers, to) =>
        AsksAreOrdered(server, peers, 1);
        ThenOrdered(AskClients(server, peers, 1), if to.Some? then QueueControl(to.value) else Done, {});
      case MOnAck(server, c, _, found) => DisconnectIsOrdered(server, c, found);
      case MOnPoll(server, c, _, found) => DisconnectIsOrdered(server, c, found);
      case MOnTimeout(server, c, _, found) => DisconnectIsOrdered(server, c, found);
      case MOnDisconnect(server, c, found) => DisconnectIsOrdered(server, c, found);
      case _ =>
    }
  }

  lemma BriefIsOrdered(l: Lock, held: set<Lock>)
    requires forall h :: h in held ==> Rank(h) < Rank(l)
    ensures Ordered(Brief(l), held)
  {
    assert Ordered(Done, held + {l}) && Ordered(Done, held);
  }

  lemma DisconnectIsOrdered(server: nat, c: ClientId, found: bool)
    ensures Ordered(OnDisconnect(server, c, found), {})
  {
    var deletion := if found then DeleteClient(c) else Done;
    assert {} + {Clients(server)} == {Clients(server)};
    BriefIsOrdered(Queue(c), {Clients(server)});
    assert Ordered(Done, {Clients(server)}) && Ordered(Done, {}) && Ordered(Done, {} + {Queue(c)});
    assert Ordered(Guard(Clients(server), deletion, Done), {});
  }

  lemma AsksAreOrdered(server: nat, peers: seq<Peer>, questions: nat)
    ensures Ordered(AskClients(server, peers, questions), {})
  {
    AskEachOrdered(peers, questions, server);
    assert {} + {Clients(server)} == {Clients(server)};
  }

  lemma BroadcastsAreOrdered(server: nat, peers: seq<Peer>)
    ensures Ordered(ControlAll(server, peers), {})
    ensures Ordered(MessageAll(server, peers), {})
  {
    EachConnectedOrdered(peers, server);
    ThenOrdered(EachConnected(peers), CleanBuffers(server), {Clients(server)});
    assert {} + {Clients(server)} == {Clients(server)};
  }

  // ----- Handlers -----

  /** The servers whose client lists are locked. */
  function Lists(code: Code): set<nat> {
    match code
    case Done => {}
    case Guard(l, scope, next) => (if l.Clients? then {l.server} else {}) + Lists(scope) + Lists(next)
  }

  /** The handler locks no client list but that of the server that calls it. */
  predicate StaysHome(m: Method) {
    m.MForEachClient? ==> Lists(CodeOf(m)) == {m.server}
  }

  lemma {:induction false} ListsThen(a: Code, b: Code)
    ensures Lists(Then(a, b)) == Lists(a) + Lists(b)
  {
    if a.Guard? { ListsThen(a.next, b); }
  }

  /** Under the lock of the only client list that it locks, ordered code is still ordered. */
  lemma {:induction false} OrderedUnderList(code: Code, held: set<Lock>, server: nat)
    requires Ordered(code, held) && Lists(code) <= {server}
    ensures Ordered(code, held + {Clients(server)})
  {
    if code.Guard? {
      OrderedUnderList(code.scope, held + {code.l}, server);
      OrderedUnderList(code.next, held, server);
      assert held + {code.l} + {Clients(server)} == held + {Clients(server)} + {code.l};
      assert code.l.Clients? ==> code.l.server in Lists(code);
    }
  }

  /** Under the lock of a client list, ordered code locks no other one. */
  lemma {:induction false} OnlyListHeld(code: Code, held: set<Lock>, server: nat)
    requires Ordered(code, held) && Clients(server) in held
    requires forall l :: l in held && l.Clients? ==> l.server == server
    ensures Lists(code) <= {server}
  {
    if code.Guard? {
      OnlyListHeld(code.scope, held + {code.l}, server);
      OnlyListHeld(code.next, held, server);
    }
  }

  lemma {:induction false} CallsAreOrdered(m: Method, k: nat)
    requires m.MForEachClient? && k <= |m.calls| && Lists(CallsFrom(m, k)) <= {m.server}
    ensures Ordered(CallsFrom(m, k), {Clients(m.server)})
    decreases m, |m.calls| - k
  {
    if k < |m.calls| {
      var call := m.calls[k];
      ListsThen(CodeOf(call), CallsFrom(m, k + 1));
      CallsAreOrdered(m, k + 1);
      MethodsAreOrderedIff(call);
      OrderedUnderList(CodeOf(call), {}, m.server);
      assert {} + {Clients(m.server)} == {Clients(m.server)};
      ThenOrdered(CodeOf(call), CallsFrom(m, k + 1), {Clients(m.server)});
    }
  }

  /** A guarded method takes its locks in the order clients, queue, buffers exactly if no handler
      that it calls goes to the client list of another server. */
  lemma {:induction false} MethodsAreOrderedIff(m: Method)
    ensures Ordered(CodeOf(m), {}) <==> StaysHome(m)
    decreases m, if m.MForEachClient? then |m.calls| + 1 else 0
  {
    if m.MForEachClient? {
      assert {} + {Clients(m.server)} == {Clients(m.server)};
      assert Lists(CodeOf(m)) == {m.server} + Lists(CallsFrom(m, 0));
      if StaysHome(m) {
        CallsAreOrdered(m, 0);
      } else if Ordered(CodeOf(m), {}) {
        OnlyListHeld(CallsFrom(m, 0), {Clients(m.server)}, m.server);
      }
    } else {
      PlainMethodsAreOrdered(m);
    }
  }

  // ----- Tasks -----

  /** The open guards of a task, innermost first; `owns` says that the guard acquired its lock. */
  datatype Stack = Empty | Frame(l: Lock, owns: bool, after: Code, below: Stack)

  datatype TaskState = TaskState(code: Code, stack: Stack)

  datatype State = State(owner: map<Lock, Task>, tasks: seq<TaskState>)

  ghost function Held(stack: Stack): set<Lock> {
    match stack
    case Empty => {}
    case Frame(l, _, _, below) => Held(below) + {l}
  }

  predicate Finished(task: TaskState) {
    task == TaskState(Done, Empty)
  }

  /** The task can enter its next guard, or leave the innermost one. */
  predicate CanStep(s: State, t: Task)
    requires t < |s.tasks|
  {
    var task := s.tasks[t];
    match task.code
    case Guard(l, _, _) => l !in s.owner || s.owner[l] == t
    case Done => task.stack != Empty
  }

  function Step(s: State, t: Task): State
    requires t < |s.tasks| && CanStep(s, t)
  {
    var task := s.tasks[t];
    match task.code
    case Guard(l, scope, next) => State(s.owner[l := t],
        s.tasks[t := TaskState(scope, Frame(l, l !in s.owner, next, task.stack))])
    case Done =>
      var f := task.stack;
      State(if f.owns then s.owner - {f.l} else s.owner, s.tasks[t := TaskState(f.after, f.below)])
  }

  ghost predicate StackOk(stack: Stack) {
    match stack
    case Empty => true
    case Frame(l, owns, after, below) =>
      && (owns <==> l !in Held(below))
      && (l in Held(below) || forall h :: h in Held(below) ==> Rank(h) < Rank(l))
      && Ordered(after, Held(below)) && StackOk(below)
  }

  ghost predicate TaskOk(task: TaskState) {
    StackOk(task.stack) && Ordered(task.code, Held(task.stack))
  }

  ghost predicate Inv(s: State) {
    && (forall t :: 0 <= t < |s.tasks| ==> TaskOk(s.tasks[t]))
    && (forall l :: l in s.owner ==> s.owner[l] < |s.tasks| && l in Held(s.tasks[s.owner[l]].stack))
    && (forall t, l :: 0 <= t < |s.tasks| && l in Held(s.tasks[t].stack) ==> l in s.owner && s.owner[l] == t)
  }

  lemma EnterKeepsInv(s: State, t: Task)
    requires Inv(s) && t < |s.tasks| && s.tasks[t].code.Guard? && CanStep(s, t)
    ensures Inv(Step(s, t))
  {
    var n, l := Step(s, t), s.tasks[t].code.l;
    assert TaskOk(s.tasks[t]);
    assert Held(n.tasks[t].stack) == Held(s.tasks[t].stack) + {l};
  }

  lemma LeaveKeepsInv(s: State, t: Task)
    requires Inv(s) && t < |s.tasks| && s.tasks[t].code.Done? && CanStep(s, t)
    ensures Inv(Step(s, t))
  {
    var n, f := Step(s, t), s.tasks[t].stack;
    assert TaskOk(s.tasks[t]);
    assert Held(f) == Held(f.below) + {f.l};
    assert Held(n.tasks[t].stack) == if f.owns then Held(f) - {f.l} else Held(f);
  }

  lemma StepKeepsInv(s: State, t: Task)
    requires Inv(s) && t < |s.tasks| && CanStep(s, t)
    ensures Inv(Step(s, t))
  {
    if s.tasks[t].code.Guard? { EnterKeepsInv(s, t); } else { LeaveKeepsInv(s, t); }
  }

  /** Following the owner of the lock a task waits for, ranks only rise. */
  lemma {:induction false} SomeTaskSteps(s: State, t: Task) returns (u: Task)
    requires Inv(s) && t < |s.tasks| && !Finished(s.tasks[t])
    ensures u < |s.tasks| && CanStep(s, u)
    decreases match s.tasks[t].code case Guard(l, _, _) => 2 - Rank(l) case Done => 3
  {
    if CanStep(s, t) {
      u := t;
    } else {
      var l := s.tasks[t].code.l;
      var o := s.owner[l];
      assert TaskOk(s.tasks[o]) && l in Held(s.tasks[o].stack);
      if CanStep(s, o) {
        u := o;
      } else {
        var m := s.tasks[o].code.l;
        assert m !in Held(s.tasks[o].stack);
        u := SomeTaskSteps(s, o);
      }
    }
  }

  // ----- Runs -----

  ghost predicate Legal(s: State, run: seq<Task>)
    decreases |run|
  {
    run == [] || (run[0] < |s.tasks| && CanStep(s, run[0]) && Legal(Step(s, run[0]), run[1..]))
  }

  ghost function After(s: State, run: seq<Task>): (n: State)
    requires Legal(s, run)
    ensures |n.tasks| == |s.tasks|
    decreases |run|
  {
    if run == [] then s else After(Step(s, run[0]), run[1..])
  }

  function Start(methods: seq<Method>): State {
    State(map[], seq(|methods|, i requires 0 <= i < |methods| => TaskState(CodeOf(methods[i]), Empty)))
  }

  lemma StartInv(methods: seq<Method>)
    requires forall i :: 0 <= i < |methods| ==> StaysHome(methods[i])
    ensures Inv(Start(methods))
  {
    var s := Start(methods);
    forall t | 0 <= t < |s.tasks| ensures TaskOk(s.tasks[t]) && Held(s.tasks[t].stack) == {} {
      MethodsAreOrderedIff(methods[t]);
    }
  }

  lemma {:induction false} RunKeepsInv(s: State, run: seq<Task>)
    requires Inv(s) && Legal(s, run)
    ensures Inv(After(s, run))
    decreases |run|
  {
    if run != [] {
      StepKeepsInv(s, run[0]);
      RunKeepsInv(Step(s, run[0]), run[1..]);
    }
  }

  /** However guarded methods whose handlers stay home interleave, as long as one of them has not
      finished some task can take its next step: no cycle of waits exists among the locks. */
  lemma NoDeadlock(methods: seq<Method>, run: seq<Task>, t: Task) returns (u: Task)
    requires forall i :: 0 <= i < |methods| ==> StaysHome(methods[i])
    requires Legal(Start(methods), run)
    requires t < |methods| && !Finished(After(Start(methods), run).tasks[t])
    ensures u < |methods| && CanStep(After(Start(methods), run), u)
  {
    StartInv(methods);
    RunKeepsInv(Start(methods), run);
    u := SomeTaskSteps(After(Start(methods), run), t);
  }

  // ----- Every run ends -----

  function CodeSize(code: Code): nat {
    match code
    case Done => 0
    case Guard(_, scope, next) => 2 + CodeSize(scope) + CodeSize(next)
  }

  function StackSize(stack: Stack): nat {
    match stack
    case Empty => 0
    case Frame(_, _, after, below) => 1 + CodeSize(after) + StackSize(below)
  }

  function Remaining(tasks: seq<TaskState>): nat {
    if tasks == [] then 0 else CodeSize(tasks[0].code) + StackSize(tasks[0].stack) + Remaining(tasks[1..])
  }

  lemma {:induction false} RemainingUpdate(tasks: seq<TaskState>, t: Task, task: TaskState)
    requires t < |tasks|
    ensures Remaining(tasks[t := task]) + CodeSize(tasks[t].code) + StackSize(tasks[t].stack)
         == Remaining(tasks) + CodeSize(task.code) + StackSize(task.stack)
  {
    if t > 0 {
      assert tasks[t := task][1..] == tasks[1..][t - 1 := task];
      RemainingUpdate(tasks[1..], t - 1, task);
    } else {
      assert tasks[t := task][1..] == tasks[1..];
    }
  }

  lemma {:induction false} RunLength(s: State, run: seq<Task>)
    requires Legal(s, run)
    ensures |run| + Remaining(After(s, run).tasks) == Remaining(s.tasks)
    decreases |run|
  {
    if run != [] {
      var n := Step(s, run[0]);
      RemainingUpdate(s.tasks, run[0], n.tasks[run[0]]);
      RunLength(n, run[1..]);
    }
  }

  lemma {:induction false} NothingRemains(tasks: seq<TaskState>)
    ensures Remaining(tasks) == 0 <==> forall t :: 0 <= t < |tasks| ==> Finished(tasks[t])
  {
    if tasks != [] {
      NothingRemains(tasks[1..]);
      assert forall t :: 0 < t < |tasks| ==> tasks[t] == tasks[1..][t - 1];
    }
  }

  /** No run is longer than the guards of its methods, and a run of full length has finished
      every method: no task starves for ever. */
  lemma AllMethodsFinish(methods: seq<Method>, run: seq<Task>)
    requires Legal(Start(methods), run)
    ensures |run| <= Remaining(Start(methods).tasks)
    ensures |run| == Remaining(Start(methods).tasks)
      <==> forall t :: 0 <= t < |methods| ==> Finished(After(Start(methods), run).tasks[t])
  {
    RunLength(Start(methods), run);
    NothingRemains(After(Start(methods), run).tasks);
  }

  // ----- Handlers that do not stay home -----

  lemma {:induction false} Joined(s: State, a: seq<Task>, b: seq<Task>)
    requires Legal(s, a) && Legal(After(s, a), b)
    ensures Legal(s, a + b) && After(s, a + b) == After(After(s, a), b)
    decreases |a|
  {
    if a == [] {
      assert a + b == b;
    } else {
      assert (a + b)[1..] == a[1..] + b;
      Joined(Step(s, a[0]), a[1..], b);
    }
  }

  lemma One(s: State, t: Task)
    requires t < |s.tasks| && CanStep(s, t)
    ensures Legal(s, [t]) && After(s, [t]) == Step(s, t)
  {
    assert [t][1..] == [] && Legal(Step(s, t), []) && After(Step(s, t), []) == Step(s, t);
  }

  /** The first task runs alone; the second has not begun. */
  ghost predicate Alone(s: State, task: TaskState, other: TaskState) {
    s.tasks == [task, other] && forall l :: l in s.owner ==> s.owner[l] == 0
  }

  /** Alone, a task gets through all its guards. */
  lemma {:induction false} GetThrough(s: State, code: Code, stack: Stack, other: TaskState) returns (run: seq<Task>)
    requires Alone(s, TaskState(code, stack), other)
    ensures Legal(s, run) && After(s, run) == State(s.owner, [TaskState(Done, stack), other])
    decreases code
  {
    match code
    case Done =>
      run := [];
      assert Legal(s, run) && After(s, run) == s;
    case Guard(l, scope, next) =>
      var s1 := Step(s, 0);
      var scopeRun := GetThrough(s1, scope, Frame(l, l !in s.owner, next, stack), other);
      var s2 := After(s1, scopeRun);
      var s3 := Step(s2, 0);
      assert s3.owner == s.owner && s3.tasks == [TaskState(next, stack), other];
      var nextRun := GetThrough(s3, next, stack, other);
      One(s, 0);
      One(s2, 0);
      Joined(s2, [0], nextRun);
      Joined(s1, scopeRun, [0] + nextRun);
      run := [0] + (scopeRun + ([0] + nextRun));
      Joined(s, [0], scopeRun + ([0] + nextRun));
  }

  /** The first client list of another server that the code locks. */
  function FirstOther(code: Code, server: nat): (other: nat)
    requires !(Lists(code) <= {server})
    ensures other != server
  {
    var Guard(l, scope, next) := code;
    if l.Clients? && l.server != server then l.server
    else if !(Lists(scope) <= {server}) then FirstOther(scope, server)
    else FirstOther(next, server)
  }

  /** Alone, a task that holds one client list gets to where it wants another one. */
  lemma {:induction false} GetToList(s: State, code: Code, stack: Stack, other: TaskState, server: nat)
    returns (run: seq<Task>)
    requires Alone(s, TaskState(code, stack), other) && !(Lists(code) <= {server})
    requires Clients(server) in s.owner && forall l :: l in s.owner && l.Clients? ==> l.server == server
    ensures Legal(s, run)
    ensures var n := After(s, run);
      && Alone(n, n.tasks[0], other) && n.tasks[0].code.Guard? && n.tasks[0].code.l == Clients(FirstOther(code, server))
      && Clients(FirstOther(code, server)) !in n.owner && Clients(server) in n.owner
    decreases code
  {
    var Guard(l, scope, next) := code;
    if l.Clients? && l.server != server {
      run := [];
      assert Legal(s, run) && After(s, run) == s;
    } else {
      var s1, inner := Step(s, 0), Frame(l, l !in s.owner, next, stack);
      One(s, 0);
      var rest;
      if !(Lists(scope) <= {server}) {
        rest := GetToList(s1, scope, inner, other, server);
      } else {
        var scopeRun := GetThrough(s1, scope, inner, other);
        var s2 := After(s1, scopeRun);
        var s3 := Step(s2, 0);
        assert s3.owner == s.owner && s3.tasks == [TaskState(next, stack), other];
        var nextRun := GetToList(s3, next, stack, other, server);
        One(s2, 0);
        Joined(s2, [0], nextRun);
        Joined(s1, scopeRun, [0] + nextRun);
        rest := scopeRun + ([0] + nextRun);
      }
      Joined(s, [0], rest);
      run := [0] + rest;
    }
  }

  /** A handler of one server that goes to the client list of another. */
  function GoesTo(server: nat, other: nat): Method {
    MForEachClient(server, [MControlAll(other, [])])
  }

  lemma GoesToCode(server: nat, other: nat)
    ensures CodeOf(GoesTo(server, other)) == Guard(Clients(server), Brief(Clients(other)), Done)
  {
    var m := GoesTo(server, other);
    assert CallsFrom(m, 1) == Done && EachConnected([]) == Done;
    assert CodeOf(m.calls[0]) == Brief(Clients(other));
    assert Then(Done, Done) == Done && Then(Brief(Clients(other)), Done) == Brief(Clients(other));
    assert CallsFrom(m, 0) == Then(CodeOf(m.calls[0]), CallsFrom(m, 1));
  }

  /** Every method whose handler does not stay home can come to a deadlock: with a handler that
      goes the other way, neither of the two can take a step. */
  lemma LeavingHomeDeadlocks(m: Method) returns (partner: Method, run: seq<Task>)
    requires !StaysHome(m)
    ensures Legal(Start([m, partner]), run)
    ensures var s := After(Start([m, partner]), run);
      forall t :: 0 <= t < 2 ==> !Finished(s.tasks[t]) && !CanStep(s, t)
  {
    var body, server := CallsFrom(m, 0), m.server;
    assert Lists(CodeOf(m)) == {server} + Lists(body);
    var other := FirstOther(body, server);
    partner := GoesTo(other, server);
    GoesToCode(other, server);
    var s := Start([m, partner]);
    var waiting := TaskState(CodeOf(partner), Empty);
    assert s.tasks == [TaskState(CodeOf(m), Empty), waiting];
    One(s, 0);
    var s1, stack := Step(s, 0), Frame(Clients(server), true, Done, Empty);
    assert s1.tasks == [TaskState(body, stack), waiting];
    var there := GetToList(s1, body, stack, waiting, server);
    var s2 := After(s1, there);
    assert CanStep(s2, 1);
    One(s2, 1);
    Joined(s1, there, [1]);
    Joined(s, [0], there + [1]);
    run := [0] + (there + [1]);
  }
}
