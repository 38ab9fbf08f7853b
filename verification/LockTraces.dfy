/**
 Which locks each guarded method takes, one after the other, and which it holds meanwhile.
 */
module LockTraces {
  import opened Wrappers
  import opened LockOrder

  /** A lock that is taken, and the locks that are held by then. */
  datatype Taken = Taken(l: Lock, held: seq<Lock>)

  function Trace(code: Code, held: seq<Lock>): seq<Taken> {
    match code
    case Done => []
    case Guard(l, scope, next) => [Taken(l, held)] + Trace(scope, held + [l]) + Trace(next, held)
  }

  lemma {:induction false} TraceThen(a: Code, b: Code, held: seq<Lock>)
    ensures Trace(Then(a, b), held) == Trace(a, held) + Trace(b, held)
  {
    match a
    case Done => assert [] + Trace(b, held) == Trace(b, held);
    case Guard(l, scope, next) => TraceThen(next, b, held);
  }

  lemma BriefTrace(l: Lock, held: seq<Lock>)
    ensures Trace(Brief(l), held) == [Taken(l, held)]
  {
  }

  // ----- One client -----

  /** A client's queue under the lock of a client list. */
  function Visit(server: nat, c: ClientId): Taken {
    Taken(Queue(c), [Clients(server)])
  }

  /** The end of a connection: the client's queue, and then the list, under which the client is
      deleted if it is found there. */
  function Departure(server: nat, c: ClientId, found: bool): seq<Taken> {
    [Taken(Queue(c), []), Taken(Clients(server), [])] + if found then [Visit(server, c)] else []
  }

  lemma DepartureIs(server: nat, c: ClientId, found: bool)
    ensures Trace(OnDisconnect(server, c, found), []) == Departure(server, c, found)
  {
    var deletion := if found then DeleteClient(c) else Done;
    QueueTrace(c, Done, HandleDisconnect(server, c, found));
    ListTrace(server, deletion);
    BriefTrace(Queue(c), [Clients(server)]);
    assert Trace(deletion, [Clients(server)]) == if found then [Visit(server, c)] else [];
  }

  // ----- Loops over the clients -----

  /** Each client's queue, so many times. */
  function Questions(server: nat, peers: seq<Peer>, questions: nat): seq<Taken> {
    if peers == [] then []
    else seq(questions, _ => Visit(server, peers[0].id)) + Questions(server, peers[1..], questions)
  }

  lemma {:induction false} AskTrace(server: nat, c: ClientId, questions: nat)
    ensures Trace(Ask(c, questions), [Clients(server)]) == seq(questions, _ => Visit(server, c))
  {
    var held := [Clients(server)];
    if questions > 0 {
      TraceThen(Status(c), Ask(c, questions - 1), held);
      BriefTrace(Queue(c), held);
      AskTrace(server, c, questions - 1);
    }
  }

  lemma {:induction false} AskEachTrace(server: nat, peers: seq<Peer>, questions: nat)
    ensures Trace(AskEach(peers, questions), [Clients(server)]) == Questions(server, peers, questions)
  {
    if peers != [] {
      TraceThen(Ask(peers[0].id, questions), AskEach(peers[1..], questions), [Clients(server)]);
      AskTrace(server, peers[0].id, questions);
      AskEachTrace(server, peers[1..], questions);
    }
  }

  /** Each client's queue for its status, and again if it is connected. */
  function Messages(server: nat, peers: seq<Peer>): seq<Taken> {
    if peers == [] then []
    else [Visit(server, peers[0].id)] + (if peers[0].connected then [Visit(server, peers[0].id)] else [])
         + Messages(server, peers[1..])
  }

  lemma {:induction false} EachConnectedTrace(server: nat, peers: seq<Peer>)
    ensures Trace(EachConnected(peers), [Clients(server)]) == Messages(server, peers)
  {
    var held := [Clients(server)];
    if peers != [] {
      var p, rest := peers[0], EachConnected(peers[1..]);
      TraceThen(Status(p.id), Then(QueueControlIf(p.id, p.connected), rest), held);
      TraceThen(QueueControlIf(p.id, p.connected), rest, held);
      BriefTrace(Queue(p.id), held);
      EachConnectedTrace(server, peers[1..]);
      var again := if p.connected then [Visit(server, p.id)] else [];
      assert [Visit(server, p.id)] + (again + Messages(server, peers[1..])) == Messages(server, peers);
    }
  }

  // ----- The methods -----

  function Asking(server: nat, peers: seq<Peer>, questions: nat): seq<Taken> {
    [Taken(Clients(server), [])] + Questions(server, peers, questions)
  }

  function Sending(server: nat, peers: seq<Peer>): seq<Taken> {
    [Taken(Clients(server), [])] + Messages(server, peers)
  }

  function Addressed(c: Option<ClientId>): seq<Taken> {
    if c.Some? then [Taken(Queue(c.value), [])] else []
  }

  /** What every method but `forEachClient` locks. */
  function Locks(m: Method): seq<Taken>
    requires !m.MForEachClient?
  {
    match m
    case MQueueMessage(c) => [Taken(Queue(c), [])]
    case MQueueControl(c) => [Taken(Queue(c), [])]
    case MStatus(c) => [Taken(Queue(c), [])]
    case MDelete(c) => [Taken(Queue(c), [])]
    case MOnAck(server, c, closes, found) =>
      [Taken(Queue(c), [])]
        + if closes then Departure(server, c, found) else [Taken(Buffers(server), [Queue(c)])]
    case MOnPoll(server, c, poll, found) =>
      [Taken(Queue(c), [])]
        + if poll.Lagging? then Departure(server, c, found)
          else if poll.Pings? then [Taken(Queue(c), [Queue(c)])] else []
    case MOnTimeout(server, c, hasClient, found) =>
      [Taken(Queue(c), [])] + if hasClient then Departure(server, c, found) else []
    case MOnDisconnect(server, c, found) => Departure(server, c, found)
    case MAddClient(server) => [Taken(Clients(server), [])]
    case MMakeBuffer(server) => [Taken(Buffers(server), [])]
    case MAsk(server, peers, questions) => Asking(server, peers, questions)
    case MControlAll(server, peers) => Sending(server, peers)
    case MMessageAll(server, peers) => Sending(server, peers) + [Taken(Buffers(server), [Clients(server)])]
    case MBufferAndMessageAll(server, peers) =>
      [Taken(Buffers(server), [])] + (Sending(server, peers) + [Taken(Buffers(server), [Clients(server)])])
    case MToOne(server, peers, to) => Asking(server, peers, 1) + Addressed(to)
    case MCleanup(server, peers, to) => Asking(server, peers, 1) + Addressed(to)
  }

  lemma ListTrace(server: nat, scope: Code)
    ensures Trace(Guard(Clients(server), scope, Done), [])
      == [Taken(Clients(server), [])] + Trace(scope, [Clients(server)])
  {
    assert [] + [Clients(server)] == [Clients(server)];
  }

  lemma QueueTrace(c: ClientId, scope: Code, next: Code)
    ensures Trace(Guard(Queue(c), scope, next), [])
      == [Taken(Queue(c), [])] + Trace(scope, [Queue(c)]) + Trace(next, [])
  {
    assert [] + [Queue(c)] == [Queue(c)];
  }

  lemma MessageAllTrace(server: nat, peers: seq<Peer>)
    ensures Trace(ControlAll(server, peers), []) == Sending(server, peers)
    ensures Trace(MessageAll(server, peers), [])
      == Sending(server, peers) + [Taken(Buffers(server), [Clients(server)])]
  {
    var held := [Clients(server)];
    ListTrace(server, EachConnected(peers));
    ListTrace(server, Then(EachConnected(peers), CleanBuffers(server)));
    TraceThen(EachConnected(peers), CleanBuffers(server), held);
    EachConnectedTrace(server, peers);
    BriefTrace(Buffers(server), held);
    var first, all, last := [Taken(Clients(server), [])], Messages(server, peers), [Taken(Buffers(server), held)];
    assert first + (all + last) == first + all + last;
  }

  lemma AskClientsTrace(server: nat, peers: seq<Peer>, questions: nat)
    ensures Trace(AskClients(server, peers, questions), []) == Asking(server, peers, questions)
  {
    ListTrace(server, AskEach(peers, questions));
    AskEachTrace(server, peers, questions);
  }

  lemma ClientTrace(m: Method)
    requires m.MOnAck? || m.MOnPoll? || m.MOnTimeout? || m.MOnDisconnect?
    ensures Trace(CodeOf(m), []) == Locks(m)
  {
    hide Departure;
    DepartureIs(m.server, m.c, m.found);
    QueueTrace(m.c, Done, CloseTcp(m.server, m.c, m.found));
    QueueTrace(m.c, CleanBuffers(m.server), Done);
    QueueTrace(m.c, QueueControl(m.c), Done);
    QueueTrace(m.c, Done, Done);
    BriefTrace(Buffers(m.server), [Queue(m.c)]);
    BriefTrace(Queue(m.c), [Queue(m.c)]);
  }

  /** The locks of every method, in order and with those held. */
  lemma LocksAre(m: Method)
    requires !m.MForEachClient?
    ensures Trace(CodeOf(m), []) == Locks(m)
  {
    hide Trace, Questions, Messages, Departure;
    match m {
      case MOnAck(_, _, _, _) => ClientTrace(m);
      case MOnPoll(_, _, _, _) => ClientTrace(m);
      case MOnTimeout(_, _, _, _) => ClientTrace(m);
      case MOnDisconnect(_, _, _) => ClientTrace(m);
      case MAsk(server, peers, questions) => AskClientsTrace(server, peers, questions);
      case MControlAll(server, peers) => MessageAllTrace(server, peers);
      case MMessageAll(server, peers) => MessageAllTrace(server, peers);
      case MBufferAndMessageAll(server, peers) =>
        TraceThen(MakeBuffer(server), MessageAll(server, peers), []);
        BriefTrace(Buffers(server), []);
        MessageAllTrace(server, peers);
      case MToOne(server, peers, to) => ToOneTrace(server, peers, to);
      case MCleanup(server, peers, to) => ToOneTrace(server, peers, to);
      case MAddClient(server) => BriefTrace(Clients(server), []);
      case MMakeBuffer(server) => BriefTrace(Buffers(server), []);
      case MQueueMessage(c) => BriefTrace(Queue(c), []);
      case MQueueControl(c) => BriefTrace(Queue(c), []);
      case MStatus(c) => BriefTrace(Queue(c), []);
      case MDelete(c) => BriefTrace(Queue(c), []);
    }
  }

  lemma ToOneTrace(server: nat, peers: seq<Peer>, to: Option<ClientId>)
    ensures Trace(ToOne(server, peers, to), []) == Asking(server, peers, 1) + Addressed(to)
    ensures Trace(CleanupClients(server, peers, to), []) == Asking(server, peers, 1) + Addressed(to)
  {
    hide Questions;
    TraceThen(AskClients(server, peers, 1), if to.Some? then QueueMessage(to.value) else Done, []);
    AskClientsTrace(server, peers, 1);
    if to.Some? { BriefTrace(Queue(to.value), []); }
  }

  /** `forEachClient` takes the locks of its calls while it holds its client list. */
  lemma HandlerTrace(m: Method)
    requires m.MForEachClient?
    ensures Trace(CodeOf(m), []) == [Taken(Clients(m.server), [])] + Called(m, 0)
  {
    ListTrace(m.server, CallsFrom(m, 0));
    CallsTrace(m, 0);
  }

  function Called(m: Method, k: nat): seq<Taken>
    requires m.MForEachClient? && k <= |m.calls|
    decreases |m.calls| - k
  {
    if k == |m.calls| then [] else Trace(CodeOf(m.calls[k]), [Clients(m.server)]) + Called(m, k + 1)
  }

  lemma {:induction false} CallsTrace(m: Method, k: nat)
    requires m.MForEachClient? && k <= |m.calls|
    ensures Trace(CallsFrom(m, k), [Clients(m.server)]) == Called(m, k)
    decreases |m.calls| - k
  {
    if k < |m.calls| {
      TraceThen(CodeOf(m.calls[k]), CallsFrom(m, k + 1), [Clients(m.server)]);
      CallsTrace(m, k + 1);
    }
  }
}
