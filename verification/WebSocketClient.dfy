/** The sending client as it runs, with its accounts. */
module WebSocketClient {
  import opened Bytes
  import opened WebSocketFrame
  import opened WebSocketSender
  import opened WebSocketState
  import opened WebSocketSteps

  lemma QueueKeepsAccounts(s: Sender, space: nat, key: seq<byte>)
    requires space < 0x1_0000 && |key| == 4
    ensures forall acked: nat :: Inv(State(s, acked)) ==> Inv(State(RunQueue(s, space, key), acked))
  {
    hide Inv, RunQueue;
    forall acked: nat | Inv(State(s, acked)) ensures Inv(State(RunQueue(s, space, key), acked)) {
      RunQueueKeeps(s, space, key, acked);
    }
  }

  lemma AckKeepsAccounts(s: Sender, len: nat, space: nat, key: seq<byte>)
    requires space < 0x1_0000 && |key| == 4
    ensures forall acked: nat ::
      Inv(State(s, acked)) && Enabled(State(s, acked), Ack(len)) ==> Inv(State(OnAck(s, len, space, key), acked + len))
  {
    hide Inv, Enabled, OnAck;
    forall acked: nat | Inv(State(s, acked)) && Enabled(State(s, acked), Ack(len))
      ensures Inv(State(OnAck(s, len, space, key), acked + len))
    {
      AckKeeps(State(s, acked), len, space, key);
    }
  }

  /** The sending fields of AsyncWebSocketClient; every call names the TCP room it finds. */
  class AsyncWebSocketClient {
    var status: Status
    var lagging: bool
    var hasClient: bool
    var controls: seq<Control>
    var messages: seq<Message>
    var wire: seq<Frame>
    var retired: seq<Message>
    var answered: seq<Control>

    function View(): Sender
      reads this
    {
      Sender(status, lagging, hasClient, controls, messages, wire, retired, answered)
    }

    constructor ()
      ensures View() == FRESH
    {
      status, lagging, hasClient := Connected, false, true;
      controls, messages, wire, retired, answered := [], [], [], [], [];
    }

    method RunQueueLocked(space: nat, key: seq<byte>)
      modifies this
      ensures View() == RunQueue(old(View()), space, key)
      ensures space < 0x1_0000 && |key| == 4 ==> forall acked: nat :: Inv(State(old(View()), acked)) ==>
        Inv(State(View(), acked))
    {
      hide Inv;
      if space < 0x1_0000 && |key| == 4 { QueueKeepsAccounts(View(), space, key); }
      if !hasClient { return; }
      while messages != [] && messages[0].status != Sending
        invariant hasClient && Retire(View()) == Retire(old(View()))
        decreases |messages|
      {
        retired := retired + [messages[0]];
        messages := messages[1..];
      }
      var window, between := Window(space), messages == [] || BetweenFrames(messages[0]);
      if controls != [] && between && window > ControlLength(controls[0]) - 1 {
        if !controls[0].finished {
          wire := wire + [ControlFrame(controls[0])];
          controls := [controls[0].(finished := true)] + controls[1..];
        }
      } else if messages != [] && between && window > 0 {
        var m := messages[0];
        var n := SendMessage(m, window, key);
        wire := wire + if |n.frames| > |m.frames| then [n.frames[|m.frames|]] else [];
        messages := [n] + messages[1..];
      }
    }

    method EnqueueMessage(m: Message, space: nat, key: seq<byte>)
      modifies this
      ensures View() == QueueMessage(old(View()), m, space, key)
    {
      if status != Connected { return; }
      if lagging || |messages| >= HIGH_WATER {
        lagging := true;
        return;
      }
      messages := messages + [m];
      if hasClient && space > 0 { RunQueueLocked(space, key); }
    }

    method EnqueueControl(c: Control, space: nat, key: seq<byte>)
      modifies this
      ensures View() == QueueControl(old(View()), c, space, key)
    {
      if !hasClient { return; }
      controls := controls + [c];
      if space > 0 { RunQueueLocked(space, key); }
    }

    /** Closing the TCP client runs the disconnect callback. */
    method CloseClient()
      modifies this
      ensures View() == Disconnect(old(View()))
    {
      hasClient, status := false, Disconnected;
    }

    method HandleAck(len: nat, space: nat, key: seq<byte>)
      modifies this
      ensures View() == OnAck(old(View()), len, space, key)
      ensures space < 0x1_0000 && |key| == 4 ==> forall acked: nat ::
        Inv(State(old(View()), acked)) && Enabled(State(old(View()), acked), Ack(len)) ==>
          Inv(State(View(), acked + len))
    {
      hide Inv, Enabled;
      if space < 0x1_0000 && |key| == 4 { AckKeepsAccounts(View(), len, space, key); }
      var rest, closes := len, false;
      if controls != [] && controls[0].finished {
        var head := controls[0];
        rest := (rest - ControlLength(head)) % SIZE_LIMIT;
        controls, answered := controls[1..], answered + [head];
        if status == Disconnecting && head.opcode == WS_DISCONNECT {
          status := Disconnected;
          closes := true;
        }
      }
      if closes {
        CloseClient();
        return;
      }
      if rest > 0 && messages != [] {
        messages := [AckMessage(messages[0], rest)] + messages[1..];
      }
      RunQueueLocked(space, key);
    }

    method HandlePoll(pingDue: bool, space: nat, key: seq<byte>)
      modifies this
      ensures View() == OnPoll(old(View()), pingDue, space, key)
    {
      if !hasClient { return; }
      if lagging {
        CloseClient();
      } else if space > 0 && (controls != [] || messages != []) {
        RunQueueLocked(space, key);
      } else if pingDue && controls == [] && messages == [] {
        if status == Connected {
          EnqueueControl(NewControl(WS_PING, PING_PAYLOAD), space, key);
        }
      }
    }
  }
}
