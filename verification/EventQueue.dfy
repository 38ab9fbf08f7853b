/**
 The AsyncTCP event queue: producers on the lwIP thread and on application tasks, one
 service task that consumes, a counting semaphore of free slots, a queue lock, and the
 removal of all events of one client by rotating the queue under that lock.
 */
module EventQueue {
  import opened Wrappers

  const XQUEUE_SIZE: nat := 32

  datatype EventKind = Sent | Recv | Fin | Error | Poll | Clear | Accept | Connected | Dns

  /** A queued packet. `id` is its address, `arg` the client it belongs to (0 for none) and
      `pbuf` the packet buffer a receive event carries. */
  datatype Event = Event(id: nat, kind: EventKind, arg: nat, pbuf: Option<nat>)

  // ----- Removing the events of one client -----

  function Others(q: seq<Event>, owner: nat): (r: seq<Event>) {
    if q == [] then []
    else (if q[0].arg == owner then [] else [q[0]]) + Others(q[1..], owner)
  }

  function Owned(q: seq<Event>, owner: nat): (r: seq<Event>) {
    if q == [] then []
    else (if q[0].arg == owner then [q[0]] else []) + Owned(q[1..], owner)
  }

  lemma {:induction false} SplitConcat(a: seq<Event>, b: seq<Event>, owner: nat)
    ensures Others(a + b, owner) == Others(a, owner) + Others(b, owner)
    ensures Owned(a + b, owner) == Owned(a, owner) + Owned(b, owner)
  {
    if a == [] {
      assert a + b == b;
    } else {
      assert (a + b)[1..] == a[1..] + b;
      SplitConcat(a[1..], b, owner);
    }
  }

  /** The two halves of a queue together are the queue. */
  lemma {:induction false} SplitIsPartition(q: seq<Event>, owner: nat)
    ensures multiset(Others(q, owner)) + multiset(Owned(q, owner)) == multiset(q)
    ensures |Others(q, owner)| + |Owned(q, owner)| == |q|
  {
    if q != [] {
      assert q == [q[0]] + q[1..];
      SplitIsPartition(q[1..], owner);
    }
  }

  lemma OneMore(q: seq<Event>, i: nat, owner: nat)
    requires i < |q|
    ensures Others(q[..i + 1], owner) == Others(q[..i], owner) + if q[i].arg == owner then [] else [q[i]]
    ensures Owned(q[..i + 1], owner) == Owned(q[..i], owner) + if q[i].arg == owner then [q[i]] else []
    ensures |Others(q[..i], owner)| <= i
  {
    assert q[..i + 1] == q[..i] + [q[i]];
    SplitConcat(q[..i], [q[i]], owner);
    SplitIsPartition(q[..i], owner);
  }

  /** One turn of the rotation: the first event leaves, and `back` (itself or nothing) returns. */
  lemma OneTurn(q: seq<Event>, i: nat, kept: seq<Event>, back: seq<Event>)
    requires i < |q|
    ensures (q[i..] + kept)[0] == q[i]
    ensures (q[i..] + kept)[1..] + back == q[i + 1..] + (kept + back)
  {
  }

  /** Kept events are the ones of other clients, and their relative order is unchanged. */
  lemma OthersKeepOrder(q: seq<Event>, owner: nat) returns (at: seq<nat>)
    ensures |at| == |Others(q, owner)|
    ensures forall i :: 0 <= i < |at| ==> at[i] < |q| && q[at[i]] == Others(q, owner)[i] && q[at[i]].arg != owner
    ensures forall i, j :: 0 <= i < j < |at| ==> at[i] < at[j]
    ensures forall k :: 0 <= k < |q| && q[k].arg != owner ==> k in at
  {
    at := OthersKeepOrderFrom(q, owner, 0);
    assert q[0..] == q;
  }

  lemma {:induction false} OthersKeepOrderFrom(q: seq<Event>, owner: nat, from: nat) returns (at: seq<nat>)
    requires from <= |q|
    ensures |at| == |Others(q[from..], owner)|
    ensures forall i :: 0 <= i < |at| ==>
      from <= at[i] < |q| && q[at[i]] == Others(q[from..], owner)[i] && q[at[i]].arg != owner
    ensures forall i, j :: 0 <= i < j < |at| ==> at[i] < at[j]
    ensures forall k :: from <= k < |q| && q[k].arg != owner ==> k in at
    decreases |q| - from
  {
    if from == |q| {
      at := [];
    } else {
      var rest := OthersKeepOrderFrom(q, owner, from + 1);
      assert q[from..][1..] == q[from + 1..];
      at := if q[from].arg == owner then rest else [from] + rest;
    }
  }

  /** The FreeRTOS queue, seen the way the rotation sees it, and what has been freed. */
  class AsyncEventQueueView {
    var items: seq<Event>
    var freed: seq<Event>

    constructor (items: seq<Event>)
      ensures this.items == items && freed == []
    {
      this.items, freed := items, [];
    }

    method Count() returns (n: nat)
      ensures n == |items|
    {
      n := |items|;
    }

    method Pop() returns (e: Option<Event>)
      modifies this`items
      ensures if old(items) == [] then e == None && items == []
              else e == Some(old(items)[0]) && items == old(items)[1..]
    {
      if items == [] { return None; }
      e, items := Some(items[0]), items[1..];
    }

    /** The queue must not be full: `configASSERT(sent == pdPASS)`. */
    method Push(e: Event)
      requires |items| < XQUEUE_SIZE
      modifies this`items
      ensures items == old(items) + [e]
    {
      items := items + [e];
    }

    method Release(e: Event)
      modifies this`freed
      ensures freed == old(freed) + [e]
    {
      freed := freed + [e];
    }
  }

  method RemoveQueuedEvents(queue: AsyncEventQueueView, owner: nat) returns (removed: nat)
    requires |queue.items| <= XQUEUE_SIZE
    modifies queue
    ensures queue.items == Others(old(queue.items), owner)
    ensures queue.freed == old(queue.freed) + Owned(old(queue.items), owner)
    ensures removed == |Owned(old(queue.items), owner)|
  {
    var queued := queue.Count();
    ghost var start := queue.items;
    removed := 0;
    for i := 0 to queued
      invariant queued == |start|
      invariant queue.items == start[i..] + Others(start[..i], owner)
      invariant queue.freed == old(queue.freed) + Owned(start[..i], owner)
      invariant removed == |Owned(start[..i], owner)|
    {
      OneMore(start, i, owner);
      OneTurn(start, i, Others(start[..i], owner), if start[i].arg == owner then [] else [start[i]]);
      var event := queue.Pop();
      if event.None? { break; }
      if event.value.arg == owner {
        queue.Release(event.value);
        removed := removed + 1;
      } else {
        queue.Push(event.value);
      }
    }
    assert start[..|start|] == start;
  }
}
