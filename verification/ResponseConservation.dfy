/** No byte of a response is lost, doubled or reordered on its way to TCP. */
module ResponseConservation {
  import opened Responses

  // ----- Basic responses -----

  /** What is on the wire and what is still to be written make up the whole response. */
  ghost predicate Conserves(r: Basic, whole: string) {
    match r.state
    case Headers => false
    case Content => r.wire + r.content == whole && r.contentLength == r.sentLength + |r.content|
    case _ => r.wire == whole
  }

  lemma RespondConserves(head: string, body: string, space: nat)
    ensures Conserves(Respond(NewBasic(body), head, space), head + body)
  {
    var r := Respond(NewBasic(body), head, space);
    if 0 < space < |head| {
      assert head[..space] + (head[space..] + body) == head + body;
    } else if |head| < space < |head| + |body| {
      var shift := space - |head|;
      assert (head + body[..shift]) + body[shift..] == head + body;
    }
  }

  lemma AckConserves(r: Basic, whole: string, len: nat, space: nat)
    requires Conserves(r, whole)
    ensures Conserves(AckBasic(r, len, space), whole)
  {
    if r.state == Content {
      assert r.content[..|r.content|] == r.content;
      if space <= |r.content| {
        assert (r.wire + r.content[..space]) + r.content[space..] == r.wire + r.content;
      }
    }
  }

  /** One acknowledgement or poll, with the TCP room at that moment. */
  datatype Turn = Turn(len: nat, space: nat)

  ghost function RunBasic(r: Basic, turns: seq<Turn>): Basic
    decreases |turns|
  {
    if turns == [] then r else RunBasic(AckBasic(r, turns[0].len, turns[0].space), turns[1..])
  }

  lemma {:induction false} RunBasicConserves(r: Basic, whole: string, turns: seq<Turn>)
    requires Conserves(r, whole)
    ensures Conserves(RunBasic(r, turns), whole)
    decreases |turns|
  {
    if turns != [] {
      AckConserves(r, whole, turns[0].len, turns[0].space);
      RunBasicConserves(AckBasic(r, turns[0].len, turns[0].space), whole, turns[1..]);
    }
  }

  /** The bytes that were acknowledged when a response ended. */
  lemma {:induction false} EndIsAcknowledged(r: Basic, turns: seq<Turn>)
    requires r.state == End ==> r.acked >= |r.wire|
    ensures var n := RunBasic(r, turns); n.state == End ==> n.acked >= |n.wire|
    decreases |turns|
  {
    if turns != [] { EndIsAcknowledged(AckBasic(r, turns[0].len, turns[0].space), turns[1..]); }
  }

  /** Whatever room TCP has and however it acknowledges: the bytes written, followed by those
      still pending, are always the head and then the body, and the response ends only when
      all of it was written and acknowledged. */
  lemma BasicResponseIsConserved(head: string, body: string, space: nat, turns: seq<Turn>)
    ensures var r := RunBasic(Respond(NewBasic(body), head, space), turns);
      && r.wire + (if r.state == Content then r.content else "") == head + body
      && (r.state == End ==> r.wire == head + body && r.acked >= |head + body|)
  {
    RespondConserves(head, body, space);
    RunBasicConserves(Respond(NewBasic(body), head, space), head + body, turns);
    EndIsAcknowledged(Respond(NewBasic(body), head, space), turns);
  }

  /** And it does end: with room for more than what is left, two further turns are enough once
      everything is acknowledged. */
  lemma BasicResponseEnds(r: Basic, whole: string, len: nat, space: nat)
    requires Conserves(r, whole) && r.state != End && space > |r.content| && r.acked + len >= |whole|
    ensures AckBasic(AckBasic(r, len, space), 0, space).state == End || AckBasic(r, len, space).state == End
  {
    AckConserves(r, whole, len, space);
  }

  // ----- Responses with a source -----

  /** The part of the body that the source still holds. */
  function Unsent(r: Abstract): string {
    if r.sentLength <= |r.body| then r.body[r.sentLength..] else ""
  }

  ghost predicate Whole(r: Abstract, whole: string) {
    && r.sentLength <= |r.body|
    && r.wire + r.head + Unsent(r) == whole
    && (r.state == WaitAck || r.state == End ==> r.head == "" && r.sentLength == |r.body|)
  }

  /** The call that writes more than TCP has room for: the head is still pending although the
      state has moved on, so its length is not taken off the room. */
  predicate Overruns(r: Abstract, space: nat, fill: Fill) {
    r.state == Content && fill.Bytes? && |r.head| + Read(r, space, fill) > space
  }

  /** A call keeps every byte exactly if it does not overrun the room. */
  lemma AckKeepsWhole(r: Abstract, whole: string, len: nat, space: nat, fill: Fill)
    requires Whole(r, whole)
    ensures Whole(AckAbstract(r, len, space, fill), whole) <==> !Overruns(r, space, fill)
  {
    hide Written;
    if r.state == Headers && space < |r.head| {
      HeadKeepsWhole(r, whole, len, space, fill);
    } else if (r.state == Headers || r.state == Content) && fill.Bytes? {
      WriteKeepsWhole(r, whole, len, space, fill);
    }
  }

  lemma HeadKeepsWhole(r: Abstract, whole: string, len: nat, space: nat, fill: Fill)
    requires Whole(r, whole) && r.state == Headers && space < |r.head|
    ensures Whole(AckAbstract(r, len, space, fill), whole)
  {
    var out, rest := r.head[..space], r.head[space..];
    assert out + rest == r.head && out[..|out|] == out;
    assert r.wire + out + rest + r.body[r.sentLength..] == whole;
  }

  lemma WriteKeepsWhole(r: Abstract, whole: string, len: nat, space: nat, fill: Fill)
    requires Whole(r, whole) && fill.Bytes? && (r.state == Content || (r.state == Headers && space >= |r.head|))
    ensures Whole(AckAbstract(r, len, space, fill), whole) <==> !Overruns(r, space, fill)
  {
    hide Written;
    var k := Read(r, space, fill);
    var chunk, rest := r.body[r.sentLength..r.sentLength + k], r.body[r.sentLength + k..];
    assert r.body[r.sentLength..] == chunk + rest;
    WrittenKeeps(r.wire, r.head, chunk, rest, space);
    var n := AckAbstract(r, len, space, fill);
    assert n.wire == Written(r.wire, r.head + chunk, space) && n.head == "" && n.body[n.sentLength..] == rest;
    assert n.wire + n.head == n.wire;
  }

  /** Nothing is lost on the way to TCP exactly if there is room. */
  lemma WrittenKeeps(wire: string, head: string, chunk: string, rest: string, space: nat)
    ensures Written(wire, head + chunk, space) + rest == wire + head + (chunk + rest) <==> |head + chunk| <= space
  {
    var out := head + chunk;
    assert wire + head + (chunk + rest) == wire + out + rest;
    if |out| <= space {
      assert out[..|out|] == out;
    } else {
      assert |Written(wire, out, space) + rest| < |wire + out + rest|;
    }
  }

  /** One call, with the room and what the source answers if it is asked. */
  datatype Call = Call(len: nat, space: nat, fill: Fill)

  ghost function RunAbstract(r: Abstract, calls: seq<Call>): Abstract
    decreases |calls|
  {
    if calls == [] then r else RunAbstract(AckAbstract(r, calls[0].len, calls[0].space, calls[0].fill), calls[1..])
  }

  ghost predicate Steady(r: Abstract) {
    (r.state == Content ==> r.head == "") && (r.state == End ==> r.acked >= |r.wire|)
  }

  lemma {:induction false} RunKeepsWhole(r: Abstract, whole: string, calls: seq<Call>)
    requires Whole(r, whole) && Steady(r)
    requires forall i :: 0 <= i < |calls| ==> calls[i].fill.Bytes?
    ensures Whole(RunAbstract(r, calls), whole) && Steady(RunAbstract(r, calls))
    decreases |calls|
  {
    if calls != [] {
      AckKeepsWhole(r, whole, calls[0].len, calls[0].space, calls[0].fill);
      RunKeepsWhole(AckAbstract(r, calls[0].len, calls[0].space, calls[0].fill), whole, calls[1..]);
    }
  }

  // ----- Runs that lose bytes -----

  ghost predicate AnyOverruns(r: Abstract, calls: seq<Call>)
    decreases |calls|
  {
    calls != [] && (
      Overruns(r, calls[0].space, calls[0].fill)
      || AnyOverruns(AckAbstract(r, calls[0].len, calls[0].space, calls[0].fill), calls[1..]))
  }

  /** The bytes written and pending. */
  function Size(r: Abstract): nat {
    |r.wire| + |r.head| + |Unsent(r)|
  }

  ghost predicate WellFormed(r: Abstract) {
    r.sentLength <= |r.body| && (r.state == WaitAck || r.state == End ==> r.head == "" && r.sentLength == |r.body|)
  }

  lemma SizeShrinks(r: Abstract, len: nat, space: nat, fill: Fill)
    requires WellFormed(r)
    ensures var n := AckAbstract(r, len, space, fill);
      WellFormed(n) && Size(n) <= Size(r) && (Overruns(r, space, fill) ==> Size(n) < Size(r))
  {
  }

  lemma {:induction false} LostBytesStayLost(r: Abstract, calls: seq<Call>)
    requires WellFormed(r)
    ensures Size(RunAbstract(r, calls)) <= Size(r)
    decreases |calls|
  {
    hide AckAbstract, Size, WellFormed;
    if calls != [] {
      SizeShrinks(r, calls[0].len, calls[0].space, calls[0].fill);
      LostBytesStayLost(AckAbstract(r, calls[0].len, calls[0].space, calls[0].fill), calls[1..]);
    }
  }

  lemma WholeSize(r: Abstract, whole: string)
    requires Whole(r, whole)
    ensures WellFormed(r) && Size(r) == |whole|
  {
  }

  lemma {:induction false} RunKeepsWholeIff(r: Abstract, whole: string, calls: seq<Call>)
    requires Whole(r, whole)
    ensures Whole(RunAbstract(r, calls), whole) <==> !AnyOverruns(r, calls)
    decreases |calls|
  {
    hide AckAbstract, Size, WellFormed, Whole, Overruns;
    if calls != [] {
      var call, n := calls[0], AckAbstract(r, calls[0].len, calls[0].space, calls[0].fill);
      AckKeepsWhole(r, whole, call.len, call.space, call.fill);
      if Overruns(r, call.space, call.fill) {
        WholeSize(r, whole);
        SizeShrinks(r, call.len, call.space, call.fill);
        LostBytesStayLost(n, calls[1..]);
        if Whole(RunAbstract(n, calls[1..]), whole) { WholeSize(RunAbstract(n, calls[1..]), whole); }
      } else {
        RunKeepsWholeIff(n, whole, calls[1..]);
      }
    }
  }

  /** Whatever the source answers: a run keeps every byte exactly if none of its calls overruns
      the room that TCP has. */
  lemma ResponseIsConservedIff(head: string, body: string, calls: seq<Call>)
    ensures Whole(RunAbstract(NewAbstract(head, body), calls), head + body)
      <==> !AnyOverruns(NewAbstract(head, body), calls)
  {
    hide RunAbstract, AnyOverruns;
    var start := NewAbstract(head, body);
    assert start.body[0..] == body && "" + head == head;
    RunKeepsWholeIff(start, head + body, calls);
  }

  /** With a source that always answers, the same holds of a response with a content length,
      however the source cuts its body. */
  lemma AbstractResponseIsConserved(head: string, body: string, calls: seq<Call>)
    requires forall i :: 0 <= i < |calls| ==> calls[i].fill.Bytes?
    ensures var r := RunAbstract(NewAbstract(head, body), calls);
      && r.wire + r.head + Unsent(r) == head + body
      && (r.state == End ==> r.wire == head + body && r.acked >= |head + body|)
  {
    hide RunAbstract;
    var start := NewAbstract(head, body);
    assert start.body[0..] == body && "" + head == head;
    RunKeepsWhole(start, head + body, calls);
  }

  /** A source that asks to be tried again while the head is pending can lose bytes: the next
      call writes head and body, and TCP takes only what it has room for. */
  lemma TryAgainLosesBytes(head: string, body: string, space: nat)
    requires |body| > 0 && 0 < |head| <= space < |head| + |body|
    ensures var r := RunAbstract(NewAbstract(head, body), [Call(0, space, TryAgain), Call(0, space, Bytes(|body|))]);
      |r.wire + r.head + Unsent(r)| < |head + body|
  {
    var r0 := NewAbstract(head, body);
    var r1 := AckAbstract(r0, 0, space, TryAgain);
    var calls := [Call(0, space, TryAgain), Call(0, space, Bytes(|body|))];
    assert calls[1..] == [Call(0, space, Bytes(|body|))];
    var r2 := AckAbstract(r1, 0, space, Bytes(|body|));
    assert RunAbstract(r1, [Call(0, space, Bytes(|body|))]) == r2 by {
      assert [Call(0, space, Bytes(|body|))][1..] == [];
    }
  }
}
