/** Responses use the room that TCP has, and reach their end in a bounded number of calls. */
module ResponseProgress {
  import opened Numbers
  import opened Responses
  import opened ResponseConservation

  predicate IsWriting(state: ResponseState) {
    state == Headers || state == Content
  }

  // ----- Basic responses -----

  /** The first call writes all it has room for, unless the room is the length of the head and
      a body follows: then it writes nothing. */
  lemma FirstCallFillsRoom(head: string, body: string, space: nat)
    ensures var r := Respond(NewBasic(body), head, space);
      && |r.wire| == (if space == |head| && body != "" then 0 else Min(space, |head + body|))
      && (r.state == WaitAck <==> space >= |head + body|)
      && (r.state == Content <==> space < |head + body|)
  {
  }

  /** Every further call writes all it has room for. */
  lemma NextCallFillsRoom(r: Basic, whole: string, len: nat, space: nat)
    requires Conserves(r, whole) && r.state == Content
    ensures var n := AckBasic(r, len, space);
      && n.wire == r.wire + r.content[..Min(space, |r.content|)]
      && (n.state == WaitAck <==> space > |r.content|)
      && (n.state == Content <==> space <= |r.content|)
  {
  }

  lemma {:induction false} BasicIsWrittenOut(r: Basic, whole: string, turns: seq<Turn>)
    requires Conserves(r, whole) && forall i :: 0 <= i < |turns| ==> turns[i].space > 0
    requires r.state == Content ==> |turns| > |r.content|
    ensures RunBasic(r, turns).state != Content
    decreases |turns|
  {
    if turns != [] {
      var n := AckBasic(r, turns[0].len, turns[0].space);
      AckConserves(r, whole, turns[0].len, turns[0].space);
      if r.state == Content { NextCallFillsRoom(r, whole, turns[0].len, turns[0].space); }
      BasicIsWrittenOut(n, whole, turns[1..]);
    }
  }

  /** With some room in every call, a basic response has written head and body after as many
      calls as these have bytes, and ends with the call that acknowledges the last of them. */
  lemma BasicResponseGetsThrough(head: string, body: string, space: nat, turns: seq<Turn>, last: Turn)
    requires forall i :: 0 <= i < |turns| ==> turns[i].space > 0
    requires |turns| > |head + body|
    ensures var r := RunBasic(Respond(NewBasic(body), head, space), turns);
      && r.wire == head + body
      && (r.acked + last.len >= |head + body| ==> AckBasic(r, last.len, last.space).state == End)
  {
    hide RunBasic;
    var start := Respond(NewBasic(body), head, space);
    RespondConserves(head, body, space);
    RunBasicConserves(start, head + body, turns);
    BasicIsWrittenOut(start, head + body, turns);
  }

  // ----- Responses with a source -----

  /** A call whose source has enough writes all it has room for: what is left of the head,
      then the body from where it stopped. */
  lemma CallFillsRoom(r: Abstract, whole: string, len: nat, space: nat, given: nat)
    requires Whole(r, whole) && IsWriting(r.state) && (r.state == Content ==> r.head == "") && given >= space
    ensures var n := AckAbstract(r, len, space, Bytes(given));
      && n.wire == r.wire + (r.head + Unsent(r))[..Min(space, |r.head + Unsent(r)|)]
      && (IsWriting(n.state) <==> space < |r.head + Unsent(r)|)
  {
    var rest := Unsent(r);
    if r.state == Headers && space < |r.head| {
      assert (r.head + rest)[..space] == r.head[..space];
    } else {
      BodyFillsRoom(r, len, space, given);
    }
  }

  lemma BodyFillsRoom(r: Abstract, len: nat, space: nat, given: nat)
    requires r.sentLength <= |r.body| && given >= space >= |r.head|
    requires r.state == Headers || (r.state == Content && r.head == "")
    ensures var n, rest := AckAbstract(r, len, space, Bytes(given)), r.head + Unsent(r);
      && n.wire == r.wire + rest[..Min(space, |rest|)] && (IsWriting(n.state) <==> space < |rest|)
  {
    var k, left := Read(r, space, Bytes(given)), Unsent(r);
    var chunk := left[..k];
    assert r.body[r.sentLength..r.sentLength + k] == chunk;
    assert (r.head + left)[..|r.head| + k] == r.head + chunk;
    assert (r.head + chunk)[..|r.head + chunk|] == r.head + chunk;
  }

  /** A source that asks to be tried again costs one call: nothing is written, nothing is lost. */
  lemma TryAgainWritesNothing(r: Abstract, len: nat, space: nat)
    requires r.state == Content
    ensures AckAbstract(r, len, space, TryAgain) == r.(acked := r.acked + len)
  {
  }

  /** The call has room, and the source something to give. */
  predicate Productive(c: Call) {
    c.space > 0 && c.fill.Bytes? && c.fill.n > 0
  }

  lemma WorkGoesDown(r: Abstract, whole: string, c: Call)
    requires Whole(r, whole) && IsWriting(r.state) && (r.state == Content ==> r.head == "") && Productive(c)
    ensures var n := AckAbstract(r, c.len, c.space, c.fill);
      IsWriting(n.state) ==> |n.head| + |Unsent(n)| < |r.head| + |Unsent(r)|
  {
  }

  lemma {:induction false} AbstractIsWrittenOut(r: Abstract, whole: string, calls: seq<Call>)
    requires Whole(r, whole) && Steady(r) && forall i :: 0 <= i < |calls| ==> Productive(calls[i])
    requires IsWriting(r.state) ==> |calls| > |r.head| + |Unsent(r)|
    ensures !IsWriting(RunAbstract(r, calls).state)
    decreases |calls|
  {
    hide Whole;
    if calls != [] {
      var c, n := calls[0], AckAbstract(r, calls[0].len, calls[0].space, calls[0].fill);
      AckKeepsWhole(r, whole, c.len, c.space, c.fill);
      if IsWriting(r.state) { WorkGoesDown(r, whole, c); }
      AbstractIsWrittenOut(n, whole, calls[1..]);
    }
  }

  /** With some room and some bytes from the source in every call, a response has written head
      and body after as many calls as these have bytes, and ends with the call that
      acknowledges the last of them. */
  lemma AbstractResponseGetsThrough(head: string, body: string, calls: seq<Call>, last: Call)
    requires |calls| > |head + body| && forall i :: 0 <= i < |calls| ==> Productive(calls[i])
    ensures var r := RunAbstract(NewAbstract(head, body), calls);
      && r.wire == head + body
      && (r.acked + last.len >= |head + body| ==> AckAbstract(r, last.len, last.space, last.fill).state == End)
  {
    hide RunAbstract;
    var start := NewAbstract(head, body);
    assert start.body[0..] == body && "" + head == head;
    RunKeepsWhole(start, head + body, calls);
    AbstractIsWrittenOut(start, head + body, calls);
  }
}
