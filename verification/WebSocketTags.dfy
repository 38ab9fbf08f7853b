/**
 What the events of a data frame say of its message: the opcode of the message and the number of
 the frame in it. The receiver updates them only when it reports a part of a frame that is not
 the whole of it, so they depend on how TCP cuts the stream.
 */
module WebSocketTags {
  import opened Numbers
  import opened Buffers
  import opened Bytes
  import opened WebSocketFrame
  import opened WebSocketReceiver
  import opened WebSocketRoundTrip

  datatype Tag = Tag(opcode: nat, num: nat)

  function TagOf(r: Receiver): Tag {
    Tag(r.messageOpcode, r.num)
  }

  /** The tag of a frame after one with tag `before`: a frame with an opcode begins a message. */
  function NextTag(before: Tag, opcode: nat): Tag {
    if opcode != WS_CONTINUATION then Tag(opcode, 0) else Tag(before.opcode, before.num + 1)
  }

  // ----- Whether the tags are right -----

  /** The tag of the last frame, and whether that frame is still incomplete. */
  datatype Check = Wrong | Right(tag: Tag, incomplete: bool)

  /** Counts the frames by what the events say of their lengths and opcodes, and compares. */
  function Checked(before: Tag, events: seq<Event>): Check {
    if events == [] then Right(before, false)
    else CheckOne(Checked(before, events[..|events| - 1]), events[|events| - 1])
  }

  function CheckOne(c: Check, e: Event): Check {
    if c.Wrong? || !e.Data? then c else
      var tag := if c.incomplete then c.tag else NextTag(c.tag, e.info.opcode);
      if Tag(e.messageOpcode, e.num) == tag then Right(tag, e.index + |e.chunk| < e.info.len) else Wrong
  }

  lemma CheckedSnoc(before: Tag, events: seq<Event>, e: Event)
    ensures Checked(before, events + [e]) == CheckOne(Checked(before, events), e)
  {
    assert (events + [e])[..|events|] == events;
  }

  // ----- How TCP cuts the stream -----

  /** The positions in the stream where a buffer begins or ends. */
  function Cuts(buffers: seq<seq<byte>>): set<nat> {
    Ends(buffers, 0)
  }

  /** Where buffers begin and end, the first one beginning at `x`. */
  function Ends(buffers: seq<seq<byte>>, x: nat): set<nat> {
    if buffers == [] then {x} else {x} + Ends(buffers[1..], x + |buffers[0]|)
  }

  function Inside(cuts: set<nat>, from: nat, len: nat): set<nat> {
    set c | c in cuts && from <= c < from + len
  }

  /** A data frame whose payload begins at `from` and is cut at `cuts`: the first frame of a
      message must be cut, or its tag happen to be left over; a continuation must be cut, and not
      just behind its header and once more. */
  predicate CutWell(f: Frame, cuts: set<nat>, from: nat, before: Tag) {
    if f.opcode != WS_CONTINUATION then cuts != {} || before == Tag(f.opcode, 0)
    else cuts != {} && (from in cuts ==> cuts == {from})
  }

  /** All data frames of a stream that begins at `at`. */
  predicate AllCutWell(fs: seq<StreamFrame>, cuts: set<nat>, at: nat, before: Tag) {
    fs == [] ||
    var f, from, end := fs[0], at + |PeerHeader(fs[0])|, at + |PeerEncoded(fs[0])|;
    if IsControl(f) then AllCutWell(fs[1..], cuts, end, before) else
      CutWell(f, Inside(cuts, from, |f.payload|), from, before) &&
      AllCutWell(fs[1..], cuts, end, NextTag(before, f.opcode))
  }

  // ----- Where the receiver stands -----

  /** What the cuts from `x` on must meet, when the stream has been read up to there. */
  ghost predicate RestCutWell(p: Position, cuts: set<nat>, x: nat, tag: Tag)
    requires ValidPosition(p)
  {
    if p.inFrame then
      && (p.rest[0].opcode == WS_CONTINUATION && p.at == 0 ==> Uncut(cuts, x, x + |p.rest[0].payload|))
      && AllCutWell(p.rest[1..], cuts, x + |p.rest[0].payload| - p.at, tag)
    else AllCutWell(p.rest, cuts, x, tag)
  }

  ghost predicate Uncut(cuts: set<nat>, x: nat, end: nat) {
    forall c :: c in cuts ==> !(x < c < end)
  }

  /** The tags so far are wrong and that is foreseen, or they are right and the rest decides. */
  ghost predicate Follows(before: Tag, r: Receiver, p: Position, cuts: set<nat>, x: nat, right: bool)
    requires ValidPosition(p)
  {
    match Checked(before, r.events)
    case Wrong => !right
    case Right(tag, incomplete) =>
      && incomplete == p.inFrame && TagOf(r) == tag
      && (p.inFrame && p.rest[0].opcode != WS_CONTINUATION ==> tag == Tag(p.rest[0].opcode, 0))
      && (right <==> RestCutWell(p, cuts, x, tag))
  }

  // ----- One pass -----

  lemma EncodedLength(f: StreamFrame)
    ensures |PeerEncoded(f)| == |PeerHeader(f)| + |f.payload| && |PeerHeader(f)| > 0
  {
  }

  lemma CutBehindHeader(cuts: set<nat>, from: nat, len: nat)
    requires from in cuts && len > 0
    ensures Uncut(cuts, from, from + len) <==> Inside(cuts, from, len) == {from}
  {
    var inside := Inside(cuts, from, len);
    assert from in inside;
    if inside == {from} {
      assert forall c :: c in cuts && from < c < from + len ==> c in inside;
    }
  }

  /** The first part of a frame that is cut. */
  lemma FirstPart(before: Tag, r: Receiver, rest: seq<StreamFrame>, cuts: set<nat>, at: nat, chunk: seq<byte>,
                  right: bool)
    requires rest != [] && !IsControl(rest[0]) && |chunk| < |rest[0].payload|
    requires r.info == InfoOf(rest[0]) && r.index == 0 && Follows(before, r, Position(rest, false, 0), cuts, at, right)
    requires var x := at + |PeerHeader(rest[0])| + |chunk|; x in cuts && Uncut(cuts, at, x)
    ensures Follows(before, Partial(r, chunk), Position(rest, true, |chunk|), cuts,
                    at + |PeerHeader(rest[0])| + |chunk|, right)
  {
    hide PeerHeader, PeerEncoded;
    EncodedLength(rest[0]);
    var f, from, n := rest[0], at + |PeerHeader(rest[0])|, Partial(r, chunk);
    var inside := Inside(cuts, from, |f.payload|);
    assert from + |chunk| in inside;
    CheckedSnoc(before, r.events, n.events[|r.events|]);
    if |chunk| == 0 {
      CutBehindHeader(cuts, from, |f.payload|);
    } else {
      assert from !in cuts;
    }
  }

  /** A frame that no buffer end cuts. */
  lemma WholeFrame(before: Tag, r: Receiver, rest: seq<StreamFrame>, cuts: set<nat>, at: nat, chunk: seq<byte>,
                   right: bool)
    requires rest != [] && !IsControl(rest[0]) && |chunk| == |rest[0].payload|
    requires r.info == InfoOf(rest[0]) && r.index == 0 && Follows(before, r, Position(rest, false, 0), cuts, at, right)
    requires Uncut(cuts, at, at + |PeerEncoded(rest[0])|)
    ensures Follows(before, Last(r, chunk), Position(rest[1..], false, 0), cuts, at + |PeerEncoded(rest[0])|, right)
  {
    hide PeerHeader, PeerEncoded, AllCutWell;
    EncodedLength(rest[0]);
    var n := Last(r, chunk);
    assert Inside(cuts, at + |PeerHeader(rest[0])|, |rest[0].payload|) == {};
    CheckedSnoc(before, r.events, n.events[|r.events|]);
    if Checked(before, r.events).Right? { FirstCutWell(rest, cuts, at, TagOf(r)); }
  }

  lemma FirstCutWell(fs: seq<StreamFrame>, cuts: set<nat>, at: nat, before: Tag)
    requires fs != [] && !IsControl(fs[0])
    ensures var from, end := at + |PeerHeader(fs[0])|, at + |PeerEncoded(fs[0])|;
      AllCutWell(fs, cuts, at, before) <==>
        CutWell(fs[0], Inside(cuts, from, |fs[0].payload|), from, before)
          && AllCutWell(fs[1..], cuts, end, NextTag(before, fs[0].opcode))
  {
    hide PeerHeader, PeerEncoded;
  }

  lemma NextPart(before: Tag, r: Receiver, rest: seq<StreamFrame>, cuts: set<nat>, x: nat, chunk: seq<byte>,
                 right: bool)
    requires rest != [] && !IsControl(rest[0]) && chunk != [] && r.index + |chunk| < |rest[0].payload|
    requires r.info == InfoOf(rest[0]) && Follows(before, r, Position(rest, true, r.index), cuts, x, right)
    requires x + |chunk| in cuts
    ensures Follows(before, Partial(r, chunk), Position(rest, true, r.index + |chunk|), cuts, x + |chunk|, right)
  {
    hide AllCutWell;
    var n := Partial(r, chunk);
    CheckedSnoc(before, r.events, n.events[|r.events|]);
  }

  lemma LastPart(before: Tag, r: Receiver, rest: seq<StreamFrame>, cuts: set<nat>, x: nat, chunk: seq<byte>,
                 right: bool)
    requires rest != [] && !IsControl(rest[0]) && chunk != [] && r.index + |chunk| == |rest[0].payload|
    requires r.info == InfoOf(rest[0]) && Follows(before, r, Position(rest, true, r.index), cuts, x, right)
    requires Uncut(cuts, x, x + |chunk|)
    ensures Follows(before, Last(r, chunk), Position(rest[1..], false, 0), cuts, x + |chunk|, right)
  {
    hide AllCutWell;
    var n := Last(r, chunk);
    CheckedSnoc(before, r.events, n.events[|r.events|]);
  }

  lemma {:induction false} ReportsDoNotCount(before: Tag, events: seq<Event>, reports: seq<Event>)
    requires forall i :: 0 <= i < |reports| ==> !reports[i].Data?
    ensures Checked(before, events + reports) == Checked(before, events)
  {
    if reports == [] {
      assert events + [] == events;
    } else {
      var init, e := reports[..|reports| - 1], reports[|reports| - 1];
      ReportsDoNotCount(before, events, init);
      CheckedSnoc(before, events + init, e);
      assert events + reports == events + init + [e];
    }
  }

  lemma ControlPart(before: Tag, r: Receiver, rest: seq<StreamFrame>, cuts: set<nat>, at: nat, right: bool)
    requires rest != [] && IsControl(rest[0]) && r.info == InfoOf(rest[0])
    requires IsClose(rest[0]) ==> r.status != Disconnecting
    requires Follows(before, r, Position(rest, false, 0), cuts, at, right)
    ensures Follows(before, Last(r, rest[0].payload), Position(rest[1..], false, 0), cuts,
                    at + |PeerEncoded(rest[0])|, right)
  {
    hide PeerHeader, PeerEncoded, ReportOf;
    var f, n := rest[0], Last(r, rest[0].payload);
    ReportIsAdded(r, f);
    ReportsDoNotCount(before, r.events, ReportOf(f));
    ControlKeepsTag(r, f.payload);
  }

  lemma ControlKeepsTag(r: Receiver, chunk: seq<byte>)
    ensures TagOf(Last(r, chunk)) == TagOf(r)
  {
  }

  // ----- A buffer -----

  lemma {:induction false} BufferFollows(before: Tag, r: Receiver, all: seq<StreamFrame>, p: Position, b: seq<byte>,
                                         cuts: set<nat>, x: nat, right: bool)
    requires Reached(r, all, p) && b <= Left(p) && Advance(p, |b|).At?
    requires Follows(before, r, p, cuts, x, right) && x + |b| in cuts && Uncut(cuts, x, x + |b|)
    ensures Follows(before, OnData(r, b).1, Advance(p, |b|).p, cuts, x + |b|, right)
    decreases |b|, 1
  {
    hide Payload, Follows, Masked, Advance, Assembled, Left, OnData, OnePass;
    if b == [] {
      AdvanceZero(p);
      NoData(r);
      assert x + |b| == x && b == [];
    } else if p.inFrame {
      PayloadFollows(before, r, all, p, b, cuts, x, right);
    } else {
      HeaderFollows(before, r, all, p, b, cuts, x, right);
    }
  }

  lemma NoData(r: Receiver)
    requires Valid(r)
    ensures OnData(r, []).1 == r
  {
  }

  lemma {:induction false} PayloadFollows(before: Tag, r: Receiver, all: seq<StreamFrame>, p: Position, b: seq<byte>,
                                          cuts: set<nat>, x: nat, right: bool)
    requires Reached(r, all, p) && p.inFrame && b != [] && b <= Left(p) && Advance(p, |b|).At?
    requires Follows(before, r, p, cuts, x, right) && x + |b| in cuts && Uncut(cuts, x, x + |b|)
    ensures Follows(before, OnData(r, b).1, Advance(p, |b|).p, cuts, x + |b|, right)
    decreases |b|, 0
  {
    hide Follows, Masked, Advance, Assembled, OnData, Partial, Last;
    var k := Min(|p.rest[0].payload| - p.at, |b|);
    var q, chunk := Within(p.rest, p.at + k), Masked(r.info.key, b[..k], r.index);
    PayloadPass(r, all, p.rest, p.at, b);
    AdvanceOverPayload(p, |b|);
    OnDataByPass(r, b);
    if p.at + k < |p.rest[0].payload| {
      NextPart(before, r, p.rest, cuts, x, chunk, right);
    } else {
      LastPart(before, r, p.rest, cuts, x, chunk, right);
    }
    BufferFollows(before, Payload(r, b).r, all, q, b[k..], cuts, x + k, right);
  }

  lemma {:induction false} HeaderFollows(before: Tag, r: Receiver, all: seq<StreamFrame>, p: Position, b: seq<byte>,
                                         cuts: set<nat>, x: nat, right: bool)
    requires Reached(r, all, p) && !p.inFrame && b != [] && b <= Left(p) && Advance(p, |b|).At?
    requires Follows(before, r, p, cuts, x, right) && x + |b| in cuts && Uncut(cuts, x, x + |b|)
    ensures Follows(before, OnData(r, b).1, Advance(p, |b|).p, cuts, x + |b|, right)
    decreases |b|, 0
  {
    hide Follows, Masked, Advance, Assembled, OnData, Partial, Last, PeerHeader, PeerEncoded, Uncut, Payload, OnePass,
      ReportOf;
    CompleteHeader(p, |b|);
    var f, header := p.rest[0], |PeerHeader(p.rest[0])|;
    var start, body := r.(info := InfoOf(f), index := 0), b[header..];
    var k := Min(|f.payload|, |body|);
    EncodedLength(f);
    HeaderPass(r, all, p.rest, b);
    HeaderThenPayload(r, f, body);
    AdvanceOverHeader(p, |b|);
    OnDataByPass(r, b);
    SameTags(before, r, r, p, cuts, x, right);
    PartBehindHeader(before, r, all, p.rest, b, cuts, x, right);
    ShorterUncut(cuts, x, header + k, |b|);
    BufferFollows(before, Payload(start, body).r, all, Within(p.rest, k), b[header + k..], cuts, x + header + k, right);
  }

  lemma ShorterUncut(cuts: set<nat>, x: nat, k: nat, len: nat)
    requires Uncut(cuts, x, x + len) && k <= len
    ensures Uncut(cuts, x, x + k) && Uncut(cuts, x + k, x + len)
  {
  }

  /** The pass over a header and the payload behind it. */
  lemma PartBehindHeader(before: Tag, r: Receiver, all: seq<StreamFrame>, rest: seq<StreamFrame>, b: seq<byte>,
                         cuts: set<nat>, x: nat, right: bool)
    requires !r.inFrame && Valid(r) && Assembled(r, all, rest, []) && rest != [] && b <= Wire(rest)
    requires |b| >= |PeerHeader(rest[0])| + if IsControl(rest[0]) then |rest[0].payload| else 0
    requires Follows(before, r, Position(rest, false, 0), cuts, x, right)
    requires x + |b| in cuts && Uncut(cuts, x, x + |b|)
    ensures var header, body := |PeerHeader(rest[0])|, b[|PeerHeader(rest[0])|..];
      var k := Min(|rest[0].payload|, |body|);
      Follows(before, Payload(r.(info := InfoOf(rest[0]), index := 0), body).r, Within(rest, k), cuts, x + header + k,
              right)
  {
    hide Follows, Masked, Assembled, Partial, Last, PeerHeader, PeerEncoded, Wire, Uncut;
    var f, header := rest[0], |PeerHeader(rest[0])|;
    var start, body := r.(info := InfoOf(f), index := 0), b[header..];
    var k := Min(|f.payload|, |body|);
    var chunk := Masked(f.key, body[..k], 0);
    EncodedLength(f);
    HeaderPass(r, all, rest, b);
    SameTags(before, r, start, Position(rest, false, 0), cuts, x, right);
    ShorterUncut(cuts, x, header + k, |b|);
    if IsControl(f) {
      BeforeClose(r, all, rest);
      WireSplit(rest);
      Parts(b, PeerHeader(f), PayloadLeft(rest, 0), k);
      ChunkIsPayload(rest, 0, body, k);
      assert f.payload[0..k] == f.payload;
      ControlPart(before, start, rest, cuts, x, right);
    } else if k < |f.payload| {
      FirstPart(before, start, rest, cuts, x, chunk, right);
    } else {
      WholeFrame(before, start, rest, cuts, x, chunk, right);
    }
  }

  lemma SameTags(before: Tag, r: Receiver, n: Receiver, p: Position, cuts: set<nat>, x: nat, right: bool)
    requires ValidPosition(p) && !p.inFrame && n == r.(info := n.info, index := n.index)
    requires Follows(before, r, p, cuts, x, right)
    ensures Follows(before, n, Position(p.rest, false, 0), cuts, x, right)
  {
  }

  lemma BeforeClose(r: Receiver, all: seq<StreamFrame>, rest: seq<StreamFrame>)
    requires Assembled(r, all, rest, []) && rest != []
    ensures IsClose(rest[0]) ==> r.status != Disconnecting
  {
    FirstClose(all, rest, r.status);
  }

  // ----- The stream -----

  /** From `x` on the cuts are the ends of these buffers. */
  ghost predicate EndsOf(buffers: seq<seq<byte>>, cuts: set<nat>, x: nat) {
    forall c :: c >= x ==> (c in cuts <==> c in Ends(buffers, x))
  }

  lemma {:induction false} EndsAreBehind(buffers: seq<seq<byte>>, x: nat)
    ensures x in Ends(buffers, x) && forall c :: c in Ends(buffers, x) ==> c >= x
  {
    if buffers != [] { EndsAreBehind(buffers[1..], x + |buffers[0]|); }
  }

  lemma FirstEnd(buffers: seq<seq<byte>>, cuts: set<nat>, x: nat)
    requires buffers != [] && EndsOf(buffers, cuts, x)
    ensures var end := x + |buffers[0]|; end in cuts && Uncut(cuts, x, end) && EndsOf(buffers[1..], cuts, end)
  {
    EndsAreBehind(buffers[1..], x + |buffers[0]|);
  }

  lemma {:induction false} PrefixEnds(buffers: seq<seq<byte>>, x: nat, i: nat)
    requires i <= |buffers|
    ensures x + |Flatten(buffers[..i])| in Ends(buffers, x)
  {
    if i > 0 {
      assert buffers[..i][1..] == buffers[1..][..i - 1];
      PrefixEnds(buffers[1..], x + |buffers[0]|, i - 1);
    }
  }

  lemma {:induction false} BuffersFollow(before: Tag, r: Receiver, all: seq<StreamFrame>, p: Position,
                                         buffers: seq<seq<byte>>, cuts: set<nat>, x: nat, right: bool)
    requires Reached(r, all, p) && Flatten(buffers) == Left(p) && CutsAllowed(p, buffers)
    requires Follows(before, r, p, cuts, x, right) && EndsOf(buffers, cuts, x)
    ensures Checked(before, Feed(r, buffers).1.events).Right? <==> right
    decreases |buffers|
  {
    hide OnData, Advance, Assembled, Left, EndsOf, Uncut, Follows, Checked;
    if buffers == [] {
      SomethingLeft(p);
      NothingFollows(before, r, p, cuts, x, right);
    } else {
      var b, rest := buffers[0], Flatten(buffers[1..]);
      assert Left(p) == b + rest;
      BufferIsRead(r, all, p, b);
      FirstEnd(buffers, cuts, x);
      assert Left(p)[|b|..] == rest;
      BufferFollows(before, r, all, p, b, cuts, x, right);
      BuffersFollow(before, OnData(r, b).1, all, Advance(p, |b|).p, buffers[1..], cuts, x + |b|, right);
    }
  }

  lemma NothingFollows(before: Tag, r: Receiver, p: Position, cuts: set<nat>, x: nat, right: bool)
    requires ValidPosition(p) && p.rest == [] && Follows(before, r, p, cuts, x, right)
    ensures Checked(before, r.events).Right? <==> right
  {
  }

  /** A receiver whose tag fields still hold anything. */
  function WithTag(left: Tag): Receiver {
    FRESH.(messageOpcode := left.opcode, num := left.num)
  }

  /** For a stream of data and control frames, in buffers cut anywhere but inside a header or a
      control, the events carry the right tags exactly if every data frame is cut well. */
  lemma TagsAreRightIff(left: Tag, fs: seq<StreamFrame>, buffers: seq<seq<byte>>)
    requires Flatten(buffers) == Wire(fs) && OneClose(fs)
    requires forall c :: c in Cuts(buffers) ==> !InsideHeader(fs, c) && !InsideControl(fs, c)
    ensures Checked(left, Feed(WithTag(left), buffers).1.events).Right? <==> AllCutWell(fs, Cuts(buffers), 0, left)
  {
    hide Advance, Wire, InsideHeader, InsideControl, OneClose, DataOf, ReportsOf, AllCutWell;
    var start, cuts := Position(fs, false, 0), Cuts(buffers);
    NothingRead(fs);
    forall i | 0 <= i <= |buffers| ensures Advance(start, |Flatten(buffers[..i])|).At? {
      PrefixEnds(buffers, 0, i);
      FlattenPrefix(buffers, i);
      AdvanceFromStart(fs, |Flatten(buffers[..i])|);
    }
    CutsAreEnds(start, buffers);
    assert EndsOf(buffers, cuts, 0);
    BuffersFollow(left, WithTag(left), fs, start, buffers, cuts, 0, AllCutWell(fs, cuts, 0, left));
  }
}
