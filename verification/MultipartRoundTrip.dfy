/**
 The printer/parser round trip of section 5.1.1 of RFC 2046 and section 4 of RFC 7578:
 a form rendered with a boundary and cut into any TCP buffers is read back exactly.
 */
module MultipartRoundTrip {
  import opened Buffers
  import opened ArduinoString
  import opened Multipart
  import opened MultipartForm
  import opened MultipartContent
  import opened MultipartHeaders

  // ----- One part -----

  /** The part that has such a header and such a content. */
  function AsTold(h: PartHeader, content: string): Part {
    if h.isFile then File(h.name, h.filename, content, []) else Field(h.name, content, [])
  }

  lemma SaidAsTold(h: PartHeader, p: Part)
    requires SaysPart(p) && !h.isFile
    ensures AsTold(ToldBy(h, p.lines), Content(p)) ==
      match p
      case Field(name, value, _) => Field(name, value, [])
      case File(name, filename, content, _) => File(name, filename, content, [])
  {
  }

  /** What a completed item adds to the parameters and uploads. */
  lemma FinishedItem(h: PartHeader, start: Store, s: Store, content: string)
    requires Holding(h, StartItem(start, h), s, content) && |content| < U32_LIMIT
    ensures var f, p := FinishItem(s, h), AsTold(h, content);
      && f.params == start.params + PartParams(p)
      && start.uploads <= f.uploads && Delivered(p, f.uploads[|start.uploads|..])
      && f.fault == start.fault && (start.buffer.None? ==> f.buffer.None?)
  {
    var f := FinishItem(s, h);
    if !h.isFile {
      assert f.uploads[|start.uploads|..] == [];
    } else if content != "" {
      var before := s.uploads[|start.uploads|..];
      var last := f.uploads[|s.uploads|];
      assert f.uploads[|start.uploads|..] == before + [last];
      assert (before + [last])[..|before|] == before;
    } else {
      var before := s.uploads[|start.uploads|..];
      assert s.buffer.value == "" && Chunks(h.filename, "", before);
      assert f.uploads[|start.uploads|..] == before;
    }
  }

  /** Content and the delimiter after it. */
  lemma ItemRun(start: Request, input: seq<Octet>, content: string) returns (s: Store)
    requires start.state == WaitForReturn1 && Holding(start.header, start.store, start.store, "")
    requires Counts(start, |input|) && ValidBoundary(start.boundary)
    requires !Occurs(Delimiter(start.boundary), content)
    requires Spells(input, content + Delimiter(start.boundary))
    ensures Holding(start.header, start.store, s, content)
    ensures var f := Feed(start, input);
      f == start.(state := Dash3OrReturn2, store := FinishItem(s, start.header),
                  parsedLength := start.parsedLength + |input|, boundaryPosition := f.boundaryPosition)
  {
    var n := |content|;
    FeedParts(start, input, content, Delimiter(start.boundary));
    assert "" + content == content;
    var w := ContentRun(start, start, "", "", input[..n], content);
    s := DelimiterRun(start, Feed(start, input[..n]), w, content, input[n..]);
  }

  lemma EmptyItem(h: PartHeader, s: Store)
    ensures Holding(h, StartItem(s, h), StartItem(s, h), "")
  {
    assert s.uploads[|s.uploads|..] == [];
  }

  /** A part arrives: whatever its lines say, it is delivered as the part that they tell. */
  lemma ToldPartRun(r: Request, input: seq<Octet>, lines: seq<Line>, content: string)
    requires r.state == ParseHeaders && r.temp == "" && Counts(r, |input|)
    requires ValidBoundary(r.boundary) && ValidLines(lines) && !Occurs(Delimiter(r.boundary), content)
    requires Spells(input, HeaderText(lines) + ("\r\n" + (content + Delimiter(r.boundary))))
    ensures var f, p := Feed(r, input), AsTold(ToldBy(r.header, lines), content);
      && f == r.(state := Dash3OrReturn2, header := ToldBy(r.header, lines), store := f.store,
                 boundaryPosition := f.boundaryPosition, parsedLength := r.parsedLength + |input|)
      && f.store.params == r.store.params + PartParams(p)
      && r.store.uploads <= f.store.uploads && Delivered(p, f.store.uploads[|r.store.uploads|..])
      && f.store.fault == r.store.fault && (r.store.buffer.None? ==> f.store.buffer.None?)
  {
    hide Feed, HeaderText, ValidLines, ToldBy, FinishItem, StartItem, Delivered, PartParams, AsTold, Spells, Occurs,
      Delimiter;
    var start, body := HeadersRun(r, input, lines, content + Delimiter(r.boundary));
    ContentRunOf(r, start, body, content);
  }

  /** Content, after the empty line has opened it. */
  lemma ContentRunOf(r: Request, start: Request, input: seq<Octet>, content: string)
    requires start == r.(state := WaitForReturn1, header := start.header, store := StartItem(r.store, start.header),
        parsedLength := start.parsedLength)
    requires Counts(start, |input|) && ValidBoundary(r.boundary) && !Occurs(Delimiter(r.boundary), content)
    requires Spells(input, content + Delimiter(r.boundary))
    ensures var f, p := Feed(start, input), AsTold(start.header, content);
      && f == r.(state := Dash3OrReturn2, header := start.header, store := f.store,
                 boundaryPosition := f.boundaryPosition, parsedLength := start.parsedLength + |input|)
      && f.store.params == r.store.params + PartParams(p)
      && r.store.uploads <= f.store.uploads && Delivered(p, f.store.uploads[|r.store.uploads|..])
      && f.store.fault == r.store.fault && (r.store.buffer.None? ==> f.store.buffer.None?)
  {
    hide Feed, FinishItem, StartItem, Delivered, PartParams, AsTold, Holding, Occurs;
    EmptyItem(start.header, r.store);
    var s := ItemRun(start, input, content);
    FinishedItem(start.header, r.store, s, content);
  }

  /** The lines and the empty line behind them. */
  lemma HeadersRun(r: Request, input: seq<Octet>, lines: seq<Line>, rest: string)
    returns (start: Request, body: seq<Octet>)
    requires r.state == ParseHeaders && r.temp == "" && Counts(r, |input|) && ValidLines(lines)
    requires Spells(input, HeaderText(lines) + ("\r\n" + rest))
    ensures var h := ToldBy(r.header, lines);
      start == r.(state := WaitForReturn1, header := h, store := StartItem(r.store, h),
                  parsedLength := start.parsedLength)
    ensures start.parsedLength + |body| == r.parsedLength + |input| && start.parsedLength > 0
    ensures Spells(body, rest) && Feed(r, input) == Feed(start, body)
  {
    hide Feed, HeaderText, ValidLines, AllValues, Types, StartItem;
    var head := HeaderText(lines);
    FeedParts(r, input, head, "\r\n" + rest);
    HeadersSay(r, input[..|head|], lines);
    var r1, input1 := Feed(r, input[..|head|]), input[|head|..];
    FeedParts(r1, input1, "\r\n", rest);
    LineEnd(r1, input1[..2]);
    start := Feed(r1, input1[..2]);
    body := input1[2..];
  }

  lemma PartRun(r: Request, input: seq<Octet>, p: Part)
    requires r.state == ParseHeaders && r.temp == "" && !r.header.isFile && Counts(r, |input|)
    requires ValidBoundary(r.boundary) && ValidPart(p, r.boundary)
    requires Spells(input, RenderPart(p, r.boundary))
    ensures var f := Feed(r, input);
      && f == r.(state := Dash3OrReturn2, header := f.header, store := f.store,
                 boundaryPosition := f.boundaryPosition, parsedLength := r.parsedLength + |input|)
      && f.store.params == r.store.params + PartParams(p)
      && r.store.uploads <= f.store.uploads && Delivered(p, f.store.uploads[|r.store.uploads|..])
      && f.store.fault == r.store.fault && (r.store.buffer.None? ==> f.store.buffer.None?)
  {
    hide Feed, ToldBy, FileUploads;
    ToldPartRun(r, input, p.lines, Content(p));
    SaidAsTold(r.header, p);
  }

  // ----- The whole body -----

  /** Right after a boundary: the first one, or one that ended a part. */
  ghost predicate AfterBoundary(r: Request) {
    && r.temp == ""
    && (r.state == Dash3OrReturn2 || (r.state == ExpectBoundary && r.parsedLength == |r.boundary| + 2))
  }

  lemma LineBreak(r: Request, input: seq<Octet>)
    requires AfterBoundary(r) && Counts(r, 2) && Spells(input, "\r\n")
    ensures Feed(r, input) == r.(state := ParseHeaders, header := r.header.(isFile := false),
        parsedLength := r.parsedLength + 2)
  {
    var n := Next(r, input[0]);
    assert Feed(n, input[1..]) == Next(n, input[1]);
  }

  lemma {:induction false} Ignored(r: Request, input: seq<Octet>)
    requires r.state == ParsingFinished || r.state == ParseError
    requires Counts(r, |input|)
    ensures Feed(r, input) == r.(parsedLength := r.parsedLength + |input|)
    decreases |input|
  {
    if input != [] { Ignored(Next(r, input[0]), input[1..]); }
  }

  /** The closing dashes. */
  lemma Closing(r: Request, input: seq<Octet>)
    requires AfterBoundary(r) && Counts(r, 4) && r.contentLength == r.parsedLength + 4
    requires Spells(input, "--\r\n")
    ensures Feed(r, input) == r.(state := if r.state == Dash3OrReturn2 then ParsingFinished else ParseError,
                                 parsedLength := r.parsedLength + 4)
  {
    Ignored(Next(r, input[0]), input[1..]);
  }

  /** The parts seen so far have been delivered, and no upload buffer is left. */
  ghost predicate Done(s: Store, parts: seq<Part>) {
    s.params == FormParams(parts) && AllDelivered(parts, s.uploads) && !s.fault && s.buffer.None?
  }

  lemma DoneOneMore(s: Store, f: Store, parts: seq<Part>, p: Part)
    requires Done(s, parts)
    requires f.params == s.params + PartParams(p) && f.fault == s.fault && f.buffer.None?
    requires s.uploads <= f.uploads && Delivered(p, f.uploads[|s.uploads|..])
    ensures Done(f, parts + [p])
  {
    assert (parts + [p])[..|parts|] == parts;
    assert f.uploads[..|s.uploads|] == s.uploads;
  }

  /** A line break and one part. */
  lemma NextPart(r: Request, input: seq<Octet>, done: seq<Part>, p: Part)
    requires AfterBoundary(r) && Counts(r, |input|)
    requires ValidBoundary(r.boundary) && ValidPart(p, r.boundary)
    requires Spells(input, "\r\n" + RenderPart(p, r.boundary))
    requires Done(r.store, done)
    ensures var f := Feed(r, input);
      && AfterBoundary(f) && f.state == Dash3OrReturn2 && Done(f.store, done + [p])
      && f.boundary == r.boundary && f.contentLength == r.contentLength && f.parsedLength == r.parsedLength + |input|
  {
    FeedParts(r, input, "\r\n", RenderPart(p, r.boundary));
    LineBreak(r, input[..2]);
    var r1 := Feed(r, input[..2]);
    PartRun(r1, input[2..], p);
    DoneOneMore(r1.store, Feed(r1, input[2..]).store, done, p);
  }

  lemma {:induction false} TailRun(r: Request, input: seq<Octet>, done: seq<Part>, parts: seq<Part>)
    requires AfterBoundary(r) && Counts(r, |input|) && r.contentLength == r.parsedLength + |input|
    requires ValidBoundary(r.boundary) && forall p | p in parts :: ValidPart(p, r.boundary)
    requires Spells(input, RenderTail(parts, r.boundary))
    requires Done(r.store, done)
    ensures Done(Feed(r, input).store, done + parts)
    ensures Feed(r, input).contentLength == r.contentLength
    ensures Feed(r, input).state == if r.state == Dash3OrReturn2 || parts != [] then ParsingFinished else ParseError
    decreases |parts|
  {
    hide Feed, Done, ValidPart, RenderPart, AllDelivered;
    if parts == [] {
      Closing(r, input);
      assert done + parts == done;
    } else {
      var one, tail := "\r\n" + RenderPart(parts[0], r.boundary), RenderTail(parts[1..], r.boundary);
      FeedParts(r, input, one, tail);
      NextPart(r, input[..|one|], done, parts[0]);
      TailRun(Feed(r, input[..|one|]), input[|one|..], done + [parts[0]], parts[1..]);
      assert done + [parts[0]] + parts[1..] == done + parts;
    }
  }

  /** The dashes and the first boundary. */
  lemma {:induction false} FirstBoundary(r: Request, input: seq<Octet>)
    requires r.state == ExpectBoundary && r.temp == "" && r.parsedLength + |input| < U32_LIMIT
    requires r.parsedLength == 0 ==> r.header == NO_HEADER
    requires r.parsedLength <= |r.boundary| + 2 && ValidBoundary(r.boundary)
    requires Spells(input, ("--" + r.boundary)[r.parsedLength..])
    ensures Feed(r, input) == r.(parsedLength := |r.boundary| + 2)
    decreases |input|
  {
    if input != [] {
      var p, text := r.parsedLength, "--" + r.boundary;
      assert text[p..][0] == text[p] && text[p + 1..] == text[p..][1..];
      assert U32(-1) == U32_LIMIT - 1 && U32(-2) == U32_LIMIT - 2 && U32(-3) == U32_LIMIT - 3;
      assert text[p] == if p < 2 then '-' else r.boundary[p - 2];
      assert Next(r, input[0]) == r.(parsedLength := p + 1);
      FirstBoundary(Next(r, input[0]), input[1..]);
    }
  }

  lemma NothingDone(s: Store)
    requires s.params == [] && s.uploads == [] && !s.fault && s.buffer.None?
    ensures Done(s, [])
  {
  }

  lemma BodyRun(parts: seq<Part>, boundary: string, input: seq<Octet>)
    requires ValidBoundary(boundary) && forall p | p in parts :: ValidPart(p, boundary)
    requires Spells(input, Render(parts, boundary)) && |input| < U32_LIMIT
    ensures var f := Feed(NewRequest(boundary, |input|), input);
      && Done(f.store, parts) && f.contentLength == |input|
      && (parts != [] ==> f.state == ParsingFinished)
  {
    hide Feed, Done, ValidPart, RenderTail;
    var r := NewRequest(boundary, |input|);
    var n := |boundary| + 2;
    NothingDone(r.store);
    FeedParts(r, input, "--" + boundary, RenderTail(parts, boundary));
    assert ("--" + boundary)[0..] == "--" + boundary;
    FirstBoundary(r, input[..n]);
    assert Feed(r, input[..n]) == r.(parsedLength := n);
    TailRun(r.(parsedLength := n), input[n..], [], parts);
    assert [] + parts == parts;
  }

  // ----- TCP buffers -----

  function AllOctets(buffers: seq<string>): seq<Octet> {
    if buffers == [] then [] else Octets(buffers[0]) + AllOctets(buffers[1..])
  }

  lemma {:induction false} AllOctetsSpell(buffers: seq<string>)
    ensures Spells(AllOctets(buffers), Flatten(buffers))
  {
    if buffers != [] { AllOctetsSpell(buffers[1..]); }
  }

  lemma DispatchKeeps(r: Request, data: char, last: bool)
    ensures var n := Dispatch(r, data, last);
      && n.boundary == r.boundary && n.ended == r.ended && n.handled == r.handled && n.parsedLength == r.parsedLength
      && (n.contentLength != r.contentLength ==> n.state == ParsingFinished)
  {
    match r.state
    case ExpectFeed1 => if data != '\n' { var n := PushBack(r, "\r", data, last); }
    case ExpectDash1 => if data != '-' { var n := PushBack(r, "\r\n", data, last); }
    case ExpectDash2 => if data != '-' { var n := PushBack(r, "\r\n-", data, last); }
    case ExpectFeed2 => if data != '\n' { var n := PushBack(r, "\r\n--" + r.boundary + "\r", data, last); }
    case Dash3OrReturn2 => var n := AfterDelimiter(r, data, last);
    case _ =>
  }

  lemma NextKeeps(r: Request, o: Octet)
    requires r.parsedLength + 1 < U32_LIMIT
    ensures var n := Next(r, o);
      && n.boundary == r.boundary && n.ended == r.ended && n.handled == r.handled
      && n.parsedLength == r.parsedLength + 1
      && (n.contentLength != r.contentLength ==> n.state == ParsingFinished)
  {
    DispatchKeeps(Reset(r), o.c, o.last);
  }

  /** The counters and flags that feeding bytes does not touch, or touches once. */
  lemma {:induction false} FeedKeeps(r: Request, input: seq<Octet>)
    requires r.parsedLength + |input| < U32_LIMIT
    ensures var f := Feed(r, input);
      && f.boundary == r.boundary && f.ended == r.ended && f.handled == r.handled
      && f.parsedLength == r.parsedLength + |input|
      && (f.contentLength != r.contentLength ==> f.state == ParsingFinished && f.parsedLength > 0)
    decreases |input|
  {
    if input != [] {
      var n := Next(r, input[0]);
      NextKeeps(r, input[0]);
      FeedKeeps(n, input[1..]);
      if n.state == ParsingFinished { Ignored(n, input[1..]); }
    }
  }

  /** However the body is cut, the handler runs once, after the last buffer. */
  lemma {:induction false} DeliverIsFeed(r: Request, buffers: seq<string>)
    requires buffers != [] && forall i :: 0 <= i < |buffers| ==> buffers[i] != ""
    requires !r.ended && r.contentLength == r.parsedLength + |AllOctets(buffers)| < U32_LIMIT
    requires Feed(r, AllOctets(buffers)).contentLength == r.contentLength
    ensures Deliver(r, buffers) == Feed(r, AllOctets(buffers)).(ended := true, handled := r.handled + 1)
    decreases |buffers|
  {
    var first, rest := Octets(buffers[0]), AllOctets(buffers[1..]);
    FeedSplit(r, first, rest);
    FeedKeeps(r, first);
    var n := Feed(r, first);
    FeedKeeps(n, rest);
    if n.contentLength != r.contentLength { Ignored(n, rest); assert false; }
    if buffers[1..] == [] {
      assert rest == [] && Feed(n, rest) == n;
    } else {
      DeliverIsFeed(n, buffers[1..]);
    }
  }

  /** The round trip: any valid form, any cut into non-empty TCP buffers. */
  lemma FormIsReadBack(parts: seq<Part>, boundary: string, buffers: seq<string>)
    requires ValidBoundary(boundary) && forall p | p in parts :: ValidPart(p, boundary)
    requires Flatten(buffers) == Render(parts, boundary) && |Render(parts, boundary)| < U32_LIMIT
    requires forall i :: 0 <= i < |buffers| ==> buffers[i] != ""
    ensures var f := Deliver(NewRequest(boundary, |Render(parts, boundary)|), buffers);
      && f.store.params == FormParams(parts)
      && AllDelivered(parts, f.store.uploads)
      && !f.store.fault && f.store.buffer.None?
      && f.ended && f.handled == 1
      && (parts != [] ==> f.state == ParsingFinished)
  {
    AllOctetsSpell(buffers);
    BodyRun(parts, boundary, AllOctets(buffers));
    DeliverIsFeed(NewRequest(boundary, |Render(parts, boundary)|), buffers);
  }
}
