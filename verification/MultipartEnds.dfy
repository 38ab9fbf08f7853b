/**
 How a body begins and ends: what the parser makes of a wrong first line, of delimiters that turn
 out to be content, and of anything that follows the closing dashes.
 */
module MultipartEnds {
  import opened Wrappers
  import opened Buffers
  import opened ArduinoString
  import opened Multipart
  import opened MultipartForm
  import opened MultipartContent
  import opened MultipartHeaders
  import opened MultipartRoundTrip
  import opened MultipartExactness

  // ----- The first line -----

  function FirstLine(boundary: string): string {
    "--" + boundary + "\r\n"
  }

  lemma FirstLineIs(boundary: string, p: nat)
    requires p < |FirstLine(boundary)|
    ensures FirstLine(boundary)[p] == if p < 2 then '-' else if p - 2 < |boundary| then boundary[p - 2]
        else if p - 2 == |boundary| then '\r' else '\n'
  {
  }

  /** One byte of the first line. */
  lemma FirstLineByte(r: Request, o: Octet)
    requires r.state == ExpectBoundary && r.parsedLength < |FirstLine(r.boundary)| && ValidBoundary(r.boundary)
    ensures var n, p := Next(r, o), r.parsedLength;
      && n.store == r.store && n.boundary == r.boundary && n.parsedLength == p + 1
      && n.state == if o.c != FirstLine(r.boundary)[p] then ParseError
                    else if p + 1 == |FirstLine(r.boundary)| then ParseHeaders else ExpectBoundary
  {
    var p, b := r.parsedLength, r.boundary;
    assert U32(-1) == U32_LIMIT - 1 && U32(-2) == U32_LIMIT - 2 && U32(-3) == U32_LIMIT - 3;
    FirstLineIs(b, p);
    hide FirstLine;
  }

  /** A body that does not begin with the boundary line is refused: nothing of it is delivered. */
  lemma {:induction false} FirstLineDecides(r: Request, input: seq<Octet>, text: string)
    requires r.state == ExpectBoundary && ValidBoundary(r.boundary) && r.parsedLength < |FirstLine(r.boundary)|
    requires Spells(input, text) && r.parsedLength + |text| < U32_LIMIT
    requires |text| >= |FirstLine(r.boundary)| - r.parsedLength
    ensures var line := FirstLine(r.boundary)[r.parsedLength..];
      if line <= text then Feed(r, input[..|line|]).state == ParseHeaders && Feed(r, input[..|line|]).store == r.store
      else Feed(r, input).state == ParseError && Feed(r, input).store == r.store
    decreases |input|
  {
    hide Next, FirstLine;
    var n, line := Next(r, input[0]), FirstLine(r.boundary)[r.parsedLength..];
    FirstLineByte(r, input[0]);
    assert line[0] == FirstLine(r.boundary)[r.parsedLength];
    if text[0] != line[0] {
      Ignored(n, input[1..]);
    } else if |line| == 1 {
      assert input[..1][0] == input[0] && input[..1][1..] == [] && Feed(n, []) == n;
    } else {
      assert line[1..] == FirstLine(n.boundary)[n.parsedLength..];
      FirstLineDecides(n, input[1..], text[1..]);
      assert input[..|line|][1..] == input[1..][..|line| - 1];
      assert line <= text <==> line[1..] <= text[1..] by { TailPrefix(line, text); }
    }
  }

  lemma TailPrefix(a: string, b: string)
    requires a != "" && b != "" && a[0] == b[0]
    ensures a <= b <==> a[1..] <= b[1..]
  {
    if a[1..] <= b[1..] {
      assert a == [a[0]] + a[1..] && b == [b[0]] + b[1..];
    }
  }

  // ----- A delimiter that is content -----

  /** A field that goes on behind a delimiter: it has been delivered up to there, and the delimiter
      is put back as content. */
  lemma FalseDelimiter(r: Request, start: Store, content: string, o: Octet)
    requires r.state == Dash3OrReturn2 && Counts(r, 1) && !r.header.isFile
    requires Holding(r.header, start, r.store, content) && |content| + |r.boundary| + 8 < U32_LIMIT
    requires o.c != '\r' && o.c != '-'
    ensures var n := Next(r, o);
      n.state == WaitForReturn1 && Holding(r.header, start, n.store, content + Delimiter(r.boundary) + [o.c])
  {
    var d := Delimiter(r.boundary);
    WriteBytes(r.header, start, r.store, content, d, o.last);
    WriteByte(r.header, start, WriteItem(r.store, r.header, d, o.last), content + d, o.c, o.last);
  }

  lemma FalseLineEnd(r: Request, start: Store, content: string, o: Octet)
    requires r.state == ExpectFeed2 && Counts(r, 1) && !r.header.isFile
    requires Holding(r.header, start, r.store, content) && |content| + |r.boundary| + 8 < U32_LIMIT
    requires o.c != '\n'
    ensures var n, text := Next(r, o), content + Delimiter(r.boundary) + "\r";
      if o.c == '\r' then n.state == ExpectFeed1 && Holding(r.header, start, n.store, text)
      else n.state == WaitForReturn1 && Holding(r.header, start, n.store, text + [o.c])
  {
    var d := Delimiter(r.boundary) + "\r";
    assert content + Delimiter(r.boundary) + "\r" == content + d;
    assert "\r\n--" + r.boundary + "\r" == d;
    WriteBytes(r.header, start, r.store, content, d, o.last);
    if o.c != '\r' {
      WriteByte(r.header, start, WriteItem(r.store, r.header, d, o.last), content + d, o.c, o.last);
    }
  }

  // ----- After the closing dashes -----

  /** A form up to and with its closing dashes. */
  function Closed(parts: seq<Part>, boundary: string): string {
    "--" + boundary + Parts(parts, boundary) + "--"
  }

  function Parts(parts: seq<Part>, boundary: string): string {
    if parts == [] then "" else ("\r\n" + RenderPart(parts[0], boundary)) + Parts(parts[1..], boundary)
  }

  /** Some buffer ends `at` bytes from here. */
  predicate EndsAt(buffers: seq<string>, at: int) {
    buffers != [] && (|buffers[0]| == at || EndsAt(buffers[1..], at - |buffers[0]|))
  }

  lemma {:induction false} NoneEndsAt(buffers: seq<string>, at: int)
    requires at < 0
    ensures !EndsAt(buffers, at)
    decreases |buffers|
  {
    if buffers != [] { NoneEndsAt(buffers[1..], at - |buffers[0]|); }
  }

  /** The parts arrive, one by one. */
  lemma {:induction false} PartsRun(r: Request, input: seq<Octet>, done: seq<Part>, parts: seq<Part>)
    requires AfterBoundary(r) && Counts(r, |input|) && ValidBoundary(r.boundary)
    requires forall p | p in parts :: ValidPart(p, r.boundary)
    requires Spells(input, Parts(parts, r.boundary)) && Done(r.store, done)
    ensures var f := Feed(r, input);
      && AfterBoundary(f) && (parts != [] || r.state == Dash3OrReturn2 ==> f.state == Dash3OrReturn2)
      && Done(f.store, done + parts)
      && f.boundary == r.boundary && f.contentLength == r.contentLength && f.parsedLength == r.parsedLength + |input|
    decreases |parts|
  {
    hide Feed, Done, ValidPart, RenderPart, AllDelivered;
    if parts == [] {
      NoBytes(r);
      assert input == [] && done + parts == done;
    } else {
      var one := "\r\n" + RenderPart(parts[0], r.boundary);
      FeedParts(r, input, one, Parts(parts[1..], r.boundary));
      NextPart(r, input[..|one|], done, parts[0]);
      PartsRun(Feed(r, input[..|one|]), input[|one|..], done + [parts[0]], parts[1..]);
      assert done + [parts[0]] + parts[1..] == done + parts;
    }
  }

  /** Up to the closing dashes. */
  lemma UpToClosing(parts: seq<Part>, boundary: string, contentLength: nat, input: seq<Octet>)
    requires parts != [] && ValidBoundary(boundary) && forall p | p in parts :: ValidPart(p, boundary)
    requires Spells(input, "--" + boundary + Parts(parts, boundary)) && |input| < U32_LIMIT
    ensures var f := Feed(NewRequest(boundary, contentLength), input);
      && f.state == Dash3OrReturn2 && Done(f.store, parts)
      && f.contentLength == contentLength && f.parsedLength == |input| && !f.ended && f.handled == 0
  {
    hide Feed, Done, ValidPart, Parts;
    var r, n := NewRequest(boundary, contentLength), |boundary| + 2;
    NothingDone(r.store);
    FeedParts(r, input, "--" + boundary, Parts(parts, boundary));
    assert ("--" + boundary)[0..] == "--" + boundary;
    FirstBoundary(r, input[..n]);
    assert Feed(r, input[..n]) == r.(parsedLength := n);
    PartsRun(r.(parsedLength := n), input[n..], [], parts);
    assert [] + parts == parts;
    FeedKeeps(r, input);
  }

  /** The first closing dash fixes where the body is to end. */
  lemma FirstDash(r: Request, o: Octet)
    requires r.state == Dash3OrReturn2 && o.c == '-' && Counts(r, 5) && r.contentLength < U32_LIMIT
    ensures Next(r, o) == r.(state := ParsingFinished, contentLength := r.parsedLength + 4,
        parsedLength := r.parsedLength + 1)
  {
  }

  /** After the end only the count goes on; the handler runs if a buffer ends where it says. */
  lemma {:induction false} FinishedDeliver(r: Request, buffers: seq<string>)
    requires r.state == ParsingFinished && !r.ended && Counts(r, |AllOctets(buffers)|)
    ensures var f := Deliver(r, buffers);
      f.store == r.store && f.handled == r.handled + if EndsAt(buffers, r.contentLength - r.parsedLength) then 1 else 0
    decreases |buffers|
  {
    if buffers != [] {
      var first, n := Octets(buffers[0]), OnData(r, buffers[0]);
      Ignored(r, first);
      if n.ended {
        EndedStays(n, buffers[1..]);
      } else {
        FinishedDeliver(n, buffers[1..]);
      }
    }
  }

  /** A request that finishes after `m` more bytes, and cannot have ended before. */
  ghost predicate FinishesAfter(r: Request, input: seq<Octet>, m: nat) {
    && m <= |input| && !r.ended && r.parsedLength + |input| < U32_LIMIT
    && Feed(r, input[..m]).state == ParsingFinished
    && forall j :: 0 <= j < m ==>
      r.parsedLength + j < Feed(r, input[..j]).contentLength && Feed(r, input[..j]).state != ParsingFinished
  }

  lemma {:induction false} DeliverToTheEnd(r: Request, buffers: seq<string>, m: nat)
    requires FinishesAfter(r, AllOctets(buffers), m) && m > 0
    requires var e := Feed(r, AllOctets(buffers)[..m]); e.contentLength >= e.parsedLength
    ensures var f, e := Deliver(r, buffers), Feed(r, AllOctets(buffers)[..m]);
      f.store == e.store && f.handled == r.handled + if EndsAt(buffers, e.contentLength - r.parsedLength) then 1 else 0
    decreases |buffers|
  {
    hide Next, Octets;
    var all, first, rest := AllOctets(buffers), Octets(buffers[0]), AllOctets(buffers[1..]);
    var n := Feed(r, first);
    FeedKeeps(r, first);
    if |first| < m {
      assert all[..|first|] == first;
      AfterFirst(r, first, rest, m);
      assert all[..m] == first + rest[..m - |first|];
      FeedSplit(r, first, rest[..m - |first|]);
      FeedKeeps(r, all[..m]);
      DeliverToTheEnd(n, buffers[1..], m - |first|);
    } else {
      assert all[..m] == first[..m] && first == first[..m] + first[m..];
      FeedKeeps(r, first[..m]);
      FeedSplit(r, first[..m], first[m..]);
      Ignored(Feed(r, first[..m]), first[m..]);
      if n.parsedLength == n.contentLength {
        EndedStays(OnData(r, buffers[0]), buffers[1..]);
      } else {
        FinishedDeliver(n, buffers[1..]);
      }
    }
  }

  lemma AfterFirst(r: Request, first: seq<Octet>, rest: seq<Octet>, m: nat)
    requires FinishesAfter(r, first + rest, m) && |first| < m
    ensures FinishesAfter(Feed(r, first), rest, m - |first|)
  {
    hide Feed;
    var n := Feed(r, first);
    FeedKeeps(r, first);
    assert (first + rest)[..|first|] == first;
    forall j | 0 <= j <= m - |first| ensures Feed(n, rest[..j]) == Feed(r, (first + rest)[..|first| + j]) {
      assert (first + rest)[..|first| + j] == first + rest[..j];
      FeedSplit(r, first, rest[..j]);
    }
  }

  /** Before the closing dashes the request cannot end, and at the first one it finishes. */
  lemma FinishesAtDash(parts: seq<Part>, boundary: string, contentLength: nat, input: seq<Octet>, m: nat)
    requires parts != [] && ValidBoundary(boundary) && forall p | p in parts :: ValidPart(p, boundary)
    requires m < |input| <= contentLength && |input| + 4 < U32_LIMIT && contentLength < U32_LIMIT
    requires Spells(input[..m], "--" + boundary + Parts(parts, boundary)) && input[m].c == '-'
    ensures var r, e := NewRequest(boundary, contentLength), Feed(NewRequest(boundary, contentLength), input[..m + 1]);
      && e.state == ParsingFinished && Done(e.store, parts) && e.contentLength == m + 4 && e.parsedLength == m + 1
      && forall j :: 0 <= j <= m ==>
        j < Feed(r, input[..j]).contentLength && Feed(r, input[..j]).state != ParsingFinished
  {
    hide Feed, Done, ValidPart, Parts;
    var r := NewRequest(boundary, contentLength);
    UpToClosing(parts, boundary, contentLength, input[..m]);
    forall j | 0 <= j <= m
      ensures j < Feed(r, input[..j]).contentLength && Feed(r, input[..j]).state != ParsingFinished
    {
      FeedKeeps(r, input[..j]);
      assert input[..0] == [];
      NoBytes(r);
      if Feed(r, input[..j]).state == ParsingFinished {
        assert input[..m] == input[..j] + input[j..m];
        FeedSplit(r, input[..j], input[j..m]);
        Ignored(Feed(r, input[..j]), input[j..m]);
      }
    }
    var at := Feed(r, input[..m]);
    assert input[..m + 1] == input[..m] + [input[m]];
    FeedSplit(r, input[..m], [input[m]]);
    OneByte(at, input[m]);
    FirstDash(at, input[m]);
  }

  lemma OneByte(r: Request, o: Octet)
    ensures Feed(r, [o]) == Next(r, o)
  {
    hide Next;
    assert [o][1..] == [] && Feed(Next(r, o), []) == Next(r, o);
  }

  lemma {:induction false} EndsAtTotal(buffers: seq<string>)
    requires buffers != []
    ensures EndsAt(buffers, |Flatten(buffers)|)
  {
    if |buffers| > 1 { EndsAtTotal(buffers[1..]); } else { assert Flatten(buffers[1..]) == []; }
  }

  lemma {:induction false} EndsInside(buffers: seq<string>, at: int)
    requires at > |Flatten(buffers)|
    ensures !EndsAt(buffers, at)
  {
    if buffers != [] { EndsInside(buffers[1..], at - |buffers[0]|); }
  }

  /** Whatever follows the closing dashes, all parts are delivered. The handler runs, once, exactly
      if a TCP buffer ends two bytes behind the dashes: always, if a line end and nothing more
      follows, and never, if less does. */
  lemma EpilogueIff(parts: seq<Part>, boundary: string, epilogue: string, buffers: seq<string>)
    requires parts != [] && ValidBoundary(boundary) && forall p | p in parts :: ValidPart(p, boundary)
    requires Flatten(buffers) == Closed(parts, boundary) + epilogue && |Flatten(buffers)| + 4 < U32_LIMIT
    ensures var f := Deliver(NewRequest(boundary, |Flatten(buffers)|), buffers);
      && f.store.params == FormParams(parts) && AllDelivered(parts, f.store.uploads) && !f.store.fault
      && f.handled == if EndsAt(buffers, |Closed(parts, boundary)| + 2) then 1 else 0
    ensures |epilogue| < 2 ==> !EndsAt(buffers, |Closed(parts, boundary)| + 2)
    ensures |epilogue| == 2 ==> EndsAt(buffers, |Closed(parts, boundary)| + 2)
  {
    hide Feed, Deliver, ValidPart, Parts, AllDelivered, FormParams, AllOctets, Flatten;
    var head, input := "--" + boundary + Parts(parts, boundary), AllOctets(buffers);
    var m, r := |head|, NewRequest(boundary, |Flatten(buffers)|);
    AllOctetsSpell(buffers);
    assert Closed(parts, boundary) + epilogue == head + ("--" + epilogue);
    SpellsSplit(input, head, "--" + epilogue);
    assert input[m].c == (head + ("--" + epilogue))[m] == '-';
    FinishesAtDash(parts, boundary, r.contentLength, input, m);
    DeliverToTheEnd(r, buffers, m + 1);
    if |epilogue| < 2 { EndsInside(buffers, |Closed(parts, boundary)| + 2); }
    if |epilogue| == 2 {
      SomeBuffers(buffers);
      EndsAtTotal(buffers);
    }
  }

  lemma SomeBuffers(buffers: seq<string>)
    requires Flatten(buffers) != ""
    ensures buffers != []
  {
  }

  // ----- The last byte of a TCP buffer -----

  lemma {:induction false} WritingKeepsBuffer(s: Store, h: PartHeader, bytes: string, last: bool)
    requires h.isFile && s.buffer.Some?
    ensures WriteItem(s, h, bytes, last).buffer.Some?
    decreases |bytes|
  {
    if bytes != "" { WritingKeepsBuffer(WriteItemByte(s, h, bytes[0], last), h, bytes[1..], last); }
  }

  lemma PushingHandsOver(r: Request, matched: string, data: char)
    requires r.header.isFile && r.store.buffer.Some?
    ensures var n := PushBack(r, matched, data, true);
      n.state == WaitForReturn1 ==> n.store.buffer == Some("")
  {
    WritingKeepsBuffer(r.store, r.header, matched, true);
  }

  /** At the end of a TCP buffer all content of a file that is known to be content has been handed
      to the upload handler. */
  lemma BufferIsHandedOver(r: Request, o: Octet)
    requires r.parsedLength > 0 && r.header.isFile && r.store.buffer.Some? && o.last
    ensures var n := Next(r, o);
      n.state == WaitForReturn1 && n.header.isFile ==> n.store.buffer == Some("")
  {
    hide PushBack, HeaderLine, Boundary, FinishItem;
    match r.state
    case ExpectFeed1 => PushingHandsOver(r, "\r", o.c);
    case ExpectDash1 => PushingHandsOver(r, "\r\n", o.c);
    case ExpectDash2 => PushingHandsOver(r, "\r\n-", o.c);
    case BoundaryOrData =>
      if r.boundaryPosition <= |r.boundary| {
        PushingHandsOver(r, "\r\n--" + r.boundary[..r.boundaryPosition], o.c);
      }
    case Dash3OrReturn2 => AfterHandsOver(r, o.c);
    case ExpectFeed2 => PushingHandsOver(r, "\r\n--" + r.boundary + "\r", o.c);
    case ExpectBoundary => BoundaryIsNoContent(r, o.c);
    case _ =>
  }

  lemma AfterHandsOver(r: Request, data: char)
    requires r.state == Dash3OrReturn2 && r.header.isFile && r.store.buffer.Some?
    ensures var n := AfterDelimiter(r, data, true); n.state == WaitForReturn1 ==> n.store.buffer == Some("")
  {
    hide PushBack;
    PushingHandsOver(r, "\r\n--" + r.boundary, data);
    PushingHandsOver(r.(contentLength := U32(r.parsedLength + 4)), "\r\n--" + r.boundary, data);
  }

  lemma BoundaryIsNoContent(r: Request, data: char)
    requires r.state == ExpectBoundary
    ensures Boundary(r, data).state != WaitForReturn1
  {
  }

  // ----- The first byte -----

  /** The first byte of a body starts over, whatever state the request was left in: it is read as
      on a new request. */
  lemma FirstByteStartsOver(r: Request, o: Octet)
    requires r.parsedLength == 0
    ensures var start := r.(state := ExpectBoundary, temp := "",
                            header := PartHeader("", "", "", r.header.isFile));
      Next(r, o) == Next(start, o)
  {
  }
}
