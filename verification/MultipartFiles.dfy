/** Every state of the parser, after any body at all: what it has handed over are files without
    the delimiter, unless it has stored through a null upload buffer. */
module MultipartFiles {
  import opened ArduinoString
  import opened Multipart
  import opened MultipartForm
  import opened MultipartContent
  import opened MultipartRoundTrip
  import opened MultipartUploads

  /** In the content of a file: `written` is stored, the rest of what was read is matched. */
  ghost predicate ReadsFile(start: Request, r: Request, written: string) {
    && InContent(r) && r.header.isFile
    && Reading(start, r, written, written + Matched(r)) && Scanned(r, written + Matched(r))
    && Clean(Delimiter(r.boundary), start.store.uploads)
    && |written + Matched(r)| <= r.parsedLength
  }

  /** Anywhere else: only whole files have been handed over, and a finished file has no buffer. */
  ghost predicate BetweenFiles(r: Request) {
    && Clean(Delimiter(r.boundary), r.store.uploads)
    && (r.state == BoundaryOrData ==> InContent(r))
    && ((r.state == Dash3OrReturn2 || r.state == ExpectFeed2) && r.header.isFile ==> r.store.buffer.None?)
  }

  ghost predicate Orderly(r: Request) {
    if InContent(r) && r.header.isFile then exists start, written :: ReadsFile(start, r, written) else BetweenFiles(r)
  }

  ghost predicate Inv(r: Request) {
    ValidBoundary(r.boundary) && (r.store.fault || Orderly(r))
  }

  // ----- A fault stays -----

  lemma {:induction false} WritingKeepsFault(s: Store, h: PartHeader, bytes: string, last: bool)
    ensures s.fault ==> WriteItem(s, h, bytes, last).fault
    ensures bytes != "" && h.isFile && s.buffer.None? ==> WriteItem(s, h, bytes, last).fault
    ensures !h.isFile ==> WriteItem(s, h, bytes, last).uploads == s.uploads
    decreases |bytes|
  {
    if bytes != "" { WritingKeepsFault(WriteItemByte(s, h, bytes[0], last), h, bytes[1..], last); }
  }

  /** A mismatch pushed back: what it does to the faults and uploads. */
  lemma PushedBack(r: Request, matched: string, data: char, last: bool)
    ensures var n := PushBack(r, matched, data, last);
      && (n.state == WaitForReturn1 || n.state == ExpectFeed1)
      && (r.store.fault ==> n.store.fault)
      && (matched != "" && r.header.isFile && r.store.buffer.None? ==> n.store.fault)
      && (!r.header.isFile ==> n.store.uploads == r.store.uploads)
  {
    hide WriteItem;
    WritingKeepsFault(r.store, r.header, matched, last);
  }

  lemma AfterDelimiterKeeps(r: Request, data: char, last: bool)
    ensures var n := AfterDelimiter(r, data, last);
      && (r.store.fault ==> n.store.fault) && n.boundary == r.boundary && n.header == r.header
      && (((n.state == ExpectFeed2 || n.state == ParsingFinished) && n.store == r.store)
          || ((n.state == WaitForReturn1 || n.state == ExpectFeed1)
              && (r.header.isFile && r.store.buffer.None? ==> n.store.fault)
              && (!r.header.isFile ==> n.store.uploads == r.store.uploads)))
  {
    hide PushBack;
    var matched := "\r\n--" + r.boundary;
    PushedBack(r, matched, data, last);
    PushedBack(r.(contentLength := U32(r.parsedLength + 4)), matched, data, last);
  }

  lemma FaultStays(r: Request, o: Octet)
    requires r.store.fault
    ensures Next(r, o).store.fault && Next(r, o).boundary == r.boundary
  {
    hide Dispatch;
    DispatchKeepsFault(Reset(r), o.c, o.last);
  }

  lemma DispatchKeepsFault(r: Request, data: char, last: bool)
    requires r.store.fault
    ensures Dispatch(r, data, last).store.fault && Dispatch(r, data, last).boundary == r.boundary
  {
    hide PushBack, HeaderLine, AfterDelimiter, WriteItem;
    match r.state
    case ExpectFeed1 => PushedBack(r, "\r", data, last);
    case ExpectDash1 => PushedBack(r, "\r\n", data, last);
    case ExpectDash2 => PushedBack(r, "\r\n-", data, last);
    case BoundaryOrData =>
      if r.boundaryPosition < |r.boundary| { PushedBack(r, "\r\n--" + r.boundary[..r.boundaryPosition], data, last); }
    case Dash3OrReturn2 => AfterDelimiterKeeps(r, data, last);
    case ExpectFeed2 => PushedBack(r, "\r\n--" + r.boundary + "\r", data, last);
    case _ =>
  }

  // ----- One byte -----

  lemma PrefixHasNone(pattern: string, a: string, b: string)
    requires !Occurs(pattern, a + b)
    ensures !Occurs(pattern, a)
  {
    if Occurs(pattern, a) {
      var i :| OccursAt(pattern, a, i);
      OccursInLonger(pattern, a, b, i);
    }
  }

  lemma OccursInLonger(pattern: string, a: string, b: string, i: nat)
    requires OccursAt(pattern, a, i)
    ensures OccursAt(pattern, a + b, i)
  {
    assert (a + b)[i..i + |pattern|] == a[i..i + |pattern|];
  }

  /** A finished file joins the clean ones. */
  lemma FileIsClean(pattern: string, h: PartHeader, start: Store, s: Store, written: string)
    requires Holding(h, start, s, written) && h.isFile && Clean(pattern, start.uploads) && !Occurs(pattern, written)
    requires |written| < U32_LIMIT
    ensures FinishItem(s, h).buffer.None? && Clean(pattern, FinishItem(s, h).uploads)
  {
    hide Occurs, Clean;
    var f, k := FinishItem(s, h), |start.uploads|;
    if s.size == 0 {
      assert s.uploads[k..] == [] && f.uploads == start.uploads;
    } else {
      var group, last := s.uploads[k..], f.uploads[|s.uploads|];
      assert f.uploads[k..] == group + [last] && (group + [last])[..|group|] == group;
      assert f.uploads[..k] == start.uploads;
      assert written[..|written| - |last.data|] == written[..last.index];
      CleanSnoc(pattern, f.uploads, k, h.filename, written);
    }
  }

  lemma CleanSnoc(pattern: string, us: seq<Upload>, k: nat, name: string, content: string)
    requires k < |us| && FileUploads(name, content, us[k..]) && Clean(pattern, us[..k]) && !Occurs(pattern, content)
    ensures Clean(pattern, us)
  {
  }

  lemma FileStep(r: Request, o: Octet)
    requires ValidBoundary(r.boundary) && Counts(r, 1) && InContent(r) && r.header.isFile && Orderly(r)
    ensures Orderly(Next(r, o)) && Next(r, o).boundary == r.boundary
  {
    hide Next, Scanned, Clean, Occurs, Expected, AtLast, Holding;
    var start, written :| ReadsFile(start, r, written);
    var consumed := written + Matched(r);
    if o.c == Expected(r) && AtLast(r) {
      MatchStep(r, o);
      ScannedHasNone(r, consumed);
      PrefixHasNone(Delimiter(r.boundary), written, Matched(r));
      FileIsClean(Delimiter(r.boundary), r.header, start.store, r.store, written);
    } else {
      if o.c == Expected(r) { MatchStep(r, o); }
      var written' := ContentStep(start, r, written, consumed, o);
      var n := Next(r, o);
      ScanStep(r, n, consumed, written, written', o.c);
      assert ReadsFile(start, n, written');
    }
  }

  lemma ScannedHasNone(r: Request, consumed: string)
    requires InContent(r) && Scanned(r, consumed)
    ensures !Occurs(Delimiter(r.boundary), consumed)
  {
  }

  /** A byte of a field. */
  lemma FieldStep(r: Request, o: Octet)
    requires ValidBoundary(r.boundary) && Counts(r, 1) && InContent(r) && !r.header.isFile && BetweenFiles(r)
    ensures var n := Next(r, o);
      n.boundary == r.boundary && n.header == r.header && BetweenFiles(n) && n.store.uploads == r.store.uploads
  {
    hide Next, Clean, Expected, PushBack;
    if o.c == Expected(r) {
      MatchStep(r, o);
    } else {
      MismatchStep(r, o);
      PushedBack(r, Matched(r), o.c, o.last);
    }
  }

  /** A blank line opens a file. */
  lemma FileOpens(r: Request, n: Request)
    requires ValidBoundary(r.boundary) && BetweenFiles(r) && r.header.isFile
    requires n == r.(state := WaitForReturn1, store := StartItem(r.store, r.header), temp := n.temp,
        parsedLength := n.parsedLength)
    ensures Orderly(n)
  {
    hide Clean;
    EmptyItem(n.header, r.store);
    assert Matched(n) == "" && "" + "" == "";
    assert Scanned(n, "");
    assert ReadsFile(n, n, "");
  }

  /** A byte anywhere else. */
  lemma OtherStep(r: Request, o: Octet)
    requires ValidBoundary(r.boundary) && Counts(r, 1) && !InContent(r) && BetweenFiles(r)
    ensures var n := Next(r, o); n.boundary == r.boundary && (n.store.fault || Orderly(n))
  {
    hide Clean, PushBack, HeaderLine, AfterDelimiter, StartItem, ReadsFile;
    var n := Next(r, o);
    match r.state
    case ParseHeaders =>
      var q := if o.c != '\r' && o.c != '\n' then r.(temp := r.temp + [o.c]) else r;
      if o.c == '\n' && q.temp == "" && r.header.isFile { FileOpens(r, n); }
      if o.c == '\n' && q.temp == "" && !r.header.isFile { UploadsStay(r.store, r.header); }
    case Dash3OrReturn2 => AfterDelimiterKeeps(r, o.c, o.last);
    case ExpectFeed2 => PushedBack(r, "\r\n--" + r.boundary + "\r", o.c, o.last);
    case _ =>
  }

  lemma UploadsStay(s: Store, h: PartHeader)
    ensures StartItem(s, h).uploads == s.uploads
  {
  }

  lemma NextKeepsInv(r: Request, o: Octet)
    requires Inv(r) && Counts(r, 1)
    ensures Inv(Next(r, o))
  {
    hide Next, Orderly, BetweenFiles, InContent;
    if r.store.fault {
      FaultStays(r, o);
    } else {
      OrderlyStep(r, o);
    }
  }

  lemma OrderlyStep(r: Request, o: Octet)
    requires ValidBoundary(r.boundary) && Counts(r, 1) && Orderly(r)
    ensures var n := Next(r, o); n.boundary == r.boundary && (n.store.fault || Orderly(n))
  {
    hide Next, BetweenFiles, InContent, ReadsFile;
    if InContent(r) && r.header.isFile {
      FileStep(r, o);
    } else if InContent(r) {
      FieldStep(r, o);
    } else {
      OtherStep(r, o);
    }
  }

  lemma {:induction false} FeedKeepsInv(r: Request, input: seq<Octet>)
    requires Inv(r) && Counts(r, |input|)
    ensures Inv(Feed(r, input)) && Feed(r, input).boundary == r.boundary
    decreases |input|
  {
    hide Next, Inv;
    if input != [] {
      NextKeepsInv(r, input[0]);
      NextCounts(r, input[0]);
      FeedKeepsInv(Next(r, input[0]), input[1..]);
    }
  }

  lemma NextCounts(r: Request, o: Octet)
    requires Counts(r, 1)
    ensures Next(r, o).parsedLength == r.parsedLength + 1 && Next(r, o).boundary == r.boundary
  {
    hide Dispatch;
    DispatchKeeps(Reset(r), o.c, o.last);
  }

  /** Any body, from its first byte on. */
  lemma BodyKeepsInv(boundary: string, contentLength: nat, input: seq<Octet>)
    requires ValidBoundary(boundary) && |input| < U32_LIMIT
    ensures Inv(Feed(NewRequest(boundary, contentLength), input))
    ensures Feed(NewRequest(boundary, contentLength), input).boundary == boundary
  {
    hide Feed;
    var r := NewRequest(boundary, contentLength);
    NothingFed(r, input);
    if input != [] {
      var n := Next(r, input[0]);
      assert n.store == r.store && (n.state == ExpectBoundary || n.state == ParseError) && n.parsedLength == 1;
      FeedKeepsInv(n, input[1..]);
    }
  }

  lemma NothingFed(r: Request, input: seq<Octet>)
    ensures Feed(r, input) == if input == [] then r else Feed(Next(r, input[0]), input[1..])
  {
  }

  /** What the callbacks have been given is clean, apart from the beginning of one file. */
  lemma UploadsAreClean(r: Request)
    requires Inv(r) && !r.store.fault
    ensures CleanOpen(Delimiter(r.boundary), r.store.uploads)
  {
    hide Clean, Scanned;
    var us := r.store.uploads;
    if InContent(r) && r.header.isFile {
      var start, written :| ReadsFile(start, r, written);
      var m, n := |start.store.uploads|, |written| - |r.store.buffer.value|;
      ChunksAreNotFinal(r.header.filename, written[..n], us[m..]);
      assert us[..m] == start.store.uploads && forall i :: m <= i < |us| ==> us[i] == us[m..][i - m];
    } else {
      assert us[..|us|] == us;
    }
  }

  /** Whatever body arrives: uploads that are those of a form with a file that contains the
      delimiter come only with a store through a null buffer. */
  lemma BadFileIsNotDelivered(parts: seq<Part>, boundary: string, contentLength: nat, input: seq<Octet>, p: Part)
    requires ValidBoundary(boundary) && |input| < U32_LIMIT && p in parts && p.File?
    requires Occurs(Delimiter(boundary), p.content)
    ensures var s := Feed(NewRequest(boundary, contentLength), input).store;
      s.fault || !AllDelivered(parts, s.uploads)
  {
    hide Feed, Inv, Occurs, AllDelivered, Clean;
    BodyKeepsInv(boundary, contentLength, input);
    var f := Feed(NewRequest(boundary, contentLength), input);
    if !f.store.fault && AllDelivered(parts, f.store.uploads) {
      UploadsAreClean(f);
      DeliveredIsClean(Delimiter(boundary), parts, f.store.uploads, p);
    }
  }
}
