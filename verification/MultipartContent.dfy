/** The content of a part, with partial delimiters inside, up to the delimiter that ends it. */
module MultipartContent {
  import opened ArduinoString
  import opened Multipart
  import opened MultipartForm

  // ----- Feeding -----

  ghost predicate Spells(input: seq<Octet>, s: string) {
    |input| == |s| && forall i :: 0 <= i < |s| ==> input[i].c == s[i]
  }

  /** Room for `n` more bytes below the 32-bit counter limit, after the first byte. */
  ghost predicate Counts(r: Request, n: nat) {
    0 < r.parsedLength && r.parsedLength + n < U32_LIMIT
  }

  lemma {:induction false} FeedSplit(r: Request, a: seq<Octet>, b: seq<Octet>)
    ensures Feed(r, a + b) == Feed(Feed(r, a), b)
    decreases |a|
  {
    if a == [] {
      assert a + b == b;
    } else {
      assert (a + b)[1..] == a[1..] + b;
      FeedSplit(Next(r, a[0]), a[1..], b);
    }
  }

  lemma SpellsSplit(input: seq<Octet>, a: string, b: string)
    requires Spells(input, a + b)
    ensures Spells(input[..|a|], a) && Spells(input[|a|..], b)
    ensures input == input[..|a|] + input[|a|..]
  {
    forall i | 0 <= i < |a| ensures input[..|a|][i].c == a[i] { assert (a + b)[i] == a[i]; }
    forall i | 0 <= i < |b| ensures input[|a|..][i].c == b[i] { assert (a + b)[|a| + i] == b[i]; }
  }

  /** Feeding `a + b` is feeding `a` and then `b`. */
  lemma FeedParts(r: Request, input: seq<Octet>, a: string, b: string)
    requires Spells(input, a + b)
    ensures Spells(input[..|a|], a) && Spells(input[|a|..], b)
    ensures Feed(r, input) == Feed(Feed(r, input[..|a|]), input[|a|..])
  {
    SpellsSplit(input, a, b);
    FeedSplit(r, input[..|a|], input[|a|..]);
  }

  // ----- Item content -----

  /** `s` is `start` with exactly `written` stored in the current item. */
  ghost predicate Holding(h: PartHeader, start: Store, s: Store, written: string) {
    && s.size == |written|
    && s.params == start.params && s.fault == start.fault
    && if h.isFile then
         && s.value == start.value
         && s.buffer.Some?
         && start.uploads <= s.uploads
         && var n := |written| - |s.buffer.value|;
         && |s.buffer.value| < UPLOAD_BUFFER
         && 0 <= n
         && s.buffer.value == written[n..]
         && Chunks(h.filename, written[..n], s.uploads[|start.uploads|..])
       else
         s.value == written && s.uploads == start.uploads && s.buffer == start.buffer
  }

  lemma WriteByte(h: PartHeader, start: Store, s: Store, written: string, c: char, last: bool)
    requires Holding(h, start, s, written)
    requires |written| + 1 < U32_LIMIT
    ensures Holding(h, start, WriteItemByte(s, h, c, last), written + [c])
  {
    if h.isFile {
      var w := WriteItemByte(s, h, c, last);
      var all := written + [c];
      var b := s.buffer.value + [c];
      var n := |all| - |b|;
      assert all[n..] == b;
      assert all[..n] == written[..n];
      var before := s.uploads[|start.uploads|..];
      if last || |b| == UPLOAD_BUFFER {
        var u := Upload(h.filename, n, b, false);
        assert w.uploads[|start.uploads|..] == before + [u];
        assert (before + [u])[..|before|] == before;
        assert all[..|all|] == all;
      }
    }
  }

  lemma {:induction false} WriteBytes(h: PartHeader, start: Store, s: Store, written: string, bytes: string, last: bool)
    requires Holding(h, start, s, written)
    requires |written| + |bytes| < U32_LIMIT
    ensures Holding(h, start, WriteItem(s, h, bytes, last), written + bytes)
    decreases |bytes|
  {
    if bytes == "" {
      assert written + bytes == written;
    } else {
      WriteByte(h, start, s, written, bytes[0], last);
      WriteBytes(h, start, WriteItemByte(s, h, bytes[0], last), written + [bytes[0]], bytes[1..], last);
      assert written + [bytes[0]] + bytes[1..] == written + bytes;
    }
  }

  // ----- Matching the delimiter -----

  /** The content states; each but the first has matched a part of the delimiter. */
  ghost predicate InContent(r: Request) {
    || r.state in {WaitForReturn1, ExpectFeed1, ExpectDash1, ExpectDash2}
    || (r.state == BoundaryOrData && r.boundaryPosition < |r.boundary|)
  }

  /** What has been matched. */
  ghost function Matched(r: Request): string
    requires InContent(r)
  {
    match r.state
    case WaitForReturn1 => ""
    case ExpectFeed1 => "\r"
    case ExpectDash1 => "\r\n"
    case ExpectDash2 => "\r\n-"
    case _ => "\r\n--" + r.boundary[..r.boundaryPosition]
  }

  /** The byte that would extend the match. */
  ghost function Expected(r: Request): char
    requires InContent(r)
  {
    match r.state
    case WaitForReturn1 => '\r'
    case ExpectFeed1 => '\n'
    case BoundaryOrData => r.boundary[r.boundaryPosition]
    case _ => '-'
  }

  /** Whether that byte completes the delimiter. */
  ghost predicate AtLast(r: Request) {
    r.state == BoundaryOrData && r.boundaryPosition + 1 == |r.boundary|
  }

  lemma MatchedGrows(r: Request)
    requires InContent(r) && ValidBoundary(r.boundary)
    ensures Matched(r) + [Expected(r)] <= Delimiter(r.boundary)
    ensures AtLast(r) <==> Matched(r) + [Expected(r)] == Delimiter(r.boundary)
  {
    if r.state == BoundaryOrData {
      var i := r.boundaryPosition;
      assert r.boundary[..i] + [r.boundary[i]] == r.boundary[..i + 1];
      if AtLast(r) { assert r.boundary[..i + 1] == r.boundary; }
    }
  }

  /** The expected byte arrives. */
  lemma MatchStep(r: Request, o: Octet)
    requires InContent(r) && Counts(r, 1) && ValidBoundary(r.boundary)
    requires o.c == Expected(r)
    ensures var n := Next(r, o);
      if AtLast(r) then
        n == r.(state := Dash3OrReturn2, store := FinishItem(r.store, r.header), parsedLength := r.parsedLength + 1)
      else
        && n == r.(state := n.state, boundaryPosition := n.boundaryPosition, parsedLength := r.parsedLength + 1)
        && InContent(n) && Matched(n) == Matched(r) + [o.c]
  {
    if r.state == BoundaryOrData {
      var i := r.boundaryPosition;
      assert r.boundary[..i] + [r.boundary[i]] == r.boundary[..i + 1];
    } else {
      assert r.boundary[..0] == "";
    }
  }

  /** Any other byte arrives: what had matched is content. */
  lemma MismatchStep(r: Request, o: Octet)
    requires InContent(r) && Counts(r, 1)
    requires o.c != Expected(r)
    ensures Next(r, o) == PushBack(r, Matched(r), o.c, o.last).(parsedLength := r.parsedLength + 1)
  {
    if r.state == WaitForReturn1 {
      assert r.(state := WaitForReturn1, store := WriteItem(r.store, r.header, "", o.last)) == r;
    }
  }

  /** Everything consumed so far is what is stored plus what is matched. */
  ghost predicate Reading(start: Request, r: Request, written: string, consumed: string) {
    && InContent(r)
    && r == start.(state := r.state, boundaryPosition := r.boundaryPosition, parsedLength := r.parsedLength,
        store := r.store)
    && Holding(r.header, start.store, r.store, written)
    && consumed == written + Matched(r)
  }

  /** A byte that does not extend the match: what had matched is stored, and so is the
      byte itself unless it is the carriage return that may start a new match. */
  lemma PushBackStep(start: Request, r: Request, written: string, consumed: string, o: Octet)
    returns (written': string)
    requires Reading(start, r, written, consumed)
    requires Counts(r, 1) && |consumed| + 1 < U32_LIMIT
    requires o.c != Expected(r)
    ensures Reading(start, Next(r, o), written', consumed + [o.c])
    ensures Next(r, o).parsedLength == r.parsedLength + 1
    ensures o.c == '\r' ==> written' == consumed
  {
    MismatchStep(r, o);
    var w := WriteItem(r.store, r.header, Matched(r), o.last);
    WriteBytes(r.header, start.store, r.store, written, Matched(r), o.last);
    if o.c == '\r' {
      written' := consumed;
    } else {
      WriteByte(r.header, start.store, w, consumed, o.c, o.last);
      written' := consumed + [o.c];
      assert written' + "" == written';
    }
  }

  /** One content byte that does not complete the delimiter. */
  lemma ContentStep(start: Request, r: Request, written: string, consumed: string, o: Octet)
    returns (written': string)
    requires Reading(start, r, written, consumed)
    requires Counts(r, 1) && |consumed| + 1 < U32_LIMIT
    requires ValidBoundary(r.boundary)
    requires o.c == Expected(r) ==> !AtLast(r)
    ensures Reading(start, Next(r, o), written', consumed + [o.c])
    ensures Next(r, o).parsedLength == r.parsedLength + 1
    ensures o.c == '\r' ==> written' == consumed
  {
    if o.c == Expected(r) {
      MatchStep(r, o);
      written' := written;
      assert written + (Matched(r) + [o.c]) == consumed + [o.c];
      if o.c == '\r' { assert r.state == WaitForReturn1; assert consumed == written; }
    } else {
      written' := PushBackStep(start, r, written, consumed, o);
    }
  }

  lemma NotComplete(r: Request, written: string, consumed: string, s: string)
    requires InContent(r) && ValidBoundary(r.boundary) && consumed == written + Matched(r)
    requires s != "" && !Occurs(Delimiter(r.boundary), consumed + s)
    ensures s[0] == Expected(r) ==> !AtLast(r)
  {
    if s[0] == Expected(r) && AtLast(r) {
      var d := Delimiter(r.boundary);
      MatchedGrows(r);
      assert (consumed + s)[|written|..|written| + |d|] == d;
      assert OccursAt(d, consumed + s, |written|);
    }
  }

  /** Content that does not contain the delimiter is stored, up to a matched prefix. */
  lemma {:induction false} ContentRun(start: Request, r: Request, written: string, consumed: string, input: seq<Octet>,
                                      s: string)
    returns (written': string)
    requires Reading(start, r, written, consumed)
    requires Counts(r, |s|) && |consumed| + |s| < U32_LIMIT
    requires ValidBoundary(r.boundary)
    requires Spells(input, s)
    requires !Occurs(Delimiter(r.boundary), consumed + s)
    ensures Reading(start, Feed(r, input), written', consumed + s)
    ensures Feed(r, input).parsedLength == r.parsedLength + |s|
    decreases |s|
  {
    if s == "" {
      assert consumed + s == consumed;
      written' := written;
    } else {
      NotComplete(r, written, consumed, s);
      var w := ContentStep(start, r, written, consumed, input[0]);
      assert consumed + [s[0]] + s[1..] == consumed + s;
      written' := ContentRun(start, Next(r, input[0]), w, consumed + [s[0]], input[1..], s[1..]);
    }
  }

  /** The rest of a delimiter, once its beginning has been matched. */
  lemma {:induction false} DelimiterRest(r: Request, input: seq<Octet>, rest: string)
    requires InContent(r) && ValidBoundary(r.boundary)
    requires Matched(r) + rest == Delimiter(r.boundary)
    requires Spells(input, rest)
    requires Counts(r, |input|)
    ensures var f := Feed(r, input);
      f == r.(state := Dash3OrReturn2, store := FinishItem(r.store, r.header),
              parsedLength := r.parsedLength + |input|, boundaryPosition := f.boundaryPosition)
    decreases |input|
  {
    MatchedGrows(r);
    assert rest[0] == Delimiter(r.boundary)[|Matched(r)|] == Expected(r) by {
      if rest == "" { assert false; }
    }
    MatchStep(r, input[0]);
    if AtLast(r) {
      assert input[1..] == [];
    } else {
      var n := Next(r, input[0]);
      assert Matched(n) + rest[1..] == Matched(r) + rest;
      DelimiterRest(n, input[1..], rest[1..]);
    }
  }

  /** A complete delimiter after any content ends the item with exactly that content:
      a carriage return always restarts the match, because the delimiter has only one. */
  lemma DelimiterRun(start: Request, r: Request, written: string, consumed: string, input: seq<Octet>)
    returns (s: Store)
    requires Reading(start, r, written, consumed)
    requires ValidBoundary(r.boundary)
    requires Spells(input, Delimiter(r.boundary))
    requires Counts(r, |input|) && |consumed| + 1 < U32_LIMIT
    ensures Holding(r.header, start.store, s, consumed)
    ensures var f := Feed(r, input);
      f == start.(state := Dash3OrReturn2, store := FinishItem(s, r.header),
                  parsedLength := r.parsedLength + |input|, boundaryPosition := f.boundaryPosition)
  {
    var d := Delimiter(r.boundary);
    var w := ContentStep(start, r, written, consumed, input[0]);
    var n := Next(r, input[0]);
    s := n.store;
    assert Matched(n) == "\r" by {
      assert consumed + Matched(n) == consumed + "\r";
      assert (consumed + Matched(n))[|consumed|..] == Matched(n);
    }
    assert "\r" + d[1..] == d;
    DelimiterRest(n, input[1..], d[1..]);
  }
}
