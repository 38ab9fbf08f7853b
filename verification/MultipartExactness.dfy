/** When a form is read back: the condition on the contents of its parts is exact. */
module MultipartExactness {
  import opened Buffers
  import opened ArduinoString
  import opened Multipart
  import opened MultipartForm
  import opened MultipartContent
  import opened MultipartRoundTrip
  import opened MultipartFiles

  // ----- Parameters are only added -----

  lemma {:induction false} WritingKeepsParams(s: Store, h: PartHeader, bytes: string, last: bool)
    ensures WriteItem(s, h, bytes, last).params == s.params
    decreases |bytes|
  {
    if bytes != "" { WritingKeepsParams(WriteItemByte(s, h, bytes[0], last), h, bytes[1..], last); }
  }

  lemma PushBackKeepsParams(r: Request, matched: string, data: char, last: bool)
    ensures PushBack(r, matched, data, last).store.params == r.store.params
  {
    hide WriteItem;
    WritingKeepsParams(r.store, r.header, matched, last);
  }

  lemma NextGrowsParams(r: Request, o: Octet)
    ensures r.store.params <= Next(r, o).store.params
  {
    hide Dispatch;
    DispatchGrowsParams(Reset(r), o.c, o.last);
  }

  lemma DispatchGrowsParams(r: Request, data: char, last: bool)
    ensures r.store.params <= Dispatch(r, data, last).store.params
  {
    hide PushBack, HeaderLine, AfterDelimiter;
    match r.state
    case ExpectFeed1 => PushBackKeepsParams(r, "\r", data, last);
    case ExpectDash1 => PushBackKeepsParams(r, "\r\n", data, last);
    case ExpectDash2 => PushBackKeepsParams(r, "\r\n-", data, last);
    case BoundaryOrData =>
      if r.boundaryPosition < |r.boundary| {
        PushBackKeepsParams(r, "\r\n--" + r.boundary[..r.boundaryPosition], data, last);
      }
    case Dash3OrReturn2 => AfterDelimiterKeepsParams(r, data, last);
    case ExpectFeed2 => PushBackKeepsParams(r, "\r\n--" + r.boundary + "\r", data, last);
    case _ =>
  }

  lemma AfterDelimiterKeepsParams(r: Request, data: char, last: bool)
    ensures AfterDelimiter(r, data, last).store.params == r.store.params
  {
    hide PushBack;
    PushBackKeepsParams(r, "\r\n--" + r.boundary, data, last);
    PushBackKeepsParams(r.(contentLength := U32(r.parsedLength + 4)), "\r\n--" + r.boundary, data, last);
  }

  lemma {:induction false} FeedGrowsParams(r: Request, input: seq<Octet>)
    ensures r.store.params <= Feed(r, input).store.params
    decreases |input|
  {
    hide Next;
    if input != [] {
      NextGrowsParams(r, input[0]);
      FeedGrowsParams(Next(r, input[0]), input[1..]);
    }
  }

  lemma PrefixesGrow(r: Request, input: seq<Octet>, m: nat, n: nat)
    requires m <= n <= |input|
    ensures Feed(r, input[..m]).store.params <= Feed(r, input[..n]).store.params
  {
    hide Feed;
    assert input[..n] == input[..m] + input[m..n];
    FeedSplit(r, input[..m], input[m..n]);
    FeedGrowsParams(Feed(r, input[..m]), input[m..n]);
  }

  /** Whatever the cut, the request ends up where some prefix of the body leads. */
  lemma {:induction false} DeliverIsSomeFeed(r: Request, buffers: seq<string>) returns (n: nat)
    ensures n <= |AllOctets(buffers)| && Deliver(r, buffers).store == Feed(r, AllOctets(buffers)[..n]).store
    decreases |buffers|
  {
    hide Next;
    if buffers == [] || r.ended {
      n := 0;
      if buffers != [] { EndedStays(r, buffers); }
    } else {
      var first, rest, next := Octets(buffers[0]), AllOctets(buffers[1..]), OnData(r, buffers[0]);
      if next.ended {
        EndedStays(next, buffers[1..]);
        n := |first|;
        assert (first + rest)[..n] == first;
      } else {
        var m := DeliverIsSomeFeed(next, buffers[1..]);
        n := |first| + m;
        assert (first + rest)[..n] == first + rest[..m];
        FeedSplit(r, first, rest[..m]);
      }
    }
  }

  lemma {:induction false} EndedStays(r: Request, buffers: seq<string>)
    requires r.ended
    ensures Deliver(r, buffers) == r
    decreases |buffers|
  {
    if buffers != [] { EndedStays(r, buffers[1..]); }
  }

  // ----- A value that contains the delimiter -----

  lemma {:induction false} FirstOccurrence(pattern: string, s: string, from: nat) returns (i: nat)
    requires pattern != "" && OccursAt(pattern, s, from)
    ensures OccursAt(pattern, s, i) && !Occurs(pattern, s[..i])
    decreases from
  {
    i := from;
    if Occurs(pattern, s[..from]) {
      var j :| OccursAt(pattern, s[..from], j);
      assert s[..from][j..j + |pattern|] == s[j..j + |pattern|];
      i := FirstOccurrence(pattern, s, j);
    }
  }

  /** The form of one field whose value is cut at its first delimiter. */
  lemma CutPart(p: Part, boundary: string, i: nat)
    requires p.Field? && OccursAt(Delimiter(boundary), p.value, i)
    ensures var q := p.(value := p.value[..i]);
      RenderPart(p, boundary) == RenderPart(q, boundary) + (p.value[i + |Delimiter(boundary)|..] + Delimiter(boundary))
  {
    hide Delimiter, HeaderText;
    var d := Delimiter(boundary);
    assert p.value == p.value[..i] + d + p.value[i + |d|..];
  }

  /** Parts whose header lines say what they are. */
  ghost predicate Nameable(parts: seq<Part>) {
    forall p | p in parts :: SaysPart(p)
  }

  ghost predicate AnyOccurs(parts: seq<Part>, boundary: string) {
    exists p | p in parts :: Occurs(Delimiter(boundary), Content(p))
  }

  ghost predicate AnyFileOccurs(parts: seq<Part>, boundary: string) {
    exists p | p in parts :: p.File? && Occurs(Delimiter(boundary), p.content)
  }

  /** The first such value is delivered cut. */
  lemma {:induction false} CutRun(r: Request, input: seq<Octet>, done: seq<Part>, parts: seq<Part>)
    returns (n: nat, k: nat, cut: string)
    requires AfterBoundary(r) && Counts(r, |input|) && ValidBoundary(r.boundary)
    requires Nameable(parts) && AnyOccurs(parts, r.boundary) && !AnyFileOccurs(parts, r.boundary)
    requires Spells(input, RenderTail(parts, r.boundary))
    requires Done(r.store, done)
    ensures n <= |input| && k < |parts| && parts[k].Field? && |cut| < |parts[k].value|
    ensures Feed(r, input[..n]).store.params == FormParams(done + (parts[..k] + [parts[k].(value := cut)]))
    decreases |parts|
  {
    hide Feed, Done, RenderPart, Delimiter, AllDelivered, Counts, FormParams, Occurs, AnyOccurs, AnyFileOccurs,
      Nameable, ValidPart;
    SomePart(parts, r.boundary);
    var p, tail := parts[0], RenderTail(parts[1..], r.boundary);
    if Occurs(Delimiter(r.boundary), Content(p)) {
      FirstIsField(parts, r.boundary);
      FirstIsNameable(parts);
      n, cut := CutHere(r, input, done, p, tail);
      k := 0;
      assert parts[..0] + [p.(value := cut)] == [p.(value := cut)];
    } else {
      var one := "\r\n" + RenderPart(p, r.boundary);
      FeedParts(r, input, one, tail);
      CountsLess(r, |input|, |one|);
      FirstIsValid(parts, r.boundary);
      NextPart(r, input[..|one|], done, p);
      var next := Feed(r, input[..|one|]);
      CountsAfter(r, next, |input|, |one|);
      RestOccurs(parts, r.boundary);
      var m, j;
      m, j, cut := CutRun(next, input[|one|..], done + [p], parts[1..]);
      n, k := |one| + m, j + 1;
      assert input[..n] == input[..|one|] + input[|one|..][..m];
      FeedSplit(r, input[..|one|], input[|one|..][..m]);
      assert parts[..k] == [p] + parts[1..][..j];
      assert done + [p] + (parts[1..][..j] + [parts[k].(value := cut)])
          == done + (parts[..k] + [parts[k].(value := cut)]);
    }
  }

  lemma RestOccurs(parts: seq<Part>, boundary: string)
    requires parts != [] && AnyOccurs(parts, boundary) && Nameable(parts) && !AnyFileOccurs(parts, boundary)
    requires !Occurs(Delimiter(boundary), Content(parts[0]))
    ensures AnyOccurs(parts[1..], boundary) && Nameable(parts[1..]) && !AnyFileOccurs(parts[1..], boundary)
  {
    hide Delimiter, Occurs, SaysPart;
    var p :| p in parts && Occurs(Delimiter(boundary), Content(p));
    assert p in parts[1..];
  }

  lemma SomePart(parts: seq<Part>, boundary: string)
    requires AnyOccurs(parts, boundary)
    ensures parts != []
  {
  }

  lemma FirstIsNameable(parts: seq<Part>)
    requires parts != [] && Nameable(parts)
    ensures SaysPart(parts[0])
  {
    hide SaysPart;
    assert parts[0] in parts;
  }

  lemma FirstIsValid(parts: seq<Part>, boundary: string)
    requires parts != [] && Nameable(parts) && !Occurs(Delimiter(boundary), Content(parts[0]))
    ensures ValidPart(parts[0], boundary)
  {
    hide SaysPart, Occurs;
    assert parts[0] in parts;
  }

  /** The first part is a field if its content contains the delimiter and no file does. */
  lemma FirstIsField(parts: seq<Part>, boundary: string)
    requires parts != [] && Occurs(Delimiter(boundary), Content(parts[0])) && !AnyFileOccurs(parts, boundary)
    ensures parts[0].Field?
  {
    hide Delimiter, Occurs;
    assert parts[0] in parts;
  }

  lemma CountsLess(r: Request, n: nat, m: nat)
    requires Counts(r, n) && m <= n
    ensures Counts(r, m)
  {
  }

  lemma CountsAfter(r: Request, next: Request, n: nat, m: nat)
    requires Counts(r, n) && m <= n && next.parsedLength == r.parsedLength + m
    ensures Counts(next, n - m)
  {
  }

  lemma Regrouped(a: string, b: string, c: string, d: string)
    ensures (a + (b + c)) + d == (a + b) + (c + d)
  {
  }

  lemma CutHere(r: Request, input: seq<Octet>, done: seq<Part>, p: Part, tail: string) returns (n: nat, cut: string)
    requires AfterBoundary(r) && Counts(r, |input|) && ValidBoundary(r.boundary)
    requires p.Field? && SaysPart(p) && Occurs(Delimiter(r.boundary), p.value)
    requires Spells(input, ("\r\n" + RenderPart(p, r.boundary)) + tail)
    requires Done(r.store, done)
    ensures n <= |input| && |cut| < |p.value|
    ensures Feed(r, input[..n]).store.params == FormParams(done + [p.(value := cut)])
  {
    hide Feed, RenderPart, AllDelivered, Counts, FormParams;
    var from :| OccursAt(Delimiter(r.boundary), p.value, from);
    var i := FirstOccurrence(Delimiter(r.boundary), p.value, from);
    cut := p.value[..i];
    var q, more := p.(value := cut), p.value[i + |Delimiter(r.boundary)|..] + Delimiter(r.boundary);
    CutPart(p, r.boundary, i);
    var one := "\r\n" + RenderPart(q, r.boundary);
    Regrouped("\r\n", RenderPart(q, r.boundary), more, tail);
    FeedParts(r, input, one, more + tail);
    n := |one|;
    CountsLess(r, |input|, n);
    NextPart(r, input[..n], done, q);
  }

  lemma {:induction false} ParamsConcat(a: seq<Part>, b: seq<Part>)
    ensures FormParams(a + b) == FormParams(a) + FormParams(b)
    decreases |b|
  {
    hide PartParams;
    if b == [] {
      assert a + b == a;
    } else {
      var init := b[..|b| - 1];
      assert (a + b)[..|a + b| - 1] == a + init;
      ParamsConcat(a, init);
    }
  }

  lemma OneParam(p: Part)
    requires p.Field?
    ensures FormParams([p]) == [FieldParam(p.name, p.value)]
  {
    assert [p][..0] == [];
  }

  lemma CutParamsDiffer(parts: seq<Part>, k: nat, cut: string, got: seq<Param>)
    requires k < |parts| && parts[k].Field? && |cut| < |parts[k].value|
    requires var bad := FormParams(parts[..k] + [parts[k].(value := cut)]); bad <= got || got <= bad
    ensures got != FormParams(parts)
  {
    hide FormParams;
    var p, q, before := parts[k], parts[k].(value := cut), FormParams(parts[..k]);
    assert parts == parts[..k] + ([p] + parts[k + 1..]);
    ParamsConcat(parts[..k], [p] + parts[k + 1..]);
    ParamsConcat([p], parts[k + 1..]);
    ParamsConcat(parts[..k], [q]);
    OneParam(p);
    OneParam(q);
    assert FormParams(parts)[|before|] == FieldParam(p.name, p.value);
    assert FormParams(parts[..k] + [q])[|before|] == FieldParam(p.name, cut);
  }

  lemma CutBody(parts: seq<Part>, boundary: string, input: seq<Octet>) returns (n: nat, k: nat, cut: string)
    requires ValidBoundary(boundary) && Nameable(parts) && AnyOccurs(parts, boundary) && !AnyFileOccurs(parts, boundary)
    requires Spells(input, Render(parts, boundary)) && |input| < U32_LIMIT
    ensures n <= |input| && k < |parts| && parts[k].Field? && |cut| < |parts[k].value|
    ensures Feed(NewRequest(boundary, |input|), input[..n]).store.params
      == FormParams(parts[..k] + [parts[k].(value := cut)])
  {
    hide Feed, Done, RenderTail, AnyOccurs, AnyFileOccurs, Nameable, FormParams;
    var r, b := NewRequest(boundary, |input|), |boundary| + 2;
    NothingDone(r.store);
    FeedParts(r, input, "--" + boundary, RenderTail(parts, boundary));
    assert ("--" + boundary)[0..] == "--" + boundary;
    FirstBoundary(r, input[..b]);
    var m;
    m, k, cut := CutRun(r.(parsedLength := b), input[b..], [], parts);
    n := b + m;
    assert input[..n] == input[..b] + input[b..][..m];
    FeedSplit(r, input[..b], input[b..][..m]);
    assert [] + (parts[..k] + [parts[k].(value := cut)]) == parts[..k] + [parts[k].(value := cut)];
  }

  lemma NoneOccurs(parts: seq<Part>, boundary: string)
    requires Nameable(parts) && !AnyOccurs(parts, boundary)
    ensures forall p | p in parts :: ValidPart(p, boundary)
  {
    hide Occurs, Delimiter, SaysPart;
  }

  // ----- Every form -----

  /** The parameters and uploads are those of the form, and no byte was stored through a null buffer. */
  ghost predicate ReadBack(s: Store, parts: seq<Part>) {
    s.params == FormParams(parts) && AllDelivered(parts, s.uploads) && !s.fault
  }

  lemma BadFieldIsCut(parts: seq<Part>, boundary: string, buffers: seq<string>)
    requires ValidBoundary(boundary) && Nameable(parts) && AnyOccurs(parts, boundary) && !AnyFileOccurs(parts, boundary)
    requires Flatten(buffers) == Render(parts, boundary) && |Render(parts, boundary)| < U32_LIMIT
    ensures Deliver(NewRequest(boundary, |Render(parts, boundary)|), buffers).store.params != FormParams(parts)
  {
    hide Deliver, Feed, Nameable, AnyOccurs, AnyFileOccurs, FormParams, Render, NewRequest;
    var r, input := NewRequest(boundary, |Render(parts, boundary)|), AllOctets(buffers);
    AllOctetsSpell(buffers);
    var n, k, cut := CutBody(parts, boundary, input);
    var m := DeliverIsSomeFeed(r, buffers);
    if m <= n { PrefixesGrow(r, input, m, n); } else { PrefixesGrow(r, input, n, m); }
    CutParamsDiffer(parts, k, cut, Deliver(r, buffers).store.params);
  }

  lemma BadFileIsLost(parts: seq<Part>, boundary: string, contentLength: nat, buffers: seq<string>)
    requires ValidBoundary(boundary) && AnyFileOccurs(parts, boundary) && |AllOctets(buffers)| < U32_LIMIT
    ensures var s := Deliver(NewRequest(boundary, contentLength), buffers).store;
      s.fault || !AllDelivered(parts, s.uploads)
  {
    hide Deliver, Feed, AllDelivered, NewRequest;
    var p :| p in parts && p.File? && Occurs(Delimiter(boundary), p.content);
    var m := DeliverIsSomeFeed(NewRequest(boundary, contentLength), buffers);
    BadFileIsNotDelivered(parts, boundary, contentLength, AllOctets(buffers)[..m], p);
  }

  /** A form of fields and files is delivered as it was written exactly when no content contains
      the delimiter, for every boundary and every cut into TCP buffers. */
  lemma FormIsReadBackIff(parts: seq<Part>, boundary: string, buffers: seq<string>)
    requires ValidBoundary(boundary) && Nameable(parts)
    requires Flatten(buffers) == Render(parts, boundary) && |Render(parts, boundary)| < U32_LIMIT
    requires forall i :: 0 <= i < |buffers| ==> buffers[i] != ""
    ensures ReadBack(Deliver(NewRequest(boundary, |Render(parts, boundary)|), buffers).store, parts)
      <==> !AnyOccurs(parts, boundary)
  {
    hide Deliver, Feed, Nameable, AnyOccurs, AnyFileOccurs, AllDelivered, FormParams, ValidPart, Render, NewRequest;
    AllOctetsSpell(buffers);
    if AnyFileOccurs(parts, boundary) {
      BadFileIsLost(parts, boundary, |Render(parts, boundary)|, buffers);
      FilesAreParts(parts, boundary);
    } else if AnyOccurs(parts, boundary) {
      BadFieldIsCut(parts, boundary, buffers);
    } else {
      NoneOccurs(parts, boundary);
      FormIsReadBack(parts, boundary, buffers);
    }
  }

  lemma FilesAreParts(parts: seq<Part>, boundary: string)
    requires AnyFileOccurs(parts, boundary)
    ensures AnyOccurs(parts, boundary)
  {
    hide Occurs;
  }
}
