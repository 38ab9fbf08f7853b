/** The parser of an event stream reads back what the printer of events writes. */
module EventSourceRoundTrip {
  import opened Wrappers
  import opened ArduinoString
  import opened EventSource

  predicate NoBreaks(s: string) {
    '\n' !in s && '\r' !in s
  }

  // ----- One line -----

  lemma {:induction false} FirstLineIs(line: string, rest: string)
    requires NoBreaks(line)
    ensures FirstLine(line + CRLF + rest) == Some((|line|, 2))
  {
    var s := line + CRLF + rest;
    if line != "" {
      assert s[0] == line[0] && line[0] in line;
      assert s[1..] == line[1..] + CRLF + rest;
      FirstLineIs(line[1..], rest);
    }
  }

  lemma LineIsParsed(p: Parser, line: string, rest: string)
    requires NoBreaks(line)
    ensures Parse(p, line + CRLF + rest) == Parse(ProcessLine(p, line), rest)
  {
    hide ProcessLine, FirstLine;
    var s := line + CRLF + rest;
    FirstLineIs(line, rest);
    assert s[..|line|] == line && s[|line| + 2..] == rest;
  }

  lemma {:induction false} ColonIs(name: string, value: string)
    requires ':' !in name
    ensures Colon(name + ": " + value) == |name|
  {
    var s := name + ": " + value;
    if name != "" {
      assert s[0] == name[0] && name[0] in name;
      assert s[1..] == name[1..] + ": " + value;
      ColonIs(name[1..], value);
    }
  }

  /** A printed field is processed as that field, whatever its value begins with. */
  lemma FieldIsParsed(p: Parser, name: string, value: string, rest: string)
    requires name != "" && ':' !in name && NoBreaks(name) && NoBreaks(value)
    ensures Parse(p, Field(name, value) + rest) == Parse(ProcessField(p, name, value), rest)
  {
    hide Parse, ProcessField, Colon;
    var line := name + ": " + value;
    assert Field(name, value) + rest == line + CRLF + rest;
    LineIsParsed(p, line, rest);
    ColonIs(name, value);
    assert line[..|name|] == name && line[|name| + 1..] == " " + value && (" " + value)[1..] == value;
  }

  lemma EmptyLineIsParsed(p: Parser, rest: string)
    ensures Parse(p, CRLF + rest) == Parse(Dispatch(p), rest)
  {
    hide Parse, Dispatch;
    assert "" + CRLF + rest == CRLF + rest;
    LineIsParsed(p, "", rest);
  }

  // ----- Decimal numbers -----

  lemma {:induction false} DecimalIsNumber(n: nat)
    ensures Number(Decimal(n)) == n && Digits(Decimal(n)) && NoBreaks(Decimal(n)) && '\0' !in Decimal(n)
  {
    var s := Decimal(n);
    if n >= 10 {
      DecimalIsNumber(n / 10);
      assert s[..|s| - 1] == Decimal(n / 10);
    } else {
      assert s[..0] == "";
    }
  }

  // ----- The lines of a message -----

  lemma {:induction false} NotFound(m: string, c: char)
    requires '\0' !in m && IndexOf(m, c) < 0
    ensures c !in m
  {
    if m != "" {
      assert m[0] in m;
      NotFound(m[1..], c);
    }
  }

  lemma LineHasNoBreak(m: string)
    requires '\0' !in m
    ensures OneLine(m) ==> NoBreaks(m)
    ensures !OneLine(m) ==> NoBreaks(m[..LineEnd(m).0])
  {
    var n, r := IndexOf(m, '\n'), IndexOf(m, '\r');
    if n < 0 { NotFound(m, '\n'); }
    if r < 0 { NotFound(m, '\r'); }
    if !OneLine(m) {
      var end := LineEnd(m).0;
      assert n >= 0 ==> m[..end] <= m[..n];
      assert r >= 0 ==> m[..end] <= m[..r];
    }
  }

  lemma {:induction false} LinesHaveNoBreaks(m: string)
    requires '\0' !in m
    ensures forall i :: 0 <= i < |Lines(m)| ==> NoBreaks(Lines(m)[i])
    decreases |m|
  {
    hide LineEnd, NoBreaks;
    LineHasNoBreak(m);
    if !OneLine(m) {
      var (end, next) := LineEnd(m);
      if next < |m| { LinesHaveNoBreaks(m[next..]); }
    }
  }

  function Join(lines: seq<string>): string
    requires lines != []
  {
    if |lines| == 1 then lines[0] else lines[0] + "\n" + Join(lines[1..])
  }

  /** Data fields add their lines to the data buffer, each with a line feed. */
  lemma {:induction false} DataIsParsed(p: Parser, lines: seq<string>, rest: string)
    requires lines != [] && forall i :: 0 <= i < |lines| ==> NoBreaks(lines[i])
    ensures Parse(p, DataFields(lines) + rest) == Parse(p.(data := p.data + Join(lines) + "\n"), rest)
    decreases |lines|
  {
    hide Parse, Field, NoBreaks;
    var n := p.(data := p.data + lines[0] + "\n");
    var more := DataFields(lines[1..]) + rest;
    assert DataFields(lines) + rest == Field("data", lines[0]) + more;
    DataName();
    FieldIsParsed(p, "data", lines[0], more);
    assert ProcessField(p, "data", lines[0]) == n;
    if |lines| == 1 {
      assert more == rest;
    } else {
      DataIsParsed(n, lines[1..], rest);
      assert p.data + lines[0] + "\n" + Join(lines[1..]) + "\n" == p.data + (lines[0] + "\n" + Join(lines[1..])) + "\n";
    }
  }

  lemma DataName()
    ensures ':' !in "data" && NoBreaks("data")
  {
  }

  // ----- One event -----

  /** After the fields that come before the data. */
  function WithFields(p: Parser, event: Option<string>, id: nat, reconnect: nat): Parser {
    p.(reconnection := if reconnect != 0 then Some(reconnect) else p.reconnection,
       id := if id != 0 then Decimal(id) else p.id,
       kind := if event.Some? then event.value else p.kind)
  }

  lemma RetryIsParsed(p: Parser, reconnect: nat, rest: string)
    ensures Parse(p, RetryField(reconnect) + rest)
         == Parse(if reconnect != 0 then p.(reconnection := Some(reconnect)) else p, rest)
  {
    hide Parse, Decimal, Digits, Number;
    if reconnect == 0 {
      assert "" + rest == rest;
    } else {
      DecimalIsNumber(reconnect);
      assert ':' !in "retry" && NoBreaks("retry");
      FieldIsParsed(p, "retry", Decimal(reconnect), rest);
    }
  }

  lemma IdIsParsed(p: Parser, id: nat, rest: string)
    ensures Parse(p, IdField(id) + rest) == Parse(if id != 0 then p.(id := Decimal(id)) else p, rest)
  {
    hide Parse, Decimal;
    if id == 0 {
      assert "" + rest == rest;
    } else {
      DecimalIsNumber(id);
      assert ':' !in "id" && NoBreaks("id");
      FieldIsParsed(p, "id", Decimal(id), rest);
    }
  }

  lemma EventIsParsed(p: Parser, event: Option<string>, rest: string)
    requires event.Some? ==> NoBreaks(event.value)
    ensures Parse(p, EventField(event) + rest) == Parse(if event.Some? then p.(kind := event.value) else p, rest)
  {
    hide Parse;
    if event.None? {
      assert "" + rest == rest;
    } else {
      assert ':' !in "event" && NoBreaks("event");
      FieldIsParsed(p, "event", event.value, rest);
    }
  }

  lemma FieldsAreParsed(p: Parser, event: Option<string>, id: nat, reconnect: nat, rest: string)
    requires event.Some? ==> NoBreaks(event.value)
    ensures Parse(p, RetryField(reconnect) + IdField(id) + EventField(event) + rest)
         == Parse(WithFields(p, event, id, reconnect), rest)
  {
    hide Parse, RetryField, IdField, EventField, Decimal;
    var a, b, c := RetryField(reconnect), IdField(id), EventField(event);
    assert a + b + c + rest == a + (b + (c + rest));
    var p1 := if reconnect != 0 then p.(reconnection := Some(reconnect)) else p;
    RetryIsParsed(p, reconnect, b + (c + rest));
    IdIsParsed(p1, id, c + rest);
    EventIsParsed(if id != 0 then p1.(id := Decimal(id)) else p1, event, rest);
  }

  /** What an event says to a client of the stream. */
  function EventOf(p: Parser, message: string, event: Option<string>, id: nat): ServerEvent {
    ServerEvent(if event.Some? && event.value != "" then event.value else "message", Join(Lines(message)),
                if id != 0 then Decimal(id) else p.id)
  }

  /** Between events. */
  predicate AtRest(p: Parser) {
    p.data == "" && p.kind == ""
  }

  lemma BlockIsParsed(p: Parser, message: string, rest: string)
    requires p.data == "" && '\0' !in message
    ensures Parse(p, DataBlock(message) + rest) == Parse(
      p.(data := "", kind := "",
         events := p.events + [ServerEvent(if p.kind == "" then "message" else p.kind, Join(Lines(message)), p.id)]),
           rest)
  {
    hide Parse, DataFields, Lines, Join;
    var lines := Lines(message);
    LinesHaveNoBreaks(message);
    assert DataBlock(message) + rest == DataFields(lines) + (CRLF + rest);
    DataIsParsed(p, lines, CRLF + rest);
    var full := p.(data := p.data + Join(lines) + "\n");
    EmptyLineIsParsed(full, rest);
    assert full.data[..|full.data| - 1] == Join(lines);
  }

  /** An event with a message dispatches exactly one event. Its data are the lines of the
      message joined by line feeds; its type, identifier and reconnection time are the given ones. */
  lemma EventIsReadBack(p: Parser, message: string, event: Option<string>, id: nat, reconnect: nat, rest: string)
    requires AtRest(p) && '\0' !in message && (event.Some? ==> NoBreaks(event.value))
    ensures var n := WithFields(p, event, id, reconnect).(kind := "",
        events := p.events + [EventOf(p, message, event, id)]);
      AtRest(n) && Parse(p, EventMessage(Some(message), event, id, reconnect) + rest) == Parse(n, rest)
  {
    hide Parse, RetryField, IdField, EventField, DataBlock, Lines, Join, Decimal;
    var head := RetryField(reconnect) + IdField(id) + EventField(event);
    assert EventMessage(Some(message), event, id, reconnect) + rest == head + (DataBlock(message) + rest);
    FieldsAreParsed(p, event, id, reconnect, DataBlock(message) + rest);
    BlockIsParsed(WithFields(p, event, id, reconnect), message, rest);
  }

  // ----- A stream of events -----

  datatype Sent = Sent(message: string, event: Option<string>, id: nat, reconnect: nat)

  function Stream(all: seq<Sent>): string {
    if all == [] then "" else
      EventMessage(Some(all[0].message), all[0].event, all[0].id, all[0].reconnect) + Stream(all[1..])
  }

  /** The events of a stream; an event without an identifier keeps the last one. */
  function Events(all: seq<Sent>, id: string): seq<ServerEvent> {
    if all == [] then [] else
      var n := if all[0].id != 0 then Decimal(all[0].id) else id;
      [ServerEvent(if all[0].event.Some? && all[0].event.value != "" then all[0].event.value else "message",
                   Join(Lines(all[0].message)), n)] + Events(all[1..], n)
  }

  lemma {:induction false} StreamIsReadBack(p: Parser, all: seq<Sent>)
    requires AtRest(p)
    requires forall i :: 0 <= i < |all| ==>
      '\0' !in all[i].message && (all[i].event.Some? ==> NoBreaks(all[i].event.value))
    ensures AtRest(Parse(p, Stream(all))) && Parse(p, Stream(all)).events == p.events + Events(all, p.id)
    decreases |all|
  {
    hide EventMessage, Lines, Join, Decimal;
    if all != [] {
      var e := all[0];
      var n := WithFields(p, e.event, e.id, e.reconnect).(kind := "",
          events := p.events + [EventOf(p, e.message, e.event, e.id)]);
      EventIsReadBack(p, e.message, e.event, e.id, e.reconnect, Stream(all[1..]));
      StreamIsReadBack(n, all[1..]);
      assert n.events + Events(all[1..], n.id) == p.events + ([n.events[|p.events|]] + Events(all[1..], n.id));
    }
  }

  // ----- The data of an event, character by character -----

  predicate IsBreak(c: char) {
    c == '\n' || c == '\r'
  }

  /** Every line end becomes one line feed; CR LF and LF CR are one line end each. */
  function Normalised(m: string): string {
    if m == "" then ""
    else if !IsBreak(m[0]) then [m[0]] + Normalised(m[1..])
    else "\n" + Normalised(m[if |m| > 1 && IsBreak(m[1]) && m[1] != m[0] then 2 else 1..])
  }

  function WithoutLastLineFeed(s: string): string {
    if s != "" && s[|s| - 1] == '\n' then s[..|s| - 1] else s
  }

  lemma {:induction false} NormalisedPrefix(a: string, b: string)
    requires NoBreaks(a)
    ensures Normalised(a + b) == a + Normalised(b)
  {
    if a == "" {
      assert a + b == b;
    } else {
      assert a[0] in a && (a + b)[1..] == a[1..] + b;
      NormalisedPrefix(a[1..], b);
    }
  }

  /** The length of the line end at position `end`. */
  function BreakSize(m: string, end: nat): nat
    requires end < |m|
  {
    if |m| > end + 1 && IsBreak(m[end + 1]) && m[end + 1] != m[end] then 2 else 1
  }

  lemma LineEndIs(m: string)
    requires '\0' !in m && !OneLine(m)
    ensures var (end, next) := LineEnd(m); IsBreak(m[end]) && next == end + BreakSize(m, end)
  {
    hide IndexOf;
    var n, r := IndexOf(m, '\n'), IndexOf(m, '\r');
    if n < 0 { NotFound(m, '\n'); }
    if r < 0 { NotFound(m, '\r'); }
    var end := LineEnd(m).0;
    if |m| > end + 1 {
      assert n > end + 1 ==> m[..n][end + 1] == m[end + 1];
      assert r > end + 1 ==> m[..r][end + 1] == m[end + 1];
    }
  }

  /** A line end found by the printer is one that the reference sees. */
  lemma NormalisedLineEnd(m: string)
    requires '\0' !in m && !OneLine(m)
    ensures var (end, next) := LineEnd(m); Normalised(m) == m[..end] + ("\n" + Normalised(m[next..]))
  {
    hide IndexOf, LineEnd, NoBreaks;
    var (end, next) := LineEnd(m);
    var tail := m[end..];
    LineHasNoBreak(m);
    LineEndIs(m);
    assert m == m[..end] + tail;
    NormalisedPrefix(m[..end], tail);
    assert tail[next - end..] == m[next..];
  }

  lemma LastLineFeed(a: string, b: string)
    requires b != ""
    ensures WithoutLastLineFeed(a + b) == a + WithoutLastLineFeed(b)
  {
    assert (a + b)[..|a + b| - 1] == a + b[..|b| - 1];
  }

  /** The data of an event are its message with normalised line ends, minus one at the end. */
  lemma {:induction false} LinesAreNormalised(m: string)
    requires '\0' !in m
    ensures Join(Lines(m)) == WithoutLastLineFeed(Normalised(m))
    decreases |m|
  {
    hide IndexOf, LineEnd, Normalised, NoBreaks;
    LineHasNoBreak(m);
    if OneLine(m) {
      PlainLine(m);
    } else {
      var (end, next) := LineEnd(m);
      NormalisedLineEnd(m);
      if next == |m| {
        NormalisedEmpty();
        assert m[next..] == "" && "\n" + "" == "\n";
        assert Lines(m) == [m[..end]] && Normalised(m) == m[..end] + "\n";
      } else {
        assert m[next..] != "";
        NotEmpty(m[next..]);
        LinesAreNormalised(m[next..]);
        assert Lines(m)[1..] == Lines(m[next..]);
        LastLineFeed(m[..end] + "\n", Normalised(m[next..]));
        assert m[..end] + ("\n" + Normalised(m[next..])) == m[..end] + "\n" + Normalised(m[next..]);
      }
    }
  }

  lemma NormalisedEmpty()
    ensures Normalised("") == ""
  {
  }

  lemma NotEmpty(m: string)
    requires m != ""
    ensures Normalised(m) != ""
  {
  }

  lemma PlainLine(m: string)
    requires NoBreaks(m)
    ensures Normalised(m) == m == WithoutLastLineFeed(m)
  {
    assert m + "" == m;
    NormalisedPrefix(m, "");
    assert m != "" ==> m[|m| - 1] in m;
  }

  lemma {:induction false} NormalisedWithoutCarriageReturn(m: string)
    requires '\r' !in m
    ensures Normalised(m) == m
  {
    if m != "" {
      assert m[0] in m && (|m| > 1 ==> m[1] in m);
      NormalisedWithoutCarriageReturn(m[1..]);
    }
  }

  /** A message without CR arrives as it is, minus one line feed at its end. */
  lemma MessageWithoutCarriageReturn(m: string)
    requires '\0' !in m && '\r' !in m
    ensures Join(Lines(m)) == WithoutLastLineFeed(m)
  {
    LinesAreNormalised(m);
    NormalisedWithoutCarriageReturn(m);
  }

  // ----- The line ends of the standard -----

  /** The lines of a text for the WHATWG standards: CR LF, CR and LF are each one line end, and
      LF CR is two. */
  function StandardNormalised(m: string): string {
    if m == "" then ""
    else if !IsBreak(m[0]) then [m[0]] + StandardNormalised(m[1..])
    else "\n" + StandardNormalised(m[if m[0] == '\r' && |m| > 1 && m[1] == '\n' then 2 else 1..])
  }

  /** The first line of a text, as the parser of an event stream finds it, is split off. */
  ghost predicate SplitsFirstLine(m: string) {
    match FirstLine(m)
    case None => StandardNormalised(m) == m
    case Some(r) => StandardNormalised(m) == m[..r.0] + ("\n" + StandardNormalised(m[r.0 + r.1..]))
  }

  lemma {:induction false} StandardLines(m: string)
    ensures SplitsFirstLine(m)
  {
    if m != "" && IsBreak(m[0]) {
      BreakFirst(m);
    } else if m != "" {
      hide SplitsFirstLine;
      StandardLines(m[1..]);
      SplitBehind(m);
    }
  }

  lemma SplitBehind(m: string)
    requires m != "" && !IsBreak(m[0]) && SplitsFirstLine(m[1..])
    ensures SplitsFirstLine(m)
  {
    hide StandardNormalised, FirstLine;
    PlainFirst(m);
    if FirstLine(m[1..]).None? {
      assert m == [m[0]] + m[1..];
    } else {
      var r := FirstLine(m[1..]).value;
      TailParts(m, r.0, r.1);
      Regroup([m[0]], m[1..][..r.0], "\n" + StandardNormalised(m[r.0 + 1 + r.1..]));
    }
  }

  lemma BreakFirst(m: string)
    requires m != "" && IsBreak(m[0])
    ensures FirstLine(m).Some? && FirstLine(m).value.0 == 0
    ensures StandardNormalised(m) == m[..0] + ("\n" + StandardNormalised(m[FirstLine(m).value.1..]))
  {
  }

  lemma PlainFirst(m: string)
    requires m != "" && !IsBreak(m[0])
    ensures StandardNormalised(m) == [m[0]] + StandardNormalised(m[1..])
    ensures match FirstLine(m[1..])
      case None => FirstLine(m) == None
      case Some(r) => FirstLine(m) == Some((r.0 + 1, r.1))
  {
    PlainIsKept(m);
    hide StandardNormalised;
  }

  lemma PlainIsKept(m: string)
    requires m != "" && !IsBreak(m[0])
    ensures StandardNormalised(m) == [m[0]] + StandardNormalised(m[1..])
  {
  }

  lemma Regroup(a: string, b: string, c: string)
    ensures a + (b + c) == (a + b) + c
  {
  }

  lemma TailParts(m: string, n: nat, k: nat)
    requires m != "" && n + k < |m|
    ensures m[..n + 1] == [m[0]] + m[1..][..n] && m[1..][n + k..] == m[n + 1 + k..]
  {
  }

  /** Every line end LF CR that the printer finds is followed by an LF. */
  predicate Agrees(m: string) {
    m == "" ||
    if LfCr(m) then |m| > 2 && m[2] == '\n' && Agrees(m[2..])
    else Agrees(m[if IsBreak(m[0]) then BreakSize(m, 0) else 1..])
  }

  predicate LfCr(m: string) {
    |m| > 1 && m[0] == '\n' && m[1] == '\r'
  }

  /** The standard finds at least as many line ends. */
  lemma {:induction false} StandardIsLonger(m: string)
    ensures |StandardNormalised(m)| >= |Normalised(m)|
    decreases |m|
  {
    if LfCr(m) {
      StandardIsLonger(m[2..]);
      CarriageReturnFirst(m[1..]);
    } else if m != "" {
      StandardIsLonger(m[if IsBreak(m[0]) then BreakSize(m, 0) else 1..]);
    }
  }

  /** A CR is a line end of its own, or it is one with the LF behind it. */
  lemma CarriageReturnFirst(m: string)
    requires m != "" && m[0] == '\r'
    ensures StandardNormalised(m) ==
      if |m| > 1 && m[1] == '\n' then StandardNormalised(m[1..]) else "\n" + StandardNormalised(m[1..])
  {
    if |m| > 1 && m[1] == '\n' {
      LineFeedFirst(m[1..]);
      assert m[1..][1..] == m[2..];
    }
  }

  lemma LineFeedFirst(m: string)
    requires m != "" && m[0] == '\n'
    ensures StandardNormalised(m) == "\n" + StandardNormalised(m[1..])
  {
  }

  /** The line ends of a message are those of the standard exactly if they agree. */
  lemma {:induction false} NormalisedIsStandardIff(m: string)
    ensures Normalised(m) == StandardNormalised(m) <==> Agrees(m)
    decreases |m|
  {
    if LfCr(m) {
      var rest := m[2..];
      LineFeedFirst(m);
      CarriageReturnFirst(m[1..]);
      assert m[1..][1..] == rest;
      assert Normalised(m) == "\n" + Normalised(rest);
      if |m| > 2 && m[2] == '\n' {
        NormalisedIsStandardIff(rest);
        SameTail("\n", Normalised(rest), StandardNormalised(rest));
      } else {
        StandardIsLonger(rest);
      }
    } else if m != "" {
      var rest := m[if IsBreak(m[0]) then BreakSize(m, 0) else 1..];
      var head := if IsBreak(m[0]) then "\n" else [m[0]];
      assert Normalised(m) == head + Normalised(rest) && StandardNormalised(m) == head + StandardNormalised(rest);
      NormalisedIsStandardIff(rest);
      SameTail(head, Normalised(rest), StandardNormalised(rest));
    }
  }

  lemma SameTail(head: string, a: string, b: string)
    ensures head + a == head + b <==> a == b
  {
    assert (head + a)[|head|..] == a && (head + b)[|head|..] == b;
  }

  predicate EndsIn(s: string, c: char) {
    s != "" && s[|s| - 1] == c
  }

  predicate EndsInBreak(m: string) {
    m != "" && IsBreak(m[|m| - 1])
  }

  /** A normal form ends in a line feed exactly if the message ends in a line end. */
  lemma {:induction false} NormalisedEnd(m: string)
    ensures EndsIn(Normalised(m), '\n') <==> EndsInBreak(m)
    decreases |m|
  {
    if m != "" {
      var rest := m[if IsBreak(m[0]) then BreakSize(m, 0) else 1..];
      assert Normalised(m) == [if IsBreak(m[0]) then '\n' else m[0]] + Normalised(rest);
      if rest != "" { NotEmpty(rest); }
      NormalisedEnd(rest);
    }
  }

  lemma {:induction false} StandardEnd(m: string)
    ensures EndsIn(StandardNormalised(m), '\n') <==> EndsInBreak(m)
    decreases |m|
  {
    if m != "" {
      var rest := m[if m[0] == '\r' && |m| > 1 && m[1] == '\n' then 2 else 1..];
      assert StandardNormalised(m) == [if IsBreak(m[0]) then '\n' else m[0]] + StandardNormalised(rest);
      if rest != "" { StandardIsLonger(rest); NotEmpty(rest); }
      StandardEnd(rest);
    }
  }

  lemma EqualWithoutLast(a: string, b: string)
    requires EndsIn(a, '\n') <==> EndsIn(b, '\n')
    ensures WithoutLastLineFeed(a) == WithoutLastLineFeed(b) <==> a == b
  {
    if EndsIn(a, '\n') {
      assert a == a[..|a| - 1] + "\n" && b == b[..|b| - 1] + "\n";
    }
  }

  /** An event carries the lines that the standard sees in the message exactly if every line
      end LF CR is followed by an LF. */
  lemma LinesAreStandardIff(m: string)
    requires '\0' !in m
    ensures Join(Lines(m)) == WithoutLastLineFeed(StandardNormalised(m)) <==> Agrees(m)
  {
    hide Normalised, StandardNormalised, Agrees, Lines, Join;
    LinesAreNormalised(m);
    NormalisedIsStandardIff(m);
    NormalisedEnd(m);
    StandardEnd(m);
    EqualWithoutLast(Normalised(m), StandardNormalised(m));
  }

  lemma {:induction false} AgreesBehind(a: string, b: string)
    requires NoBreaks(a)
    ensures Agrees(a + b) == Agrees(b)
  {
    if a == "" {
      assert a + b == b;
    } else {
      assert a[0] in a && (a + b)[1..] == a[1..] + b;
      AgreesBehind(a[1..], b);
    }
  }

  /** So one LF CR without a further LF is enough for a line end to be lost. */
  lemma LfCrIsOneLineEnd(a: string, b: string)
    requires '\0' !in a && '\0' !in b && NoBreaks(a) && (b != "" ==> b[0] != '\n')
    ensures var m := a + "\n\r" + b;
      Join(Lines(m)) != WithoutLastLineFeed(StandardNormalised(m))
  {
    hide Lines, Join, StandardNormalised;
    var m := a + "\n\r" + b;
    assert m == a + ("\n\r" + b) && ("\n\r" + b)[2..] == b;
    AgreesBehind(a, "\n\r" + b);
    LinesAreStandardIff(m);
  }

  lemma {:induction false} NoLfCrAgrees(m: string)
    requires forall i :: 0 < i < |m| && m[i] == '\r' ==> m[i - 1] != '\n'
    ensures Agrees(m)
    decreases |m|
  {
    if m != "" {
      assert |m| > 1 && m[1] == '\r' ==> m[0] != '\n';
      var n := if IsBreak(m[0]) then BreakSize(m, 0) else 1;
      NoLfCrAgrees(m[n..]);
    }
  }

  /** A message in which no CR follows an LF arrives with the lines of the standard. */
  lemma MessageWithoutLfCr(m: string)
    requires '\0' !in m && forall i :: 0 < i < |m| && m[i] == '\r' ==> m[i - 1] != '\n'
    ensures Join(Lines(m)) == WithoutLastLineFeed(StandardNormalised(m))
  {
    NoLfCrAgrees(m);
    LinesAreStandardIff(m);
  }
}
