/**
 Server-sent events: the printer of one event, and the parser of an event stream as the
 WHATWG HTML standard describes it ("Interpreting an event stream", section 9.2.6).
 */
module EventSource {
  import opened Wrappers
  import opened ArduinoString

  const CRLF: string := "\r\n"

  /** `String(n)` of an unsigned number. */
  function Decimal(n: nat): (r: string)
    ensures r != "" && forall i :: 0 <= i < |r| ==> '0' <= r[i] <= '9'
  {
    if n < 10 then [('0' as int + n) as char] else Decimal(n / 10) + [('0' as int + n % 10) as char]
  }

  // ----- The printer -----

  /** Where the first line of a message ends and where the next one begins. CR LF, and LF CR
      too, count as one line end. */
  function LineEnd(m: string): (r: (nat, nat))
    requires IndexOf(m, '\n') >= 0 || IndexOf(m, '\r') >= 0
    ensures r.0 < r.1 <= |m| && r.1 <= r.0 + 2
  {
    var n, r := IndexOf(m, '\n'), IndexOf(m, '\r');
    if n >= 0 && r >= 0 then
      if r < n then (r, if n == r + 1 then n + 1 else r + 1)
      else
        assert r != n;
        (n, if r == n + 1 then r + 1 else n + 1)
    else if n >= 0 then (n, n + 1)
    else (r, r + 1)
  }

  predicate OneLine(m: string) {
    IndexOf(m, '\n') < 0 && IndexOf(m, '\r') < 0
  }

  /** The lines of a message; a line end at its very end begins no further line. */
  function Lines(m: string): (r: seq<string>)
    ensures r != []
    decreases |m|
  {
    if OneLine(m) then [m] else
      var (end, next) := LineEnd(m);
      [m[..end]] + if next == |m| then [] else Lines(m[next..])
  }

  function Field(name: string, value: string): string {
    name + ": " + value + CRLF
  }

  function DataFields(lines: seq<string>): string {
    if lines == [] then "" else Field("data", lines[0]) + DataFields(lines[1..])
  }

  /** The data fields of a message, and the empty line that ends the event. */
  function DataBlock(m: string): string {
    DataFields(Lines(m)) + CRLF
  }

  function RetryField(reconnect: nat): string {
    if reconnect != 0 then Field("retry", Decimal(reconnect)) else ""
  }

  function IdField(id: nat): string {
    if id != 0 then Field("id", Decimal(id)) else ""
  }

  function EventField(event: Option<string>): string {
    if event.Some? then Field("event", event.value) else ""
  }

  function EventMessage(message: Option<string>, event: Option<string>, id: nat, reconnect: nat): string {
    RetryField(reconnect) + IdField(id) + EventField(event)
    + if message.Some? then DataBlock(message.value) else ""
  }

  lemma OneMoreLine(m: string)
    ensures OneLine(m) ==> DataBlock(m) == Field("data", m) + CRLF
    ensures !OneLine(m) ==>
      var (end, next) := LineEnd(m);
      DataBlock(m) == Field("data", m[..end]) + if next == |m| then CRLF else DataBlock(m[next..])
  {
    hide Field, LineEnd;
    var lines := Lines(m);
    assert DataFields(lines) == Field("data", lines[0]) + DataFields(lines[1..]);
    if OneLine(m) {
      assert lines[1..] == [];
    } else {
      var (end, next) := LineEnd(m);
      if next == |m| {
        assert lines[1..] == [];
      } else {
        assert lines[1..] == Lines(m[next..]);
        assert Field("data", lines[0]) + DataFields(lines[1..]) + CRLF
            == Field("data", lines[0]) + (DataFields(lines[1..]) + CRLF);
      }
    }
  }

  /** The loop that appends the data fields, for a message without NUL. */
  method AppendData(start: string, message: string) returns (ev: string)
    ensures ev == start + DataBlock(message)
  {
    hide DataBlock, LineEnd, Field;
    ev := start;
    var lineStart: nat, first: bool := 0, true;
    assert message[0..] == message;
    while first || lineStart < |message|
      invariant lineStart <= |message| && (first ==> lineStart == 0)
      invariant ev + (if first || lineStart < |message| then DataBlock(message[lineStart..]) else "")
        == start + DataBlock(message)
      decreases first, |message| - lineStart
    {
      first := false;
      var rest := message[lineStart..];
      ghost var before := ev;
      OneMoreLine(rest);
      if OneLine(rest) {
        ev := ev + (Field("data", rest) + CRLF);
        lineStart := |message|;
      } else {
        var (end, next) := LineEnd(rest);
        ev := ev + Field("data", rest[..end]);
        lineStart := lineStart + next;
        assert message[lineStart..] == rest[next..];
        if lineStart == |message| {
          ev := ev + CRLF;
          assert ev == before + (Field("data", rest[..end]) + CRLF);
        } else {
          assert ev + DataBlock(rest[next..]) == before + (Field("data", rest[..end]) + DataBlock(rest[next..]));
        }
      }
    }
    assert ev + "" == ev;
  }

  method GenerateEventMessage(message: Option<string>, event: Option<string>, id: nat, reconnect: nat)
    returns (ev: string)
    ensures ev == EventMessage(message, event, id, reconnect)
  {
    hide Field, DataBlock;
    ev := "";
    if reconnect != 0 { ev := ev + Field("retry", Decimal(reconnect)); }
    if id != 0 { ev := ev + Field("id", Decimal(id)); }
    if event.Some? { ev := ev + Field("event", event.value); }
    assert ev == RetryField(reconnect) + IdField(id) + EventField(event);
    if message.Some? { ev := AppendData(ev, message.value); }
  }

  // ----- The parser -----

  datatype ServerEvent = ServerEvent(kind: string, data: string, id: string)

  /** The buffers of the standard's parser, the reconnection time, and the dispatched events. */
  datatype Parser = Parser(data: string, kind: string, id: string, reconnection: Option<nat>, events: seq<ServerEvent>)

  predicate Digits(s: string) {
    s != "" && forall i :: 0 <= i < |s| ==> '0' <= s[i] <= '9'
  }

  function Number(s: string): nat
    requires forall i :: 0 <= i < |s| ==> '0' <= s[i] <= '9'
  {
    if s == "" then 0 else 10 * Number(s[..|s| - 1]) + (s[|s| - 1] as int - '0' as int)
  }

  function ProcessField(p: Parser, name: string, value: string): Parser {
    if name == "event" then p.(kind := value)
    else if name == "data" then p.(data := p.data + value + "\n")
    else if name == "id" then (if '\0' in value then p else p.(id := value))
    else if name == "retry" then (if Digits(value) then p.(reconnection := Some(Number(value))) else p)
    else p
  }

  function Dispatch(p: Parser): Parser {
    if p.data == "" then p.(kind := "")
    else
      var data := if p.data[|p.data| - 1] == '\n' then p.data[..|p.data| - 1] else p.data;
      p.(data := "", kind := "",
         events := p.events + [ServerEvent(if p.kind == "" then "message" else p.kind, data, p.id)])
  }

  function Colon(line: string): (i: int)
    ensures -1 <= i < |line|
    ensures i >= 0 ==> line[i] == ':' && ':' !in line[..i]
    ensures i < 0 ==> ':' !in line
  {
    if line == "" then -1
    else if line[0] == ':' then 0
    else
      var i := Colon(line[1..]);
      if i < 0 then -1 else
        assert line[..i + 1] == [line[0]] + line[1..][..i];
        i + 1
  }

  function ProcessLine(p: Parser, line: string): Parser {
    var c := Colon(line);
    if line == "" then Dispatch(p)
    else if c == 0 then p
    else if c < 0 then ProcessField(p, line, "")
    else
      var value := line[c + 1..];
      ProcessField(p, line[..c], if value != "" && value[0] == ' ' then value[1..] else value)
  }

  /** The first end of a line: the length of the line and of its end, or no complete line. */
  function FirstLine(s: string): (r: Option<(nat, nat)>)
    ensures r.Some? ==> r.value.1 > 0 && r.value.0 + r.value.1 <= |s|
  {
    if s == "" then None
    else if s[0] == '\n' then Some((0, 1))
    else if s[0] == '\r' then Some((0, if |s| > 1 && s[1] == '\n' then 2 else 1))
    else
      match FirstLine(s[1..])
      case None => None
      case Some(r) => Some((r.0 + 1, r.1))
  }

  function Parse(p: Parser, s: string): Parser
    decreases |s|
  {
    match FirstLine(s)
    case None => p
    case Some(r) => Parse(ProcessLine(p, s[..r.0]), s[r.0 + r.1..])
  }
}
