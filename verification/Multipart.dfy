/**
 The incremental multipart/form-data parser of the request object: an eleven-state
 byte machine that pushes a partially matched delimiter back as data, a 1460-byte
 upload buffer, and the body loop that feeds it one TCP buffer at a time.

 Octets are represented by `char`.  Everything in the parser compares, copies or
 counts octets; the only arithmetic is on lengths, and the C++ `size_t` wrap-around
 is written out with `U32` wherever a subtraction can go below zero.
 */
module Multipart {
  import opened Wrappers
  import opened ArduinoString

  /** Capacity of the upload buffer allocated for a file part. */
  const UPLOAD_BUFFER := 1460

  datatype ParseState =
    | ExpectBoundary | ParseHeaders | WaitForReturn1 | ExpectFeed1 | ExpectDash1 | ExpectDash2
    | BoundaryOrData | Dash3OrReturn2 | ExpectFeed2 | ParsingFinished | ParseError

  /** A parameter handed to the application: a form field, or a completed upload. */
  datatype Param = FieldParam(name: string, value: string) | FileParam(name: string, filename: string, size: nat)

  /** One call of the upload callback. */
  datatype Upload = Upload(filename: string, index: nat, data: string, final: bool)

  /** What the headers of the current part have said. */
  datatype PartHeader = PartHeader(name: string, filename: string, contentType: string, isFile: bool)

  /** The content of the current part, and what has been handed over so far. `fault` records
      a store through a null upload buffer, which the code does not guard against. */
  datatype Store = Store(
    value: string, size: nat, buffer: Option<string>, params: seq<Param>, uploads: seq<Upload>, fault: bool)

  /** The fields of the request that the body parser reads and writes. */
  datatype Request = Request(
    boundary: string, contentLength: nat, parsedLength: nat, state: ParseState, boundaryPosition: nat,
    temp: string, header: PartHeader, store: Store, ended: bool, handled: nat)

  const NO_HEADER := PartHeader("", "", "", false)

  function NewRequest(boundary: string, contentLength: nat): Request {
    Request(boundary, contentLength, 0, ExpectBoundary, 0, "", NO_HEADER, Store("", 0, None, [], [], false), false, 0)
  }

  // ----- Specification of one byte -----

  function HandleUploadByte(s: Store, h: PartHeader, data: char, last: bool): Store {
    match s.buffer
    case None => s.(fault := true)
    case Some(buffered) =>
      var b := buffered + [data];
      if last || |b| == UPLOAD_BUFFER then
        s.(buffer := Some(""), uploads := s.uploads + [Upload(h.filename, U32(s.size - |b|), b, false)])
      else
        s.(buffer := Some(b))
  }

  function WriteItemByte(s: Store, h: PartHeader, data: char, last: bool): Store {
    var s := s.(size := U32(s.size + 1));
    if h.isFile then HandleUploadByte(s, h, data, last) else s.(value := s.value + [data])
  }

  function WriteItem(s: Store, h: PartHeader, bytes: string, last: bool): Store
    decreases |bytes|
  {
    if bytes == "" then s else WriteItem(WriteItemByte(s, h, bytes[0], last), h, bytes[1..], last)
  }

  /** One parameter of a Content-Disposition line. */
  function Disposition(h: PartHeader, key: string, value: string): PartHeader {
    if key == "name" then h.(name := value)
    else if key == "filename" then h.(filename := value, isFile := true)
    else h
  }

  /** The loop over the `;`-separated parameters, then the last parameter. */
  function Dispositions(h: PartHeader, temp: string): PartHeader
    decreases |temp|
  {
    var semi := IndexOf(temp, ';');
    var eq := IndexOf(temp, '=');
    var key := Substring(temp, 0, U32(eq));
    if semi > 0 then
      var h := Disposition(h, key, Substring(temp, eq + 2, semi - 1));
      Dispositions(h, SubstringFrom(temp, semi + 2))
    else
      Disposition(h, key, Substring(temp, eq + 2, U32(|temp| - 1)))
  }

  function HeaderLine(h: PartHeader, temp: string): PartHeader {
    if |temp| > 12 && EqualsIgnoreCase(Substring(temp, 0, 12), "Content-Type") then
      h.(contentType := SubstringFrom(temp, 14), isFile := true)
    else if |temp| > 19 && EqualsIgnoreCase(Substring(temp, 0, 19), "Content-Disposition") then
      Dispositions(h, SubstringFrom(temp, IndexOf(temp, ';') + 2))
    else
      h
  }

  /** A blank line ends the part's headers and opens its content. */
  function StartItem(s: Store, h: PartHeader): Store {
    s.(size := 0, value := "", buffer := if h.isFile then Some("") else s.buffer)
  }

  /** The delimiter has been matched completely. */
  function FinishItem(s: Store, h: PartHeader): Store {
    if !h.isFile then
      s.(params := s.params + [FieldParam(h.name, s.value)])
    else if s.size == 0 then
      s.(buffer := None)
    else
      var buffered := s.buffer.GetOr("");
      s.(uploads := s.uploads + [Upload(h.filename, U32(s.size - |buffered|), buffered, true)],
         params := s.params + [FileParam(h.name, h.filename, s.size)],
         buffer := None)
  }

  function Data(r: Request, data: char, last: bool): (n: Request)
    ensures n == r.(state := n.state, store := n.store)
  {
    if data != '\r' then r.(store := WriteItemByte(r.store, r.header, data, last)) else r.(state := ExpectFeed1)
  }

  /** A mismatch: the matched part of the delimiter was data, and so may be this byte. */
  function PushBack(r: Request, matched: string, data: char, last: bool): (n: Request)
    ensures n == r.(state := n.state, store := n.store)
  {
    Data(r.(state := WaitForReturn1, store := WriteItem(r.store, r.header, matched, last)), data, last)
  }

  function Boundary(r: Request, data: char): Request {
    var p, n := r.parsedLength, |r.boundary|;
    if p < 2 && data != '-' then r.(state := ParseError)
    else if U32(p - 2) < n && r.boundary[U32(p - 2)] != data then r.(state := ParseError)
    else if U32(p - 2) == n && data != '\r' then r.(state := ParseError)
    else if U32(p - 3) == n then
      if data != '\n' then r.(state := ParseError) else r.(state := ParseHeaders, header := r.header.(isFile := false))
    else r
  }

  function Headers(r: Request, data: char): Request {
    var r := if data != '\r' && data != '\n' then r.(temp := r.temp + [data]) else r;
    if data != '\n' then r
    else if |r.temp| > 0 then r.(header := HeaderLine(r.header, r.temp), temp := "")
    else r.(state := WaitForReturn1, store := StartItem(r.store, r.header))
  }

  function AfterDelimiter(r: Request, data: char, last: bool): (n: Request)
    ensures n == r.(state := n.state, store := n.store, contentLength := n.contentLength)
    ensures n.contentLength != r.contentLength ==> n.state == ParsingFinished
  {
    var r := if data == '-' && U32(r.contentLength - r.parsedLength - 4) != 0
             then r.(contentLength := U32(r.parsedLength + 4)) else r;
    if data == '\r' then r.(state := ExpectFeed2)
    else if data == '-' && r.contentLength == U32(r.parsedLength + 4) then r.(state := ParsingFinished)
    else PushBack(r, "\r\n--" + r.boundary, data, last)
  }

  function Reset(r: Request): Request {
    if r.parsedLength == 0
    then r.(state := ExpectBoundary, temp := "", header := NO_HEADER.(isFile := r.header.isFile)) else r
  }

  /** What one byte of a multipart body does to the request. */
  function ParseByte(r: Request, data: char, last: bool): Request {
    Dispatch(Reset(r), data, last)
  }

  function Dispatch(r: Request, data: char, last: bool): Request {
    match r.state
    case WaitForReturn1 => Data(r, data, last)
    case ExpectBoundary => Boundary(r, data)
    case ParseHeaders => Headers(r, data)
    case ExpectFeed1 => if data != '\n' then PushBack(r, "\r", data, last) else r.(state := ExpectDash1)
    case ExpectDash1 => if data != '-' then PushBack(r, "\r\n", data, last) else r.(state := ExpectDash2)
    case ExpectDash2 =>
      if data != '-' then PushBack(r, "\r\n-", data, last) else r.(state := BoundaryOrData, boundaryPosition := 0)
    case BoundaryOrData =>
      if r.boundaryPosition < |r.boundary| && r.boundary[r.boundaryPosition] != data then
        PushBack(r, "\r\n--" + r.boundary[..r.boundaryPosition], data, last)
      else if r.boundaryPosition == U32(|r.boundary| - 1) then
        r.(state := Dash3OrReturn2, store := FinishItem(r.store, r.header))
      else r.(boundaryPosition := r.boundaryPosition + 1)
    case Dash3OrReturn2 => AfterDelimiter(r, data, last)
    case ExpectFeed2 =>
      if data == '\n' then r.(state := ParseHeaders, header := r.header.(isFile := false))
      else PushBack(r, "\r\n--" + r.boundary + "\r", data, last)
    case ParsingFinished => r
    case ParseError => r
  }

  /** A byte of the body together with the flag that it ends its TCP buffer. */
  datatype Octet = Octet(c: char, last: bool)

  function Next(r: Request, o: Octet): Request {
    var r := ParseByte(r, o.c, o.last);
    r.(parsedLength := U32(r.parsedLength + 1))
  }

  function Feed(r: Request, input: seq<Octet>): Request
    decreases |input|
  {
    if input == [] then r else Feed(Next(r, input[0]), input[1..])
  }

  function Octets(buffer: string): (o: seq<Octet>)
    ensures |o| == |buffer|
    ensures forall i :: 0 <= i < |o| ==> o[i] == Octet(buffer[i], i == |buffer| - 1)
  {
    seq(|buffer|, i requires 0 <= i < |buffer| => Octet(buffer[i], i == |buffer| - 1))
  }

  /** One TCP buffer of the body: the handler runs when the declared length is reached. */
  function OnData(r: Request, buffer: string): Request {
    if r.ended then r else
      var r := Feed(r, Octets(buffer));
      if r.parsedLength == r.contentLength then r.(ended := true, handled := r.handled + 1) else r
  }

  function Deliver(r: Request, buffers: seq<string>): Request
    decreases |buffers|
  {
    if buffers == [] then r else Deliver(OnData(r, buffers[0]), buffers[1..])
  }
}
