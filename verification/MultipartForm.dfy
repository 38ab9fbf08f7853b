/** Forms as section 4 of RFC 7578 renders them, and what the parser must deliver for one. */
module MultipartForm {
  import opened Multipart

  /** A parameter of a Content-Disposition line. */
  datatype Parameter = Parameter(key: string, value: string)

  /** A header line of a part; `header` is the name of the line as it is written. */
  datatype Line =
    | DispositionLine(header: string, params: seq<Parameter>)
    | TypeLine(header: string, value: string)
    | OtherLine(text: string)

  /** A part, with the header lines that say what it is. */
  datatype Part =
    | Field(name: string, value: string, lines: seq<Line>)
    | File(name: string, filename: string, content: string, lines: seq<Line>)

  function Content(p: Part): string {
    if p.Field? then p.value else p.content
  }

  // ----- The printer -----

  function Delimiter(boundary: string): string { "\r\n--" + boundary }

  function Quoted(key: string, value: string): string { key + "=\"" + value + "\"" }

  function ParameterText(params: seq<Parameter>): string
    requires params != []
  {
    var q := Quoted(params[0].key, params[0].value);
    if |params| == 1 then q else q + "; " + ParameterText(params[1..])
  }

  function LineText(l: Line): string {
    match l
    case DispositionLine(header, params) =>
      header + ": form-data" + if params == [] then "" else "; " + ParameterText(params)
    case TypeLine(header, value) => header + ": " + value
    case OtherLine(text) => text
  }

  function HeaderText(lines: seq<Line>): string {
    if lines == [] then "" else (LineText(lines[0]) + "\r\n") + HeaderText(lines[1..])
  }

  function RenderPart(p: Part, boundary: string): string {
    HeaderText(p.lines) + ("\r\n" + (Content(p) + Delimiter(boundary)))
  }

  /** What follows a boundary: a line break and the next part, or the closing dashes. */
  function RenderTail(parts: seq<Part>, boundary: string): string {
    if parts == [] then "--\r\n"
    else ("\r\n" + RenderPart(parts[0], boundary)) + RenderTail(parts[1..], boundary)
  }

  function Render(parts: seq<Part>, boundary: string): string {
    ("--" + boundary) + RenderTail(parts, boundary)
  }

  // ----- What may be rendered -----

  ghost predicate OccursAt(pattern: string, s: string, i: int) {
    0 <= i <= |s| - |pattern| && s[i..i + |pattern|] == pattern
  }

  ghost predicate Occurs(pattern: string, s: string) {
    exists i :: OccursAt(pattern, s, i)
  }

  /** RFC 2046 limits a boundary to 70 characters; the parser counts them in 8 bits. */
  ghost predicate ValidBoundary(boundary: string) {
    0 < |boundary| < 256 && '\r' !in boundary
  }

  predicate OnOneLine(s: string) {
    '\r' !in s && '\n' !in s
  }

  predicate ValidName(s: string) {
    OnOneLine(s) && '\0' !in s && ';' !in s
  }

  predicate ValidKey(key: string) {
    key != "" && '=' !in key && ValidName(key)
  }

  /** The same letters, each in either case. */
  predicate SameLetters(a: string, b: string) {
    |a| == |b| && forall i :: 0 <= i < |a| ==>
      a[i] == b[i]
      || ('A' <= a[i] <= 'Z' && b[i] as int == a[i] as int + 32)
      || ('A' <= b[i] <= 'Z' && a[i] as int == b[i] as int + 32)
  }

  /** More than a name, which it begins with. */
  predicate Begins(text: string, name: string) {
    |text| > |name| && SameLetters(text[..|name|], name)
  }

  predicate ValidLine(l: Line) {
    match l
    case DispositionLine(header, params) =>
      && SameLetters(header, "Content-Disposition") && params != []
      && forall i :: 0 <= i < |params| ==> ValidKey(params[i].key) && ValidName(params[i].value)
    case TypeLine(header, value) => SameLetters(header, "Content-Type") && OnOneLine(value)
    case OtherLine(text) =>
      text != "" && OnOneLine(text) && !Begins(text, "Content-Type") && !Begins(text, "Content-Disposition")
  }

  predicate ValidLines(lines: seq<Line>) {
    forall i :: 0 <= i < |lines| ==> ValidLine(lines[i])
  }

  /** The values that the lines give for a parameter of the disposition, in order. */
  function Values(params: seq<Parameter>, key: string): seq<string> {
    if params == [] then [] else
      (if params[0].key == key then [params[0].value] else []) + Values(params[1..], key)
  }

  function AllValues(lines: seq<Line>, key: string): seq<string> {
    if lines == [] then [] else
      (if lines[0].DispositionLine? then Values(lines[0].params, key) else []) + AllValues(lines[1..], key)
  }

  function Types(lines: seq<Line>): seq<string> {
    if lines == [] then [] else (if lines[0].TypeLine? then [lines[0].value] else []) + Types(lines[1..])
  }

  /** The last value that is given counts; without one, what was there before. */
  function LastOr(values: seq<string>, before: string): string {
    if values == [] then before else values[|values| - 1]
  }

  /** The lines say that the part is what it is: a part with a file name is a file, and so is one
      with a type. */
  predicate SaysPart(p: Part) {
    && ValidLines(p.lines)
    && AllValues(p.lines, "name") != [] && LastOr(AllValues(p.lines, "name"), "") == p.name
    && if p.Field? then AllValues(p.lines, "filename") == [] && Types(p.lines) == []
       else AllValues(p.lines, "filename") != [] && LastOr(AllValues(p.lines, "filename"), "") == p.filename
  }

  ghost predicate ValidPart(p: Part, boundary: string) {
    SaysPart(p) && !Occurs(Delimiter(boundary), Content(p))
  }

  /** The lines that browsers write. */
  function BrowserField(name: string): seq<Line> {
    [DispositionLine("Content-Disposition", [Parameter("name", name)])]
  }

  function BrowserFile(name: string, filename: string, contentType: string): seq<Line> {
    [DispositionLine("Content-Disposition", [Parameter("name", name), Parameter("filename", filename)]),
     TypeLine("Content-Type", contentType)]
  }

  lemma BrowserFieldIsSaid(name: string, value: string)
    requires ValidName(name)
    ensures SaysPart(Field(name, value, BrowserField(name)))
  {
    hide ValidName, ValidKey;
    KeysAreValid();
    var lines, params := BrowserField(name), [Parameter("name", name)];
    OneValue(params[0], []);
    assert [params[0]] + [] == params && lines[1..] == [];
    assert AllValues([], "name") == [] && AllValues([], "filename") == [] && Types([]) == [];
    assert lines[0].DispositionLine? && lines[0].params == params;
    assert AllValues(lines, "name") == Values(params, "name") + [] == [name];
    assert AllValues(lines, "filename") == Values(params, "filename") + [] == [];
  }

  lemma BrowserFileIsSaid(name: string, filename: string, contentType: string, content: string)
    requires ValidName(name) && ValidName(filename) && OnOneLine(contentType)
    ensures SaysPart(File(name, filename, content, BrowserFile(name, filename, contentType)))
  {
    hide ValidName, ValidKey;
    KeysAreValid();
    var lines := BrowserFile(name, filename, contentType);
    var first, second := Parameter("name", name), Parameter("filename", filename);
    OneValue(first, [second]);
    OneValue(second, []);
    assert [second] + [] == [second] && [first] + [second] == lines[0].params;
    assert lines[1..] == [lines[1]] && [lines[1]][1..] == [];
    assert AllValues([lines[1]], "name") == [] && AllValues([lines[1]], "filename") == [];
  }

  lemma KeysAreValid()
    ensures ValidKey("name") && ValidKey("filename")
  {
  }

  lemma OneValue(p: Parameter, more: seq<Parameter>)
    ensures forall key :: Values([p] + more, key) == (if p.key == key then [p.value] else []) + Values(more, key)
  {
    assert ([p] + more)[1..] == more;
  }

  // ----- What must be delivered -----

  /** Non-final uploads of one file, contiguous from offset 0, that spell `content`. */
  ghost predicate Chunks(filename: string, content: string, uploads: seq<Upload>) {
    if uploads == [] then content == "" else
      var u := uploads[|uploads| - 1];
      && u.filename == filename && !u.final
      && 0 < |u.data| <= UPLOAD_BUFFER
      && |u.data| <= |content|
      && u.index == |content| - |u.data|
      && u.data == content[u.index..]
      && Chunks(filename, content[..u.index], uploads[..|uploads| - 1])
  }

  /** The uploads of a whole file: chunks, then one final call with what is left. */
  ghost predicate FileUploads(filename: string, content: string, uploads: seq<Upload>) {
    && uploads != []
    && var u := uploads[|uploads| - 1];
    && u.filename == filename && u.final
    && |u.data| < UPLOAD_BUFFER
    && |u.data| <= |content|
    && u.index == |content| - |u.data|
    && u.data == content[u.index..]
    && Chunks(filename, content[..u.index], uploads[..|uploads| - 1])
  }

  ghost predicate Delivered(p: Part, uploads: seq<Upload>) {
    if p.Field? || p.content == "" then uploads == [] else FileUploads(p.filename, p.content, uploads)
  }

  /** The uploads of a list of parts: those of each part, in order. */
  ghost predicate AllDelivered(parts: seq<Part>, uploads: seq<Upload>) {
    if parts == [] then uploads == [] else
      exists k :: 0 <= k <= |uploads|
        && AllDelivered(parts[..|parts| - 1], uploads[..k])
        && Delivered(parts[|parts| - 1], uploads[k..])
  }

  function PartParams(p: Part): seq<Param> {
    if p.Field? then [FieldParam(p.name, p.value)]
    else if p.content == "" then []
    else [FileParam(p.name, p.filename, |p.content|)]
  }

  function FormParams(parts: seq<Part>): seq<Param> {
    if parts == [] then [] else FormParams(parts[..|parts| - 1]) + PartParams(parts[|parts| - 1])
  }
}
