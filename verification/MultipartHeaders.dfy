/** The header lines of a part. */
module MultipartHeaders {
  import opened ArduinoString
  import opened Multipart
  import opened MultipartForm
  import opened MultipartContent

  lemma {:induction false} IndexOfFirst(a: string, c: char, b: string)
    requires c != '\0' && c !in a && '\0' !in a
    ensures IndexOf(a + [c] + b, c) == |a|
  {
    if a == "" {
      assert (a + [c] + b)[0] == c;
    } else {
      assert (a + [c] + b)[1..] == a[1..] + [c] + b;
      IndexOfFirst(a[1..], c, b);
    }
  }

  lemma {:induction false} IndexOfNone(s: string, c: char)
    requires c !in s
    ensures IndexOf(s, c) == -1
  {
    if s != "" { IndexOfNone(s[1..], c); }
  }

  lemma {:induction false} HeaderChars(r: Request, input: seq<Octet>, s: string)
    requires r.state == ParseHeaders && Counts(r, |s|)
    requires Spells(input, s) && '\r' !in s && '\n' !in s
    ensures Feed(r, input) == r.(temp := r.temp + s, parsedLength := r.parsedLength + |s|)
    decreases |s|
  {
    if s == "" {
      assert r.temp + s == r.temp;
    } else {
      HeaderChars(Next(r, input[0]), input[1..], s[1..]);
      assert r.temp + [s[0]] + s[1..] == r.temp + s;
    }
  }

  /** A header line arrives in full. */
  lemma HeaderLineRun(r: Request, input: seq<Octet>, line: string)
    requires r.state == ParseHeaders && r.temp == "" && Counts(r, |line| + 2)
    requires line != "" && '\r' !in line && '\n' !in line
    requires Spells(input, line + "\r\n")
    ensures Feed(r, input) == r.(header := HeaderLine(r.header, line), parsedLength := r.parsedLength + |line| + 2)
  {
    FeedParts(r, input, line, "\r\n");
    HeaderChars(r, input[..|line|], line);
    assert "" + line == line;
    LineEnd(Feed(r, input[..|line|]), input[|line|..]);
  }

  lemma LineEnd(r: Request, input: seq<Octet>)
    requires r.state == ParseHeaders && Counts(r, 2)
    requires Spells(input, "\r\n")
    ensures Feed(r, input) ==
      if |r.temp| > 0 then r.(header := HeaderLine(r.header, r.temp), temp := "", parsedLength := r.parsedLength + 2)
      else r.(state := WaitForReturn1, store := StartItem(r.store, r.header), parsedLength := r.parsedLength + 2)
  {
    var n := Next(r, input[0]);
    assert n == r.(parsedLength := r.parsedLength + 1);
    assert Feed(n, input[1..]) == Next(n, input[1]);
  }

  lemma QuotedFacts(key: string, value: string)
    requires ValidKey(key) && ValidName(value)
    ensures var q := Quoted(key, value);
      && q[..|key|] == key && q[|key| + 2..|q| - 1] == value
      && ';' !in q && '\0' !in q && OnOneLine(q)
      && q == key + ['='] + ("\"" + value + "\"")
  {
  }

  // ----- Parameters -----

  /** The last parameter of a disposition. */
  lemma LastDisposition(h: PartHeader, key: string, value: string)
    requires |Quoted(key, value)| < U32_LIMIT
    requires ValidKey(key) && ValidName(value)
    ensures Dispositions(h, Quoted(key, value)) == Disposition(h, key, value)
  {
    var q := Quoted(key, value);
    QuotedFacts(key, value);
    IndexOfNone(q, ';');
    IndexOfFirst(key, '=', "\"" + value + "\"");
  }

  /** A parameter that is followed by another one. */
  lemma FirstDisposition(h: PartHeader, key: string, value: string, rest: string)
    requires |Quoted(key, value) + "; " + rest| < U32_LIMIT
    requires ValidKey(key) && ValidName(value)
    ensures Dispositions(h, Quoted(key, value) + "; " + rest) == Dispositions(Disposition(h, key, value), rest)
  {
    hide Quoted, Disposition, IndexOf, Substring, SubstringFrom;
    FirstParameter(key, value, rest);
  }

  lemma FirstParameter(key: string, value: string, rest: string)
    requires |Quoted(key, value) + "; " + rest| < U32_LIMIT
    requires ValidKey(key) && ValidName(value)
    ensures var temp := Quoted(key, value) + "; " + rest;
      var eq, semi := IndexOf(temp, '='), IndexOf(temp, ';');
      && semi > 0 && Substring(temp, 0, U32(eq)) == key && Substring(temp, eq + 2, semi - 1) == value
      && SubstringFrom(temp, semi + 2) == rest
  {
    hide IndexOf;
    var q := Quoted(key, value);
    var temp := q + "; " + rest;
    QuotedFacts(key, value);
    assert temp == q + [';'] + (" " + rest);
    IndexOfFirst(q, ';', " " + rest);
    assert temp == key + ['='] + ("\"" + value + "\"" + "; " + rest);
    IndexOfFirst(key, '=', "\"" + value + "\"" + "; " + rest);
    assert temp[..|key|] == q[..|key|];
    assert temp[|key| + 2..|q| - 1] == q[|key| + 2..|q| - 1];
    assert temp[|q| + 2..] == rest;
  }

  /** A header after parameters with these names and file names, and these types. */
  function Told(h: PartHeader, names: seq<string>, filenames: seq<string>, types: seq<string>): PartHeader {
    PartHeader(LastOr(names, h.name), LastOr(filenames, h.filename), LastOr(types, h.contentType),
               h.isFile || filenames != [] || types != [])
  }

  lemma ToldTwice(h: PartHeader, n1: seq<string>, f1: seq<string>, t1: seq<string>, n2: seq<string>,
                  f2: seq<string>, t2: seq<string>)
    ensures Told(Told(h, n1, f1, t1), n2, f2, t2) == Told(h, n1 + n2, f1 + f2, t1 + t2)
  {
  }

  function One(params: seq<Parameter>, key: string): seq<string>
    requires params != []
  {
    if params[0].key == key then [params[0].value] else []
  }

  lemma {:induction false} ParametersSay(h: PartHeader, params: seq<Parameter>)
    requires params != [] && |ParameterText(params)| < U32_LIMIT
    requires forall i :: 0 <= i < |params| ==> ValidKey(params[i].key) && ValidName(params[i].value)
    ensures Dispositions(h, ParameterText(params)) == Told(h, Values(params, "name"), Values(params, "filename"), [])
    decreases |params|
  {
    hide Quoted, Dispositions;
    var p, rest := params[0], params[1..];
    var told := Told(h, One(params, "name"), One(params, "filename"), []);
    assert Disposition(h, p.key, p.value) == told;
    if |params| == 1 {
      LastDisposition(h, p.key, p.value);
      assert rest == [];
    } else {
      FirstDisposition(h, p.key, p.value, ParameterText(rest));
      ParametersSay(told, rest);
      ToldTwice(h, One(params, "name"), One(params, "filename"), [],
                Values(rest, "name"), Values(rest, "filename"), []);
    }
  }

  // ----- Lines -----

  /** The comparison of the string class is one of letters in either case. */
  lemma SameLettersIff(a: string, b: string)
    ensures EqualsIgnoreCase(a, b) <==> SameLetters(a, b)
  {
  }

  lemma {:induction false} ParametersOnOneLine(params: seq<Parameter>)
    requires params != []
    requires forall i :: 0 <= i < |params| ==> ValidKey(params[i].key) && ValidName(params[i].value)
    ensures OnOneLine(ParameterText(params))
  {
    hide Quoted;
    QuotedFacts(params[0].key, params[0].value);
    if |params| > 1 { ParametersOnOneLine(params[1..]); }
  }

  lemma LineIsOne(l: Line)
    requires ValidLine(l)
    ensures LineText(l) != "" && OnOneLine(LineText(l))
  {
    match l
    case DispositionLine(header, params) =>
      KnownName(header, "Content-Disposition");
      ParametersOnOneLine(params);
    case TypeLine(header, value) => KnownName(header, "Content-Type");
    case OtherLine(_) =>
  }

  /** A known header name has no special characters in any case. */
  lemma KnownName(header: string, name: string)
    requires SameLetters(header, name) && (name == "Content-Disposition" || name == "Content-Type")
    ensures header != "" && OnOneLine(header) && '\0' !in header && ';' !in header
  {
    forall i | 0 <= i < |header|
      ensures header[i] != '\r' && header[i] != '\n' && header[i] != '\0' && header[i] != ';'
    {
      assert name[i] >= '-' && name[i] != ';';
    }
  }

  lemma DispositionSays(h: PartHeader, header: string, params: seq<Parameter>)
    requires ValidLine(DispositionLine(header, params)) && |LineText(DispositionLine(header, params))| < U32_LIMIT
    ensures HeaderLine(h, LineText(DispositionLine(header, params))) == Dispositions(h, ParameterText(params))
  {
    hide IndexOf, Dispositions, EqualsIgnoreCase, ParameterText, SameLetters;
    var rest := ParameterText(params);
    var temp, head := LineText(DispositionLine(header, params)), header + ": form-data";
    KnownName(header, "Content-Disposition");
    SameLength(header, "Content-Disposition");
    DispositionParts(header, rest);
    DispositionIsNoType(header, temp);
    SameLettersIff(header, "Content-Disposition");
    IndexOfFirst(head, ';', " " + rest);
  }

  lemma DispositionParts(header: string, rest: string)
    ensures var head, temp := header + ": form-data", header + ": form-data" + ("; " + rest);
      temp == head + [';'] + (" " + rest) && temp[..|header|] == header && temp[|head| + 2..] == rest
  {
  }

  lemma SameLength(header: string, name: string)
    requires SameLetters(header, name)
    ensures |header| == |name|
  {
  }

  lemma DispositionIsNoType(header: string, temp: string)
    requires SameLetters(header, "Content-Disposition") && |temp| > 19 && temp[..19] == header
    ensures !EqualsIgnoreCase(temp[..12], "Content-Type")
  {
    assert temp[8] == header[8] && "Content-Disposition"[8] == 'D' && "Content-Type"[8] == 'T';
    assert ToLower(temp[..12][8]) == 'd' && ToLower('T') == 't';
  }

  lemma TypeSays(h: PartHeader, header: string, value: string)
    requires SameLetters(header, "Content-Type")
    ensures HeaderLine(h, header + ": " + value) == Told(h, [], [], [value])
  {
    var temp := header + ": " + value;
    SameLettersIff(header, "Content-Type");
    assert temp[..12] == header && temp[14..] == value;
  }

  /** A line that begins with neither name changes nothing. */
  lemma OtherLineSays(h: PartHeader, text: string)
    requires ValidLine(OtherLine(text))
    ensures HeaderLine(h, text) == h
  {
    if |text| > 12 { SameLettersIff(text[..12], "Content-Type"); }
    if |text| > 19 { SameLettersIff(text[..19], "Content-Disposition"); }
  }

  lemma OfOneLine(l: Line)
    ensures Types([l]) == if l.TypeLine? then [l.value] else []
    ensures forall key :: AllValues([l], key) == if l.DispositionLine? then Values(l.params, key) else []
  {
    hide Values;
    assert [l][1..] == [];
    forall key ensures AllValues([l], key) == if l.DispositionLine? then Values(l.params, key) else [] {
      var values := if l.DispositionLine? then Values(l.params, key) else [];
      assert AllValues([l], key) == values + AllValues([], key) == values + [];
    }
  }

  lemma LineSays(h: PartHeader, l: Line)
    requires ValidLine(l) && |LineText(l)| < U32_LIMIT
    ensures HeaderLine(h, LineText(l)) == Told(h, AllValues([l], "name"), AllValues([l], "filename"), Types([l]))
  {
    hide HeaderLine, Dispositions, ParameterText, AllValues, Values, Types;
    OfOneLine(l);
    match l
    case DispositionLine(header, params) =>
      DispositionSays(h, header, params);
      ParametersSay(h, params);
    case TypeLine(header, value) => TypeSays(h, header, value);
    case OtherLine(text) => OtherLineSays(h, text);
  }

  lemma ValuesSplit(lines: seq<Line>, key: string)
    requires lines != []
    ensures AllValues(lines, key) == AllValues(lines[..1], key) + AllValues(lines[1..], key)
  {
    hide Values;
    OfOneLine(lines[0]);
    assert lines[..1] == [lines[0]];
  }

  lemma TypesSplit(lines: seq<Line>)
    requires lines != []
    ensures Types(lines) == Types(lines[..1]) + Types(lines[1..])
  {
    OfOneLine(lines[0]);
    assert lines[..1] == [lines[0]];
  }

  /** What all lines come to, from the first and the others. */
  lemma FirstOfLines(h: PartHeader, lines: seq<Line>)
    requires lines != []
    ensures ToldBy(ToldBy(h, lines[..1]), lines[1..]) == ToldBy(h, lines)
  {
    hide AllValues, Types, Told;
    var first, rest := lines[..1], lines[1..];
    ValuesSplit(lines, "name");
    ValuesSplit(lines, "filename");
    TypesSplit(lines);
    ToldTwice(h, AllValues(first, "name"), AllValues(first, "filename"), Types(first),
              AllValues(rest, "name"), AllValues(rest, "filename"), Types(rest));
  }

  /** The header that lines leave: the last name, file name and type that they give count. */
  function ToldBy(h: PartHeader, lines: seq<Line>): PartHeader {
    Told(h, AllValues(lines, "name"), AllValues(lines, "filename"), Types(lines))
  }

  lemma NoLines(h: PartHeader)
    ensures ToldBy(h, []) == h
  {
  }

  /** One line and its end. */
  lemma OneLineRun(r: Request, input: seq<Octet>, l: Line)
    requires r.state == ParseHeaders && r.temp == "" && Counts(r, |input|)
    requires ValidLine(l) && Spells(input, LineText(l) + "\r\n")
    ensures Feed(r, input) == r.(header := ToldBy(r.header, [l]), parsedLength := r.parsedLength + |input|)
  {
    hide Feed, HeaderLine, LineText, ValidLine, Told;
    LineIsOne(l);
    HeaderLineRun(r, input, LineText(l));
    LineSays(r.header, l);
  }

  /** All the header lines of a part: the last name, file name and type that they give count, and
      a file name or a type makes it a file. No other line has any effect. */
  lemma {:induction false} HeadersSay(r: Request, input: seq<Octet>, lines: seq<Line>)
    requires r.state == ParseHeaders && r.temp == "" && Counts(r, |input|)
    requires ValidLines(lines) && Spells(input, HeaderText(lines))
    ensures Feed(r, input) == r.(header := ToldBy(r.header, lines), parsedLength := r.parsedLength + |input|)
    decreases |lines|
  {
    hide Feed, HeaderLine, LineText, ValidLine, ToldBy;
    if lines == [] {
      assert input == [];
      NoBytes(r);
      NoLines(r.header);
    } else {
      var text := LineText(lines[0]) + "\r\n";
      FeedParts(r, input, text, HeaderText(lines[1..]));
      assert lines[..1] == [lines[0]];
      OneLineRun(r, input[..|text|], lines[0]);
      HeadersSay(Feed(r, input[..|text|]), input[|text|..], lines[1..]);
      FirstOfLines(r.header, lines);
    }
  }

  lemma NoBytes(r: Request)
    ensures Feed(r, []) == r
  {
  }
}
