/** Which names and file names of a part are read as they were written. */
module MultipartNames {
  import opened ArduinoString
  import opened Multipart
  import opened MultipartForm
  import opened MultipartHeaders

  lemma {:induction false} NotFound(s: string, c: char)
    requires '\0' !in s
    ensures IndexOf(s, c) < 0 ==> c !in s
    decreases |s|
  {
    if s != "" && s[0] != c { NotFound(s[1..], c); }
  }

  /** A value that the loop over the parameters can read: one without a semicolon, or the two
      characters between crossed positions. */
  predicate IsRead(value: string) {
    ';' !in value || value == "=;"
  }

  /** The value of the first parameter of `temp`, as the loop cuts it out. */
  function FirstValue(temp: string): string {
    var semi, eq := IndexOf(temp, ';'), IndexOf(temp, '=');
    Substring(temp, eq + 2, if semi > 0 then semi - 1 else U32(|temp| - 1))
  }

  function FirstKey(temp: string): string {
    Substring(temp, 0, U32(IndexOf(temp, '=')))
  }

  lemma KeyEndsAtEquals(temp: string)
    requires '\0' !in temp && |temp| < U32_LIMIT
    ensures var eq := IndexOf(temp, '=');
      FirstKey(temp) == if eq >= 0 then temp[..eq] else temp
  {
    assert IndexOf(temp, '=') < 0 ==> U32(-1) == U32_LIMIT - 1;
    assert temp[..|temp|] == temp;
  }

  /** Without a semicolon in the key, the first semicolon comes behind the equals sign. */
  lemma EqualsFirst(temp: string)
    requires '\0' !in temp && |temp| < U32_LIMIT && ';' !in FirstKey(temp) && IndexOf(temp, ';') >= 0
    ensures 0 <= IndexOf(temp, '=') < IndexOf(temp, ';')
  {
    hide IndexOf, Substring, FirstKey;
    KeyEndsAtEquals(temp);
    var semi, end := IndexOf(temp, ';'), if IndexOf(temp, '=') >= 0 then IndexOf(temp, '=') else |temp|;
    assert temp[..|temp|] == temp;
    assert semi >= end;
  }

  lemma ValueIsRead(temp: string)
    requires '\0' !in temp && |temp| < U32_LIMIT && temp != "" && ';' !in FirstKey(temp)
    ensures IsRead(FirstValue(temp))
  {
    var semi, eq := IndexOf(temp, ';'), IndexOf(temp, '=');
    if semi < 0 {
      NotFound(temp, ';');
      PartHasNone(temp, eq + 2, U32(|temp| - 1));
    } else {
      hide IndexOf;
      EqualsFirst(temp);
      ValueBefore(temp, semi, eq);
    }
  }

  lemma PartHasNone(temp: string, left: nat, right: nat)
    requires ';' !in temp
    ensures ';' !in Substring(temp, left, right)
  {
  }

  lemma ValueBefore(temp: string, semi: nat, eq: nat)
    requires eq < semi < |temp| && temp[eq] == '=' && temp[semi] == ';' && ';' !in temp[..semi]
    ensures IsRead(Substring(temp, eq + 2, semi - 1))
  {
    if semi == eq + 1 {
      assert temp[eq..eq + 2] == "=;";
    } else if semi == eq + 2 {
      assert temp[eq + 1] in temp[..semi];
    } else {
      assert temp[eq + 2..semi - 1] == temp[..semi][eq + 2..semi - 1];
    }
  }

  lemma {:induction false} NamesAreRead(h: PartHeader, temp: string)
    requires '\0' !in temp && |temp| < U32_LIMIT
    ensures var n := Dispositions(h, temp);
      (n.name == h.name || IsRead(n.name)) && (n.filename == h.filename || IsRead(n.filename))
    decreases |temp|
  {
    hide IndexOf, Substring, SubstringFrom, IsRead;
    var semi, key, value := IndexOf(temp, ';'), FirstKey(temp), FirstValue(temp);
    if key == "name" || key == "filename" {
      KeyOfNothing(temp);
      ValueIsRead(temp);
    }
    if semi > 0 {
      RestIsShorter(temp, semi + 2);
      NamesAreRead(Disposition(h, key, value), SubstringFrom(temp, semi + 2));
    }
  }

  lemma KeyOfNothing(temp: string)
    ensures temp == "" ==> FirstKey(temp) == ""
  {
  }

  lemma RestIsShorter(temp: string, from: nat)
    requires '\0' !in temp && temp != "" && from > 0
    ensures |SubstringFrom(temp, from)| < |temp| && '\0' !in SubstringFrom(temp, from)
  {
  }

  /** The last parameter of a line, with any value. */
  lemma LastValueIsReadIff(h: PartHeader, key: string, value: string)
    requires (key == "name" || key == "filename") && '\0' !in value && OnOneLine(value)
    requires |Quoted(key, value)| < U32_LIMIT
    ensures var n := Dispositions(h, Quoted(key, value));
      (if key == "name" then n.name else n.filename) == value <==> ';' !in value
  {
    hide IndexOf, Substring, SubstringFrom, Dispositions, FirstKey, FirstValue, Quoted;
    if ';' !in value {
      LastDisposition(h, key, value);
    } else {
      var temp := Quoted(key, value);
      FirstSemicolon(key, value);
      var n := Disposition(h, key, FirstValue(temp));
      var rest := SubstringFrom(temp, IndexOf(temp, ';') + 2);
      FirstOfMore(h, temp);
      assert temp != "";
      RestIsShorter(temp, IndexOf(temp, ';') + 2);
      NamesAreRead(n, rest);
      NothingLeft(n);
    }
  }

  lemma FirstOfMore(h: PartHeader, temp: string)
    requires IndexOf(temp, ';') > 0
    ensures Dispositions(h, temp)
      == Dispositions(Disposition(h, FirstKey(temp), FirstValue(temp)), SubstringFrom(temp, IndexOf(temp, ';') + 2))
  {
    hide IndexOf, Substring, SubstringFrom, Disposition;
  }

  lemma NothingLeft(h: PartHeader)
    ensures Dispositions(h, "") == h
  {
  }

  lemma FirstSemicolon(key: string, value: string)
    requires (key == "name" || key == "filename") && '\0' !in value && ';' in value
    requires |Quoted(key, value)| < U32_LIMIT
    ensures var temp := Quoted(key, value);
      && IndexOf(temp, ';') > |key| + 1 && FirstKey(temp) == key && ';' !in FirstValue(temp) && '\0' !in temp
      && (value == "=;" ==> SubstringFrom(temp, IndexOf(temp, ';') + 2) == "")
  {
    hide IndexOf;
    var temp, rest := Quoted(key, value), "\"" + value + "\"";
    assert '=' !in key && '\0' !in key;
    assert temp == key + ['='] + rest;
    IndexOfFirst(key, '=', rest);
    BehindTheQuote(key, value);
    assert temp[..|key|] == key;
  }

  lemma BehindTheQuote(key: string, value: string)
    requires (key == "name" || key == "filename") && '\0' !in value && ';' in value
    ensures var temp := Quoted(key, value);
      && |key| + 1 < IndexOf(temp, ';') < |temp| - 1 && '\0' !in temp
      && (value == "=;" ==> IndexOf(temp, ';') == |temp| - 2)
  {
    var temp, head := Quoted(key, value), key + "=\"";
    var i := IndexOf(value, ';');
    NotFound(value, ';');
    assert value == value[..i] + [';'] + value[i + 1..];
    assert temp == (head + value[..i]) + [';'] + (value[i + 1..] + "\"");
    IndexOfFirst(head + value[..i], ';', value[i + 1..] + "\"");
    if value == "=;" { assert value[..1] == "="; }
  }

  // ----- Header lines -----

  lemma LineOf(h: PartHeader, rest: string)
    requires |rest| + 34 < U32_LIMIT
    ensures HeaderLine(h, "Content-Disposition: form-data; " + rest) == Dispositions(h, rest)
  {
    hide IndexOf, Dispositions;
    var head, temp := "Content-Disposition: form-data", "Content-Disposition: form-data; " + rest;
    assert temp == head + [';'] + (" " + rest);
    IndexOfFirst(head, ';', " " + rest);
    assert temp[..19] == "Content-Disposition" && temp[|head| + 2..] == rest;
    assert ToLower(temp[..12][8]) == 'd' && ToLower("Content-Type"[8]) == 't';
  }

  /** A field arrives under its name exactly if the name has no semicolon, although section 2 of
      RFC 2183 allows one between quotes. */
  lemma NameIsReadIff(h: PartHeader, name: string)
    requires OnOneLine(name) && '\0' !in name && |name| + 64 < U32_LIMIT
    ensures HeaderLine(h, "Content-Disposition: form-data; " + Quoted("name", name)).name == name <==> ';' !in name
  {
    hide HeaderLine, Dispositions;
    LineOf(h, Quoted("name", name));
    LastValueIsReadIff(h, "name", name);
  }

  /** And so does a file under its file name. */
  lemma FileNameIsReadIff(h: PartHeader, name: string, filename: string)
    requires ValidName(name) && OnOneLine(filename) && '\0' !in filename && |name| + |filename| + 64 < U32_LIMIT
    ensures var both := Quoted("name", name) + "; " + Quoted("filename", filename);
      HeaderLine(h, "Content-Disposition: form-data; " + both).filename == filename <==> ';' !in filename
  {
    hide HeaderLine, Dispositions;
    LineOf(h, Quoted("name", name) + "; " + Quoted("filename", filename));
    FirstDisposition(h, "name", name, Quoted("filename", filename));
    LastValueIsReadIff(h.(name := name), "filename", filename);
  }
}
