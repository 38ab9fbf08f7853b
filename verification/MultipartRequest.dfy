/** The request object itself: the parser as it runs, field by field and byte by byte. */
module MultipartRequest {
  import opened Wrappers
  import opened ArduinoString
  import opened Multipart

  lemma ContentByte(r: Request, data: char, last: bool)
    requires r.parsedLength > 0 && r.state == WaitForReturn1
    ensures ParseByte(r, data, last) == Data(r, data, last)
  {
  }

  class AsyncWebServerRequest {
    const boundary: string
    var contentLength: nat
    var parsedLength: nat
    var multiParseState: ParseState
    var boundaryPosition: nat
    var temp: string
    var itemName: string
    var itemFilename: string
    var itemType: string
    var itemValue: string
    var itemIsFile: bool
    var itemSize: nat
    var itemBuffer: array?<char>
    var itemBufferIndex: nat
    var params: seq<Param>
    var uploads: seq<Upload>
    var fault: bool
    var ended: bool
    var handled: nat

    /** The boundary counters are 8 bits wide, so a longer boundary would never be matched. */
    ghost predicate Valid()
      reads this
    {
      && |boundary| < 256
      && (itemBuffer != null ==> itemBuffer.Length == UPLOAD_BUFFER && itemBufferIndex < UPLOAD_BUFFER)
    }

    ghost function Header(): PartHeader
      reads this
    {
      PartHeader(itemName, itemFilename, itemType, itemIsFile)
    }

    ghost function Stored(): Store
      reads this, itemBuffer
      requires Valid()
    {
      Store(itemValue, itemSize, if itemBuffer == null then None else Some(itemBuffer[..itemBufferIndex]),
            params, uploads, fault)
    }

    ghost function View(): Request
      reads this, itemBuffer
      requires Valid()
    {
      Request(boundary, contentLength, parsedLength, multiParseState, boundaryPosition, temp,
              Header(), Stored(), ended, handled)
    }

    constructor (boundary: string, contentLength: nat)
      requires |boundary| < 256
      ensures Valid() && View() == NewRequest(boundary, contentLength)
      ensures itemBuffer == null
    {
      this.boundary := boundary;
      this.contentLength, parsedLength := contentLength, 0;
      multiParseState, boundaryPosition := ExpectBoundary, 0;
      temp, itemName, itemFilename, itemType, itemValue := "", "", "", "", "";
      itemIsFile, itemSize, itemBuffer, itemBufferIndex := false, 0, null, 0;
      params, uploads, fault, ended, handled := [], [], false, false, 0;
    }

    method HandleUploadByte(data: char, last: bool)
      requires Valid()
      modifies this`itemBufferIndex, this`uploads, this`fault, itemBuffer
      ensures Valid() && itemBuffer == old(itemBuffer)
      ensures Stored() == Multipart.HandleUploadByte(old(Stored()), Header(), data, last)
    {
      if itemBuffer == null {
        fault := true;
        return;
      }
      ghost var before := itemBuffer[..itemBufferIndex];
      itemBuffer[itemBufferIndex] := data;
      itemBufferIndex := itemBufferIndex + 1;
      assert itemBuffer[..itemBufferIndex] == before + [data];
      if last || itemBufferIndex == UPLOAD_BUFFER {
        uploads := uploads + [Upload(itemFilename, U32(itemSize - itemBufferIndex), itemBuffer[..itemBufferIndex],
            false)];
        itemBufferIndex := 0;
      }
    }

    method WriteItemByte(data: char, last: bool)
      requires Valid()
      modifies this`itemBufferIndex, this`uploads, this`fault, this`itemSize, this`itemValue, itemBuffer
      ensures Valid() && itemBuffer == old(itemBuffer)
      ensures Stored() == Multipart.WriteItemByte(old(Stored()), Header(), data, last)
    {
      itemSize := U32(itemSize + 1);
      if itemIsFile {
        HandleUploadByte(data, last);
      } else {
        itemValue := itemValue + [data];
      }
    }

    /** The bytes of a delimiter that turned out to be content. */
    method WriteItemBytes(bytes: string, last: bool)
      requires Valid()
      modifies this`itemBufferIndex, this`uploads, this`fault, this`itemSize, this`itemValue, itemBuffer
      ensures Valid() && itemBuffer == old(itemBuffer)
      ensures Stored() == WriteItem(old(Stored()), Header(), bytes, last)
    {
      for i := 0 to |bytes|
        invariant Valid() && itemBuffer == old(itemBuffer)
        invariant WriteItem(Stored(), Header(), bytes[i..], last) == WriteItem(old(Stored()), Header(), bytes, last)
      {
        WriteItemByte(bytes[i], last);
        assert bytes[i..][1..] == bytes[i + 1..];
      }
    }

    method SetDisposition(name: string, nameVal: string)
      modifies this`itemName, this`itemFilename, this`itemIsFile
      ensures Header() == Disposition(old(Header()), name, nameVal)
    {
      if name == "name" {
        itemName := nameVal;
      } else if name == "filename" {
        itemFilename := nameVal;
        itemIsFile := true;
      }
    }

    method ParseHeaderLine()
      modifies this`temp, this`itemName, this`itemFilename, this`itemType, this`itemIsFile
      ensures Header() == HeaderLine(old(Header()), old(temp))
      ensures temp == ""
    {
      if |temp| > 12 && EqualsIgnoreCase(Substring(temp, 0, 12), "Content-Type") {
        itemType := SubstringFrom(temp, 14);
        itemIsFile := true;
      } else if |temp| > 19 && EqualsIgnoreCase(Substring(temp, 0, 19), "Content-Disposition") {
        temp := SubstringFrom(temp, IndexOf(temp, ';') + 2);
        while IndexOf(temp, ';') > 0
          invariant Dispositions(Header(), temp) == HeaderLine(old(Header()), old(temp))
          decreases |temp|
        {
          var name := Substring(temp, 0, U32(IndexOf(temp, '=')));
          var nameVal := Substring(temp, IndexOf(temp, '=') + 2, IndexOf(temp, ';') - 1);
          SetDisposition(name, nameVal);
          temp := SubstringFrom(temp, IndexOf(temp, ';') + 2);
        }
        var name := Substring(temp, 0, U32(IndexOf(temp, '=')));
        var nameVal := Substring(temp, IndexOf(temp, '=') + 2, U32(|temp| - 1));
        SetDisposition(name, nameVal);
      }
      temp := "";
    }

    method ParseBoundaryByte(data: char)
      requires Valid()
      modifies this`multiParseState, this`itemIsFile
      ensures View() == Boundary(old(View()), data)
    {
      if parsedLength < 2 && data != '-' {
        multiParseState := ParseError;
      } else if U32(parsedLength - 2) < |boundary| && boundary[U32(parsedLength - 2)] != data {
        multiParseState := ParseError;
      } else if U32(parsedLength - 2) == |boundary| && data != '\r' {
        multiParseState := ParseError;
      } else if U32(parsedLength - 3) == |boundary| {
        if data != '\n' {
          multiParseState := ParseError;
          return;
        }
        multiParseState := ParseHeaders;
        itemIsFile := false;
      }
    }

    /** A blank line: the content starts here. */
    method BeginItem()
      requires Valid()
      modifies this`multiParseState, this`itemSize, this`itemValue, this`itemBuffer, this`itemBufferIndex
      ensures Valid() && (itemBuffer == old(itemBuffer) || fresh(itemBuffer))
      ensures multiParseState == WaitForReturn1
      ensures Stored() == StartItem(old(Stored()), Header())
    {
      multiParseState := WaitForReturn1;
      itemSize := 0;
      itemValue := "";
      if itemIsFile {
        itemBuffer := new char[UPLOAD_BUFFER];
        itemBufferIndex := 0;
      }
    }

    method ParseHeaderByte(data: char)
      requires Valid()
      modifies this
      ensures Valid() && (itemBuffer == old(itemBuffer) || fresh(itemBuffer))
      ensures View() == Headers(old(View()), data)
    {
      hide HeaderLine, StartItem;
      if data != '\r' && data != '\n' {
        temp := temp + [data];
      }
      if data == '\n' {
        if |temp| > 0 {
          ParseHeaderLine();
        } else {
          BeginItem();
        }
      }
    }

    /** The delimiter is complete: the item becomes a parameter. */
    method CompleteItem()
      requires Valid()
      modifies this
      ensures Valid() && (itemBuffer == old(itemBuffer) || itemBuffer == null)
      ensures View() == old(View()).(state := Dash3OrReturn2, store := FinishItem(old(Stored()), old(Header())))
    {
      multiParseState := Dash3OrReturn2;
      if !itemIsFile {
        params := params + [FieldParam(itemName, itemValue)];
      } else {
        if itemSize != 0 {
          var buffered := "";
          if itemBuffer != null { buffered := itemBuffer[..itemBufferIndex]; }
          uploads := uploads + [Upload(itemFilename, U32(itemSize - |buffered|), buffered, true)];
          itemBufferIndex := 0;
          params := params + [FileParam(itemName, itemFilename, itemSize)];
        }
        itemBuffer := null;
      }
    }

    /** One byte of the body; a byte that breaks a match is parsed again as content. */
    method ParseMultipartPostByte(data: char, last: bool)
      requires Valid()
      modifies this, itemBuffer
      ensures Valid() && (itemBuffer == old(itemBuffer) || itemBuffer == null || fresh(itemBuffer))
      ensures View() == ParseByte(old(View()), data, last)
      decreases if parsedLength > 0 && multiParseState == WaitForReturn1 then 0 else 1, 1
    {
      hide Data, Boundary, Headers, PushBack, AfterDelimiter, FinishItem;
      if parsedLength == 0 {
        multiParseState := ExpectBoundary;
        temp, itemName, itemFilename, itemType := "", "", "", "";
      }
      assert View() == Reset(old(View()));
      if multiParseState == WaitForReturn1 {
        ParseContentByte(data, last);
      } else if multiParseState == ExpectBoundary {
        ParseBoundaryByte(data);
      } else if multiParseState == ParseHeaders {
        ParseHeaderByte(data);
      } else if multiParseState in {ExpectFeed1, ExpectDash1, ExpectDash2, BoundaryOrData} {
        ParseDelimiterByte(data, last);
      } else if multiParseState in {Dash3OrReturn2, ExpectFeed2} {
        ParseAfterDelimiter(data, last);
      }
    }

    method ParseContentByte(data: char, last: bool)
      requires Valid()
      modifies this, itemBuffer
      ensures Valid() && itemBuffer == old(itemBuffer)
      ensures View() == Data(old(View()), data, last)
    {
      if data != '\r' { WriteItemByte(data, last); } else { multiParseState := ExpectFeed1; }
    }

    /** A byte while the delimiter is being matched. */
    method ParseDelimiterByte(data: char, last: bool)
      requires Valid() && parsedLength > 0
      requires multiParseState in {ExpectFeed1, ExpectDash1, ExpectDash2, BoundaryOrData}
      modifies this, itemBuffer
      ensures Valid() && (itemBuffer == old(itemBuffer) || itemBuffer == null || fresh(itemBuffer))
      ensures View() == Dispatch(old(View()), data, last)
      decreases 1, 0
    {
      if multiParseState == ExpectFeed1 {
        if data != '\n' { PushBackBytes("\r", data, last); } else { multiParseState := ExpectDash1; }
      } else if multiParseState == ExpectDash1 {
        if data != '-' { PushBackBytes("\r\n", data, last); } else { multiParseState := ExpectDash2; }
      } else if multiParseState == ExpectDash2 {
        if data != '-' {
          PushBackBytes("\r\n-", data, last);
        } else {
          multiParseState := BoundaryOrData;
          boundaryPosition := 0;
        }
      } else if boundaryPosition < |boundary| && boundary[boundaryPosition] != data {
        PushBackBytes("\r\n--" + boundary[..boundaryPosition], data, last);
      } else if boundaryPosition == U32(|boundary| - 1) {
        CompleteItem();
      } else {
        boundaryPosition := boundaryPosition + 1;
      }
    }

    /** A byte after a complete delimiter: the next part, the end, or content after all. */
    method ParseAfterDelimiter(data: char, last: bool)
      requires Valid() && parsedLength > 0
      requires multiParseState in {Dash3OrReturn2, ExpectFeed2}
      modifies this, itemBuffer
      ensures Valid() && (itemBuffer == old(itemBuffer) || itemBuffer == null || fresh(itemBuffer))
      ensures View() == Dispatch(old(View()), data, last)
      decreases 1, 0
    {
      hide Data, Boundary, Headers, PushBack, FinishItem;
      if multiParseState == Dash3OrReturn2 {
        if data == '-' && U32(contentLength - parsedLength - 4) != 0 {
          contentLength := U32(parsedLength + 4);
        }
        if data == '\r' {
          multiParseState := ExpectFeed2;
        } else if data == '-' && contentLength == U32(parsedLength + 4) {
          multiParseState := ParsingFinished;
        } else {
          PushBackBytes("\r\n--" + boundary, data, last);
        }
      } else if data == '\n' {
        multiParseState := ParseHeaders;
        itemIsFile := false;
      } else {
        PushBackBytes("\r\n--" + boundary + "\r", data, last);
      }
    }

    /** Stores what had matched, then parses the byte again in the content state. */
    method PushBackBytes(matched: string, data: char, last: bool)
      requires Valid() && parsedLength > 0
      modifies this, itemBuffer
      ensures Valid() && (itemBuffer == old(itemBuffer) || itemBuffer == null || fresh(itemBuffer))
      ensures View() == PushBack(old(View()), matched, data, last)
      decreases 0, 2
    {
      hide Data, ParseByte, Multipart.WriteItemByte, WriteItem;
      multiParseState := WaitForReturn1;
      WriteItemBytes(matched, last);
      ghost var r := View();
      assert r == old(View()).(state := WaitForReturn1,
          store := WriteItem(old(Stored()), old(Header()), matched, last));
      ContentByte(r, data, last);
      ParseMultipartPostByte(data, last);
    }

    method ParseNextByte(data: char, last: bool)
      requires Valid()
      modifies this, itemBuffer
      ensures Valid() && (itemBuffer == old(itemBuffer) || itemBuffer == null || fresh(itemBuffer))
      ensures View() == Next(old(View()), Octet(data, last))
    {
      hide ParseByte;
      ParseMultipartPostByte(data, last);
      parsedLength := U32(parsedLength + 1);
    }

    /** One TCP buffer of a multipart body. */
    method OnData(buffer: string)
      requires Valid()
      modifies this, itemBuffer
      ensures Valid() && (itemBuffer == old(itemBuffer) || itemBuffer == null || fresh(itemBuffer))
      ensures View() == Multipart.OnData(old(View()), buffer)
    {
      if ended { return; }
      ghost var octets := Octets(buffer);
      for i := 0 to |buffer|
        invariant Valid() && (itemBuffer == old(itemBuffer) || itemBuffer == null || fresh(itemBuffer))
        invariant Feed(View(), octets[i..]) == Feed(old(View()), octets)
      {
        ParseNextByte(buffer[i], i == |buffer| - 1);
        assert octets[i..][1..] == octets[i + 1..];
      }
      if parsedLength == contentLength {
        ended := true;
        handled := handled + 1;
      }
    }
  }
}
