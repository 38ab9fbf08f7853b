/** The response objects as they run, call by call. */
module ResponseWriters {
  import opened Numbers
  import opened Wrappers
  import opened Responses
  import opened ResponseConservation

  class AsyncBasicResponse {
    var state: ResponseState
    var content: string
    var contentLength: nat
    var sentLength: nat
    var wire: string
    var acked: nat

    function View(): Basic
      reads this
    {
      Basic(state, content, contentLength, sentLength, wire, acked)
    }

    constructor (body: string)
      ensures View() == NewBasic(body)
    {
      state, content, contentLength, sentLength, wire, acked := Headers, body, |body|, 0, "", 0;
    }

    method Write(data: string, room: nat)
      modifies this`wire
      ensures wire == Written(old(wire), data, room)
    {
      wire := wire + data[..Min(room, |data|)];
    }

    method Begin(head: string, space: nat)
      modifies this
      ensures View() == Respond(old(View()), head, space)
      ensures old(View() == NewBasic(content)) ==> Conserves(View(), head + old(content))
    {
      RespondConserves(head, content, space);
      var out, outLen := head, |head|;
      if contentLength == 0 && space >= outLen {
        Write(out, space);
        state := WaitAck;
      } else if contentLength > 0 && space >= outLen + contentLength {
        out := out + content;
        Write(out, space);
        state := WaitAck;
      } else if 0 < space < outLen {
        content := out[space..] + content;
        contentLength := contentLength + (outLen - space);
        Write(out[..space], space);
        state := Content;
      } else if space > outLen && space < outLen + contentLength {
        var shift := Min(space - outLen, |content|);
        sentLength := sentLength + (space - outLen);
        out := out + content[..shift];
        content := content[shift..];
        Write(out, space);
        state := Content;
      } else {
        content := out + content;
        contentLength := contentLength + outLen;
        state := Content;
      }
    }

    method Ack(len: nat, space: nat)
      modifies this
      ensures View() == AckBasic(old(View()), len, space)
      ensures forall whole :: Conserves(old(View()), whole) ==> Conserves(View(), whole)
    {
      forall whole | Conserves(View(), whole) ensures Conserves(AckBasic(View(), len, space), whole) {
        AckConserves(View(), whole, len, space);
      }
      acked := acked + len;
      if state == Content {
        var available := contentLength - sentLength;
        if space > available {
          Write(content[..Min(if available < 0 then 0 else available, |content|)], space);
          content := "";
          state := WaitAck;
        } else {
          var k := Min(space, |content|);
          var out := content[..k];
          content := content[k..];
          sentLength := sentLength + space;
          Write(out, space);
        }
      } else if state == WaitAck {
        if acked >= |wire| { state := End; }
      }
    }
  }

  class AsyncAbstractResponse {
    var state: ResponseState
    var head: string
    const body: string
    var sentLength: nat
    var wire: string
    var acked: nat

    function View(): Abstract
      reads this
    {
      Abstract(state, head, body, sentLength, wire, acked)
    }

    constructor (head: string, body: string)
      ensures View() == NewAbstract(head, body)
    {
      this.state, this.head, this.body := Headers, head, body;
      sentLength, wire, acked := 0, "", 0;
    }

    method Write(data: string, room: nat)
      modifies this`wire
      ensures wire == Written(old(wire), data, room)
    {
      wire := wire + data[..Min(room, |data|)];
    }

    method FillBuffer(len: nat, fill: Fill) returns (buf: Option<string>)
      requires sentLength <= |body|
      ensures buf == if fill.TryAgain? then None
                     else Some(body[sentLength..sentLength + Min(fill.n, Min(|body| - sentLength, len))])
    {
      if fill.TryAgain? { return None; }
      var k := Min(fill.n, Min(|body| - sentLength, len));
      buf := Some(body[sentLength..sentLength + k]);
    }

    method Ack(len: nat, space: nat, fill: Fill)
      requires sentLength <= |body|
      modifies this
      ensures View() == AckAbstract(old(View()), len, space, fill) && sentLength <= |body|
      ensures forall whole :: Whole(old(View()), whole) ==>
        (Whole(View(), whole) <==> !Overruns(old(View()), space, fill))
    {
      hide Written, Whole, Overruns;
      forall whole | Whole(View(), whole)
        ensures Whole(AckAbstract(View(), len, space, fill), whole) <==> !Overruns(View(), space, fill)
      {
        AckKeepsWhole(View(), whole, len, space, fill);
      }
      acked := acked + len;
      var room := space;
      if state == Headers {
        if room >= |head| {
          state := Content;
          room := room - |head|;
        } else {
          Write(head[..space], space);
          head := head[space..];
          return;
        }
      }
      if state == Content {
        var outLen := Min(|body| - sentLength, room);
        var buf := FillBuffer(outLen, fill);
        if buf.None? { return; }
        assert |buf.value| == Read(old(View()), space, fill);
        Write(head + buf.value, space);
        head := "";
        sentLength := sentLength + |buf.value|;
        if sentLength == |body| { state := WaitAck; }
      } else if state == WaitAck {
        if acked >= |wire| { state := End; }
      }
    }
  }
}
