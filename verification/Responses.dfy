/**
 The writers of HTTP responses: a head and a body leave as the TCP window allows and go on
 when bytes are acknowledged. Basic responses hold the body in a string; abstract ones, here
 with a content length, ask a source for it piece by piece.
 */
module Responses {
  import opened Numbers

  datatype ResponseState = Headers | Content | WaitAck | End

  /** `AsyncClient::write` takes as much as there is room for. */
  function Written(wire: string, data: string, room: nat): string {
    wire + data[..Min(room, |data|)]
  }

  // ----- Basic responses -----

  /** `content` is what is still to be written. `wire` are the bytes handed to TCP, counted by
      `_writtenLength`. */
  datatype Basic = Basic(state: ResponseState, content: string, contentLength: nat, sentLength: nat, wire: string,
                         acked: nat)

  function NewBasic(body: string): Basic {
    Basic(Headers, body, |body|, 0, "", 0)
  }

  /** The response begins, with its head, at a moment when TCP has room for `space` bytes. */
  function Respond(r: Basic, head: string, space: nat): Basic {
    var out := |head|;
    if r.contentLength == 0 && space >= out then
      r.(wire := Written(r.wire, head, space), state := WaitAck)
    else if r.contentLength > 0 && space >= out + r.contentLength then
      r.(wire := Written(r.wire, head + r.content, space), state := WaitAck)
    else if 0 < space < out then
      r.(content := head[space..] + r.content, contentLength := r.contentLength + (out - space),
         wire := Written(r.wire, head[..space], space), state := Content)
    else if out < space < out + r.contentLength then
      var shift := Min(space - out, |r.content|);
      r.(sentLength := r.sentLength + (space - out), content := r.content[shift..],
         wire := Written(r.wire, head + r.content[..shift], space), state := Content)
    else
      r.(content := head + r.content, contentLength := r.contentLength + out, state := Content)
  }

  function AckBasic(r: Basic, len: nat, space: nat): Basic {
    var n := r.(acked := r.acked + len);
    match r.state
    case Content =>
      var available := r.contentLength - r.sentLength;
      if space > available then
        n.(wire := Written(r.wire, r.content[..Min(if available < 0 then 0 else available, |r.content|)], space),
           content := "", state := WaitAck)
      else
        var k := Min(space, |r.content|);
        n.(wire := Written(r.wire, r.content[..k], space), content := r.content[k..],
            sentLength := r.sentLength + space)
    case WaitAck => if n.acked >= |r.wire| then n.(state := End) else n
    case _ => n
  }

  // ----- Responses with a source -----

  /** What the source does when asked: it has some bytes, or asks to be tried again. */
  datatype Fill = Bytes(n: nat) | TryAgain

  /** `head` is what is left of the head, `body` what the source holds in all. */
  datatype Abstract = Abstract(state: ResponseState, head: string, body: string, sentLength: nat, wire: string,
                               acked: nat)

  function NewAbstract(head: string, body: string): Abstract {
    Abstract(Headers, head, body, 0, "", 0)
  }

  /** The room that is left for the body in this call. */
  function Room(r: Abstract, space: nat): nat {
    if r.state == Headers && space >= |r.head| then space - |r.head| else space
  }

  /** How many bytes the source gives: never more than it was asked for. */
  function Read(r: Abstract, space: nat, fill: Fill): nat
    requires fill.Bytes?
  {
    var rest := if r.sentLength <= |r.body| then |r.body| - r.sentLength else 0;
    Min(fill.n, Min(rest, Room(r, space)))
  }

  function AckAbstract(r: Abstract, len: nat, space: nat, fill: Fill): Abstract {
    var n := r.(acked := r.acked + len);
    match r.state
    case WaitAck => if n.acked >= |r.wire| then n.(state := End) else n
    case End => n
    case _ =>
      if r.state == Headers && space < |r.head| then
        n.(wire := Written(r.wire, r.head[..space], space), head := r.head[space..])
      else if fill.TryAgain? then n.(state := Content)
      else
        var k := Read(r, space, fill);
        var chunk := if r.sentLength + k <= |r.body| then r.body[r.sentLength..r.sentLength + k] else "";
        n.(wire := Written(r.wire, r.head + chunk, space), head := "", sentLength := r.sentLength + k,
           state := if r.sentLength + k == |r.body| then WaitAck else Content)
  }
}
