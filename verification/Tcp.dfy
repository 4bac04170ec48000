// The send buffer of a client connection (spook/tcp.c) and the interleaved
// frames that spook/rtsp.c puts into it.
module Tcp {
  import opened Bytes
  import opened Digits
  import opened Pmsg
  import opened Wire

  const SEND_BUFFER := 150 * 1024

  /** A part of a message: len bytes from base on. The length of a part may be
      negative, because callers compute it: iov_len turns it into a huge
      number and the int parameter of send_data back into what it was. */
  datatype IoVec = IoVec(base: seq<byte>, len: int) {
    predicate Backed() { len <= |base| }

    /** What can be sent of the part. */
    function Data(): (d: seq<byte>)
      ensures Backed() ==> |d| == if len < 0 then 0 else len
    {
      if len < 0 then [] else if len <= |base| then base[..len] else base
    }
  }

  function Part(d: seq<byte>): (p: IoVec)
    ensures p.Backed() && p.len >= 0 && p.Data() == d
  {
    IoVec(d, |d|)
  }

  function Total(v: seq<IoVec>): int {
    if v == [] then 0 else v[0].len + Total(v[1..])
  }

  function Datas(v: seq<IoVec>): (ds: seq<seq<byte>>)
    ensures |ds| == |v| && forall i :: 0 <= i < |v| ==> ds[i] == v[i].Data()
  {
    seq(|v|, i requires 0 <= i < |v| => v[i].Data())
  }

  predicate Backed(v: seq<IoVec>) { forall i :: 0 <= i < |v| ==> v[i].Backed() }

  /** No part has a negative length. */
  predicate Whole(v: seq<IoVec>) { forall i :: 0 <= i < |v| ==> v[i].len >= 0 }

  function Body(v: seq<IoVec>): seq<byte> { Flatten(Datas(v)) }

  /** What goes into the given room when each part is queued if it fits there
      and passed over if not. */
  function Fitting(parts: seq<seq<byte>>, room: nat): seq<byte> {
    if parts == [] then []
    else if |parts[0]| <= room then parts[0] + Fitting(parts[1..], room - |parts[0]|)
    else Fitting(parts[1..], room)
  }

  lemma {:induction false} FittingAll(parts: seq<seq<byte>>, room: nat)
    requires |Flatten(parts)| <= room
    ensures Fitting(parts, room) == Flatten(parts)
    decreases |parts|
  {
    if parts != [] { FittingAll(parts[1..], room - |parts[0]|); }
  }

  /** The bytes of an interleave_send as a message: a frame, if the length in
      the header is that of what follows it. */
  function AsMessage(chan: byte, len: int, bytes: seq<byte>): (m: Message)
    ensures Encode(m) == bytes
    ensures m.Interleaved? <==> |bytes| == len + 4 >= 4 && bytes[..4] == FrameHead(chan, len)
  {
    if |bytes| == len + 4 >= 4 && bytes[..4] == FrameHead(chan, len) then Interleaved(chan, bytes[4..])
    else Stray(bytes)
  }

  /** What interleave_send queues when it does not refuse. */
  function Queued(chan: byte, v: seq<IoVec>, room: nat): Message {
    AsMessage(chan, Total(v), Fitting([FrameHead(chan, Total(v))] + Datas(v), room))
  }

  lemma {:induction false} WholeTotal(v: seq<IoVec>)
    requires Backed(v) && Whole(v)
    ensures Total(v) == |Body(v)|
  {
    if v != [] {
      WholeTotal(v[1..]);
      assert Datas(v)[1..] == Datas(v[1..]);
    }
  }

  /** Without negative lengths that is one whole frame. */
  lemma QueuedWhole(chan: byte, v: seq<IoVec>, room: nat)
    requires Backed(v) && Whole(v) && Total(v) + 4 <= room
    ensures Queued(chan, v, room) == Interleaved(chan, Body(v))
  {
    WholeTotal(v);
    var head := FrameHead(chan, Total(v));
    var parts := [head] + Datas(v);
    assert parts[1..] == Datas(v);
    FittingAll(parts, room);
    assert (head + Body(v))[..4] == head && (head + Body(v))[4..] == Body(v);
  }

  class Conn {
    const sendBuf: array<byte>
    var sendBufR: nat
    var sendBufW: nat
    var writeEnabled: bool
    var dropAfter: bool
    var dropped: bool

    ghost var written: seq<byte>    // every byte the socket has taken
    ghost var pending: seq<byte>    // the bytes still queued, oldest first
    ghost var accepted: seq<byte>   // every byte queued by a send that succeeded
    ghost var log: seq<Message>     // the messages those bytes are

    /** The cells from sendBufR up to sendBufW, cyclically, hold pending. */
    ghost predicate Ring()
      reads `sendBufR, `sendBufW, `pending, sendBuf
    {
      && sendBuf.Length == SEND_BUFFER
      && sendBufR < SEND_BUFFER && sendBufW < SEND_BUFFER
      && |pending| == (if sendBufR <= sendBufW then sendBufW - sendBufR else SEND_BUFFER - sendBufR + sendBufW)
      && forall i :: 0 <= i < |pending| ==> pending[i] == sendBuf[Wrap(sendBufR + i)]
    }

    /** No byte is lost, invented or reordered between the senders and the socket. */
    ghost predicate Conserving()
      reads `sendBufR, `sendBufW, `pending, `accepted, `written, sendBuf
    {
      Ring() && accepted == written + pending
    }

    /** ... and every message is queued whole. */
    ghost predicate Valid()
      reads this, sendBuf
    {
      Conserving() && accepted == EncodeAll(log)
    }

    constructor ()
      ensures Valid() && fresh(sendBuf)
      ensures written == [] && pending == [] && log == [] && !writeEnabled && !dropAfter && !dropped
    {
      sendBuf := new byte[SEND_BUFFER];
      sendBufR, sendBufW := 0, 0;
      writeEnabled, dropAfter, dropped := false, false, false;
      written, pending, accepted, log := [], [], [], [];
    }

    /** avail_send_buf: one slot stays free to tell full from empty. */
    function Avail(): (n: nat)
      requires Ring()
      reads `sendBufR, `sendBufW, `pending, sendBuf
      ensures n + |pending| == SEND_BUFFER - 1
    {
      if sendBufR > sendBufW then sendBufR - sendBufW - 1
      else SEND_BUFFER - sendBufW + sendBufR - 1
    }

    /** One step of the copy loop in send_data. */
    method PutByte(b: byte)
      requires Ring() && Avail() >= 1
      modifies this`sendBufW, this`pending, sendBuf
      ensures Ring() && pending == old(pending) + [b]
    {
      pending := pending + [b];
      sendBuf[sendBufW] := b;
      sendBufW := sendBufW + 1;
      if sendBufW == sendBuf.Length { sendBufW := 0; }
    }

    method SendData(p: IoVec) returns (refused: bool)
      requires Conserving() && p.Backed()
      modifies this`sendBufW, this`pending, this`writeEnabled, this`accepted, sendBuf
      ensures Conserving()
      ensures refused <==> old(Avail()) < p.len
      ensures accepted == if refused then old(accepted) else old(accepted) + p.Data()
      ensures pending == if refused then old(pending) else old(pending) + p.Data()
      ensures writeEnabled == (old(writeEnabled) || !refused)
    {
      if Avail() < p.len { return true; }
      ghost var d := p.Data();
      var k := 0;
      while k < p.len
        invariant 0 <= k <= |d|
        invariant Ring() && written == old(written) && accepted == old(accepted)
        invariant pending == old(pending) + d[..k]
      {
        PutByte(p.base[k]);
        k := k + 1;
      }
      writeEnabled := true;
      accepted := accepted + d;
      return false;
    }

    /** interleave_send. The room is checked against the sum of the lengths;
        whether a part was queued is not. With no negative length among them
        the frame is queued whole or not at all. */
    method InterleaveSend(chan: byte, v: seq<IoVec>) returns (refused: bool)
      requires Valid() && Backed(v)
      modifies this`sendBufW, this`pending, this`writeEnabled, this`accepted, this`log, sendBuf
      ensures Valid()
      ensures refused <==> old(Avail()) < Total(v) + 4
      ensures log == if refused then old(log) else old(log) + [Queued(chan, v, old(Avail()))]
      ensures Whole(v) ==> log == if refused then old(log) else old(log) + [Interleaved(chan, Body(v))]
      ensures if refused then writeEnabled == old(writeEnabled) else Total(v) >= 0 ==> writeEnabled
    {
      hide Queued, Body, Total, Fitting;
      var len := TotalLength(v);
      if Avail() < len + 4 { return true; }
      if Whole(v) { QueuedWhole(chan, v, Avail()); }
      QueueFrame(chan, v, len);
      return false;
    }

    /** interleave_send behind the check. */
    method QueueFrame(chan: byte, v: seq<IoVec>, len: int)
      requires Valid() && len == Total(v) && Backed(v)
      modifies this`sendBufW, this`pending, this`writeEnabled, this`accepted, this`log, sendBuf
      ensures Valid() && (old(Avail()) >= 4 ==> writeEnabled)
      ensures log == old(log) + [Queued(chan, v, old(Avail()))]
    {
      hide Fitting, Total, Datas, FrameHead, Ring, AsMessage, Encode, EncodeAll;
      ghost var m, before, head := Queued(chan, v, Avail()), accepted, FrameHead(chan, len);
      AppendMessage(m, log, accepted);
      FittingHead(head, v, Avail());
      log := log + [m];
      var refused := SendData(Part(FrameHead(chan, len)));
      ghost var rest := Fitting(Datas(v), Avail());
      SendVector(v);
      Associative(before, head, rest);
    }

    /** The second loop of interleave_send. */
    method SendVector(v: seq<IoVec>)
      requires Conserving() && Backed(v)
      modifies this`sendBufW, this`pending, this`writeEnabled, this`accepted, sendBuf
      ensures Conserving() && accepted == old(accepted) + Fitting(Datas(v), old(Avail()))
      ensures old(writeEnabled) ==> writeEnabled
    {
      hide Fitting, Datas, Ring;
      var i := 0;
      FittingStart(v, Avail());
      ghost var rest := Fitting(Datas(v), Avail());
      ghost var goal := accepted + rest;
      while i < |v|
        invariant 0 <= i <= |v|
        invariant Conserving()
        invariant old(writeEnabled) ==> writeEnabled
        invariant rest == Fitting(Datas(v[i..]), Avail()) && accepted + rest == goal
      {
        FittingStep(v, i, Avail());
        ghost var was := accepted;
        var refused := SendData(v[i]);
        i := i + 1;
        rest := Fitting(Datas(v[i..]), Avail());
        Associative(was, v[i-1].Data(), rest);
      }
      FittingNothing(v[i..], Avail());
      assert accepted + [] == accepted;
    }

    /** tcp_send_pmsg, with the length of the body that the caller is going to
        send: there is room for both, or nothing is queued. */
    method SendPmsg(line: Line, fields: seq<Field>, len: int) returns (r: Printing)
      requires Conserving()
      modifies this`sendBufW, this`pending, this`writeEnabled, this`accepted, sendBuf
      ensures Conserving() && r == SendOutcome(line, fields, Announcing(len), old(Avail()))
      ensures accepted == if r.Printed? then old(accepted) + r.head else old(accepted)
      ensures r.Printed? ==> line.Response? && r.head == Print(line, fields, Announcing(len)) && Avail() >= len
      ensures writeEnabled == (old(writeEnabled) || r.Printed?)
    {
      hide Print;
      var total;
      r, total := PrintPmsg(line, fields, len);
      if r.Printed? {
        if Avail() < total { return Refused; }
        var refused := SendData(Part(r.head));
      }
    }

    /** A reply, and the body sent right behind it when it announces one. It is
        queued whole or not at all. */
    method SendReply(line: Line, fields: seq<Field>, body: Option<seq<byte>>) returns (r: Printing)
      requires Valid()
      modifies this`sendBufW, this`pending, this`writeEnabled, this`accepted, this`log, sendBuf
      ensures Valid()
      ensures r == SendOutcome(line, fields, LengthOf(body), old(Avail()))
      ensures log == if r.Printed? then old(log) + [PrintedReply(line, fields, body)] else old(log)
      ensures writeEnabled == (old(writeEnabled) || r.Printed?)
    {
      hide Print, SendOutcome;
      ghost var before := accepted;
      r := SendPmsg(line, fields, if body.Some? then |body.value| else -1);
      if r.Printed? {
        LogReply(before, r.head, line, fields, body);
        log := log + [PrintedReply(line, fields, body)];
        if body.Some? { var refused := SendData(Part(body.value)); }
      }
    }

    lemma LogReply(before: seq<byte>, head: seq<byte>, line: Line, fields: seq<Field>, body: Option<seq<byte>>)
      requires line.Response? && head == Print(line, fields, LengthOf(body)) && before == EncodeAll(log)
      ensures EncodeAll(log + [PrintedReply(line, fields, body)]) ==
              if body.Some? then (before + head) + body.value else before + head
    {
      hide Print;
      AppendMessage(PrintedReply(line, fields, body), log, before);
      assert body.Some? ==> before + (head + body.value) == (before + head) + body.value;
      assert head + [] == head;
    }

    /** conn_write, observed for at most the given number of write calls. Each
        takes some prefix of the contiguous run it is offered, asks to be
        tried again, or fails; drained says that the handler ran to its end. */
    method ConnWrite(calls: nat) returns (drained: bool)
      requires Valid() && !dropped
      modifies this`sendBufR, this`pending, this`written, this`dropped, this`writeEnabled
      ensures Valid() && accepted == old(accepted) && old(written) <= written
      ensures drained ==> written == accepted && dropped == dropAfter
      ensures writeEnabled == (old(writeEnabled) && !(drained && !dropAfter))
    {
      var left := calls;
      while sendBufR != sendBufW
        invariant Valid() && accepted == old(accepted) && old(written) <= written
        invariant !dropped && writeEnabled == old(writeEnabled)
        decreases left
      {
        if left == 0 { return false; }
        left := left - 1;
        var len := if sendBufW < sendBufR then sendBuf.Length - sendBufR else sendBufW - sendBufR;
        var ret: int :| ret <= len;
        if ret <= 0 {
          var again: bool := *;
          if ret < 0 && again { continue; }
          dropped := true;
          return false;
        }
        TakeFromRing(ret);
      }
      if dropAfter { dropped := true; } else { writeEnabled := false; }
      return true;
    }

    /** The cursor arithmetic of conn_write after a write that took n bytes. */
    method TakeFromRing(n: nat)
      requires Valid()
      requires 1 <= n <= (if sendBufW < sendBufR then SEND_BUFFER - sendBufR else sendBufW - sendBufR)
      modifies this`sendBufR, this`pending, this`written
      ensures Valid() && accepted == old(accepted)
      ensures n <= |old(pending)| && written == old(written) + old(pending)[..n]
    {
      assert accepted == (written + pending[..n]) + pending[n..];
      written, pending := written + pending[..n], pending[n..];
      sendBufR := sendBufR + n;
      if sendBufR == sendBuf.Length { sendBufR := 0; }
    }

    /** Any run of a connection: frames of any shape that fits the header, any
        reply that prints, with or without a body, and any partial writes, in
        any order. A client that cuts up the bytes queued gets exactly the
        messages that were accepted; from the bytes that have reached it so
        far, a prefix of them. */
    method Traffic(steps: nat)
      requires Valid() && AllWellFormed(log)
      modifies this, sendBuf
      ensures Valid() && AllWellFormed(log) && old(log) <= log
      ensures Deframe(accepted) == Some(log)
      ensures written <= accepted && Receive(written).0 <= log
    {
      hide *;
      var n := steps;
      while n > 0 && !dropped
        invariant Valid() && AllWellFormed(log) && old(log) <= log
      {
        n := n - 1;
        var choice: int := *;
        match choice {
          case 0 =>
            var chan: byte := *;
            var v: seq<IoVec> := *;
            if Sendable(v) { SendFrame(chan, v); }
          case 1 =>
            var line: Line := *;
            var fields: seq<Field> := *;
            var body: Option<seq<byte>> := *;
            if Replies(line, fields) { Answer(line, fields, body); }
          case _ =>
            var calls: nat := *;
            var drained := ConnWrite(calls);
        }
      }
      ReceivedSoFar();
    }

    lemma ReceivedSoFar()
      requires Valid() && AllWellFormed(log)
      ensures Deframe(accepted) == Some(log)
      ensures written <= accepted && Receive(written).0 <= log
    {
      hide Receive, Deframe, WellFormed, EncodeAll;
      DeframeEncoded(log);
      ReceivedPrefix(log, |written|);
      assert EncodeAll(log)[..|written|] == written;
    }

    method SendFrame(chan: byte, v: seq<IoVec>)
      requires Valid() && AllWellFormed(log) && Sendable(v)
      modifies this`sendBufW, this`pending, this`writeEnabled, this`accepted, this`log, sendBuf
      ensures Valid() && AllWellFormed(log) && old(log) <= log
    {
      hide Ring, Queued, Body, Total, EncodeAll;
      WholeTotal(v);
      var refused := InterleaveSend(chan, v);
    }

    method Answer(line: Line, fields: seq<Field>, body: Option<seq<byte>>)
      requires Valid() && AllWellFormed(log) && Replies(line, fields)
      modifies this`sendBufW, this`pending, this`writeEnabled, this`accepted, this`log, sendBuf
      ensures Valid() && AllWellFormed(log)
      ensures log == old(log) || log == old(log) + [PrintedReply(line, fields, body)]
    {
      hide Ring, WellFormed, EncodeAll, Print, Printable, Unannounced;
      PrintedFramed(line, fields, body);
      var r := SendReply(line, fields, body);
    }
  }

  /** What may be handed to interleave_send: parts of no negative length, and
      no more bytes than the header can count. */
  predicate Sendable(v: seq<IoVec>) { Backed(v) && Whole(v) && Total(v) < 65536 }

  /** What may be handed to tcp_send_pmsg: a reply whose strings do not end
      where they should not, that cannot be taken for a frame, and whose
      headers leave the length of the body to the printer. */
  predicate Replies(line: Line, fields: seq<Field>) {
    Printable(line, fields) && line.proto[0] != DOLLAR && Unannounced(fields)
  }

  function Wrap(i: nat): nat {
    if i >= SEND_BUFFER then i - SEND_BUFFER else i
  }

  /** The parameter len of tcp_send_pmsg: the length of a body, or negative. */
  function Announcing(len: int): Option<nat> { if len >= 0 then Some(len) else None }

  /** What comes of a tcp_send_pmsg with the given room in the buffer. */
  function SendOutcome(line: Line, fields: seq<Field>, body: Option<nat>, room: nat): Printing {
    if line.Request? then Refused
    else
      var head := Print(line, fields, body);
      if |head| >= PRINT_BUFFER then Overrun
      else if room < |head| + (if body.Some? then body.value else 0) then Refused
      else Printed(head)
  }

  lemma FittingHead(head: seq<byte>, v: seq<IoVec>, room: nat)
    ensures Fitting([head] + Datas(v), room) ==
            if |head| <= room then head + Fitting(Datas(v), room - |head|) else Fitting(Datas(v), room)
  {
    assert ([head] + Datas(v))[1..] == Datas(v);
  }

  lemma FittingStart(v: seq<IoVec>, room: nat)
    ensures Fitting(Datas(v[0..]), room) == Fitting(Datas(v), room)
  {
    assert v[0..] == v;
  }

  lemma FittingStep(v: seq<IoVec>, i: nat, room: nat)
    requires i < |v|
    ensures var d := v[i].Data();
            Fitting(Datas(v[i..]), room) ==
            if |d| <= room then d + Fitting(Datas(v[i+1..]), room - |d|) else Fitting(Datas(v[i+1..]), room)
  {
    assert Datas(v[i..])[1..] == Datas(v[i+1..]);
  }

  lemma FittingNothing(v: seq<IoVec>, room: nat)
    requires v == []
    ensures Fitting(Datas(v), room) == []
  {
  }

  /** The first loop of interleave_send. */
  method TotalLength(v: seq<IoVec>) returns (len: int)
    ensures len == Total(v)
  {
    len := 0;
    for i := 0 to |v|
      invariant len + Total(v[i..]) == Total(v)
    {
      assert v[i..][1..] == v[i+1..];
      len := len + v[i].len;
    }
  }

  lemma AppendMessage(m: Message, log: seq<Message>, bytes: seq<byte>)
    requires bytes == EncodeAll(log)
    ensures EncodeAll(log + [m]) == bytes + Encode(m)
  {
    EncodeAllAppend(log, [m]);
    assert EncodeAll([m]) == Encode(m) + [];
  }
}
