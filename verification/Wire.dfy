// What an RTSP connection carries towards the client: replies, and binary
// frames interleaved with them (section 10.12 of RFC 2326).
module Wire {
  import opened Bytes
  import opened Digits
  import opened Pmsg

  const DOLLAR: byte := 36

  /** Stray bytes are what is left on the connection by a frame whose header
      does not count what was queued behind it. */
  datatype Message =
    | Interleaved(chan: byte, payload: seq<byte>)
    | Reply(head: seq<byte>, body: seq<byte>)
    | Stray(bytes: seq<byte>)

  function FrameHead(chan: byte, len: int): (h: seq<byte>)
    ensures |h| == 4
  {
    [DOLLAR, chan] + Put16(len)
  }

  function Encode(m: Message): seq<byte> {
    match m
    case Interleaved(chan, payload) => FrameHead(chan, |payload|) + payload
    case Reply(head, body) => head + body
    case Stray(bytes) => bytes
  }

  /** A dollar sign, the channel, the length with its high byte first, the
      payload. */
  lemma InterleavedBytes(chan: byte, payload: seq<byte>)
    ensures var d := Encode(Interleaved(chan, payload));
            |d| == 4 + |payload| && d[0] == 36 && d[1] == chan && d[4..] == payload
            && d[2] as int * 256 + d[3] as int == |payload| % 65536
  {
    Get16Put16(|payload|, []);
    assert Put16(|payload|) + [] == Put16(|payload|);
  }

  function EncodeAll(log: seq<Message>): seq<byte> {
    if log == [] then [] else Encode(log[0]) + EncodeAll(log[1..])
  }

  lemma {:induction false} EncodeAllAppend(a: seq<Message>, b: seq<Message>)
    ensures EncodeAll(a + b) == EncodeAll(a) + EncodeAll(b)
  {
    if a == [] {
      assert a + b == b;
    } else {
      assert (a + b)[1..] == a[1..] + b;
      EncodeAllAppend(a[1..], b);
    }
  }

  /** The length of the message head d begins with: everything up to and
      including the first empty line. */
  function HeadLength(d: seq<byte>, from: nat): (n: Option<nat>)
    ensures n.Some? ==> from + 4 <= n.value <= |d|
    decreases |d| - from
  {
    if from >= |d| then None
    else if HeadEndsAt(d, from) then Some(from + 4)
    else HeadLength(d, from + 1)
  }

  lemma {:induction false} HeadLengthIs(d: seq<byte>, from: nat, n: nat)
    requires from <= n && HeadEndsAt(d, n)
    requires forall i :: from <= i < n ==> !HeadEndsAt(d, i)
    ensures HeadLength(d, from) == Some(n + 4)
    decreases n - from
  {
    if from < n { HeadLengthIs(d, from + 1, n); }
  }

  /** A head ends with its first empty line. */
  predicate WellFormedHead(head: seq<byte>) {
    && |head| >= 4 && head[0] != DOLLAR
    && HeadEndsAt(head, |head| - 4)
    && forall i :: 0 <= i < |head| - 4 ==> !HeadEndsAt(head, i)
  }

  /** How long a body the headers of a head announce. */
  function BodyLengthOf(head: seq<byte>): Option<nat> {
    match Parse(head)
    case None => None
    case Some(p) => BodyLength(p.fields)
  }

  predicate WellFormed(m: Message) {
    match m
    case Interleaved(_, payload) => |payload| < 65536
    case Reply(head, body) => WellFormedHead(head) && BodyLengthOf(head) == Some(|body|)
    case Stray(_) => false
  }

  ghost predicate AllWellFormed(log: seq<Message>) {
    forall i :: 0 <= i < |log| ==> WellFormed(log[i])
  }

  /** The lengths of the two parts of a message. */
  datatype Extent = Extent(head: nat, body: nat)

  /** The extent of the message that d begins with, as far as d tells. */
  function ExtentOf(d: seq<byte>): (x: Option<Extent>)
    ensures x.Some? ==> 4 <= x.value.head <= |d|
  {
    if d != [] && d[0] == DOLLAR then
      if |d| < 4 then None else Some(Extent(4, Get16(d[2..])))
    else
      match HeadLength(d, 0)
      case None => None
      case Some(h) =>
        match BodyLengthOf(d[..h])
        case None => None
        case Some(b) => Some(Extent(h, b))
  }

  /** The message that d begins with, when all of it is there. */
  function First(d: seq<byte>): Option<Message> {
    match ExtentOf(d)
    case None => None
    case Some(x) =>
      if x.head + x.body > |d| then None
      else
        var body := d[x.head..x.head + x.body];
        Some(if d[0] == DOLLAR then Interleaved(d[1], body) else Reply(d[..x.head], body))
  }

  /** The client's side: the messages that have arrived whole in what it has
      received so far, and whatever follows them. */
  function Receive(d: seq<byte>): (seq<Message>, seq<byte>)
    decreases |d|
  {
    match First(d)
    case None => ([], d)
    case Some(m) =>
      var x := ExtentOf(d).value;
      var (more, rest) := Receive(d[x.head + x.body..]);
      ([m] + more, rest)
  }

  /** The whole byte stream as messages, with nothing left over. */
  function Deframe(d: seq<byte>): Option<seq<Message>> {
    var (ms, rest) := Receive(d);
    if rest == [] then Some(ms) else None
  }

  lemma ExtentEncoded(m: Message, rest: seq<byte>)
    requires WellFormed(m)
    ensures ExtentOf(Encode(m) + rest) == Some(ExtentIs(m))
  {
    hide BodyLengthOf, HeadLength, HeadEndsAt;
    match m
    case Interleaved(chan, payload) =>
      var d := Encode(m) + rest;
      assert d[2..] == Put16(|payload|) + (payload + rest);
      Get16Put16(|payload|, payload + rest);
    case Reply(head, body) =>
      HeadLengthOf(head, body + rest);
      assert Encode(m) + rest == head + (body + rest);
      assert (Encode(m) + rest)[0] == head[0];
  }

  function ExtentIs(m: Message): (x: Extent)
    ensures x.head + x.body == |Encode(m)|
  {
    match m
    case Interleaved(_, payload) => Extent(4, |payload|)
    case Reply(head, body) => Extent(|head|, |body|)
    case Stray(bytes) => Extent(0, |bytes|)
  }

  lemma HeadLengthOf(head: seq<byte>, rest: seq<byte>)
    requires WellFormedHead(head)
    ensures HeadLength(head + rest, 0) == Some(|head|)
    ensures (head + rest)[..|head|] == head
  {
    var d := head + rest;
    forall i | 0 <= i < |head| - 4 ensures !HeadEndsAt(d, i) { assert !HeadEndsAt(head, i); }
    HeadLengthIs(d, 0, |head| - 4);
  }

  /** A well-formed message is cut off as what it is, whatever follows it. */
  lemma FirstEncoded(m: Message, rest: seq<byte>)
    requires WellFormed(m)
    ensures ExtentOf(Encode(m) + rest) == Some(ExtentIs(m)) && First(Encode(m) + rest) == Some(m)
  {
    hide BodyLengthOf, ExtentOf, HeadEndsAt;
    var d := Encode(m) + rest;
    ExtentEncoded(m, rest);
    if m.Interleaved? {
      assert d[4..|Encode(m)|] == m.payload;
    } else {
      assert d[..|m.head|] == m.head && d[|m.head|..|Encode(m)|] == m.body;
    }
  }

  /** ... and not before all of it has arrived. */
  lemma FirstUnfinished(m: Message, k: nat)
    requires WellFormed(m) && k < |Encode(m)|
    ensures First(Encode(m)[..k]) == None
  {
    hide BodyLengthOf, HeadLength;
    var e, d := Encode(m), Encode(m)[..k];
    if m.Interleaved? {
      FirstUnfinishedFrame(m, k);
    } else if k < |m.head| {
      forall i | 0 <= i < k ensures !HeadEndsAt(d, i) {
        assert i + 4 <= k ==> !HeadEndsAt(m.head, i);
      }
      HeadUnfinished(d, 0);
    } else {
      hide HeadEndsAt;
      HeadLengthOf(m.head, m.body[..k - |m.head|]);
      assert d == m.head + m.body[..k - |m.head|];
    }
  }

  lemma FirstUnfinishedFrame(m: Message, k: nat)
    requires WellFormed(m) && m.Interleaved? && k < |Encode(m)|
    ensures First(Encode(m)[..k]) == None
  {
    hide BodyLengthOf, HeadLength;
    var e, d := Encode(m), Encode(m)[..k];
    if k >= 4 {
      ExtentEncoded(m, []);
      assert e + [] == e && Get16(d[2..]) == Get16(e[2..]);
    }
  }

  lemma {:induction false} HeadUnfinished(d: seq<byte>, from: nat)
    requires forall i :: from <= i < |d| ==> !HeadEndsAt(d, i)
    ensures HeadLength(d, from) == None
    decreases |d| - from
  {
    if from < |d| { HeadUnfinished(d, from + 1); }
  }

  lemma ReceiveFirst(m: Message, rest: seq<byte>)
    requires WellFormed(m)
    ensures Receive(Encode(m) + rest) == ([m] + Receive(rest).0, Receive(rest).1)
  {
    hide First, Encode, WellFormed, ExtentOf, ExtentIs;
    FirstEncoded(m, rest);
    assert (Encode(m) + rest)[|Encode(m)|..] == rest;
  }

  lemma ReceiveUnfinished(m: Message, k: nat)
    requires WellFormed(m) && k < |Encode(m)|
    ensures Receive(Encode(m)[..k]) == ([], Encode(m)[..k])
  {
    hide First, Encode, WellFormed, ExtentOf;
    FirstUnfinished(m, k);
  }

  lemma ReceiveNothing()
    ensures Receive([]) == ([], [])
  {
  }

  /** Whatever part of the server's bytes has arrived, the client has got
      messages the server accepted, in order and unchanged, and has yet to
      interpret only a part of the next one. */
  lemma {:induction false} ReceivedPrefix(log: seq<Message>, k: nat)
    requires AllWellFormed(log) && k <= |EncodeAll(log)|
    ensures var (ms, rest) := Receive(EncodeAll(log)[..k]);
            && ms <= log && EncodeAll(log)[..k] == EncodeAll(ms) + rest
            && (|ms| < |log| ==> |rest| < |Encode(log[|ms|])|)
  {
    hide Receive, Encode, WellFormed;
    var d := EncodeAll(log)[..k];
    if log == [] {
      assert d == [];
      ReceiveNothing();
    } else {
      var m, e, tail := log[0], Encode(log[0]), EncodeAll(log[1..]);
      if k < |e| {
        assert d == e[..k];
        ReceiveUnfinished(m, k);
        assert d == [] + d;
      } else {
        var part := tail[..k - |e|];
        assert d == e + part;
        ReceiveFirst(m, part);
        ReceivedPrefix(log[1..], k - |e|);
        var (more, rest) := Receive(part);
        assert EncodeAll([m] + more) == e + EncodeAll(more) by { assert ([m] + more)[1..] == more; }
        assert d == e + EncodeAll(more) + rest;
        assert [m] + log[1..] == log;
      }
    }
  }

  /** Cutting up what the server wrote gives back the messages it accepted. */
  lemma DeframeEncoded(log: seq<Message>)
    requires AllWellFormed(log)
    ensures Deframe(EncodeAll(log)) == Some(log)
  {
    hide WellFormed, Encode, Receive;
    var d := EncodeAll(log);
    assert d[..|d|] == d;
    ReceivedPrefix(log, |d|);
    var (ms, rest) := Receive(d);
    var left := log[|ms|..];
    assert ms + left == log;
    EncodeAllAppend(ms, left);
    assert rest == EncodeAll(left) by {
      assert rest == d[|EncodeAll(ms)|..] == EncodeAll(left);
    }
    EncodeAllFirst(left);
    assert left == [] && ms == log;
  }

  lemma EncodeAllFirst(log: seq<Message>)
    ensures log != [] ==> |EncodeAll(log)| >= |Encode(log[0])|
  {
  }

  /** A printed reply, with the body that it announces, is one message on an
      RTSP connection: no client finds an end of it before its end. */
  lemma PrintedFramed(line: Line, fields: seq<Field>, body: Option<seq<byte>>)
    requires Printable(line, fields) && line.proto[0] != DOLLAR && Unannounced(fields)
    ensures WellFormed(PrintedReply(line, fields, body))
  {
    hide Parse, Decimal, PrintFields, PrintableField, HeadEndsAt, BodyLength, IsContentLength, Announced;
    var len := LengthOf(body);
    var c := line.proto + [SP] + Decimal(line.code) + [SP] + line.reason;
    var head := Print(line, fields, len);
    AnnouncedPrintable(line, fields, len);
    FieldsFramed(c, Announced(fields, len));
    assert head == c + CRLF + PrintFields(Announced(fields, len)) + CRLF;
    assert head[0] == line.proto[0];
    ParsePrinted(line, fields, len, []);
    assert head + [] == head;
    AnnouncedLength(fields, len);
  }

  function LengthOf(body: Option<seq<byte>>): Option<nat> {
    if body.Some? then Some(|body.value|) else None
  }

  function PrintedReply(line: Line, fields: seq<Field>, body: Option<seq<byte>>): Message
    requires line.Response?
  {
    Reply(Print(line, fields, LengthOf(body)), if body.Some? then body.value else [])
  }

  /** The 16-bit length field is the only limit on interleaved payloads, and
      interleave_send does not check it: a longer payload is misread. */
  lemma InterleavedRecoveredIff(chan: byte, payload: seq<byte>)
    ensures Deframe(Encode(Interleaved(chan, payload))) == Some([Interleaved(chan, payload)])
            <==> |payload| < 65536
  {
    var m := Interleaved(chan, payload);
    var d := Encode(m);
    if |payload| < 65536 {
      DeframeEncoded([m]);
      assert EncodeAll([m]) == d;
    } else {
      assert d[2..] == Put16(|payload|) + payload;
      Get16Put16(|payload|, payload);
      var m' := First(d).value;
      assert |m'.payload| < |payload|;
      assert Receive(d).0[0] == m';
    }
  }

  /** The payloads sent on one channel, in order. */
  function OnChannel(log: seq<Message>, chan: byte): seq<seq<byte>> {
    if log == [] then []
    else (if log[0].Interleaved? && log[0].chan == chan then [log[0].payload] else [])
         + OnChannel(log[1..], chan)
  }

  lemma {:induction false} OnChannelAppend(a: seq<Message>, b: seq<Message>, chan: byte)
    ensures OnChannel(a + b, chan) == OnChannel(a, chan) + OnChannel(b, chan)
  {
    if a == [] {
      assert a + b == b;
    } else {
      assert (a + b)[1..] == a[1..] + b;
      OnChannelAppend(a[1..], b, chan);
    }
  }

  lemma {:induction false} ChannelPayloads(log: seq<Message>, i: nat)
    requires i < |log| && log[i].Interleaved?
    ensures log[i].payload in OnChannel(log, log[i].chan)
  {
    if i > 0 { ChannelPayloads(log[1..], i - 1); }
  }
}
