// Replies as they are put together (spook/pmsg.c): strings one behind the other
// in a buffer of fixed size, and pointers to them. The size of that buffer is
// what keeps a printed reply inside the buffer of tcp_send_pmsg.
module PmsgReply {
  import opened Bytes
  import opened Digits
  import opened Pmsg
  import opened PmsgParser
  import opened Tcp
  import opened Wire

  // ---- Room for strings ------------------------------------------------------------

  /** What a string takes, with its NUL; a null pointer takes nothing. */
  function TextSpace(text: Option<seq<byte>>): nat {
    if text.Some? then |text.value| + 1 else 0
  }

  function FieldSpace(f: Field): nat { |f.name| + 1 + |f.value| + 1 }

  function FieldsSpace(fields: seq<Field>): nat {
    if fields == [] then 0 else FieldSpace(fields[0]) + FieldsSpace(fields[1..])
  }

  lemma {:induction false} FieldsSpaceSnoc(fields: seq<Field>, f: Field)
    ensures FieldsSpace(fields + [f]) == FieldsSpace(fields) + FieldSpace(f)
  {
    if fields != [] {
      FieldsSpaceSnoc(fields[1..], f);
      assert (fields + [f])[1..] == fields[1..] + [f];
    }
  }

  // What sprintf writes for a null pointer: "(null)"
  const NULL_TEXT: seq<byte> := [40, 110, 117, 108, 108, 41]

  function TextOf(text: Option<seq<byte>>): seq<byte> {
    if text.Some? then text.value else NULL_TEXT
  }

  lemma {:induction false} FieldsPrintedLength(fields: seq<Field>)
    ensures |PrintFields(fields)| == FieldsSpace(fields) + 2 * |fields|
  {
    if fields != [] { FieldsPrintedLength(fields[1..]); }
  }

  lemma ShortDecimal(n: nat)
    requires n < 0x8000_0000
    ensures |Decimal(n)| <= 10
  {
    assert Power10(5) == 100000;
    assert Power10(10) == 10 * (10 * (10 * (10 * (10 * Power10(5)))));
    DecimalLength(n, 10);
  }

  /** A printed reply takes little more than its strings take in a message. */
  lemma PrintedLength(proto: Option<seq<byte>>, code: nat, reason: Option<seq<byte>>, fields: seq<Field>,
                      body: Option<nat>)
    requires code < 0x8000_0000 && (body.Some? ==> body.value < 0x8000_0000)
    ensures |Print(Response(TextOf(proto), code, TextOf(reason)), fields, body)|
         <= TextSpace(proto) + TextSpace(reason) + FieldsSpace(fields) + 2 * |fields| + 56
  {
    hide Decimal, PrintFields, FieldsSpace;
    ShortDecimal(code);
    FieldsPrintedLength(fields);
    if body.Some? {
      ShortDecimal(body.value);
      var f := Field(CONTENT_LENGTH, Decimal(body.value));
      PrintFieldsSnoc(fields, f);
      assert |PrintField(f)| == 18 + |Decimal(body.value)|;
    }
  }

  // ---- The message ------------------------------------------------------------------

  /** The pointer p points to the text; both may be null. */
  ghost predicate Points(d: seq<byte>, p: Option<nat>, upto: nat, text: Option<seq<byte>>) {
    p.Some? == text.Some? && (p.Some? ==> Says(d, p.value, upto, text.value))
  }

  lemma PointsLater(d: seq<byte>, d': seq<byte>, p: Option<nat>, upto: nat, later: nat, text: Option<seq<byte>>)
    requires Points(d, p, upto, text) && Kept(d, d', upto) && upto <= later <= |d|
    ensures Points(d', p, later, text)
  {
    if p.Some? { SaysLater(d, d', p.value, upto, later, text.value); }
  }

  lemma WrittenSays(d: seq<byte>, off: nat, s: seq<byte>)
    requires off + |s| < |d| && d[off..off + |s|] == s && d[off + |s|] == NUL && !(NUL in s)
    ensures Says(d, off, off + |s| + 1, s)
  {
    CutShort(d[off..], |s|);
    assert d[off..][..|s|] == s;
    CutAll(s);
  }

  /** How a header fares in a message with the given room, of which used bytes
      are taken: the bytes taken afterwards, and whether the header is added. */
  datatype Book = Book(used: nat, fields: seq<Field>)

  predicate HasRoom(b: Book, size: nat, f: Field) {
    |b.fields| < MAX_FIELDS && b.used + FieldSpace(f) <= size
  }

  function Added(b: Book, size: nat, f: Field): Book {
    if HasRoom(b, size, f) then Book(b.used + FieldSpace(f), b.fields + [f])
    else if |b.fields| < MAX_FIELDS && b.used + |f.name| + 1 <= size then b.(used := b.used + |f.name| + 1)
    else b
  }

  predicate SameName(f: Field, name: seq<byte>) { Lower(f.name) == Lower(name) }

  /** strcasecmp: the same letters in the same places, large or small. */
  lemma SameNameMeans(f: Field, name: seq<byte>)
    ensures SameName(f, name) <==>
            |f.name| == |name| && forall i :: 0 <= i < |name| ==> SameLetter(f.name[i], name[i])
  {
    var a, b := Lower(f.name), Lower(name);
    if |f.name| == |name| {
      forall i | 0 <= i < |name| ensures a[i] == b[i] <==> SameLetter(f.name[i], name[i]) {
        LowerDiffers(f.name[i], name[i]);
      }
      assert a == b <==> forall i :: 0 <= i < |name| ==> a[i] == b[i];
    }
  }

  predicate SameLetter(x: byte, y: byte) {
    x == y || (65 <= x <= 90 && y == x + 32) || (65 <= y <= 90 && x == y + 32)
  }

  lemma LowerDiffers(x: byte, y: byte)
    ensures (if 65 <= x <= 90 then x + 32 else x) == (if 65 <= y <= 90 then y + 32 else y) <==>
            SameLetter(x, y)
  {
  }

  /** The headers of that name, in order. */
  function Named(from: seq<Field>, name: seq<byte>): seq<Field> {
    if from == [] then []
    else (if SameName(from[0], name) then [from[0]] else []) + Named(from[1..], name)
  }

  lemma {:induction false} NamedAppend(a: seq<Field>, b: seq<Field>, name: seq<byte>)
    ensures Named(a + b, name) == Named(a, name) + Named(b, name)
  {
    hide SameName;
    if a == [] {
      assert a + b == b;
    } else {
      assert (a + b)[1..] == a[1..] + b && (a + b)[0] == a[0];
      NamedAppend(a[1..], b, name);
      Associative(if SameName(a[0], name) then [a[0]] else [], Named(a[1..], name), Named(b, name));
    }
  }

  lemma {:induction false} NamedMeans(from: seq<Field>, name: seq<byte>)
    ensures forall f :: f in Named(from, name) <==> f in from && SameName(f, name)
    ensures (forall f :: f in from ==> SameName(f, name)) ==> Named(from, name) == from
    ensures (forall f :: f in from ==> !SameName(f, name)) ==> Named(from, name) == []
  {
    hide SameName;
    if from != [] {
      NamedMeans(from[1..], name);
      assert from == [from[0]] + from[1..];
    }
  }

  /** What copy_headers makes of the books: header by header. */
  function Copied(b: Book, size: nat, from: seq<Field>, name: seq<byte>): Book
    decreases |from|
  {
    if from == [] then b
    else Copied(if SameName(from[0], name) then Added(b, size, from[0]) else b, size, from[1..], name)
  }

  lemma {:induction false} CopiedOnly(b: Book, size: nat, from: seq<Field>, name: seq<byte>)
    ensures forall f :: f in Copied(b, size, from, name).fields ==> f in b.fields || (f in from && SameName(f, name))
    ensures b.fields <= Copied(b, size, from, name).fields
    decreases |from|
  {
    if from != [] {
      CopiedOnly(if SameName(from[0], name) then Added(b, size, from[0]) else b, size, from[1..], name);
    }
  }

  predicate Fits(b: Book, size: nat, fields: seq<Field>) {
    |b.fields| + |fields| <= 32 && b.used + FieldsSpace(fields) <= size
  }

  /** All headers of the name come in, in order, if and only if there is room
      for all of them. */
  lemma {:induction false} CopiedIff(b: Book, size: nat, from: seq<Field>, name: seq<byte>)
    requires |b.fields| <= 32 && b.used <= size
    ensures Fits(b, size, Named(from, name)) ==>
              Copied(b, size, from, name) == Book(b.used + FieldsSpace(Named(from, name)), b.fields + Named(from, name))
    ensures Fits(b, size, Named(from, name)) <==>
              |Copied(b, size, from, name).fields| == |b.fields| + |Named(from, name)|
    ensures |Copied(b, size, from, name).fields| <= |b.fields| + |Named(from, name)|
    decreases |from|
  {
    hide SameName, FieldSpace, Added, Fits, HasRoom;
    if from == [] {
      FitsNothing(b, size);
    } else {
      var f, rest := from[0], Named(from[1..], name);
      if SameName(f, name) {
        AddedBounds(b, size, f);
        CopiedIff(Added(b, size, f), size, from[1..], name);
        assert Named(from, name) == [f] + rest;
        FitsCons(b, size, f, rest);
      } else {
        CopiedIff(b, size, from[1..], name);
        assert Named(from, name) == [] + rest == rest;
      }
    }
  }

  lemma FitsNothing(b: Book, size: nat)
    requires |b.fields| <= 32 && b.used <= size
    ensures Fits(b, size, []) && b.fields + [] == b.fields
  {
  }

  lemma AddedBounds(b: Book, size: nat, f: Field)
    requires |b.fields| <= 32 && b.used <= size
    ensures var b' := Added(b, size, f);
            && |b'.fields| <= 32 && b'.used <= size
            && |b'.fields| == |b.fields| + (if HasRoom(b, size, f) then 1 else 0)
            && (HasRoom(b, size, f) ==> b' == Book(b.used + FieldSpace(f), b.fields + [f]))
  {
  }

  lemma FitsCons(b: Book, size: nat, f: Field, rest: seq<Field>)
    requires |b.fields| <= 32 && b.used <= size
    ensures Fits(b, size, [f] + rest) <==> HasRoom(b, size, f) && Fits(Added(b, size, f), size, rest)
    ensures FieldsSpace([f] + rest) == FieldSpace(f) + FieldsSpace(rest)
    ensures b.fields + ([f] + rest) == (b.fields + [f]) + rest
  {
    hide FieldSpace;
    SpaceCons(f, rest);
  }

  lemma CopiedAllIff(used: nat, size: nat, from: seq<Field>, name: seq<byte>)
    requires used <= size
    ensures Copied(Book(used, []), size, from, name).fields == Named(from, name) <==>
            Fits(Book(used, []), size, Named(from, name))
  {
    CopiedIff(Book(used, []), size, from, name);
    assert [] + Named(from, name) == Named(from, name);
  }

  lemma SpaceCons(f: Field, rest: seq<Field>)
    ensures FieldsSpace([f] + rest) == FieldSpace(f) + FieldsSpace(rest)
  {
    assert ([f] + rest)[1..] == rest;
  }

  predicate CString(s: seq<byte>) { forall k :: 0 <= k < |s| ==> s[k] != NUL }

  class Reply {
    const msg: array<byte>            // max_len bytes
    const fields: array<(nat, nat)>   // pointers to names and values
    var msgLen: nat
    var headerCount: nat
    var proto: Option<nat>
    var code: nat
    var reason: Option<nat>

    ghost var protoText: Option<seq<byte>>
    ghost var reasonText: Option<seq<byte>>
    ghost var list: seq<Field>

    /** The strings lie in the first msgLen bytes, where the pointers say, and
        do not take more than these. */
    ghost predicate Valid()
      reads this, msg, fields
    {
      Sized() && Spelt()
    }

    ghost predicate Sized()
      reads this
    {
      && fields.Length == MAX_FIELDS && headerCount == |list| <= MAX_FIELDS && msgLen <= msg.Length
      && TextSpace(protoText) + TextSpace(reasonText) + FieldsSpace(list) <= msgLen
    }

    ghost predicate Spelt()
      requires Sized()
      reads this, msg, fields
    {
      && FieldsSay(msg[..], fields[..headerCount], msgLen, list)
      && Points(msg[..], proto, msgLen, protoText) && Points(msg[..], reason, msgLen, reasonText)
    }

    ghost function Contents(): Book
      reads `msgLen, `list
    {
      Book(msgLen, list)
    }

    /** new_pmsg */
    constructor (size: nat, code: nat)
      ensures Valid() && msg.Length == size && this.code == code && fresh(msg) && fresh(fields)
      ensures Contents() == Book(0, []) && protoText == None && reasonText == None
    {
      msg := new byte[size](_ => NUL);
      fields := new (nat, nat)[MAX_FIELDS](_ => (0, 0));
      msgLen, headerCount, proto, reason := 0, 0, None, None;
      this.code := code;
      protoText, reasonText, list := None, None, [];
    }

    /** add_pmsg_string: the string goes behind those that are there, or, when
        there is no room for it and its NUL, the pointer is null. */
    method AddString(s: seq<byte>) returns (p: Option<nat>)
      requires Valid() && CString(s)
      modifies this`msgLen, msg
      ensures Valid()
      ensures p == if old(msgLen) + |s| + 1 <= msg.Length then Some(old(msgLen)) else None
      ensures msgLen == old(msgLen) + if p.Some? then |s| + 1 else 0
      ensures p.Some? ==> Says(msg[..], p.value, msgLen, s) && Kept(old(msg[..]), msg[..], old(msgLen))
    {
      hide Says, Kept, FieldsSay, Points, FieldsSpace;
      if msgLen + |s| + 1 > msg.Length { return None; }
      ghost var was, upto := msg[..], msgLen;
      Write(msgLen, s);
      p := Some(msgLen);
      msgLen := msgLen + |s| + 1;
      FieldsSayLater(was, msg[..], fields[..headerCount], upto, msgLen, list);
      PointsLater(was, msg[..], proto, upto, msgLen, protoText);
      PointsLater(was, msg[..], reason, upto, msgLen, reasonText);
    }

    /** strcpy */
    method Write(off: nat, s: seq<byte>)
      requires off + |s| < msg.Length && CString(s)
      modifies msg
      ensures Says(msg[..], off, off + |s| + 1, s) && Kept(old(msg[..]), msg[..], off)
    {
      forall i | 0 <= i <= |s| { msg[off + i] := if i < |s| then s[i] else NUL; }
      assert msg[..][off..off + |s|] == s;
      WrittenSays(msg[..], off, s);
    }

    method SetProto(s: seq<byte>)
      requires Valid() && CString(s) && protoText == None
      modifies this`msgLen, this`proto, this`protoText, msg
      ensures Valid() && list == old(list)
      ensures protoText == if old(msgLen) + |s| + 1 <= msg.Length then Some(s) else None
      ensures msgLen == old(msgLen) + TextSpace(protoText)
    {
      hide Says, Kept, FieldsSay, FieldsSpace;
      var p := AddString(s);
      proto := p;
      protoText := if p.Some? then Some(s) else None;
    }

    method SetReason(s: seq<byte>)
      requires Valid() && CString(s) && reasonText == None
      modifies this`msgLen, this`reason, this`reasonText, msg
      ensures Valid() && list == old(list)
      ensures reasonText == if old(msgLen) + |s| + 1 <= msg.Length then Some(s) else None
      ensures msgLen == old(msgLen) + TextSpace(reasonText)
    {
      hide Says, Kept, FieldsSay, FieldsSpace;
      var p := AddString(s);
      reason := p;
      reasonText := if p.Some? then Some(s) else None;
    }

    /** add_header. A name that has been stored stays when there is no room for
        the value. */
    method AddHeader(name: seq<byte>, value: seq<byte>) returns (ok: bool)
      requires Valid() && CString(name) && CString(value)
      modifies this`msgLen, this`headerCount, this`list, msg, fields
      ensures Valid() && ok == HasRoom(old(Contents()), msg.Length, Field(name, value))
      ensures Contents() == Added(old(Contents()), msg.Length, Field(name, value))
    {
      hide Says, Kept, FieldsSay, Points, FieldsSpace;
      if headerCount == MAX_FIELDS { return false; }
      var n := AddString(name);
      if n.None? { return false; }
      ghost var was, upto := msg[..], msgLen;
      var v := AddString(value);
      if v.None? { return false; }
      SaysLater(was, msg[..], n.value, upto, msgLen, name);
      Count(n.value, v.value, Field(name, value));
      return true;
    }

    /** One header more, whose strings have been stored. */
    method Count(n: nat, v: nat, ghost f: Field)
      requires Valid() && headerCount < MAX_FIELDS
      requires Says(msg[..], n, msgLen, f.name) && Says(msg[..], v, msgLen, f.value)
      requires TextSpace(protoText) + TextSpace(reasonText) + FieldsSpace(list) + FieldSpace(f) <= msgLen
      modifies this`headerCount, this`list, fields
      ensures Valid() && list == old(list) + [f]
    {
      hide Says, Points, FieldsSpace;
      FieldsSpaceSnoc(list, f);
      ghost var at := fields[..headerCount];
      fields[headerCount] := (n, v);
      headerCount := headerCount + 1;
      assert fields[..headerCount] == at + [(n, v)];
      list := list + [f];
    }

    /** copy_headers, from a message with the given headers. */
    method CopyHeaders(from: seq<Field>, name: seq<byte>)
      requires Valid() && forall i :: 0 <= i < |from| ==> CString(from[i].name) && CString(from[i].value)
      modifies this`msgLen, this`headerCount, this`list, msg, fields
      ensures Valid() && Contents() == Copied(old(Contents()), msg.Length, from, name)
    {
      hide Valid, Added, SameName;
      assert from[0..] == from;
      for i := 0 to |from|
        invariant Valid()
        invariant Copied(Contents(), msg.Length, from[i..], name) == Copied(old(Contents()), msg.Length, from, name)
      {
        assert from[i..][1..] == from[i + 1..];
        if SameName(from[i], name) { var ok := AddHeader(from[i].name, from[i].value); }
      }
    }

    /** add_header_printf. The text is first written into what room there is,
        cut short if need be, and the value comes before the name. */
    method AddHeaderPrintf(name: seq<byte>, text: seq<byte>) returns (ok: bool)
      requires Valid() && CString(name) && CString(text)
      modifies this`msgLen, this`headerCount, this`list, msg, fields
      ensures Valid() && ok == HasRoom(old(Contents()), msg.Length, Field(name, text))
      ensures list == old(list) + if ok then [Field(name, text)] else []
      ensures msgLen <= old(msgLen) + FieldSpace(Field(name, text))
    {
      hide Says, Kept, FieldsSay, Points, FieldsSpace;
      Truncate(text);
      if headerCount == MAX_FIELDS { return false; }
      if msgLen + |text| >= msg.Length { return false; }
      // What follows stores the same bytes once more.
      var v := AddString(text);
      ghost var was, upto := msg[..], msgLen;
      var n := AddString(name);
      if n.None? { return false; }
      SaysLater(was, msg[..], v.value, upto, msgLen, text);
      Count(n.value, v.value, Field(name, text));
      return true;
    }

    /** vsnprintf with what room there is: it stays inside, and nothing that
        has been stored changes. */
    method Truncate(text: seq<byte>)
      requires Valid()
      modifies msg
      ensures Valid() && Kept(old(msg[..]), msg[..], msgLen)
    {
      hide Says, FieldsSay, Points, FieldsSpace;
      ghost var was, at := msg[..], fields[..headerCount];
      var n := if msg.Length - msgLen <= |text| then msg.Length - msgLen - 1 else |text|;
      if n >= 0 {
        forall i | 0 <= i <= n { msg[msgLen + i] := if i < n then text[i] else NUL; }
      }
      assert fields[..headerCount] == at;
      FieldsSayLater(was, msg[..], at, msgLen, msgLen, list);
      PointsLater(was, msg[..], proto, msgLen, msgLen, protoText);
      PointsLater(was, msg[..], reason, msgLen, msgLen, reasonText);
    }

    // ---- Sending -----------------------------------------------------------------

    ghost function StatusLine(): Line
      reads `protoText, `code, `reasonText
    {
      Response(TextOf(protoText), code, TextOf(reasonText))
    }

    function Text(p: Option<nat>): seq<byte>
      requires p.Some? ==> p.value <= msg.Length
      reads msg
    {
      if p.Some? then Cut(msg[p.value..]) else NULL_TEXT
    }

    /** What the pointers point to. */
    method Read() returns (line: Line, fs: seq<Field>)
      requires Valid()
      ensures line == StatusLine() && fs == list
    {
      hide Cut, FieldsSpace;
      line := Response(Text(proto), code, Text(reason));
      fs := [];
      for i := 0 to headerCount
        invariant fs == list[..i]
      {
        assert fields[..headerCount][i] == fields[i];
        fs := fs + [Field(Cut(msg[fields[i].0..]), Cut(msg[fields[i].1..]))];
      }
    }

    /** A reply, and its body, handed to the connection. Messages of replies
        have 256 or 512 bytes, and so no reply overruns the print buffer: it is
        queued or refused. */
    method Send(conn: Conn, body: Option<seq<byte>>) returns (r: Printing)
      requires Valid() && msg.Length <= REPLY_SIZE && code < 0x8000_0000
      requires conn.Valid() && (body.Some? ==> |body.value| < 0x8000_0000)
      modifies conn, conn.sendBuf
      ensures conn.Valid() && !r.Overrun?
      ensures r == SendOutcome(StatusLine(), list, LengthOf(body), old(conn.Avail()))
      ensures conn.log == if r.Printed? then old(conn.log) + [PrintedReply(StatusLine(), list, body)] else old(conn.log)
    {
      hide Spelt, Print, PrintedReply, FieldsSpace;
      PrintedLength(protoText, code, reasonText, list, LengthOf(body));
      var line, fs := Read();
      r := conn.SendReply(line, fs, body);
    }
  }

  const REPLY_SIZE := 512

  // ---- Replies of the RTSP server -----------------------------------------------------

  // "CSeq"
  const CSEQ: seq<byte> := [67, 83, 101, 113]

  /** A header that parse_pmsg has found can be printed again. */
  lemma ParsedPrintable(s: seq<byte>, i: nat)
    requires i < |s| && ParseHeader(s, i).Some?
    ensures PrintableField(ParseHeader(s, i).value.field)
  {
    hide Skip, Cut;
    var e, c := Delim(s, i, SP, COLON), ColonAt(s, i);
    var v := Skip(s, c + 1, true);
    var w := Delim(s, v, NUL, NUL);
    DelimMeans(s, i, SP, COLON);
    DelimMeans(s, v, NUL, NUL);
    var name, value := Cut(s[i..e]), Cut(s[v..w]);
    assert forall k :: 0 <= k < |name| ==> name[k] == s[i + k];
    assert forall k :: 0 <= k < |value| ==> value[k] == s[v + k];
  }

  lemma {:induction false} DelimMeans(s: seq<byte>, i: nat, term1: byte, term2: byte)
    requires i <= |s|
    ensures forall k :: i <= k < Delim(s, i, term1, term2) ==> !Stops(s[k], term1, term2)
    decreases |s| - i
  {
    if i < |s| && !Stops(s[i], term1, term2) { DelimMeans(s, i + 1, term1, term2); }
  }

  lemma {:induction false} AllParsedPrintable(s: seq<byte>, i: nat)
    requires i <= |s| && ParseHeaders(s, i).Some?
    ensures forall f :: f in ParseHeaders(s, i).value.fields ==> PrintableField(f)
    decreases |s| - i
  {
    hide ParseHeader, PrintableField;
    var j := if i < |s| && s[i] == CR then i + 1 else i;
    if j < |s| && s[j] != LF {
      ParsedPrintable(s, j);
      AllParsedPrintable(s, ParseHeader(s, j).value.next);
    }
  }

  lemma NoContentLength(f: Field)
    requires SameName(f, CSEQ)
    ensures !IsContentLength(f)
  {
    assert |Lower(CSEQ)| == 4 && |Lower(CONTENT_LENGTH)| == 14;
  }

  /** What a handler may add to a reply. */
  predicate Addable(f: Field) { PrintableField(f) && !IsContentLength(f) }

  /** rtsp_create_reply to a request that has been parsed: a reply that a client
      can cut from the stream again. It echoes CSeq. */
  method RtspCreateReply(code: nat, text: seq<byte>, request: Parsed, ghost s: seq<byte>) returns (reply: Reply)
    requires Parse(s) == Some(request)
    requires 100 <= code < 1000 && |text| < 256 && Word(text, NUL) && (text != [] ==> text[0] != SP)
    ensures reply.Valid() && reply.msg.Length == REPLY_SIZE && fresh(reply) && fresh(reply.msg) && fresh(reply.fields)
    ensures reply.StatusLine() == Response(RTSP, code, text)
    ensures reply.Contents() == Copied(Book(|RTSP| + 1 + |text| + 1, []), REPLY_SIZE, request.fields, CSEQ)
    ensures Replies(reply.StatusLine(), reply.list)
    ensures reply.list == Named(request.fields, CSEQ) <==>
            Fits(Book(9 + |text| + 1, []), 512, Named(request.fields, CSEQ))
  {
    hide Named, Fits, FieldsSpace, ParseHeaders, ParseStart, PrintableField, IsContentLength, SameName, Reply.Valid,
         Copied;
    AllParsedPrintable(s, ParseStart(s).value.next);
    forall i | 0 <= i < |request.fields|
      ensures CString(request.fields[i].name) && CString(request.fields[i].value)
    {
      PrintableStrings(request.fields[i]);
    }
    reply := new Reply(REPLY_SIZE, code);
    reply.SetProto(RTSP);
    reply.SetReason(text);
    reply.CopyHeaders(request.fields, CSEQ);
    CopiedOnly(Book(|RTSP| + 1 + |text| + 1, []), REPLY_SIZE, request.fields, CSEQ);
    forall i | 0 <= i < |reply.list| ensures Addable(reply.list[i]) {
      assert reply.list[i] in reply.list;
      NoContentLength(reply.list[i]);
    }
    AddableReplies(code, text, reply.list);
    Echoed(text, request.fields);
  }

  lemma Echoed(text: seq<byte>, from: seq<Field>)
    requires |text| < 256
    ensures Copied(Book(|RTSP| + 1 + |text| + 1, []), REPLY_SIZE, from, CSEQ).fields == Named(from, CSEQ) <==>
            Fits(Book(9 + |text| + 1, []), 512, Named(from, CSEQ))
  {
    CopiedAllIff(9 + |text| + 1, 512, from, CSEQ);
  }

  /** A client that parses the reply reads all CSeq headers of its request, also
      when other headers and a body have been added. */
  lemma EchoParsed(code: nat, text: seq<byte>, request: seq<Field>, more: seq<Field>, body: Option<nat>,
                   rest: seq<byte>)
    requires Replies(Response(RTSP, code, text), Named(request, CSEQ) + more)
    requires forall f :: f in more ==> !SameName(f, CSEQ)
    ensures var p := Parse(Print(Response(RTSP, code, text), Named(request, CSEQ) + more, body) + rest);
            p.Some? && p.value.line == Response(RTSP, code, text) && Named(p.value.fields, CSEQ) == Named(request, CSEQ)
  {
    hide Print, Parse, SameName, Decimal;
    var line, echo := Response(RTSP, code, text), Named(request, CSEQ);
    ParsePrinted(line, echo + more, body, rest);
    NamedMeans(request, CSEQ);
    NamedMeans(echo, CSEQ);
    NamedMeans(more, CSEQ);
    NamedAppend(echo, more, CSEQ);
    if body.Some? {
      var f := Field(CONTENT_LENGTH, Decimal(body.value));
      if SameName(f, CSEQ) { NoContentLength(f); }
      NamedMeans([f], CSEQ);
      NamedAppend(echo + more, [f], CSEQ);
    }
    assert echo + [] == echo;
  }

  lemma PrintableStrings(f: Field)
    requires PrintableField(f)
    ensures CString(f.name) && CString(f.value)
  {
  }

  /** ... and whatever a handler adds, it stays one. */
  lemma AddableReplies(code: nat, text: seq<byte>, fields: seq<Field>)
    requires 100 <= code < 1000 && Word(text, NUL) && (text != [] ==> text[0] != SP)
    requires forall i :: 0 <= i < |fields| ==> Addable(fields[i])
    ensures Replies(Response(RTSP, code, text), fields)
  {
    hide PrintableField, IsContentLength;
    assert SLASH in RTSP by { assert RTSP[4] == SLASH; }
  }
}
