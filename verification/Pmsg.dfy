// RTSP and HTTP messages: what parse_pmsg makes of one (spook/pmsg.c), and the
// printing of replies (spook/tcp.c). Section 7 of RFC 2326.
module Pmsg {
  import opened Bytes
  import opened Digits

  const NUL: byte := 0
  const TAB: byte := 9
  const SP: byte := 32
  const SLASH: byte := 47
  const COLON: byte := 58

  datatype Line =
    | Response(proto: seq<byte>, code: nat, reason: seq<byte>)
    | Request(method_: seq<byte>, uri: seq<byte>, proto: seq<byte>)

  datatype Field = Field(name: seq<byte>, value: seq<byte>)

  // "RTSP/1.0"
  const RTSP: seq<byte> := [82, 84, 83, 80, SLASH, 49, 46, 48]

  // ---- Scanning -------------------------------------------------------------------

  predicate Stops(c: byte, term1: byte, term2: byte) {
    c == term1 || c == term2 || c == CR || c == LF
  }

  predicate Blank(c: byte, tabs: bool) {
    c == SP || (tabs && c == TAB)
  }

  /** From i on, the first byte that ends a word. */
  function Delim(s: seq<byte>, i: nat, term1: byte, term2: byte): (n: nat)
    requires i <= |s|
    ensures i <= n <= |s| && (n < |s| ==> Stops(s[n], term1, term2))
    decreases |s| - i
  {
    if i == |s| || Stops(s[i], term1, term2) then i else Delim(s, i + 1, term1, term2)
  }

  /** From i on, the first byte that is not blank. */
  function Skip(s: seq<byte>, i: nat, tabs: bool): (n: nat)
    requires i <= |s|
    ensures i <= n <= |s| && (n < |s| ==> !Blank(s[n], tabs))
    decreases |s| - i
  {
    if i == |s| || !Blank(s[i], tabs) then i else Skip(s, i + 1, tabs)
  }

  /** Where the first word has its slash, or where it ends. */
  function FirstWord(s: seq<byte>, i: nat): (n: nat)
    requires i <= |s|
    ensures i <= n <= |s| && (n < |s| ==> s[n] == SP || s[n] == SLASH)
    ensures forall k :: i <= k < n ==> s[k] != SP && s[k] != SLASH
    decreases |s| - i
  {
    if i == |s| || s[i] == SP || s[i] == SLASH then i else FirstWord(s, i + 1)
  }

  lemma {:induction false} DelimIs(s: seq<byte>, i: nat, term1: byte, term2: byte, n: nat)
    requires i <= n <= |s| && (n < |s| ==> Stops(s[n], term1, term2))
    requires forall k :: i <= k < n ==> !Stops(s[k], term1, term2)
    ensures Delim(s, i, term1, term2) == n
    decreases n - i
  {
    if i < n { DelimIs(s, i + 1, term1, term2, n); }
  }

  lemma {:induction false} SkipIs(s: seq<byte>, i: nat, tabs: bool, n: nat)
    requires i <= n <= |s| && (n < |s| ==> !Blank(s[n], tabs))
    requires forall k :: i <= k < n ==> Blank(s[k], tabs)
    ensures Skip(s, i, tabs) == n
    decreases n - i
  {
    if i < n { SkipIs(s, i + 1, tabs, n); }
  }

  lemma {:induction false} DelimStops(s: seq<byte>, i: nat, term1: byte, term2: byte, k: nat)
    requires i <= k < |s| && Stops(s[k], term1, term2)
    ensures Delim(s, i, term1, term2) <= k
    decreases k - i
  {
    if i < k { DelimStops(s, i + 1, term1, term2, k); }
  }

  lemma {:induction false} SkipStops(s: seq<byte>, i: nat, tabs: bool, k: nat)
    requires i <= k < |s| && !Blank(s[k], tabs)
    ensures Skip(s, i, tabs) <= k
    decreases k - i
  {
    if i < k { SkipStops(s, i + 1, tabs, k); }
  }

  lemma {:induction false} FirstWordIs(s: seq<byte>, i: nat, n: nat)
    requires i <= n <= |s| && (n < |s| ==> s[n] == SP || s[n] == SLASH)
    requires forall k :: i <= k < n ==> s[k] != SP && s[k] != SLASH
    ensures FirstWord(s, i) == n
    decreases n - i
  {
    if i < n { FirstWordIs(s, i + 1, n); }
  }

  /** A string as C sees it: what comes before the first NUL. */
  function Cut(s: seq<byte>): (r: seq<byte>)
    ensures |r| <= |s| && r == s[..|r|] && (|r| < |s| ==> s[|r|] == NUL)
    ensures forall k :: 0 <= k < |r| ==> r[k] != NUL
  {
    if s == [] || s[0] == NUL then [] else [s[0]] + Cut(s[1..])
  }

  lemma {:induction false} CutAll(s: seq<byte>)
    requires forall k :: 0 <= k < |s| ==> s[k] != NUL
    ensures Cut(s) == s
  {
    if s != [] { CutAll(s[1..]); }
  }

  /** An empty line ends the head of a message: at i, the end of the line
      before it and then the empty line itself. */
  predicate HeadEndsAt(d: seq<byte>, i: nat) {
    i + 4 <= |d| && d[i] == CR && d[i+1] == LF && d[i+2] == CR && d[i+3] == LF
  }

  // ---- What a message says -----------------------------------------------------------

  /** The end of the start line, from behind its last word. */
  function LineEnd(s: seq<byte>, i: nat): (n: Option<nat>)
    requires i <= |s|
    ensures n.Some? ==> i < n.value <= |s| && s[n.value - 1] == LF
  {
    var j := Skip(s, i, false);
    var k := if j < |s| && s[j] == CR then j + 1 else j;
    if k >= |s| || s[k] != LF then None else Some(k + 1)
  }

  /** A start line, and where the next line starts. */
  datatype StartLine = StartLine(line: Line, next: nat)

  predicate ThreeDigitsAt(s: seq<byte>, i: nat) {
    i + 4 <= |s| && Digit(s[i]) && Digit(s[i + 1]) && Digit(s[i + 2]) && s[i + 3] == SP
  }

  function CodeAt(s: seq<byte>, i: nat): nat
    requires ThreeDigitsAt(s, i)
  {
    100 * DigitValue(s[i]) + 10 * DigitValue(s[i + 1]) + DigitValue(s[i + 2])
  }

  function ParseResponse(s: seq<byte>): (r: Option<StartLine>)
    ensures r.Some? ==> r.value.next <= |s|
  {
    var e := Delim(s, 0, SP, NUL);
    if e >= |s| || s[e] != SP then None
    else
      var i := Skip(s, e + 1, false);
      if !ThreeDigitsAt(s, i) then None
      else
        var r := Skip(s, i + 4, false);
        var f := Delim(s, r, NUL, NUL);
        if f >= |s| || LineEnd(s, f + 1).None? then None
        else Some(StartLine(Response(Cut(s[..e]), CodeAt(s, i), Cut(s[r..f])), LineEnd(s, f + 1).value))
  }

  function ParseRequest(s: seq<byte>): (r: Option<StartLine>)
    ensures r.Some? ==> r.value.next <= |s|
  {
    var e := Delim(s, 0, SP, NUL);
    if e >= |s| || s[e] != SP then None
    else
      var u := Skip(s, e + 1, false);
      var f := Delim(s, u, SP, NUL);
      if f >= |s| || s[f] != SP then None
      else
        var p := Skip(s, f + 1, false);
        var g := Delim(s, p, NUL, NUL);
        if g >= |s| || LineEnd(s, g + 1).None? then None
        else Some(StartLine(Request(Cut(s[..e]), Cut(s[u..f]), Cut(s[p..g])), LineEnd(s, g + 1).value))
  }

  function ParseStart(s: seq<byte>): (r: Option<StartLine>)
    ensures r.Some? ==> r.value.next <= |s|
  {
    if |s| < 4 || FirstWord(s, 0) == |s| then None
    else if s[FirstWord(s, 0)] == SLASH then ParseResponse(s)
    else ParseRequest(s)
  }

  /** Where the colon after the name of the header at i should be. */
  function ColonAt(s: seq<byte>, i: nat): (c: nat)
    requires i <= |s|
    ensures Delim(s, i, SP, COLON) <= c <= |s|
  {
    var e := Delim(s, i, SP, COLON);
    if e < |s| && s[e] == SP then Skip(s, e + 1, false) else e
  }

  datatype Value = Value(text: seq<byte>, next: nat)

  /** The value after a colon at c, and where the next line starts. */
  function ParseValue(s: seq<byte>, c: nat): (r: Option<Value>)
    requires c < |s|
    ensures r.Some? ==> c + 2 < r.value.next <= |s|
  {
    var v := Skip(s, c + 1, true);
    var w := Delim(s, v, NUL, NUL);
    if w + 1 >= |s| || s[w + 1] != LF then None else Some(Value(Cut(s[v..w]), w + 2))
  }

  /** One header line: its name and value, and where the next line starts. */
  datatype HeaderLine = HeaderLine(field: Field, next: nat)

  function ParseHeader(s: seq<byte>, i: nat): (r: Option<HeaderLine>)
    requires i < |s|
    ensures r.Some? ==> i < r.value.next <= |s|
  {
    var c := ColonAt(s, i);
    if s[i] == TAB || s[i] == SP || c >= |s| || s[c] != COLON then None
    else
      match ParseValue(s, c)
      case None => None
      case Some(v) => Some(HeaderLine(Field(Cut(s[i..Delim(s, i, SP, COLON)]), v.text), v.next))
  }

  datatype Headers = Headers(fields: seq<Field>, n: nat)

  function ParseHeaders(s: seq<byte>, i: nat): (r: Option<Headers>)
    requires i <= |s|
    decreases |s| - i
  {
    var j := if i < |s| && s[i] == CR then i + 1 else i;
    if j == |s| then Some(Headers([], |s|))
    else if s[j] == LF then Some(Headers([], j + 1))
    else
      match ParseHeader(s, j)
      case None => None
      case Some(h) =>
        match ParseHeaders(s, h.next)
        case None => None
        case Some(rest) => Some(Headers([h.field] + rest.fields, rest.n))
  }

  const MAX_FIELDS := 32

  /** How many header lines the header loop begins to store. It stores the
      name of a line before it knows whether the line is well formed. */
  function Begun(s: seq<byte>, i: nat): nat
    requires i <= |s|
    decreases |s| - i
  {
    var j := if i < |s| && s[i] == CR then i + 1 else i;
    if j == |s| || s[j] == LF || s[j] == TAB || s[j] == SP then 0
    else
      match ParseHeader(s, j)
      case None => 1
      case Some(h) => 1 + Begun(s, h.next)
  }

  /** The header loop begins a line that fields[] has no room for. */
  predicate Overruns(s: seq<byte>) {
    ParseStart(s).Some? && Begun(s, ParseStart(s).value.next) > MAX_FIELDS
  }

  /** Of a message that is well formed, every header line is stored. */
  lemma {:induction false} BegunAll(s: seq<byte>, i: nat)
    requires i <= |s| && ParseHeaders(s, i).Some?
    ensures Begun(s, i) == |ParseHeaders(s, i).value.fields|
    decreases |s| - i
  {
    hide ParseHeader;
    var j := if i < |s| && s[i] == CR then i + 1 else i;
    if j < |s| && s[j] != LF {
      NoBlankHeader(s, j);
      BegunAll(s, ParseHeader(s, j).value.next);
    }
  }

  lemma NoBlankHeader(s: seq<byte>, i: nat)
    requires i < |s| && ParseHeader(s, i).Some?
    ensures s[i] != TAB && s[i] != SP
  {
  }

  datatype Parsed = Parsed(line: Line, fields: seq<Field>, n: nat)

  /** parse_pmsg, on values: the start line, the headers, and how many bytes
      they took. */
  function Parse(s: seq<byte>): Option<Parsed> {
    match ParseStart(s)
    case None => None
    case Some(start) =>
      match ParseHeaders(s, start.next)
      case None => None
      case Some(h) => Some(Parsed(start.line, h.fields, h.n))
  }

  // ---- Printing ------------------------------------------------------------------------

  const CRLF: seq<byte> := [CR, LF]

  function PrintField(f: Field): seq<byte> {
    f.name + [COLON, SP] + f.value + CRLF
  }

  function PrintFields(fields: seq<Field>): seq<byte> {
    if fields == [] then [] else PrintField(fields[0]) + PrintFields(fields[1..])
  }

  // "Content-Length"
  const CONTENT_LENGTH: seq<byte> := [67, 111, 110, 116, 101, 110, 116, 45, 76, 101, 110, 103, 116, 104]

  /** The header that announces a body of the given length. */
  function Announced(fields: seq<Field>, body: Option<nat>): seq<Field> {
    match body
    case None => fields
    case Some(len) => fields + [Field(CONTENT_LENGTH, Decimal(len))]
  }

  // Header names are compared without regard to case.
  function Lower(s: seq<byte>): (r: seq<byte>)
    ensures |r| == |s|
  {
    seq(|s|, i requires 0 <= i < |s| => if 65 <= s[i] <= 90 then s[i] + 32 else s[i])
  }

  predicate IsContentLength(f: Field) {
    Lower(f.name) == Lower(CONTENT_LENGTH)
  }

  /** The length of the body that the headers announce, nothing for none. */
  function BodyLength(fields: seq<Field>): Option<nat> {
    if fields == [] then Some(0)
    else if !IsContentLength(fields[0]) then BodyLength(fields[1..])
    else if fields[0].value != [] && AllDigits(fields[0].value) then Some(Number(fields[0].value))
    else None
  }

  /** Nothing but the printer speaks of the body's length. */
  predicate Unannounced(fields: seq<Field>) {
    forall i :: 0 <= i < |fields| ==> !IsContentLength(fields[i])
  }

  lemma {:induction false} AnnouncedLength(fields: seq<Field>, body: Option<nat>)
    requires Unannounced(fields)
    ensures BodyLength(Announced(fields, body)) == Some(if body.Some? then body.value else 0)
  {
    hide IsContentLength, Decimal, Number, AllDigits;
    if fields != [] {
      AnnouncedLength(fields[1..], body);
      assert Announced(fields, body)[1..] == Announced(fields[1..], body);
    } else if body.Some? {
      NumberDecimal(body.value);
      var f := Field(CONTENT_LENGTH, Decimal(body.value));
      assert IsContentLength(f) by { NamesItself(f); }
    }
  }

  lemma NamesItself(f: Field)
    requires f.name == CONTENT_LENGTH
    ensures IsContentLength(f)
  {
  }

  function Print(line: Line, fields: seq<Field>, body: Option<nat>): seq<byte>
    requires line.Response?
  {
    line.proto + [SP] + Decimal(line.code) + [SP] + line.reason + CRLF + PrintFields(Announced(fields, body)) + CRLF
  }

  /** A reply as it stands on the connection, by sections 7.1 and 12 of RFC 2326:
      "RTSP/1.0 461 No", "CSeq: 2", "Content-Length: 12" and an empty line. */
  lemma PrintedExample()
    ensures var line := Response([82, 84, 83, 80, 47, 49, 46, 48], 461, [78, 111]);
            Print(line, [Field([67, 83, 101, 113], [50])], Some(12)) ==
            [82, 84, 83, 80, 47, 49, 46, 48, 32, 52, 54, 49, 32, 78, 111, 13, 10]
            + [67, 83, 101, 113, 58, 32, 50, 13, 10]
            + [67, 111, 110, 116, 101, 110, 116, 45, 76, 101, 110, 103, 116, 104, 58, 32, 49, 50, 13, 10]
            + [13, 10]
  {
    hide Decimal;
    Digits461();
    PrintTwo(Field([67, 83, 101, 113], [50]), Field(CONTENT_LENGTH, Decimal(12)));
  }

  lemma PrintTwo(f: Field, g: Field)
    ensures PrintFields([f] + [g]) == PrintField(f) + PrintField(g)
  {
    hide PrintField;
    assert ([f] + [g])[1..] == [g] && [g][1..] == [];
    assert PrintFields([g]) == PrintField(g) + [];
  }

  lemma Digits461()
    ensures Decimal(461) == [52, 54, 49] && Decimal(12) == [49, 50]
  {
    assert Decimal(4) == [52] && Decimal(46) == Decimal(4) + [54] && Decimal(1) == [49];
  }

  const PRINT_BUFFER := 2048

  datatype Printing = Refused | Overrun | Printed(head: seq<byte>)

  /** One sprintf into buf behind the i bytes that are there. It also writes a
      NUL, and does not ask how long buf is. */
  method Sprintf(buf: array<byte>, i: nat, s: seq<byte>) returns (fits: bool, n: nat)
    requires i <= buf.Length
    modifies buf
    ensures n == i + |s| && fits == (n < buf.Length)
    ensures fits ==> buf[..n] == old(buf[..i]) + s
  {
    n := i + |s|;
    fits := n < buf.Length;
    if fits {
      forall k | i <= k <= n { buf[k] := if k < n then s[k - i] else NUL; }
      assert buf[..i] == old(buf[..i]);
    }
  }

  /** The header loop. */
  method PrintHeaders(buf: array<byte>, i: nat, fields: seq<Field>) returns (fits: bool, n: nat)
    requires i < buf.Length
    modifies buf
    ensures fits == (i + |PrintFields(fields)| < buf.Length)
    ensures fits ==> n == i + |PrintFields(fields)| && buf[..n] == old(buf[..i]) + PrintFields(fields)
  {
    hide PrintField, PrintFields;
    PrintNothing();
    fits, n := true, i;
    for f := 0 to |fields|
      invariant fits && n == i + |PrintFields(fields[..f])| < buf.Length
      invariant buf[..n] == old(buf[..i]) + PrintFields(fields[..f])
    {
      PrintFieldsPrefix(fields, f + 1);
      PrintFieldsNext(fields, f);
      fits, n := Sprintf(buf, n, PrintField(fields[f]));
      if !fits { return; }
    }
    assert fields[..|fields|] == fields;
  }

  /** The printing half of tcp_send_pmsg: the head, and how much room it and
      the body need. A request is refused; a head that does not leave a byte
      of the buffer free overruns it, and the model stops there. */
  method PrintPmsg(line: Line, fields: seq<Field>, len: int) returns (r: Printing, total: nat)
    ensures r.Refused? <==> line.Request?
    ensures line.Response? ==>
              var head := Print(line, fields, if len >= 0 then Some(len) else None);
              && r == (if |head| < PRINT_BUFFER then Printed(head) else Overrun)
              && (r.Printed? ==> total == |head| + if len >= 0 then len else 0)
  {
    hide Decimal, PrintField, PrintFields, Announced;
    if line.Request? { return Refused, 0; }
    var buf := new byte[PRINT_BUFFER];
    var first := line.proto + [SP] + Decimal(line.code) + [SP] + line.reason + CRLF;
    PrintSize(fields, len);
    var fits, i := Sprintf(buf, 0, first);
    if !fits { return Overrun, 0; }
    fits, i := PrintHeaders(buf, i, fields);
    if !fits { return Overrun, 0; }
    if len >= 0 {
      fits, i := Sprintf(buf, i, PrintField(Field(CONTENT_LENGTH, Decimal(len))) + CRLF);
      total := i + len;
    } else {
      fits, i := Sprintf(buf, i, CRLF);
      total := i;
    }
    r := if fits then Printed(buf[..i]) else Overrun;
  }

  lemma PrintSize(fields: seq<Field>, len: int)
    ensures PrintFields(Announced(fields, if len >= 0 then Some(len) else None)) ==
            PrintFields(fields) + if len >= 0 then PrintField(Field(CONTENT_LENGTH, Decimal(len))) else []
  {
    hide PrintField, Decimal, PrintFields;
    if len >= 0 { PrintFieldsSnoc(fields, Field(CONTENT_LENGTH, Decimal(len))); }
  }

  lemma PrintNothing()
    ensures PrintFields([]) == []
  {
  }

  lemma PrintFieldsNext(fields: seq<Field>, f: nat)
    requires f < |fields|
    ensures PrintFields(fields[..f + 1]) == PrintFields(fields[..f]) + PrintField(fields[f])
  {
    assert fields[..f] + [fields[f]] == fields[..f + 1];
    PrintFieldsSnoc(fields[..f], fields[f]);
  }

  lemma {:induction false} PrintFieldsPrefix(fields: seq<Field>, f: nat)
    requires f <= |fields|
    ensures |PrintFields(fields[..f])| <= |PrintFields(fields)|
  {
    if f > 0 {
      assert fields[..f][1..] == fields[1..][..f - 1];
      PrintFieldsPrefix(fields[1..], f - 1);
    }
  }

  lemma {:induction false} PrintFieldsSnoc(fields: seq<Field>, f: Field)
    ensures PrintFields(fields + [f]) == PrintFields(fields) + PrintField(f)
  {
    hide PrintField;
    if fields != [] {
      PrintFieldsSnoc(fields[1..], f);
      assert (fields + [f])[1..] == fields[1..] + [f];
    }
  }

  /** No byte that ends a word or a line, or the string. */
  predicate Word(s: seq<byte>, term: byte) {
    forall k :: 0 <= k < |s| ==> !Stops(s[k], term, NUL)
  }

  predicate PrintableField(f: Field) {
    && (forall k :: 0 <= k < |f.name| ==> !Stops(f.name[k], SP, COLON) && f.name[k] != NUL)
    && (f.name != [] ==> f.name[0] != TAB)
    && Word(f.value, NUL) && (f.value != [] ==> f.value[0] != SP && f.value[0] != TAB)
  }

  predicate Printable(line: Line, fields: seq<Field>) {
    && line.Response? && 100 <= line.code < 1000
    && Word(line.proto, SP) && SLASH in line.proto
    && Word(line.reason, NUL) && (line.reason != [] ==> line.reason[0] != SP)
    && forall i :: 0 <= i < |fields| ==> PrintableField(fields[i])
  }

  lemma HeaderShape(pre: seq<byte>, f: Field, rest: seq<byte>)
    ensures var s, i := pre + PrintField(f) + rest, |pre|;
            var e := i + |f.name|;
            var w := e + 2 + |f.value|;
            && |pre + PrintField(f)| == w + 2 && |s| >= w + 2
            && s[i..e] == f.name && s[e] == COLON && s[e + 1] == SP
            && s[e + 2..w] == f.value && s[w] == CR && s[w + 1] == LF
  {
  }

  lemma HeaderPrinted(pre: seq<byte>, f: Field, rest: seq<byte>)
    requires PrintableField(f)
    ensures ParseHeader(pre + PrintField(f) + rest, |pre|) == Some(HeaderLine(f, |pre + PrintField(f)|))
  {
    hide Delim, Skip, Cut, PrintField;
    var s, i := pre + PrintField(f) + rest, |pre|;
    var e := i + |f.name|;
    HeaderShape(pre, f, rest);
    HeaderName(s, i, e, f.name);
    HeaderValue(s, e, e + 2 + |f.value|, f.value);
    CutAll(f.name);
    CutAll(f.value);
  }

  lemma HeaderName(s: seq<byte>, i: nat, e: nat, name: seq<byte>)
    requires i <= e < |s| && s[i..e] == name && s[e] == COLON
    requires forall k :: 0 <= k < |name| ==> !Stops(name[k], SP, COLON)
    requires name != [] ==> name[0] != TAB
    ensures ColonAt(s, i) == Delim(s, i, SP, COLON) == e && s[i] != TAB && s[i] != SP
  {
    hide Delim, Skip;
    assert forall k :: i <= k < e ==> s[k] == name[k - i];
    DelimIs(s, i, SP, COLON, e);
  }

  lemma HeaderValue(s: seq<byte>, e: nat, w: nat, value: seq<byte>)
    requires e + 2 <= w && w + 1 < |s| && s[e + 1] == SP && s[e + 2..w] == value && s[w] == CR && s[w + 1] == LF
    requires Word(value, NUL) && (value != [] ==> value[0] != SP && value[0] != TAB)
    ensures ParseValue(s, e) == Some(Value(Cut(value), w + 2))
  {
    hide Delim, Skip, Cut;
    assert forall k :: e + 2 <= k < w ==> s[k] == value[k - e - 2];
    SkipIs(s, e + 1, true, e + 2);
    DelimIs(s, e + 2, NUL, NUL, w);
  }

  lemma {:induction false} HeadersPrinted(pre: seq<byte>, fields: seq<Field>, rest: seq<byte>)
    requires forall i :: 0 <= i < |fields| ==> PrintableField(fields[i])
    ensures ParseHeaders(pre + PrintFields(fields) + CRLF + rest, |pre|)
         == Some(Headers(fields, |pre + PrintFields(fields)| + 2))
    decreases fields
  {
    hide ParseHeader, PrintableField, PrintField;
    if fields == [] {
      assert pre + PrintFields(fields) + CRLF + rest == pre + CRLF + rest;
    } else {
      var f := fields[0];
      var more := PrintFields(fields[1..]) + CRLF + rest;
      Regrouped(pre, PrintField(f), PrintFields(fields[1..]), rest);
      FieldStart(pre, f, more);
      HeaderPrinted(pre, f, more);
      HeadersPrinted(pre + PrintField(f), fields[1..], rest);
      assert [f] + fields[1..] == fields;
    }
  }

  lemma Regrouped(pre: seq<byte>, f: seq<byte>, fs: seq<byte>, rest: seq<byte>)
    ensures pre + (f + fs) + CRLF + rest == pre + f + (fs + CRLF + rest) == (pre + f) + fs + CRLF + rest
  {
  }

  lemma FieldStart(pre: seq<byte>, f: Field, rest: seq<byte>)
    requires PrintableField(f)
    ensures var s := pre + PrintField(f) + rest; s[|pre|] != CR && s[|pre|] != LF
  {
  }

  lemma ResponseShape(line: Line, rest: seq<byte>)
    requires line.Response? && 100 <= line.code < 1000
    ensures var s, e, d := line.proto + [SP] + Decimal(line.code) + [SP] + line.reason + CRLF + rest, |line.proto|,
            Decimal(line.code);
            var r := e + 5;
            var f := r + |line.reason|;
            && |d| == 3 && |s| == f + 2 + |rest| && s[..e] == line.proto && s[e] == SP
            && s[e + 1] == d[0] && s[e + 2] == d[1] && s[e + 3] == d[2] && s[e + 4] == SP
            && s[r..f] == line.reason && s[f] == CR && s[f + 1] == LF
  {
    ThreeDigits(line.code);
  }

  lemma ResponsePrinted(line: Line, rest: seq<byte>)
    requires Printable(line, [])
    ensures var first := line.proto + [SP] + Decimal(line.code) + [SP] + line.reason + CRLF;
            ParseStart(first + rest) == Some(StartLine(line, |first|))
  {
    hide Delim, Skip, Cut, Decimal, FirstWord, LineEnd, Word, ParseResponse, ParseRequest, Stops;
    var first := line.proto + [SP] + Decimal(line.code) + [SP] + line.reason + CRLF;
    var s, e := first + rest, |line.proto|;
    ResponseShape(line, rest);
    ThreeDigits(line.code);
    SlashFirst(s, line.proto);
    ResponseParsed(s, e, e + 5 + |line.reason|, line);
  }

  lemma ResponseParsed(s: seq<byte>, e: nat, f: nat, line: Line)
    requires Printable(line, []) && e == |line.proto| && f == e + 5 + |line.reason| && f + 2 <= |s|
    requires s[..e] == line.proto && s[e] == SP && s[e + 5..f] == line.reason && s[f] == CR && s[f + 1] == LF
    requires ThreeDigitsAt(s, e + 1) && CodeAt(s, e + 1) == line.code
    ensures ParseResponse(s) == Some(StartLine(line, f + 2))
  {
    hide Delim, Skip, Cut, LineEnd, Word, Stops, ThreeDigitsAt, CodeAt;
    ResponseWords(s, e, f, line);
    Strings(line);
    LineEndNow(s, f + 1);
  }

  lemma Strings(line: Line)
    requires Printable(line, [])
    ensures Cut(line.proto) == line.proto && Cut(line.reason) == line.reason
  {
    CutAll(line.proto);
    CutAll(line.reason);
  }

  lemma LineEndNow(s: seq<byte>, i: nat)
    requires i < |s| && s[i] == LF
    ensures LineEnd(s, i) == Some(i + 1)
  {
    SkipIs(s, i, false, i);
  }

  lemma SlashFirst(s: seq<byte>, proto: seq<byte>)
    requires |proto| < |s| && s[..|proto|] == proto && SLASH in proto && Word(proto, SP)
    ensures FirstWord(s, 0) < |s| && s[FirstWord(s, 0)] == SLASH
  {
    hide FirstWord;
    var j :| 0 <= j < |proto| && proto[j] == SLASH;
    assert s[j] == SLASH;
    var n := FirstWord(s, 0);
    if n < |proto| { assert s[n] == proto[n]; }
  }

  lemma ResponseWords(s: seq<byte>, e: nat, f: nat, line: Line)
    requires Printable(line, []) && e == |line.proto| && f == e + 5 + |line.reason| && f < |s|
             && s[..e] == line.proto && s[e] == SP
    requires ThreeDigitsAt(s, e + 1) && s[e + 5..f] == line.reason && s[f] == CR
    ensures Delim(s, 0, SP, NUL) == e && Skip(s, e + 1, false) == e + 1
    ensures Skip(s, e + 5, false) == e + 5 && Delim(s, e + 5, NUL, NUL) == f
  {
    hide Delim, Skip;
    assert forall k :: 0 <= k < e ==> s[k] == line.proto[k];
    DelimIs(s, 0, SP, NUL, e);
    SkipIs(s, e + 1, false, e + 1);
    assert forall k :: e + 5 <= k < f ==> s[k] == line.reason[k - e - 5];
    SkipIs(s, e + 5, false, e + 5);
    DelimIs(s, e + 5, NUL, NUL, f);
  }

  lemma AnnouncedPrintable(line: Line, fields: seq<Field>, body: Option<nat>)
    requires Printable(line, fields)
    ensures forall i :: 0 <= i < |Announced(fields, body)| ==> PrintableField(Announced(fields, body)[i])
  {
    hide Decimal;
  }

  /** The parser undoes the printer, and finds exactly where the head ends
      whatever comes after it. */
  lemma ParsePrinted(line: Line, fields: seq<Field>, body: Option<nat>, rest: seq<byte>)
    requires Printable(line, fields)
    ensures Parse(Print(line, fields, body) + rest)
         == Some(Parsed(line, Announced(fields, body), |Print(line, fields, body)|))
  {
    hide ParseStart, ParseHeaders, PrintFields, Announced, Decimal, PrintableField;
    var all := Announced(fields, body);
    var first := line.proto + [SP] + Decimal(line.code) + [SP] + line.reason + CRLF;
    var more := PrintFields(all) + CRLF + rest;
    assert Print(line, fields, body) + rest == first + more;
    assert Print(line, fields, body) + rest == first + PrintFields(all) + CRLF + rest;
    ResponsePrinted(line, more);
    AnnouncedPrintable(line, fields, body);
    HeadersPrinted(first, all, rest);
  }

  // ---- Framing of replies -----------------------------------------------------------------

  lemma {:induction false} FieldsFramed(c: seq<byte>, fields: seq<Field>)
    requires forall k :: 0 <= k < |c| ==> c[k] != CR
    requires forall i :: 0 <= i < |fields| ==> PrintableField(fields[i])
    ensures var s := c + CRLF + PrintFields(fields) + CRLF;
            HeadEndsAt(s, |s| - 4) && forall i :: 0 <= i < |s| - 4 ==> !HeadEndsAt(s, i)
    decreases fields
  {
    var s := c + CRLF + PrintFields(fields) + CRLF;
    if fields == [] {
      assert s == c + CRLF + CRLF;
    } else {
      var f := fields[0];
      var line := f.name + [COLON, SP] + f.value;
      var more := line + CRLF + PrintFields(fields[1..]) + CRLF;
      assert s == c + CRLF + more;
      FieldsFramed(line, fields[1..]);
      assert more[0] != CR;
      LineFramed(c, more);
    }
  }

  /** A line in front of a head that does not begin with an empty line. */
  lemma LineFramed(c: seq<byte>, more: seq<byte>)
    requires (forall k :: 0 <= k < |c| ==> c[k] != CR) && |more| >= 4 && more[0] != CR
    requires HeadEndsAt(more, |more| - 4) && forall i :: 0 <= i < |more| - 4 ==> !HeadEndsAt(more, i)
    ensures var s := c + CRLF + more;
            HeadEndsAt(s, |s| - 4) && forall i :: 0 <= i < |s| - 4 ==> !HeadEndsAt(s, i)
  {
    var s, n := c + CRLF + more, |c| + 2;
    assert forall k :: 0 <= k < |more| ==> s[n + k] == more[k];
    forall i | 0 <= i < |s| - 4 ensures !HeadEndsAt(s, i) {
      if i < |c| { assert s[i] == c[i]; }
      else if i >= n { assert !HeadEndsAt(more, i - n); }
    }
    assert HeadEndsAt(s, n + (|more| - 4));
  }
}
