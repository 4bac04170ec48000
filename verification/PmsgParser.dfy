// The parser of spook/pmsg.c, which cuts the message up where it lies: words
// are ended by writing NUL bytes over what follows them, and the fields are
// pointers to where words begin.
module PmsgParser {
  import opened Bytes
  import opened Digits
  import opened Pmsg

  /** What the program knows before it parses: the buffer has an empty line. */
  ghost predicate HasEmptyLine(s: seq<byte>) {
    exists k: nat :: HeadEndsAt(s, k)
  }

  // ---- The buffer d, against the message s that it held ----------------------------

  /** Nothing was written from some point on. */
  ghost predicate Untouched(d: seq<byte>, s: seq<byte>, from: nat) {
    |d| == |s| && forall j :: from <= j < |s| ==> d[j] == s[j]
  }

  /** A C string that begins at off and ends at end, where s had the same. */
  ghost predicate Told(d: seq<byte>, s: seq<byte>, off: nat, end: nat) {
    && off <= end < |d| == |s| && d[end] == NUL
    && forall j :: off <= j < end ==> d[j] == s[j]
  }

  /** Nothing was written before some point. */
  ghost predicate Kept(d: seq<byte>, d': seq<byte>, upto: nat) {
    |d'| == |d| && forall j :: 0 <= j < upto && j < |d| ==> d'[j] == d[j]
  }

  lemma UntouchedAt(d: seq<byte>, s: seq<byte>, from: nat, to: nat)
    requires Untouched(d, s, from) && from <= to <= |d|
    ensures Untouched(d, s, to) && d[to..] == s[to..] && |d| == |s|
    ensures to < |d| ==> d[to] == s[to]
  {
  }

  lemma ToldKept(d: seq<byte>, d': seq<byte>, s: seq<byte>, off: nat, end: nat, upto: nat)
    requires Told(d, s, off, end) && Kept(d, d', upto) && end < upto
    ensures Told(d', s, off, end)
  {
  }

  lemma KeptAll(d: seq<byte>, upto: nat)
    ensures Kept(d, d, upto)
  {
  }

  lemma KeptThen(a: seq<byte>, b: seq<byte>, c: seq<byte>, first: nat, second: nat)
    requires Kept(a, b, first) && Kept(b, c, second) && first <= second
    ensures Kept(a, c, first)
  {
  }

  lemma {:induction false} CutShort(s: seq<byte>, n: nat)
    requires n < |s| && s[n] == NUL
    ensures Cut(s) == Cut(s[..n])
  {
    if n > 0 && s[0] != NUL {
      CutShort(s[1..], n - 1);
      assert s[..n][1..] == s[1..][..n - 1];
    }
  }

  /** A string that was told can be read from the buffer. */
  lemma ToldMeans(d: seq<byte>, s: seq<byte>, off: nat, end: nat)
    requires Told(d, s, off, end)
    ensures off < |d| && Cut(d[off..]) == Cut(s[off..end])
  {
    CutShort(d[off..], end - off);
    assert d[off..][..end - off] == s[off..end];
  }

  /** Ending a word at j. */
  method PutNul(d: array<byte>, off: nat, j: nat, ghost s: seq<byte>)
    requires off <= j < d.Length && Untouched(d[..], s, off)
    modifies d
    ensures Untouched(d[..], s, j + 1) && Told(d[..], s, off, j)
    ensures Kept(old(d[..]), d[..], j) && Kept(old(d[..]), d[..], off)
  {
    d[j] := NUL;
  }

  /** delim */
  method DelimAt(d: array<byte>, from: nat, term1: byte, term2: byte, ghost s: seq<byte>) returns (i: nat)
    requires from <= d.Length == |s| && Untouched(d[..], s, from)
    ensures i == Delim(s, from, term1, term2) && (i < d.Length ==> d[i] == s[i])
    ensures Untouched(d[..], s, i)
  {
    i := from;
    while i < d.Length && !Stops(d[i], term1, term2)
      invariant from <= i <= d.Length
      invariant forall k :: from <= k < i ==> !Stops(d[k], term1, term2)
    {
      i := i + 1;
    }
    DelimIs(s, from, term1, term2, i);
  }

  method SkipBlanks(d: array<byte>, from: nat, tabs: bool, ghost s: seq<byte>) returns (i: nat)
    requires from <= d.Length == |s| && Untouched(d[..], s, from)
    ensures i == Skip(s, from, tabs) && (i < d.Length ==> d[i] == s[i])
    ensures Untouched(d[..], s, i)
  {
    i := from;
    while i < d.Length && Blank(d[i], tabs)
      invariant from <= i <= d.Length
      invariant forall k :: from <= k < i ==> Blank(d[k], tabs)
    {
      i := i + 1;
    }
    SkipIs(s, from, tabs, i);
  }

  method FindFirstWord(d: array<byte>) returns (i: nat)
    ensures i == FirstWord(d[..], 0)
  {
    i := 0;
    while i < d.Length && d[i] != SP && d[i] != SLASH
      invariant 0 <= i <= d.Length
      invariant forall k :: 0 <= k < i ==> d[k] != SP && d[k] != SLASH
    {
      i := i + 1;
    }
    FirstWordIs(d[..], 0, i);
  }

  // ---- Staying in front of the empty line ----------------------------------------------

  lemma ColonStays(s: seq<byte>, k: nat, i: nat)
    requires HeadEndsAt(s, k) && i <= k
    ensures Delim(s, i, SP, COLON) <= ColonAt(s, i) <= k < |s|
  {
    hide Delim, Skip;
    DelimStops(s, i, SP, COLON, k);
    var e := Delim(s, i, SP, COLON);
    if s[e] == SP { SkipStops(s, e + 1, false, k); }
  }

  lemma ValueStays(s: seq<byte>, k: nat, c: nat)
    requires HeadEndsAt(s, k) && c < k
    ensures Delim(s, Skip(s, c + 1, true), NUL, NUL) <= k < |s|
    ensures ParseValue(s, c).Some? ==> Before(s, k, ParseValue(s, c).value.next)
  {
    hide Delim, Skip, Cut;
    SkipStops(s, c + 1, true, k);
    DelimStops(s, Skip(s, c + 1, true), NUL, NUL, k);
  }

  /** Up to the empty line at k, or at it. */
  ghost predicate Before(s: seq<byte>, k: nat, i: nat) {
    HeadEndsAt(s, k) && (i <= k || i == k + 2)
  }

  // ---- Header lines --------------------------------------------------------------------

  /** A header's name, and the colon, which is overwritten. */
  method ParseNameAt(d: array<byte>, i: nat, ghost s: seq<byte>, ghost k: nat) returns (ok: bool, c: nat)
    requires d.Length == |s| && Untouched(d[..], s, i) && HeadEndsAt(s, k) && i <= k
    modifies d
    ensures c == ColonAt(s, i) <= k < d.Length && ok == (s[c] == COLON) && Kept(old(d[..]), d[..], i)
    ensures ok ==> c < k && Untouched(d[..], s, c + 1) && Told(d[..], s, i, Delim(s, i, SP, COLON))
  {
    hide Delim, Skip, Told, Untouched, Kept;
    ColonStays(s, k, i);
    ghost var was := d[..];
    KeptAll(was, i);
    var e := DelimAt(d, i, SP, COLON, s);
    c := e;
    if d[e] == SP {
      PutNul(d, i, e, s);
      ghost var cut := d[..];
      c := SkipBlanks(d, e + 1, false, s);
      ok := d[c] == COLON;
      if ok {
        PutNul(d, c, c, s);
        ToldKept(cut, d[..], s, i, e, c);
        KeptThen(was, cut, d[..], i, c);
      }
    } else {
      ok := d[c] == COLON;
      if ok { PutNul(d, i, c, s); }
    }
  }

  /** A header's value, and the end of its line. */
  method ParseValueAt(d: array<byte>, c: nat, ghost s: seq<byte>, ghost k: nat)
    returns (ok: bool, value: nat, ghost end: nat, next: nat)
    requires d.Length == |s| && Untouched(d[..], s, c + 1) && HeadEndsAt(s, k) && c < k
    modifies d
    ensures c < value == Skip(s, c + 1, true) && end == Delim(s, value, NUL, NUL) < d.Length && next == end + 2
    ensures ok == (next <= |s| && s[next - 1] == LF) && Kept(old(d[..]), d[..], c + 1)
    ensures ok ==> Untouched(d[..], s, next) && Told(d[..], s, value, end)
  {
    hide Delim, Skip, Cut, Told, Untouched, Kept;
    ValueStays(s, k, c);
    ghost var was := d[..];
    KeptAll(was, c + 1);
    value := SkipBlanks(d, c + 1, true, s);
    var w := DelimAt(d, value, NUL, NUL, s);
    PutNul(d, value, w, s);
    KeptThen(was, was, d[..], c + 1, value);
    end, next := w, w + 2;
    UntouchedAt(d[..], s, w + 1, w + 1);
    ok := w + 1 < d.Length && d[w + 1] == LF;
    if ok { UntouchedAt(d[..], s, w + 1, next); }
  }

  /** One round of the header loop. */
  method ParseHeaderAt(d: array<byte>, i: nat, ghost s: seq<byte>, ghost k: nat)
    returns (ok: bool, name: nat, value: nat, next: nat)
    requires d.Length == |s| && Untouched(d[..], s, i) && HeadEndsAt(s, k) && i <= k
    requires i < |s| && s[i] != TAB && s[i] != SP
    modifies d
    ensures ok == ParseHeader(s, i).Some? && Kept(old(d[..]), d[..], i)
    ensures ok ==>
      var h := ParseHeader(s, i).value;
      && next == h.next && Untouched(d[..], s, next) && Before(s, k, next)
      && Says(d[..], name, next, h.field.name) && Says(d[..], value, next, h.field.value)
  {
    hide Delim, Skip, Cut, Told, Untouched, Kept, Says, HeadEndsAt, ColonAt;
    ghost var was := d[..];
    KeptAll(was, i);
    InFront(s, k, i);
    name := i;
    var c;
    ok, c := ParseNameAt(d, i, s, k);
    if !ok { return false, 0, 0, 0; }
    ghost var named, nameEnd := d[..], Delim(s, i, SP, COLON);
    ValueStays(s, k, c);
    ghost var end;
    ok, value, end, next := ParseValueAt(d, c, s, k);
    KeptThen(was, named, d[..], i, c + 1);
    if ok {
      ToldKept(named, d[..], s, name, nameEnd, c + 1);
      ToldSays(d[..], s, name, nameEnd, next);
      ToldSays(d[..], s, value, end, next);
    }
  }

  lemma InFront(s: seq<byte>, k: nat, i: nat)
    requires HeadEndsAt(s, k) && i <= k
    ensures i < |s|
  {
  }

  /** The C string at off is str, and ends before upto. */
  ghost predicate Says(d: seq<byte>, off: nat, upto: nat, str: seq<byte>) {
    off < |d| && Cut(d[off..]) == str && off + |str| < upto <= |d|
  }

  lemma ToldSays(d: seq<byte>, s: seq<byte>, off: nat, end: nat, upto: nat)
    requires Told(d, s, off, end) && end < upto <= |d|
    ensures end <= |s| && Says(d, off, upto, Cut(s[off..end]))
  {
    ToldMeans(d, s, off, end);
  }

  lemma SaysLater(d: seq<byte>, d': seq<byte>, off: nat, upto: nat, later: nat, str: seq<byte>)
    requires Says(d, off, upto, str) && Kept(d, d', upto) && upto <= later <= |d|
    ensures Says(d', off, later, str)
  {
    var end := off + |str|;
    assert d[off..][|str|] == d[end] && d[end] == NUL;
    assert d'[end] == NUL;
    CutShort(d'[off..], |str|);
    assert d'[off..][..|str|] == d[off..][..|str|] == str;
    CutAll(str);
  }

  // ---- The start line --------------------------------------------------------------------

  /** Pointers to the words of a start line. */
  datatype Start = ResponseAt(proto: nat, code: nat, reason: nat) | RequestAt(method_: nat, uri: nat, proto: nat)

  ghost predicate StartSays(d: seq<byte>, st: Start, upto: nat, line: Line) {
    match st
    case ResponseAt(proto, code, reason) =>
      && line.Response? && code == line.code && Says(d, proto, upto, line.proto) && Says(d, reason, upto, line.reason)
    case RequestAt(method_, uri, proto) =>
      && line.Request? && Says(d, method_, upto, line.method_) && Says(d, uri, upto, line.uri)
      && Says(d, proto, upto, line.proto)
  }

  lemma StartSaysLater(d: seq<byte>, d': seq<byte>, st: Start, upto: nat, later: nat, line: Line)
    requires StartSays(d, st, upto, line) && Kept(d, d', upto) && upto <= later <= |d|
    ensures StartSays(d', st, later, line)
  {
    hide Says, Kept;
    match st
    case ResponseAt(proto, code, reason) =>
      SaysLater(d, d', proto, upto, later, line.proto);
      SaysLater(d, d', reason, upto, later, line.reason);
    case RequestAt(method_, uri, proto) =>
      SaysLater(d, d', method_, upto, later, line.method_);
      SaysLater(d, d', uri, upto, later, line.uri);
      SaysLater(d, d', proto, upto, later, line.proto);
  }

  lemma LineEndStays(s: seq<byte>, k: nat, f: nat)
    requires HeadEndsAt(s, k) && f <= k
    ensures f + 1 <= |s| && (LineEnd(s, f + 1).Some? ==> Before(s, k, LineEnd(s, f + 1).value))
  {
    hide Skip;
    if f == k { SkipIs(s, k + 1, false, k + 1); } else { SkipStops(s, f + 1, false, k); }
  }

  /** The common end of the two kinds of start line. */
  method LineEndAt(d: array<byte>, f: nat, ghost s: seq<byte>, ghost k: nat) returns (ok: bool, next: nat)
    requires d.Length == |s| && Untouched(d[..], s, f + 1) && HeadEndsAt(s, k) && f <= k
    ensures f + 1 <= |s| && ok == LineEnd(s, f + 1).Some?
    ensures ok ==> next == LineEnd(s, f + 1).value && Untouched(d[..], s, next) && Before(s, k, next)
  {
    hide Skip, Untouched;
    LineEndStays(s, k, f);
    var i := SkipBlanks(d, f + 1, false, s);
    UntouchedAt(d[..], s, f + 1, i);
    var j := if i < d.Length && d[i] == CR then i + 1 else i;
    UntouchedAt(d[..], s, i, j);
    next := j + 1;
    ok := j < d.Length && d[j] == LF;
    if ok { UntouchedAt(d[..], s, j, next); }
  }

  lemma ResponseStays(s: seq<byte>, k: nat)
    requires HeadEndsAt(s, k)
    ensures var e := Delim(s, 0, SP, NUL);
            && e <= k < |s|
            && (s[e] == SP ==>
                  var i := Skip(s, e + 1, false);
                  && i <= k
                  && (ThreeDigitsAt(s, i) ==> Delim(s, Skip(s, i + 4, false), NUL, NUL) <= k))
  {
    hide Delim, Skip;
    DelimStops(s, 0, SP, NUL, k);
    var e := Delim(s, 0, SP, NUL);
    if s[e] == SP {
      var i := Skip(s, e + 1, false);
      SkipStops(s, e + 1, false, k);
      if ThreeDigitsAt(s, i) {
        SkipStops(s, i + 4, false, k);
        DelimStops(s, Skip(s, i + 4, false), NUL, NUL, k);
      }
    }
  }

  /** The first word, and where the next begins. */
  method FirstWordAt(d: array<byte>, ghost s: seq<byte>, ghost k: nat) returns (ok: bool, ghost e: nat, i: nat)
    requires d[..] == s && HeadEndsAt(s, k) && Delim(s, 0, SP, NUL) <= k < |s|
    modifies d
    ensures e == Delim(s, 0, SP, NUL) && ok == (s[e] == SP)
    ensures ok ==> e < i == Skip(s, e + 1, false) && Untouched(d[..], s, i) && Told(d[..], s, 0, e)
  {
    hide Delim, Skip, Told, Untouched, Kept, HeadEndsAt;
    Unwritten(s);
    i := 0;
    var end := DelimAt(d, 0, SP, NUL, s);
    e := end;
    ok := d[end] == SP;
    if ok {
      PutNul(d, 0, end, s);
      i := SkipBlanks(d, end + 1, false, s);
    }
  }

  /** The last word of a start line, and the rest of the line. */
  method LastWordAt(d: array<byte>, from: nat, ghost s: seq<byte>, ghost k: nat)
    returns (ok: bool, ghost f: nat, next: nat)
    requires d.Length == |s| && from <= |s| && Untouched(d[..], s, from) && HeadEndsAt(s, k)
             && Delim(s, from, NUL, NUL) <= k
    modifies d
    ensures f == Delim(s, from, NUL, NUL) < |s| && ok == LineEnd(s, f + 1).Some? && Kept(old(d[..]), d[..], from)
    ensures ok ==>
              && next == LineEnd(s, f + 1).value && Untouched(d[..], s, next) && Before(s, k, next)
              && Told(d[..], s, from, f)
  {
    hide Delim, Skip, Told, Untouched, Kept, LineEnd, Before;
    var end := DelimAt(d, from, NUL, NUL, s);
    f := end;
    PutNul(d, from, end, s);
    ok, next := LineEndAt(d, end, s, k);
  }

  /** The response code. */
  method CodeDigits(d: array<byte>, i: nat, ghost s: seq<byte>) returns (ok: bool, code: nat)
    requires d.Length == |s| && i <= |s| && Untouched(d[..], s, i)
    ensures ok == ThreeDigitsAt(s, i) && (ok ==> code == CodeAt(s, i) && Untouched(d[..], s, i + 4))
  {
    hide Digit, DigitValue;
    code := 0;
    ok := !(d.Length - i < 4 || !Digit(d[i]) || !Digit(d[i + 1]) || !Digit(d[i + 2]) || d[i + 3] != SP);
    if ok { code := 100 * DigitValue(d[i]) + 10 * DigitValue(d[i + 1]) + DigitValue(d[i + 2]); }
  }

  lemma NoResponse(s: seq<byte>)
    requires var e := Delim(s, 0, SP, NUL); e < |s| && (s[e] == SP ==> !ThreeDigitsAt(s, Skip(s, e + 1, false)))
    ensures ParseResponse(s).None?
  {
    hide Delim, Skip, ThreeDigitsAt;
  }

  lemma IsResponse(s: seq<byte>, e: nat, i: nat, r: nat, f: nat)
    requires e == Delim(s, 0, SP, NUL) < |s| && s[e] == SP && i == Skip(s, e + 1, false) && ThreeDigitsAt(s, i)
    requires r == Skip(s, i + 4, false) && f == Delim(s, r, NUL, NUL) < |s|
    ensures ParseResponse(s) ==
              if LineEnd(s, f + 1).None? then None
              else Some(StartLine(Response(Cut(s[0..e]), CodeAt(s, i), Cut(s[r..f])), LineEnd(s, f + 1).value))
  {
    hide Delim, Skip, ThreeDigitsAt, CodeAt, LineEnd, Cut;
    assert s[0..e] == s[..e];
  }

  method ParseResponseAt(d: array<byte>, ghost s: seq<byte>, ghost k: nat) returns (ok: bool, st: Start, next: nat)
    requires d[..] == s && HeadEndsAt(s, k)
    modifies d
    ensures ok == ParseResponse(s).Some?
    ensures ok ==>
      var line := ParseResponse(s).value;
      && next == line.next && Untouched(d[..], s, next) && Before(s, k, next) && StartSays(d[..], st, next, line.line)
  {
    hide Delim, Skip, Cut, Told, Untouched, Kept, Says, HeadEndsAt, Before, LineEnd, ThreeDigitsAt, CodeAt,
         ParseResponse;
    ResponseStays(s, k);
    st, next := ResponseAt(0, 0, 0), 0;
    ghost var e, f;
    var i, code;
    ok, e, i := FirstWordAt(d, s, k);
    if !ok { NoResponse(s); return; }
    ghost var first := d[..];
    ok, code := CodeDigits(d, i, s);
    if !ok { NoResponse(s); return; }
    DigitsInside(s, i);
    var reason := SkipBlanks(d, i + 4, false, s);
    ok, f, next := LastWordAt(d, reason, s, k);
    st := ResponseAt(0, code, reason);
    IsResponse(s, e, i, reason, f);
    if ok {
      ToldKept(first, d[..], s, 0, e, reason);
      ToldSays(d[..], s, 0, e, next);
      ToldSays(d[..], s, reason, f, next);
    }
  }

  lemma DigitsInside(s: seq<byte>, i: nat)
    requires ThreeDigitsAt(s, i)
    ensures i + 4 <= |s|
  {
  }

  lemma Unwritten(s: seq<byte>)
    ensures Untouched(s, s, 0)
  {
  }

  lemma RequestStays(s: seq<byte>, k: nat)
    requires HeadEndsAt(s, k)
    ensures var e := Delim(s, 0, SP, NUL);
            && e <= k < |s|
            && (s[e] == SP ==>
                  var u := Skip(s, e + 1, false);
                  var f := Delim(s, u, SP, NUL);
                  && f <= k
                  && (s[f] == SP ==> Delim(s, Skip(s, f + 1, false), NUL, NUL) <= k))
  {
    hide Delim, Skip;
    DelimStops(s, 0, SP, NUL, k);
    var e := Delim(s, 0, SP, NUL);
    if s[e] == SP {
      SkipStops(s, e + 1, false, k);
      var u := Skip(s, e + 1, false);
      DelimStops(s, u, SP, NUL, k);
      var f := Delim(s, u, SP, NUL);
      if s[f] == SP {
        SkipStops(s, f + 1, false, k);
        DelimStops(s, Skip(s, f + 1, false), NUL, NUL, k);
      }
    }
  }

  lemma NoRequest(s: seq<byte>)
    requires var e := Delim(s, 0, SP, NUL);
             e < |s| && (s[e] == SP ==> var f := Delim(s, Skip(s, e + 1, false), SP, NUL); f < |s| && s[f] != SP)
    ensures ParseRequest(s).None?
  {
    hide Delim, Skip;
  }

  lemma IsRequest(s: seq<byte>, e: nat, u: nat, f: nat, p: nat, g: nat)
    requires e == Delim(s, 0, SP, NUL) < |s| && s[e] == SP && u == Skip(s, e + 1, false)
    requires f == Delim(s, u, SP, NUL) < |s| && s[f] == SP && p == Skip(s, f + 1, false)
             && g == Delim(s, p, NUL, NUL) < |s|
    ensures ParseRequest(s) ==
              if LineEnd(s, g + 1).None? then None
              else Some(StartLine(Request(Cut(s[0..e]), Cut(s[u..f]), Cut(s[p..g])), LineEnd(s, g + 1).value))
  {
    hide Delim, Skip, LineEnd, Cut;
    assert s[0..e] == s[..e];
  }

  method ParseRequestAt(d: array<byte>, ghost s: seq<byte>, ghost k: nat) returns (ok: bool, st: Start, next: nat)
    requires d[..] == s && HeadEndsAt(s, k)
    modifies d
    ensures ok == ParseRequest(s).Some?
    ensures ok ==>
      var line := ParseRequest(s).value;
      && next == line.next && Untouched(d[..], s, next) && Before(s, k, next) && StartSays(d[..], st, next, line.line)
  {
    hide Delim, Skip, Cut, Told, Untouched, Kept, Says, HeadEndsAt, Before, LineEnd, ParseRequest;
    RequestStays(s, k);
    st, next := RequestAt(0, 0, 0), 0;
    ghost var e, g;
    var uri;
    ok, e, uri := FirstWordAt(d, s, k);
    if !ok { NoRequest(s); return; }
    ghost var first := d[..];
    var f := DelimAt(d, uri, SP, NUL, s);
    ok := d[f] == SP;
    if !ok { NoRequest(s); return; }
    PutNul(d, uri, f, s);
    ghost var second := d[..];
    ToldKept(first, second, s, 0, e, uri);
    var proto := SkipBlanks(d, f + 1, false, s);
    ok, g, next := LastWordAt(d, proto, s, k);
    st := RequestAt(0, uri, proto);
    IsRequest(s, e, uri, f, proto, g);
    if ok {
      ToldKept(second, d[..], s, 0, e, proto);
      ToldKept(second, d[..], s, uri, f, proto);
      ToldSays(d[..], s, 0, e, next);
      ToldSays(d[..], s, uri, f, next);
      ToldSays(d[..], s, proto, g, next);
    }
  }

  // ---- The message -------------------------------------------------------------------------

  /** What comes of parse_pmsg: the length of the head, -1, or a store behind
      the end of fields[], where the model stops. */
  datatype Outcome = Head(n: nat) | Malformed | Overrun

  class Message {
    const msg: array<byte>
    const fields: array<(nat, nat)>   // pointers to names and values
    var headerCount: nat
    var start: Start

    constructor (d: array<byte>)
      ensures msg == d && fresh(fields) && fields.Length == MAX_FIELDS
    {
      msg, start, headerCount := d, ResponseAt(0, 0, 0), 0;
      fields := new (nat, nat)[MAX_FIELDS](_ => (0, 0));
    }

    /** What the pointers point to. */
    ghost predicate Reads(line: Line, list: seq<Field>)
      reads this, msg, fields
    {
      && StartSays(msg[..], start, msg.Length, line)
      && headerCount <= fields.Length && FieldsSay(msg[..], fields[..headerCount], msg.Length, list)
    }

    /** parse_pmsg. */
    method ParsePmsg() returns (r: Outcome)
      requires HasEmptyLine(msg[..]) && fields.Length == MAX_FIELDS
      modifies this`start, this`headerCount, msg, fields
      ensures r.Overrun? <==> Overruns(old(msg[..]))
      ensures !r.Overrun? ==>
                match Parse(old(msg[..]))
                case None => r == Malformed
                case Some(p) => r == Head(p.n) && Reads(p.line, p.fields)
    {
      hide HeadEndsAt, ParseResponse, ParseRequest, ParseHeaders, StartSays, FieldsSay, Kept, Says, Before,
           Untouched, Begun;
      ghost var s := msg[..];
      ghost var k: nat :| HeadEndsAt(s, k);
      headerCount := 0;
      if msg.Length < 4 { return Malformed; }
      var w := FindFirstWord(msg);
      if w == msg.Length { return Malformed; }
      var ok, i;
      if msg[w] == SLASH {
        ok, start, i := ParseResponseAt(msg, s, k);
      } else {
        ok, start, i := ParseRequestAt(msg, s, k);
      }
      if !ok { return Malformed; }
      ghost var line, first := ParseStart(s).value.line, msg[..];
      r := ParseFields(i, s, k);
      if r.Head? { StartSaysLater(first, msg[..], start, i, msg.Length, line); }
    }

    /** The header loop. */
    method ParseFields(from: nat, ghost s: seq<byte>, ghost k: nat) returns (r: Outcome)
      requires msg.Length == |s| && Untouched(msg[..], s, from) && Before(s, k, from) && from <= |s|
      requires headerCount == 0 && fields.Length == MAX_FIELDS
      modifies this`headerCount, msg, fields
      ensures Kept(old(msg[..]), msg[..], from)
      ensures r.Overrun? <==> Begun(s, from) > MAX_FIELDS
      ensures r.Malformed? ==> ParseHeaders(s, from).None?
      ensures r.Head? ==>
                && ParseHeaders(s, from).Some? && r.n == ParseHeaders(s, from).value.n
                && headerCount <= fields.Length
                && FieldsSay(msg[..], fields[..headerCount], msg.Length, ParseHeaders(s, from).value.fields)
    {
      hide HeadEndsAt, Kept, Says, Before, Untouched, ParseHeaders, FieldsSay, ParseHeader, Begun;
      ghost var was, list := msg[..], [];
      KeptAll(was, from);
      NothingSaid(was, from);
      RestOfAll(ParseHeaders(s, from));
      var i := from;
      assert fields[..headerCount] == [];
      while true
        invariant from <= i <= |s| == msg.Length && Untouched(msg[..], s, i) && Before(s, k, i)
        invariant Kept(was, msg[..], from) && 0 <= headerCount <= MAX_FIELDS
        invariant FieldsSay(msg[..], fields[..headerCount], i, list)
        invariant Rest(list, ParseHeaders(s, i)) == ParseHeaders(s, from)
        invariant headerCount + Begun(s, i) == Begun(s, from)
        decreases |s| - i
      {
        BeforeMeans(s, k, i);
        UntouchedAt(msg[..], s, i, i);
        ParseHeadersIs(s, i);
        BegunIs(s, i);
        var j := if i < msg.Length && msg[i] == CR then i + 1 else i;
        UntouchedAt(msg[..], s, i, j);
        KeptAll(msg[..], i);
        assert list + [] == list;
        // At the end of the data the program returns its length; an empty
        // line ahead rules that out.
        if j == msg.Length { assert false; }
        if msg[j] == LF {
          FieldsSayLater(msg[..], msg[..], fields[..headerCount], i, msg.Length, list);
          return Head(j + 1);
        }
        if msg[j] == TAB || msg[j] == SP {
          BlankHeader(s, j);
          return Malformed;
        }
        if headerCount == MAX_FIELDS { return Outcome.Overrun; }
        ghost var before := msg[..];
        fields[headerCount] := (j, fields[headerCount].1);
        var ok, name, value, next := ParseHeaderAt(msg, j, s, k);
        KeptThen(was, before, msg[..], from, j);
        if !ok { return Malformed; }
        RestMore(list, ParseHeader(s, j).value.field, ParseHeaders(s, next));
        FieldsSayMore(before, msg[..], fields[..headerCount], i, j, next, list, name, value,
          ParseHeader(s, j).value.field);
        list := list + [ParseHeader(s, j).value.field];
        fields[headerCount] := (name, value);
        headerCount := headerCount + 1;
        assert fields[..headerCount] == fields[..headerCount - 1] + [(name, value)];
        i := next;
      }
    }
  }

  lemma BegunIs(s: seq<byte>, i: nat)
    requires i <= |s|
    ensures var j := if i < |s| && s[i] == CR then i + 1 else i;
            Begun(s, i) ==
              if j == |s| || s[j] == LF || s[j] == TAB || s[j] == SP then 0
              else 1 + if ParseHeader(s, j).None? then 0 else Begun(s, ParseHeader(s, j).value.next)
  {
    hide ParseHeader;
  }

  lemma BlankHeader(s: seq<byte>, i: nat)
    requires i < |s| && (s[i] == TAB || s[i] == SP)
    ensures ParseHeader(s, i).None?
  {
  }

  /** Headers found before, in front of those still to be found. */
  ghost function Rest(list: seq<Field>, more: Option<Headers>): Option<Headers> {
    match more
    case None => None
    case Some(h) => Some(Headers(list + h.fields, h.n))
  }

  lemma RestOfAll(h: Option<Headers>)
    ensures Rest([], h) == h
  {
    if h.Some? { assert [] + h.value.fields == h.value.fields; }
  }

  lemma RestMore(list: seq<Field>, f: Field, h: Option<Headers>)
    ensures Rest(list, Rest([f], h)) == Rest(list + [f], h)
  {
    if h.Some? { assert list + ([f] + h.value.fields) == list + [f] + h.value.fields; }
  }

  ghost predicate FieldsSay(d: seq<byte>, at: seq<(nat, nat)>, upto: nat, list: seq<Field>) {
    && |at| == |list|
    && forall i :: 0 <= i < |at| ==> Says(d, at[i].0, upto, list[i].name) && Says(d, at[i].1, upto, list[i].value)
  }

  lemma NothingSaid(d: seq<byte>, upto: nat)
    ensures FieldsSay(d, [], upto, [])
  {
  }

  lemma FieldsSayLater(d: seq<byte>, d': seq<byte>, at: seq<(nat, nat)>, upto: nat, later: nat, list: seq<Field>)
    requires FieldsSay(d, at, upto, list) && Kept(d, d', upto) && upto <= later <= |d|
    ensures FieldsSay(d', at, later, list)
  {
    hide Says, Kept;
    forall i | 0 <= i < |at| ensures Says(d', at[i].0, later, list[i].name) && Says(d', at[i].1, later, list[i].value) {
      SaysLater(d, d', at[i].0, upto, later, list[i].name);
      SaysLater(d, d', at[i].1, upto, later, list[i].value);
    }
  }

  lemma FieldsSayMore(d: seq<byte>, d': seq<byte>, at: seq<(nat, nat)>, upto: nat, j: nat, later: nat, list: seq<Field>,
                      name: nat, value: nat, f: Field)
    requires FieldsSay(d, at, upto, list) && Kept(d, d', j) && upto <= j <= later <= |d|
    requires Says(d', name, later, f.name) && Says(d', value, later, f.value)
    ensures FieldsSay(d', at + [(name, value)], later, list + [f])
  {
    hide Says;
    KeptThen(d, d, d', upto, j) by { KeptAll(d, upto); }
    FieldsSayLater(d, d', at, upto, later, list);
  }

  lemma BeforeMeans(s: seq<byte>, k: nat, i: nat)
    requires Before(s, k, i)
    ensures HeadEndsAt(s, k) && i < |s|
    ensures s[i] == CR && s[i + 1] != LF ==> i + 1 <= k
    ensures s[i] != CR && s[i] != LF ==> i <= k
    ensures i + 1 < |s|
  {
  }

  lemma ParseHeadersIs(s: seq<byte>, i: nat)
    requires i <= |s|
    ensures var j := if i < |s| && s[i] == CR then i + 1 else i;
            ParseHeaders(s, i) ==
              if j == |s| then Some(Headers([], |s|))
              else if s[j] == LF then Some(Headers([], j + 1))
              else if ParseHeader(s, j).None? then None
              else Rest([ParseHeader(s, j).value.field], ParseHeaders(s, ParseHeader(s, j).value.next))
  {
    hide ParseHeader;
  }

  /** What the server prints is there for the parser to read: run on it, with
      whatever follows, it finds the same status line and headers, and where
      the head ends. It has room for them if and only if there are at most 32,
      Content-Length included. */
  lemma PrintedParses(line: Line, fields: seq<Field>, body: Option<nat>, rest: seq<byte>)
    requires Printable(line, fields)
    ensures HasEmptyLine(Print(line, fields, body) + rest)
    ensures Parse(Print(line, fields, body) + rest)
         == Some(Parsed(line, Announced(fields, body), |Print(line, fields, body)|))
    ensures Overruns(Print(line, fields, body) + rest) <==> |Announced(fields, body)| > MAX_FIELDS
  {
    hide ParseStart, ParseHeaders, Announced, PrintFields, Decimal, HeadEndsAt, PrintableField, Begun;
    ParsePrinted(line, fields, body, rest);
    AnnouncedPrintable(line, fields, body);
    var c := line.proto + [SP] + Decimal(line.code) + [SP] + line.reason;
    NoReturn(line);
    FieldsFramed(c, Announced(fields, body));
    var s := Print(line, fields, body);
    assert s == c + CRLF + PrintFields(Announced(fields, body)) + CRLF;
    HeadStillEnds(s, rest, |s| - 4);
    BegunAll(s + rest, ParseStart(s + rest).value.next);
  }

  // "A * RTSP/1.0": the last word is what a connection is taken for.
  const REQUEST: seq<byte> := [65, SP, 42, SP] + RTSP

  // n times "a: b"
  function Copies(n: nat): seq<Field> {
    seq(n, _ => Field([97], [98]))
  }

  /** A request line and n header lines. */
  function RequestWith(n: nat): seq<byte> {
    REQUEST + CRLF + PrintFields(Copies(n)) + CRLF
  }

  /** Nothing keeps a client from sending 33 header lines: 214 bytes do, in a
      buffer of 4096, and the last of them is stored behind fields[]. */
  lemma RequestOverruns(n: nat)
    ensures HasEmptyLine(RequestWith(n)) && |RequestWith(n)| == 16 + 6 * n
    ensures Overruns(RequestWith(n)) <==> n > MAX_FIELDS
  {
    hide PrintFields, Begun, HeadEndsAt, ParseHeaders, ParseStart, PrintableField, Copies;
    var s, more := RequestWith(n), PrintFields(Copies(n)) + CRLF;
    CopiesPrinted(n);
    FieldsFramed(REQUEST, Copies(n));
    RequestLine(more);
    assert s == REQUEST + CRLF + more;
    HeadersPrinted(REQUEST + CRLF, Copies(n), []);
    assert s + [] == s;
    BegunAll(s, 14);
  }

  lemma {:induction false} CopiesPrinted(n: nat)
    ensures |Copies(n)| == n && |PrintFields(Copies(n))| == 6 * n
    ensures forall i :: 0 <= i < n ==> PrintableField(Copies(n)[i])
  {
    if n > 0 {
      CopiesPrinted(n - 1);
      assert Copies(n)[1..] == Copies(n - 1);
    }
  }

  /** A method, a URI and a protocol, which a request line puts in this order. */
  predicate Requests(verb: seq<byte>, uri: seq<byte>, proto: seq<byte>) {
    && Word(verb, SP) && verb != [] && !(SLASH in verb)
    && Word(uri, SP) && uri != [] && Word(proto, NUL) && proto != [] && proto[0] != SP
  }

  lemma RequestParsed(verb: seq<byte>, uri: seq<byte>, proto: seq<byte>, more: seq<byte>)
    requires Requests(verb, uri, proto)
    ensures var line := verb + [SP] + uri + [SP] + proto + CRLF;
            ParseStart(line + more) == Some(StartLine(Request(verb, uri, proto), |line|))
  {
    hide Delim, Skip, Cut, FirstWord, LineEnd, ParseResponse, ParseRequest, Word, Stops;
    var s := verb + [SP] + uri + [SP] + proto + CRLF + more;
    var e := |verb|;
    var f := e + 1 + |uri|;
    var g := f + 1 + |proto|;
    assert s[..e] == verb && s[e + 1..f] == uri && s[f + 1..g] == proto;
    assert s[e] == SP && s[f] == SP && s[g] == CR && s[g + 1] == LF;
    RequestWords(s, e, f, g, verb, uri, proto);
  }

  lemma RequestWords(s: seq<byte>, e: nat, f: nat, g: nat, verb: seq<byte>, uri: seq<byte>, proto: seq<byte>)
    requires Requests(verb, uri, proto) && e == |verb| && f == e + 1 + |uri| && g == f + 1 + |proto|
    requires g + 2 <= |s| && s[..e] == verb && s[e + 1..f] == uri && s[f + 1..g] == proto
    requires s[e] == SP && s[f] == SP && s[g] == CR && s[g + 1] == LF
    ensures ParseStart(s) == Some(StartLine(Request(verb, uri, proto), g + 2))
  {
    hide Delim, Skip, Cut, FirstWord, LineEnd, ParseResponse;
    assert forall k :: 0 <= k < e ==> s[k] == verb[k];
    assert forall k :: e + 1 <= k < f ==> s[k] == uri[k - e - 1];
    assert forall k :: f + 1 <= k < g ==> s[k] == proto[k - f - 1];
    FirstWordIs(s, 0, e);
    DelimIs(s, 0, SP, NUL, e);
    SkipIs(s, e + 1, false, e + 1);
    DelimIs(s, e + 1, SP, NUL, f);
    SkipIs(s, f + 1, false, f + 1);
    DelimIs(s, f + 1, NUL, NUL, g);
    LineEndNow(s, g + 1);
    CutAll(verb);
    CutAll(uri);
    CutAll(proto);
  }

  lemma RequestLine(more: seq<byte>)
    ensures ParseStart(REQUEST + CRLF + more) == Some(StartLine(Request([65], [42], RTSP), 14))
  {
    assert REQUEST == [65] + [SP] + [42] + [SP] + RTSP;
    RequestParsed([65], [42], RTSP, more);
  }

  lemma NoReturn(line: Line)
    requires Printable(line, [])
    ensures var c := line.proto + [SP] + Decimal(line.code) + [SP] + line.reason; forall k :: 0 <= k < |c| ==>
            c[k] != CR
  {
    hide Decimal;
  }

  lemma HeadStillEnds(s: seq<byte>, rest: seq<byte>, k: nat)
    requires HeadEndsAt(s, k)
    ensures HeadEndsAt(s + rest, k)
  {
  }
}
