// Timecodes (Mp4v2/mp4v2-2.0.0/libutil/Timecode.cpp): hours, minutes, seconds
// and subseconds against a duration in ticks and a text. Members are 64 bits
// wide; the scale is a whole number.
module Timecode {
  import opened Bytes
  import opened Digits

  const COLON: byte := 58
  const SEMICOLON: byte := 59
  const DOT: byte := 46

  const TWO64 := 0x1_0000_0000_0000_0000

  /** Unsigned arithmetic of 64 bits. */
  function U64(x: nat): (r: nat)
    ensures r < TWO64
  {
    x % TWO64
  }

  datatype Parts = Parts(hours: nat, minutes: nat, seconds: nat, subseconds: nat)

  /** The ticks that the parts stand for. */
  function Ticks(scale: nat, p: Parts): nat {
    p.subseconds + scale * p.seconds + scale * p.minutes * 60 + scale * p.hours * 3600
  }

  predicate Normal(scale: nat, p: Parts) {
    p.subseconds < scale && p.seconds < 60 && p.minutes < 60
  }

  // ---- Arithmetic modulo 2^64 ----------------------------------------------------------

  lemma Congruent(x: nat, y: nat, k: int)
    requires x == y + k * TWO64
    ensures U64(x) == U64(y)
  {
  }

  lemma Distribute(a: int, b: int, c: int)
    ensures a * (b + c) == a * b + a * c
  {
  }

  lemma Associate(a: int, b: int, c: int)
    ensures a * (b * c) == (a * b) * c
  {
  }

  lemma WrapTimes(w: nat, x: nat)
    ensures w * U64(x) == w * x - (w * (x / TWO64)) * TWO64
  {
    var k := x / TWO64;
    Distribute(w, U64(x), k * TWO64);
    Associate(w, k, TWO64);
  }

  lemma DivideTimes(worth: nat, unit: nat, low: nat)
    requires unit > 0
    ensures worth * low == (worth * unit) * (low / unit) + worth * (low % unit)
  {
    var n, r := low / unit, low % unit;
    assert low == unit * n + r;
    Distribute(worth, unit * n, r);
    Associate(worth, unit, n);
  }

  /** Carrying into a part that wraps leaves the ticks as they were, modulo
      2^64: what one unit is worth times 2^64 is a multiple of 2^64. */
  lemma Carried(worth: nat, unit: nat, low: nat, high: nat, rest: nat)
    requires unit > 0
    ensures U64(rest + worth * (low % unit) + worth * unit * U64(high + low / unit)) ==
            U64(rest + worth * low + worth * unit * high)
  {
    DivideTimes(worth, unit, low);
    CarriedOver(worth * unit, low / unit, high, rest, worth * low, worth * (low % unit));
  }

  lemma CarriedOver(w: nat, n: nat, high: nat, rest: nat, x: nat, r: nat)
    requires x == w * n + r
    ensures U64(rest + r + w * U64(high + n)) == U64(rest + x + w * high)
  {
    hide U64;
    WrapTimes(w, high + n);
    Distribute(w, high, n);
    Gather(rest, x, w * high, w * n, r, w * U64(high + n), w * ((high + n) / TWO64));
  }

  lemma Gather(rest: nat, x: nat, y: nat, z: nat, r: nat, w: nat, k: nat)
    requires x == z + r && w == y + z - k * TWO64
    ensures U64(rest + r + w) == U64(rest + x + y)
  {
    Congruent(rest + x + y, rest + r + w, k);
  }

  function CarrySeconds(scale: nat, p: Parts): Parts
    requires scale > 0
  {
    p.(subseconds := p.subseconds % scale, seconds := U64(p.seconds + p.subseconds / scale))
  }

  function CarryMinutes(p: Parts): Parts {
    p.(seconds := p.seconds % 60, minutes := U64(p.minutes + p.seconds / 60))
  }

  function CarryHours(p: Parts): Parts {
    p.(minutes := p.minutes % 60, hours := U64(p.hours + p.minutes / 60))
  }

  /** What recompute makes of the parts. */
  function Recomputed(scale: nat, p: Parts): Parts
    requires scale > 0
  {
    CarryHours(CarryMinutes(CarrySeconds(scale, p)))
  }

  lemma SecondsTicks(scale: nat, p: Parts)
    requires scale > 0
    ensures U64(Ticks(scale, CarrySeconds(scale, p))) == U64(Ticks(scale, p))
  {
    hide U64;
    Carried(1, scale, p.subseconds, p.seconds, scale * p.minutes * 60 + scale * p.hours * 3600);
  }

  lemma MinutesTicks(scale: nat, p: Parts)
    ensures U64(Ticks(scale, CarryMinutes(p))) == U64(Ticks(scale, p))
  {
    hide U64;
    Regroup(scale, p.minutes, p.hours);
    Regroup(scale, CarryMinutes(p).minutes, p.hours);
    Carried(scale, 60, p.seconds, p.minutes, p.subseconds + scale * p.hours * 3600);
  }

  lemma HoursTicks(scale: nat, p: Parts)
    ensures U64(Ticks(scale, CarryHours(p))) == U64(Ticks(scale, p))
  {
    hide U64;
    var q := CarryHours(p);
    Regroup(scale, p.minutes, p.hours);
    Regroup(scale, q.minutes, q.hours);
    Carried(scale * 60, 60, p.minutes, p.hours, p.subseconds + scale * p.seconds);
  }

  lemma RecomputedTicks(scale: nat, p: Parts)
    requires scale > 0
    ensures Normal(scale, Recomputed(scale, p)) && U64(Ticks(scale, Recomputed(scale, p))) == U64(Ticks(scale, p))
  {
    hide U64, Ticks;
    SecondsTicks(scale, p);
    MinutesTicks(scale, CarrySeconds(scale, p));
    HoursTicks(scale, CarryMinutes(CarrySeconds(scale, p)));
  }

  lemma Regroup(scale: nat, minutes: nat, hours: nat)
    ensures scale * minutes * 60 == scale * 60 * minutes && scale * hours * 3600 == scale * 60 * 60 * hours
  {
    Associate(scale, minutes, 60);
    Associate(scale, 60, minutes);
    Associate(scale, hours, 3600);
    Associate(scale, 3600, hours);
  }

  // ---- Text -------------------------------------------------------------------------------

  /** At least two digits. */
  function Padded(n: nat): (r: seq<byte>)
    ensures |r| >= 2 && AllDigits(r)
  {
    if n < 10 then [ZERO] + Decimal(n) else Decimal(n)
  }

  lemma NumberPadded(n: nat)
    ensures Number(Padded(n)) == n
  {
    hide Number;
    NumberDecimal(n);
    if n < 10 {
      NumberSnoc([], ZERO);
      assert [] + [ZERO] == [ZERO];
      NumberNothing();
      NumberSnoc([ZERO], ZERO + n as byte);
      assert Decimal(n) == [ZERO + n as byte];
    }
  }

  function Text(p: Parts): seq<byte> {
    Padded(p.hours) + [COLON] + Padded(p.minutes) + [COLON] + Padded(p.seconds) + [COLON] + Padded(p.subseconds)
  }

  /** "01:23:04:56" */
  lemma TextExample()
    ensures Text(Parts(1, 23, 4, 56)) == [48, 49, 58, 50, 51, 58, 48, 52, 58, 53, 54]
  {
    assert Decimal(2) == [50] && Decimal(23) == Decimal(2) + [51] && Decimal(5) == [53];
    assert Padded(1) == [48, 49] && Padded(4) == [48, 52];
    assert Padded(23) == [50, 51] && Padded(56) == [53, 54];
  }

  // ---- Parsing ----------------------------------------------------------------------------

  datatype Target = Hours | Minutes | Seconds | Subseconds

  datatype Format = Frame | Decimals

  /** The state of the character loop; buffer is tbuffer. */
  datatype Scan = Scan(target: Target, buffer: seq<byte>, parts: Parts, format: Format)

  predicate Sound(st: Scan) {
    AllDigits(st.buffer) && |st.buffer| <= 16
  }

  /** The buffer is converted into the part that is the target, unless it is
      empty. At most sixteen digits always fit 64 bits. */
  function Convert(st: Scan): Parts
    requires Sound(st)
  {
    if st.buffer == [] then st.parts
    else
      var v := Number(st.buffer);
      match st.target
      case Hours => st.parts.(hours := v)
      case Minutes => st.parts.(minutes := v)
      case Seconds => st.parts.(seconds := v)
      case Subseconds => st.parts.(subseconds := v)
  }

  function Step(st: Scan, c: byte): (r: Option<Scan>)
    requires Sound(st)
    ensures r.Some? ==> Sound(r.value)
  {
    if c == COLON then
      match st.target
      case Hours => Some(Scan(Minutes, [], Convert(st), st.format))
      case Minutes => Some(Scan(Seconds, [], Convert(st), st.format))
      case Seconds => Some(Scan(Subseconds, [], Convert(st), st.format))
      case Subseconds => None
    else if c == DOT then
      if st.target == Seconds then Some(Scan(Subseconds, [], Convert(st), Decimals)) else None
    else if Digit(c) then
      if |st.buffer| + 1 > 16 then None else Some(st.(buffer := st.buffer + [c]))
    else None
  }

  function Steps(st: Scan, text: seq<byte>): (r: Option<Scan>)
    requires Sound(st)
    ensures r.Some? ==> Sound(r.value)
    decreases |text|
  {
    if text == [] then Some(st)
    else
      match Step(st, text[0])
      case None => None
      case Some(next) => Steps(next, text[1..])
  }

  function Count(text: seq<byte>, c: byte): nat {
    if text == [] then 0 else (if text[0] == c then 1 else 0) + Count(text[1..], c)
  }

  /** What the first part of the text is, by how many parts there are. */
  function Start(separators: nat): Scan {
    var zero := Parts(0, 0, 0, 0);
    Scan(if separators == 0 then Subseconds else if separators == 1 then Seconds else if separators == 2 then Minutes
      else Hours,
         [], zero, Frame)
  }

  function Separators(text: seq<byte>): nat {
    Count(text, COLON) + Count(text, SEMICOLON) + Count(text, DOT)
  }

  /** parse: the parts that a text stands for, if it is well formed, and what
      is left to do for decimals. */
  function Parse(text: seq<byte>): Option<Scan> {
    if Count(text, SEMICOLON) > 1 || Count(text, DOT) > 1 || Separators(text) > 3 then None
    else Steps(Start(Separators(text)), text)
  }

  lemma {:induction false} StepsDigits(st: Scan, d: seq<byte>, rest: seq<byte>)
    requires Sound(st) && AllDigits(d) && |st.buffer| + |d| <= 16
    ensures Steps(st, d + rest) == Steps(st.(buffer := st.buffer + d), rest)
    decreases |d|
  {
    if d == [] {
      assert d + rest == rest && st.buffer + d == st.buffer;
    } else {
      var next := st.(buffer := st.buffer + [d[0]]);
      assert (d + rest)[1..] == d[1..] + rest;
      NoSeparator(d[0]);
      StepsDigits(next, d[1..], rest);
      assert next.buffer + d[1..] == st.buffer + d;
    }
  }

  lemma NoSeparator(c: byte)
    requires Digit(c)
    ensures c != COLON && c != DOT && c != SEMICOLON
  {
  }

  lemma {:induction false} CountAppend(a: seq<byte>, b: seq<byte>, c: byte)
    ensures Count(a + b, c) == Count(a, c) + Count(b, c)
  {
    if a == [] {
      assert a + b == b;
    } else {
      assert (a + b)[1..] == a[1..] + b;
      CountAppend(a[1..], b, c);
    }
  }

  lemma {:induction false} CountDigits(d: seq<byte>, c: byte)
    requires AllDigits(d) && !Digit(c)
    ensures Count(d, c) == 0
  {
    if d != [] { CountDigits(d[1..], c); }
  }

  lemma CountText(p: Parts)
    ensures Count(Text(p), COLON) == 3 && Count(Text(p), SEMICOLON) == 0 && Count(Text(p), DOT) == 0
  {
    hide Padded;
    forall c | c == COLON || c == SEMICOLON || c == DOT ensures Count(Text(p), c) == if c == COLON then 3 else 0 {
      var h, m, s, f := Padded(p.hours), Padded(p.minutes), Padded(p.seconds), Padded(p.subseconds);
      CountAppend(h + [COLON] + m + [COLON] + s + [COLON], f, c);
      CountAppend(h + [COLON] + m + [COLON] + s, [COLON], c);
      CountAppend(h + [COLON] + m + [COLON], s, c);
      CountAppend(h + [COLON] + m, [COLON], c);
      CountAppend(h + [COLON], m, c);
      CountAppend(h, [COLON], c);
      CountDigits(h, c);
      CountDigits(m, c);
      CountDigits(s, c);
      CountDigits(f, c);
    }
  }

  /** The text of parts whose numbers have at most sixteen digits is read
      back as the same parts. */
  lemma TextParsed(p: Parts)
    requires |Padded(p.hours)| <= 16 && |Padded(p.minutes)| <= 16 && |Padded(p.seconds)| <= 16
             && |Padded(p.subseconds)| <= 16
    ensures Parse(Text(p)).Some? && Convert(Parse(Text(p)).value) == p && Parse(Text(p)).value.format == Frame
  {
    hide Padded, Steps, Number;
    CountText(p);
    var h, m, s, f := Padded(p.hours), Padded(p.minutes), Padded(p.seconds), Padded(p.subseconds);
    var st0 := Start(3);
    var st1 := Scan(Minutes, [], st0.parts.(hours := p.hours), Frame);
    var st2 := Scan(Seconds, [], st1.parts.(minutes := p.minutes), Frame);
    var st3 := Scan(Subseconds, [], st2.parts.(seconds := p.seconds), Frame);
    assert Text(p) == h + ([COLON] + (m + ([COLON] + (s + ([COLON] + (f + []))))));
    SectionRead(st0, p.hours, m + ([COLON] + (s + ([COLON] + (f + [])))));
    SectionRead(st1, p.minutes, s + ([COLON] + (f + [])));
    SectionRead(st2, p.seconds, f + []);
    StepsDigits(st3, f, []);
    assert [] + f == f;
    NumberPadded(p.subseconds);
    StepsNone(st3.(buffer := f));
  }

  lemma StepsNone(st: Scan)
    requires Sound(st)
    ensures Steps(st, []) == Some(st)
  {
  }

  /** A number and the colon after it. */
  lemma SectionRead(st: Scan, n: nat, rest: seq<byte>)
    requires Sound(st) && st.buffer == [] && st.target != Subseconds && |Padded(n)| <= 16
    ensures var next := Step(st.(buffer := Padded(n)), COLON);
            next.Some? && Steps(st, Padded(n) + ([COLON] + rest)) == Steps(next.value, rest)
    ensures Convert(st.(buffer := Padded(n))) ==
              match st.target
              case Hours => st.parts.(hours := n)
              case Minutes => st.parts.(minutes := n)
              case Seconds => st.parts.(seconds := n)
              case Subseconds => st.parts
  {
    hide Padded, Number;
    StepsDigits(st, Padded(n), [COLON] + rest);
    assert st.buffer + Padded(n) == Padded(n);
    assert ([COLON] + rest)[1..] == rest;
    NumberPadded(n);
  }

  // ---- Texts with fewer sections -------------------------------------------------------------

  /** Sections with colons in between. */
  function Joined(ds: seq<seq<byte>>): seq<byte>
    requires ds != []
  {
    if |ds| == 1 then ds[0] else ds[0] + ([COLON] + Joined(ds[1..]))
  }

  ghost predicate Sections(ds: seq<seq<byte>>) {
    forall i :: 0 <= i < |ds| ==> AllDigits(ds[i]) && |ds[i]| <= 16
  }

  /** The number in section i; a section that is empty or missing counts 0. */
  function Section(ds: seq<seq<byte>>, i: int): nat
    requires i < |ds| && (i >= 0 ==> AllDigits(ds[i]))
  {
    if i < 0 || ds[i] == [] then 0 else Number(ds[i])
  }

  lemma {:induction false} CountJoined(ds: seq<seq<byte>>, c: byte)
    requires ds != [] && Sections(ds) && !Digit(c)
    ensures Count(Joined(ds), c) == if c == COLON then |ds| - 1 else 0
  {
    hide Count;
    CountDigits(ds[0], c);
    if |ds| > 1 {
      CountJoined(ds[1..], c);
      CountAppend([COLON], Joined(ds[1..]), c);
      CountAppend(ds[0], [COLON] + Joined(ds[1..]), c);
      CountOne(COLON, c);
    }
  }

  lemma CountOne(x: byte, c: byte)
    ensures Count([x], c) == if x == c then 1 else 0
  {
    assert [x][1..] == [];
  }

  /** The sections but the last are converted, and the last is in the buffer. */
  lemma {:induction false} StepsJoined(st: Scan, ds: seq<seq<byte>>, rest: seq<byte>) returns (end: Scan)
    requires Sound(st) && st.buffer == [] && ds != [] && Sections(ds) && |ds| <= Levels(st.target)
    ensures Sound(end) && Steps(st, Joined(ds) + rest) == Steps(end, rest)
    ensures end.format == st.format && end.buffer == ds[|ds| - 1] && Levels(end.target) == Levels(st.target) - |ds| + 1
    ensures end.parts == Put(st.parts, st.target, ds[..|ds| - 1])
    decreases |ds|
  {
    hide Steps, Step, Number, Joined, Convert;
    var d := ds[0];
    JoinedFirst(ds);
    assert st.buffer + d == d;
    if |ds| == 1 {
      StepsDigits(st, d, rest);
      end := st.(buffer := d);
    } else {
      var more := Joined(ds[1..]) + rest;
      assert Joined(ds) + rest == d + ([COLON] + more);
      StepsDigits(st, d, [COLON] + more);
      ColonStep(st.(buffer := d));
      var next := Step(st.(buffer := d), COLON).value;
      StepsFirst(st.(buffer := d), [COLON] + more);
      assert ([COLON] + more)[1..] == more;
      end := StepsJoined(next, ds[1..], rest);
      assert ds[..|ds| - 1][1..] == ds[1..][..|ds| - 2];
    }
  }

  lemma JoinedFirst(ds: seq<seq<byte>>)
    requires ds != []
    ensures Joined(ds) == if |ds| == 1 then ds[0] else ds[0] + ([COLON] + Joined(ds[1..]))
  {
  }

  lemma ColonStep(st: Scan)
    requires Sound(st) && st.target != Subseconds
    ensures Step(st, COLON) == Some(Scan(Following(st.target), [], Convert(st), st.format))
    ensures Levels(Following(st.target)) == Levels(st.target) - 1
    ensures Convert(st) == Convert(st.(format := Frame))
  {
    hide Number;
  }

  /** How many sections there can be from this one on. */
  function Levels(target: Target): (n: nat)
    ensures 1 <= n <= 4
  {
    match target case Hours => 4 case Minutes => 3 case Seconds => 2 case Subseconds => 1
  }

  function Following(target: Target): Target {
    match target case Hours => Minutes case Minutes => Seconds case _ => Subseconds
  }

  /** Parts with these sections filled in, from the target on. */
  function Put(p: Parts, target: Target, ds: seq<seq<byte>>): Parts
    requires forall i :: 0 <= i < |ds| ==> AllDigits(ds[i]) && |ds[i]| <= 16
    decreases |ds|
  {
    if ds == [] then p else Put(Convert(Scan(target, ds[0], p, Frame)), Following(target), ds[1..])
  }

  /** The last section counts subseconds, the one before it seconds, and so on;
      what is missing or empty counts 0. More than four are refused. */
  lemma SectionsParsed(ds: seq<seq<byte>>)
    requires ds != [] && Sections(ds)
    ensures |ds| > 4 ==> Parse(Joined(ds)).None?
    ensures |ds| <= 4 ==>
      && var n, st := |ds|, Parse(Joined(ds));
      && st.Some? && st.value.format == Frame
      && Convert(st.value) == Parts(Section(ds, n - 4), Section(ds, n - 3), Section(ds, n - 2), Section(ds, n - 1))
  {
    hide Steps, Number, Joined, Count, Convert, Put;
    CountJoined(ds, COLON);
    CountJoined(ds, SEMICOLON);
    CountJoined(ds, DOT);
    assert Separators(Joined(ds)) == |ds| - 1;
    if |ds| <= 4 {
      assert Joined(ds) + [] == Joined(ds);
      var end := StepsJoined(Start(|ds| - 1), ds, []);
      StepsNone(end);
      Filled(ds, end);
    }
  }

  lemma Filled(ds: seq<seq<byte>>, end: Scan)
    requires 1 <= |ds| <= 4 && Sections(ds) && end.buffer == ds[|ds| - 1] && end.target == Subseconds
    requires end.parts == Put(Parts(0, 0, 0, 0), Start(|ds| - 1).target, ds[..|ds| - 1])
    ensures var n := |ds|;
            Convert(end) == Parts(Section(ds, n - 4), Section(ds, n - 3), Section(ds, n - 2), Section(ds, n - 1))
  {
    hide Number;
    PutAll(Parts(0, 0, 0, 0), Start(|ds| - 1).target, ds[..|ds| - 1]);
  }

  lemma {:induction false} PutAll(p: Parts, target: Target, ds: seq<seq<byte>>)
    requires Sections(ds) && |ds| <= 3
    ensures |ds| == 0 ==> Put(p, target, ds) == p
    ensures |ds| == 1 ==> Put(p, target, ds) == Convert(Scan(target, ds[0], p, Frame))
    ensures |ds| == 2 ==>
      Put(p, target, ds) == Convert(Scan(Following(target), ds[1], Convert(Scan(target, ds[0], p, Frame)), Frame))
    ensures |ds| == 3 ==>
      Put(p, target, ds) == Convert(Scan(Following(Following(target)), ds[2],
        Convert(Scan(Following(target), ds[1], Convert(Scan(target, ds[0], p, Frame)), Frame)), Frame))
    decreases |ds|
  {
    hide Convert, Following;
    if ds != [] {
      PutAll(Convert(Scan(target, ds[0], p, Frame)), Following(target), ds[1..]);
    }
  }

  /** With a period in front of the last section the others count hours, minutes
      and seconds up to there, and the last is a decimal fraction. */
  lemma DecimalsParsed(ds: seq<seq<byte>>, d: seq<byte>)
    requires 1 <= |ds| <= 3 && Sections(ds) && AllDigits(d) && |d| <= 16
    ensures var n, st := |ds|, Parse(Joined(ds) + ([DOT] + d));
            && st.Some? && st.value.format == Decimals && st.value.target == Subseconds && st.value.buffer == d
            && st.value.parts == Parts(Section(ds, n - 3), Section(ds, n - 2), Section(ds, n - 1), 0)
  {
    hide Steps, Number, Joined, Count, Convert, Put, Step, Section;
    CountDecimals(ds, d, COLON);
    CountDecimals(ds, d, SEMICOLON);
    CountDecimals(ds, d, DOT);
    assert Separators(Joined(ds) + ([DOT] + d)) == |ds|;
    var end := StepsJoined(Start(|ds|), ds, [DOT] + d);
    FilledUp(ds, end);
    StepsDecimals(end, d);
  }

  lemma StepsDecimals(st: Scan, d: seq<byte>)
    requires Sound(st) && st.target == Seconds && AllDigits(d) && |d| <= 16
    ensures Steps(st, [DOT] + d) == Some(Scan(Subseconds, d, Convert(st), Decimals))
  {
    hide Steps, Convert;
    StepsFirst(st, [DOT] + d);
    assert ([DOT] + d)[1..] == d;
    var last := Step(st, DOT).value;
    assert d + [] == d && [] + d == d;
    StepsDigits(last, d, []);
    StepsNone(last.(buffer := d));
  }

  lemma CountDecimals(ds: seq<seq<byte>>, d: seq<byte>, c: byte)
    requires ds != [] && Sections(ds) && AllDigits(d) && !Digit(c)
    ensures Count(Joined(ds) + ([DOT] + d), c) == (if c == COLON then |ds| - 1 else 0) + (if c == DOT then 1 else 0)
  {
    hide Count, Joined;
    CountJoined(ds, c);
    CountDigits(d, c);
    CountOne(DOT, c);
    CountAppend([DOT], d, c);
    CountAppend(Joined(ds), [DOT] + d, c);
  }

  lemma FilledUp(ds: seq<seq<byte>>, end: Scan)
    requires 1 <= |ds| <= 3 && Sections(ds) && end.buffer == ds[|ds| - 1] && end.target == Seconds
    requires end.parts == Put(Parts(0, 0, 0, 0), Start(|ds|).target, ds[..|ds| - 1])
    ensures var n := |ds|;
            Convert(end) == Parts(Section(ds, n - 3), Section(ds, n - 2), Section(ds, n - 1), 0)
  {
    hide Number;
    PutAll(Parts(0, 0, 0, 0), Start(|ds|).target, ds[..|ds| - 1]);
  }

  /** Sections of at most sixteen digits, at most four of them, or at most three
      and then a period and at most sixteen digits. */
  datatype Shape = Shape(ds: seq<seq<byte>>, fraction: Option<seq<byte>>)

  ghost predicate Spells(x: Shape, text: seq<byte>) {
    && x.ds != [] && Sections(x.ds)
    && match x.fraction
       case None => |x.ds| <= 4 && text == Joined(x.ds)
       case Some(d) => |x.ds| <= 3 && AllDigits(d) && |d| <= 16 && text == Joined(x.ds) + ([DOT] + d)
  }

  /** parse accepts just these texts. */
  lemma AcceptedIff(text: seq<byte>)
    ensures Parse(text).Some? <==> exists x :: Spells(x, text)
  {
    hide Steps, Sections, Joined, Count;
    if Parse(text).Some? {
      var x := Spelt(Start(Separators(text)), text);
      assert [] + text == text && Joined(x.ds) + [] == Joined(x.ds);
      assert Spells(x, text);
    }
    if x :| Spells(x, text) {
      match x.fraction
      case None => SectionsParsed(x.ds);
      case Some(d) => DecimalsParsed(x.ds, d);
    }
  }

  /** What the loop reads to the end, spelt out. */
  ghost predicate Reads(st: Scan, text: seq<byte>, x: Shape) {
    && x.ds != [] && Sections(x.ds) && |x.ds| <= Levels(st.target)
    && st.buffer + text == Joined(x.ds) + Ending(x)
    && (x.fraction.Some? ==> |x.ds| < Levels(st.target) && AllDigits(x.fraction.value) && |x.fraction.value| <= 16)
  }

  function Ending(x: Shape): seq<byte> {
    if x.fraction.Some? then [DOT] + x.fraction.value else []
  }

  lemma {:induction false} Spelt(st: Scan, text: seq<byte>) returns (x: Shape)
    requires Sound(st) && Steps(st, text).Some?
    ensures Reads(st, text, x)
    decreases |text|
  {
    hide Joined, Step, Steps, Reads;
    if text == [] {
      x := Shape([st.buffer], None);
      ReadsNothing(st);
    } else {
      StepsFirst(st, text);
      var next := Step(st, text[0]).value;
      var more := Spelt(next, text[1..]);
      StepKinds(st, text[0]);
      if text[0] == COLON {
        x := Shape([st.buffer] + more.ds, more.fraction);
        ReadsColon(st, text, next, more);
      } else if text[0] == DOT {
        x := Shape([st.buffer], Some(next.buffer + text[1..]));
        ReadsDot(st, text, next, more);
      } else {
        x := more;
        ReadsDigit(st, text, next, more);
      }
    }
  }

  lemma StepKinds(st: Scan, c: byte)
    requires Sound(st)
    ensures Step(st, c).Some? ==>
      var next := Step(st, c).value;
      if c == COLON then next.buffer == [] && Levels(next.target) == Levels(st.target) - 1
      else if c == DOT then next.buffer == [] && st.target == Seconds && next.target == Subseconds
      else Digit(c) && next.buffer == st.buffer + [c] && next.target == st.target
  {
  }

  lemma ReadsNothing(st: Scan)
    requires Sound(st)
    ensures Reads(st, [], Shape([st.buffer], None))
  {
    assert st.buffer + [] == st.buffer;
  }

  lemma ReadsColon(st: Scan, text: seq<byte>, next: Scan, more: Shape)
    requires Sound(st) && text != [] && text[0] == COLON && Reads(next, text[1..], more)
    requires next.buffer == [] && Levels(next.target) == Levels(st.target) - 1
    ensures Reads(st, text, Shape([st.buffer] + more.ds, more.fraction))
  {
    hide Joined, Ending, Levels;
    JoinedCons(st.buffer, more.ds);
    assert [] + text[1..] == text[1..];
    assert text == [COLON] + text[1..];
    assert st.buffer + text == Joined([st.buffer] + more.ds) + Ending(more);
    EndingIs(more, [st.buffer] + more.ds);
  }

  lemma EndingIs(x: Shape, ds: seq<seq<byte>>)
    ensures Ending(x) == Ending(Shape(ds, x.fraction))
  {
  }

  lemma ReadsDot(st: Scan, text: seq<byte>, next: Scan, more: Shape)
    requires Sound(st) && text != [] && text[0] == DOT && Reads(next, text[1..], more)
    requires next.buffer == [] && st.target == Seconds && next.target == Subseconds
    ensures Reads(st, text, Shape([st.buffer], Some(next.buffer + text[1..])))
  {
    assert |more.ds| == 1 && more.fraction.None?;
    assert [] + text[1..] == text[1..] && Joined(more.ds) + [] == more.ds[0];
    assert text == [DOT] + text[1..];
  }

  lemma ReadsDigit(st: Scan, text: seq<byte>, next: Scan, more: Shape)
    requires Sound(st) && text != [] && Reads(next, text[1..], more)
    requires next.buffer == st.buffer + [text[0]] && next.target == st.target
    ensures Reads(st, text, more)
  {
    hide Joined, Ending;
    assert next.buffer + text[1..] == st.buffer + text;
  }

  lemma JoinedCons(d: seq<byte>, ds: seq<seq<byte>>)
    requires ds != []
    ensures Joined([d] + ds) == d + ([COLON] + Joined(ds))
  {
    assert ([d] + ds)[1..] == ds;
  }

  // ---- Sizes ------------------------------------------------------------------------------

  function Quotient(d: nat, u: nat): (q: nat)
    requires u > 0
    ensures q <= d && (u <= d ==> q > 0)
  {
    QuotientSmall(d, u);
    d / u
  }

  lemma QuotientSmall(d: nat, u: nat)
    requires u > 0
    ensures 0 <= d / u <= d && (u <= d ==> d / u > 0)
  {
    var q := d / u;
    assert d == u * q + d % u;
    Grows(u, q);
  }

  lemma Grows(u: nat, q: int)
    requires u > 0
    ensures q >= 0 ==> u * q >= q
    ensures q < 0 ==> u * q + u <= 0
  {
  }

  function Rest(d: nat, u: nat): (r: nat)
    requires u > 0
    ensures r < u && r <= d
  {
    d % u
  }

  lemma DivideBy(d: nat, u: nat)
    requires u > 0
    ensures d == u * Quotient(d, u) + Rest(d, u)
  {
  }

  function Times(scale: nat, k: nat): (u: nat)
    requires scale > 0 && k > 0
    ensures u > 0
  {
    Grows(scale, k);
    scale * k
  }

  /** Splitting up a duration, as setDuration does. */
  function Split(scale: nat, d: nat): Parts
    requires scale > 0
  {
    var i := Rest(d, Times(scale, 3600));
    var j := Rest(i, Times(scale, 60));
    Parts(Quotient(d, Times(scale, 3600)), Quotient(i, Times(scale, 60)), Quotient(j, scale), Rest(j, scale))
  }

  lemma SplitTicks(scale: nat, d: nat)
    requires scale > 0
    ensures Normal(scale, Split(scale, d)) && Ticks(scale, Split(scale, d)) == d
  {
    hide Quotient, Rest;
    var p := Split(scale, d);
    var i := Rest(d, Times(scale, 3600));
    var j := Rest(i, Times(scale, 60));
    DivideBy(d, Times(scale, 3600));
    DivideBy(i, Times(scale, 60));
    DivideBy(j, scale);
    Swap(scale, 3600, p.hours);
    Swap(scale, 60, p.minutes);
    Below(p.minutes, 60, Times(scale, 60), i);
    Below(p.seconds, 60, scale, j);
    SixtySixties(scale);
  }

  lemma SixtySixties(scale: nat)
    ensures scale * 60 * 60 == scale * 3600
  {
  }

  lemma Swap(a: nat, b: nat, c: nat)
    ensures (a * b) * c == a * c * b
  {
    Associate(a, b, c);
    Associate(a, c, b);
    assert b * c == c * b;
  }

  /** A quotient is below k if k times the divisor is out of reach. */
  lemma Below(q: nat, k: nat, u: nat, x: nat)
    requires u > 0 && u * q <= x && x < u * k
    ensures q < k
  {
    if q >= k { Distribute(u, k, q - k); NotNegative(u, q - k); }
  }

  lemma NotNegative(a: nat, b: nat)
    ensures a * b >= 0
  {
  }

  /** Recomputing parts that are in order changes nothing. */
  lemma RecomputedNormal(scale: nat, p: Parts)
    requires scale > 0 && Normal(scale, p) && p.hours < TWO64
    ensures Recomputed(scale, p) == p
  {
    hide U64;
    Small(p.subseconds, scale);
    Small(p.seconds, 60);
    Small(p.minutes, 60);
    U64Small(p.seconds);
    U64Small(p.minutes);
    U64Small(p.hours);
  }

  lemma U64Small(x: nat)
    requires x < TWO64
    ensures U64(x) == x
  {
    Small(x, TWO64);
  }

  lemma Small(x: nat, m: nat)
    requires x < m
    ensures x / m == 0 && x % m == x
  {
  }

  lemma PaddedLength(n: nat)
    requires n < 1_0000_0000_0000_0000
    ensures |Padded(n)| <= 16
  {
    assert Power10(16) == 1_0000_0000_0000_0000 by { TenToThe16(); }
    DecimalLength(n, 16);
  }

  lemma TenToThe16()
    ensures Power10(16) == 1_0000_0000_0000_0000
  {
    assert Power10(4) == 10 * Power10(3) && Power10(3) == 10 * Power10(2) && Power10(2) == 10 * Power10(1);
    assert Power10(8) == 10 * Power10(7) && Power10(7) == 10 * Power10(6) && Power10(6) == 10 * Power10(5)
           && Power10(5) == 10 * Power10(4);
    assert Power10(12) == 10 * Power10(11) && Power10(11) == 10 * Power10(10) && Power10(10) == 10 * Power10(9)
           && Power10(9) == 10 * Power10(8);
    assert Power10(16) == 10 * Power10(15) && Power10(15) == 10 * Power10(14) && Power10(14) == 10 * Power10(13)
           && Power10(13) == 10 * Power10(12);
  }

  // ---- The class ----------------------------------------------------------------------------

  /** Parts of 64 bits. */
  predicate InRange(p: Parts) {
    p.hours < TWO64 && p.minutes < TWO64 && p.seconds < TWO64 && p.subseconds < TWO64
  }

  lemma RecomputedInRange(scale: nat, p: Parts)
    requires 0 < scale && InRange(p)
    ensures InRange(Recomputed(scale, p))
  {
    hide U64;
    assert p.subseconds % scale == Rest(p.subseconds, scale);
  }

  /** The program only carries where there is something to carry. */
  lemma CarryOnly(low: nat, unit: nat, high: nat)
    requires unit > 0 && high < TWO64
    ensures low > unit - 1 ==> low - low / unit * unit == low % unit
    ensures low <= unit - 1 ==> low % unit == low && U64(high + low / unit) == high
  {
    assert low == unit * (low / unit) + low % unit;
    if low < unit { Small(low, unit); }
  }

  lemma Wrapped(x: nat, y: nat)
    requires x < TWO64 && y <= TWO64
    ensures U64(x + y) == if x + y < TWO64 then x + y else x + y - TWO64
  {
    if x + y < TWO64 { Small(x + y, TWO64); } else { Small(x + y - TWO64, TWO64); }
  }

  lemma SecondsCarried(scale: nat, p: Parts)
    requires scale > 0 && InRange(p)
    ensures CarrySeconds(scale, p) ==
            if p.subseconds <= scale - 1 then p
            else
              p.(seconds := U64(p.seconds + Quotient(p.subseconds, scale)),
                 subseconds := p.subseconds - Times(scale, Quotient(p.subseconds, scale)))
  {
    hide U64;
    CarryOnly(p.subseconds, scale, p.seconds);
  }

  lemma MinutesCarried(p: Parts)
    requires InRange(p)
    ensures CarryMinutes(p) ==
            if p.seconds <= 59 then p
            else p.(minutes := U64(p.minutes + p.seconds / 60), seconds := p.seconds - p.seconds / 60 * 60)
    ensures CarryHours(p) ==
            if p.minutes <= 59 then p
            else p.(hours := U64(p.hours + p.minutes / 60), minutes := p.minutes - p.minutes / 60 * 60)
  {
    hide U64;
    CarryOnly(p.seconds, 60, p.minutes);
    CarryOnly(p.minutes, 60, p.hours);
  }

  lemma CarriedInRange(scale: nat, p: Parts)
    requires scale > 0 && InRange(p)
    ensures InRange(CarrySeconds(scale, p)) && InRange(CarryMinutes(p))
  {
    hide U64;
    CarryOnly(p.subseconds, scale, p.seconds);
    CarryOnly(p.seconds, 60, p.minutes);
    Shorter(p.subseconds, scale);
  }

  lemma Shorter(x: nat, m: nat)
    requires m > 0
    ensures x % m <= x
  {
    if x < m { Small(x, m); }
  }

  class Timecode {
    var scale: nat
    var duration: nat
    var format: Format
    var svalue: seq<byte>
    var parts: Parts

    ghost predicate Valid()
      reads `scale, `parts
    {
      scale > 0 && scale * 3600 < TWO64 && InRange(parts)
    }

    /** What every operation but a failed parse leaves behind. */
    ghost predicate Settled()
      reads this
    {
      && Valid() && Normal(scale, parts) && duration == U64(Ticks(scale, parts))
      && (format == Frame ==> svalue == Text(parts))
    }

    constructor (d: nat, scale: nat)
      requires d < TWO64 && scale * 3600 < TWO64
      ensures Settled() && duration == d && format == Frame && this.scale == if scale < 1 then 1 else scale
    {
      this.scale, duration, format, svalue, parts := if scale < 1 then 1 else scale, 0, Frame, [], Parts(0, 0, 0, 0);
      new;
      SetDuration(d, 0);
    }

    /** recompute. The decimals of a text with decimals come from floating-
        point arithmetic; they are given. */
    method Recompute(decimals: seq<byte> := [])
      requires Valid()
      modifies this`parts, this`duration, this`svalue
      ensures Settled() && parts == Recomputed(scale, old(parts))
      ensures duration == U64(Ticks(scale, old(parts)))
      ensures format == Decimals ==> svalue == Padded(parts.hours) + [COLON] + Padded(parts.minutes) + [COLON]
                                               + Padded(parts.seconds) + [DOT] + decimals
    {
      hide Ticks, Text, U64, CarrySeconds, CarryMinutes, CarryHours, Quotient, Times, Padded;
      RecomputedTicks(scale, parts);
      RecomputedInRange(scale, parts);
      var p := parts;
      SecondsCarried(scale, p);
      CarriedInRange(scale, p);
      if p.subseconds > scale - 1 {
        var n := Quotient(p.subseconds, scale);
        p := p.(seconds := U64(p.seconds + n), subseconds := p.subseconds - Times(scale, n));
      }
      MinutesCarried(p);
      CarriedInRange(scale, p);
      if p.seconds > 59 {
        var n := p.seconds / 60;
        p := p.(minutes := U64(p.minutes + n), seconds := p.seconds - n * 60);
      }
      MinutesCarried(p);
      if p.minutes > 59 {
        var n := p.minutes / 60;
        p := p.(hours := U64(p.hours + n), minutes := p.minutes - n * 60);
      }
      parts := p;
      duration := U64(Ticks(scale, p));
      svalue := if format == Frame then Text(p)
                else Padded(p.hours) + [COLON] + Padded(p.minutes) + [COLON] + Padded(p.seconds) + [DOT] + decimals;
    }

    /** setDuration; a scale of 0 keeps the scale. */
    method SetDuration(d: nat, newScale: nat, decimals: seq<byte> := [])
      requires d < TWO64 && Valid() && newScale * 3600 < TWO64
      modifies this
      ensures Settled() && duration == d && Ticks(scale, parts) == d && format == old(format)
      ensures scale == (if newScale != 0 then newScale else old(scale)) && parts == Split(scale, d)
    {
      hide Ticks, Text, Recomputed, Quotient, Rest, Times;
      if newScale != 0 { scale := newScale; }
      SplitTicks(scale, d);
      var i := d;
      var hours := Quotient(i, Times(scale, 3600));
      DivideBy(i, Times(scale, 3600));
      i := i - Times(scale, 3600) * hours;
      var minutes := Quotient(i, Times(scale, 60));
      DivideBy(i, Times(scale, 60));
      i := i - Times(scale, 60) * minutes;
      var seconds := Quotient(i, scale);
      DivideBy(i, scale);
      i := i - scale * seconds;
      parts := Parts(hours, minutes, seconds, i);
      SplitSmall(scale, d);
      RecomputedNormal(scale, parts);
      Recompute(decimals);
      Small(d, TWO64);
    }

    /** The number in the buffer, if there is one, becomes the target part. */
    method ConvertInto(target: Target, tbuffer: seq<byte>)
      requires AllDigits(tbuffer) && |tbuffer| <= 16
      modifies this`parts
      ensures parts == Convert(Scan(target, tbuffer, old(parts), format))
    {
      if tbuffer != [] { parts := Changed(parts, target, Number(tbuffer)); }
    }

    /** parse. Reports failure, which leaves the parts as far as they were
        read. What decimals amount to in subseconds comes from floating-point
        arithmetic; it is given, like their text. */
    method ParseText(time: seq<byte>, fraction: nat, decimals: seq<byte> := []) returns (failed: bool)
      requires Valid() && fraction < TWO64
      modifies this
      ensures failed <==> Parse(time).None?
      ensures scale == old(scale) && (!failed ==> Settled())
      ensures !failed ==>
        var st := Parse(time).value;
        && format == st.format
        && duration == U64(Ticks(scale, if st.format == Frame then Convert(st)
          else Convert(st).(subseconds := fraction)))
    {
      hide Ticks, Text, Convert, Steps, Step, Count, U64, Number;
      format, parts := Frame, Parts(0, 0, 0, 0);
      if time == [] {
        ParseNothing();
        Recompute(decimals);
        return false;
      }
      var tooMany, nsect := CountSections(time);
      if tooMany { return true; }
      if nsect > 3 {
        Recompute(decimals);
        return true;
      }
      var target := if nsect == 0 then Subseconds else if nsect == 1 then Seconds else if nsect == 2 then Minutes
        else Hours;
      var tbuffer := [];
      ghost var start := Start(nsect);
      assert time[0..] == time;
      var i := 0;
      while i < |time|
        invariant 0 <= i <= |time| && scale == old(scale) && scale > 0 && scale * 3600 < TWO64
        invariant Sound(Scan(target, tbuffer, parts, format))
        invariant Steps(Scan(target, tbuffer, parts, format), time[i..]) == Steps(start, time)
        invariant InRange(parts) && (format == Decimals ==> target == Subseconds)
      {
        ghost var st := Scan(target, tbuffer, parts, format);
        StepsFirst(st, time[i..]);
        assert time[i..][1..] == time[i + 1..];
        StepIs(st, time[i]);
        ConvertInRange(st);
        if time[i] == COLON {
          if target == Subseconds { return true; }
          ConvertInto(target, tbuffer);
          target := if target == Hours then Minutes else if target == Minutes then Seconds else Subseconds;
          tbuffer := [];
        } else if time[i] == DOT {
          if target != Seconds { return true; }
          ConvertInto(target, tbuffer);
          format, target, tbuffer := Decimals, Subseconds, [];
        } else if Digit(time[i]) {
          tbuffer := tbuffer + [time[i]];
          if |tbuffer| > 16 { return true; }
        } else {
          return true;
        }
        i := i + 1;
      }
      ghost var st := Scan(target, tbuffer, parts, format);
      StepsNone(st);
      ConvertInRange(st);
      assert time[i..] == [];
      ConvertInto(target, tbuffer);
      if format == Decimals { parts := Changed(parts, target, fraction); }
      Recompute(decimals);
      return false;
    }

    /** setHours, and its like for the other parts. */
    method SetPart(target: Target, v: nat, decimals: seq<byte> := [])
      requires Valid() && v < TWO64
      modifies this`parts, this`duration, this`svalue
      ensures Settled()
      ensures duration == U64(Ticks(scale, Changed(old(parts), target, v)))
    {
      parts := Changed(parts, target, v);
      Recompute(decimals);
    }

    /** operator+= for a timecode of the same scale: at most 2^63 - 1 when the
        sum does not fit. */
    method Add(d: nat)
      requires Settled() && d < TWO64
      modifies this
      ensures Settled() && scale == old(scale)
      ensures duration == if old(duration) + d < TWO64 then old(duration) + d else 0x7FFF_FFFF_FFFF_FFFF
    {
      hide Ticks, Split, Text, Normal;
      Wrapped(duration, d);
      var dur := U64(duration + d);
      if dur < duration { dur := 0x7FFF_FFFF_FFFF_FFFF; }
      SetDuration(dur, 0);
    }

    /** operator-= for a timecode of the same scale: not below 0. */
    method Subtract(d: nat)
      requires Settled() && d < TWO64
      modifies this
      ensures Settled() && scale == old(scale)
      ensures duration == if old(duration) >= d then old(duration) - d else 0
    {
      hide Ticks, Split, Text, Normal;
      Wrapped(duration, TWO64 - d);
      var dur := U64(duration + TWO64 - d);
      if dur > duration { dur := 0; }
      SetDuration(dur, 0);
    }
  }

  /** The first loop of parse: how many sections there are, unless there is
      more than one semicolon or period. */
  method CountSections(time: seq<byte>) returns (tooMany: bool, nsect: nat)
    ensures tooMany <==> Count(time, SEMICOLON) > 1 || Count(time, DOT) > 1
    ensures !tooMany ==> nsect == Separators(time)
  {
    nsect := 0;
    var nsemi, ndot := 0, 0;
    var i := 0;
    assert time[0..] == time;
    while i < |time|
      invariant 0 <= i <= |time| && nsemi <= 1 && ndot <= 1 && nsemi >= 0 && ndot >= 0
      invariant nsemi + Count(time[i..], SEMICOLON) == Count(time, SEMICOLON)
                && ndot + Count(time[i..], DOT) == Count(time, DOT)
      invariant nsect + Separators(time[i..]) == Separators(time)
    {
      assert time[i..][1..] == time[i + 1..];
      if time[i] == COLON {
        nsect := nsect + 1;
      } else if time[i] == SEMICOLON {
        if nsemi > 0 { return true, nsect; }
        nsemi, nsect := nsemi + 1, nsect + 1;
      } else if time[i] == DOT {
        if ndot > 0 { return true, nsect; }
        ndot, nsect := ndot + 1, nsect + 1;
      }
      i := i + 1;
    }
    return false, nsect;
  }

  lemma ParseNothing()
    ensures Parse([]) == Some(Start(0)) && Convert(Start(0)) == Parts(0, 0, 0, 0)
  {
  }

  lemma StepsFirst(st: Scan, text: seq<byte>)
    requires Sound(st) && text != []
    ensures Steps(st, text) == match Step(st, text[0]) case None => None case Some(next) => Steps(next, text[1..])
  {
  }

  lemma StepIs(st: Scan, c: byte)
    requires Sound(st)
    ensures Step(st, c) ==
              if c == COLON then
                if st.target == Subseconds then None
                else Some(Scan(if st.target == Hours then Minutes else if st.target == Minutes then Seconds
                  else Subseconds,
                               [], Convert(st), st.format))
              else if c == DOT then
                if st.target != Seconds then None else Some(Scan(Subseconds, [], Convert(st), Decimals))
              else if Digit(c) && |st.buffer| + 1 <= 16 then Some(st.(buffer := st.buffer + [c]))
              else None
  {
  }

  lemma {:induction false} NumberBelow(s: seq<byte>, k: nat)
    requires AllDigits(s) && |s| <= k
    ensures Number(s) < Power10(k)
    decreases k
  {
    if s != [] { NumberBelow(s[..|s| - 1], k - 1); }
  }

  lemma ConvertInRange(st: Scan)
    requires Sound(st) && InRange(st.parts)
    ensures InRange(Convert(st))
  {
    hide Number, Power10;
    NumberBelow(st.buffer, 16);
    TenToThe16();
  }

  /** Semicolons are counted as separators, but no text that has one is
      accepted. */
  lemma {:induction false} SemicolonRefused(st: Scan, text: seq<byte>)
    requires Sound(st) && SEMICOLON in text
    ensures Steps(st, text).None?
    decreases |text|
  {
    hide Convert;
    if text[0] != SEMICOLON && Step(st, text[0]).Some? {
      assert SEMICOLON in text[1..];
      SemicolonRefused(Step(st, text[0]).value, text[1..]);
    }
  }

  /** Reading back the text of a duration gives the duration. */
  lemma TextRoundTrip(scale: nat, d: nat)
    requires 0 < scale && scale * 3600 < TWO64 && d < TWO64
    ensures var p := Split(scale, d);
            && Parse(Text(p)).Some? && Parse(Text(p)).value.format == Frame
            && U64(Ticks(scale, Convert(Parse(Text(p)).value))) == d
  {
    hide Parse, Text, Convert, Padded, Ticks;
    var p := Split(scale, d);
    SplitTicks(scale, d);
    SplitFits(scale, d);
    PaddedLength(p.hours);
    PaddedLength(p.minutes);
    PaddedLength(p.seconds);
    PaddedLength(p.subseconds);
    TextParsed(p);
    Small(d, TWO64);
  }

  lemma SplitFits(scale: nat, d: nat)
    requires 0 < scale && scale * 3600 < TWO64 && d < TWO64
    ensures Split(scale, d).hours < 1_0000_0000_0000_0000
  {
    hide Quotient, Rest;
    var h := Split(scale, d).hours;
    DivideBy(d, Times(scale, 3600));
    Associate(3600, scale, h);
    Grows(scale, h);
    assert Times(scale, 3600) == 3600 * scale;
  }

  /** The parts with one of them set. */
  function Changed(p: Parts, target: Target, v: nat): Parts {
    match target
    case Hours => p.(hours := v)
    case Minutes => p.(minutes := v)
    case Seconds => p.(seconds := v)
    case Subseconds => p.(subseconds := v)
  }

  lemma SplitSmall(scale: nat, d: nat)
    requires scale > 0 && d < TWO64
    ensures InRange(Split(scale, d))
  {
    hide Quotient, Rest, Times;
  }
}
