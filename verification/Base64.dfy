// Base64 as the server decodes it, in place and piece by piece, for requests
// tunnelled over HTTP (spook/tcp.c, base64_table.h), and as it encodes it for
// session descriptions (spook/rtp-h263.c). Section 4 of RFC 4648.
module Base64 {
  import opened Bytes

  const PAD: bv8 := 61   // '='

  /** The decoding table; None stands for its -1. The padding character has
      a value like any other, 0. */
  function Value(c: bv8): Option<bv8> {
    if 65 <= c <= 90 then Some(c - 65)
    else if 97 <= c <= 122 then Some(c - 71)
    else if 48 <= c <= 57 then Some(c + 4)
    else if c == 43 then Some(62)
    else if c == 47 then Some(63)
    else if c == PAD then Some(0)
    else None
  }

  /** The encoding table, base64Char. */
  function Char(v: bv8): bv8 {
    if v < 26 then v + 65
    else if v < 52 then v + 71
    else if v < 62 then v - 4
    else if v == 62 then 43
    else 47
  }

  lemma ValueChar(v: bv8)
    requires v < 64
    ensures Value(Char(v)) == Some(v) && Char(v) != PAD
  {
  }

  /** Table 1 of RFC 4648. */
  lemma Alphabet()
    // "ABCDEFGHIJKLMNOP"
    ensures [Char(0), Char(1), Char(2), Char(3), Char(4), Char(5), Char(6), Char(7),
             Char(8), Char(9), Char(10), Char(11), Char(12), Char(13), Char(14), Char(15)] ==
            [65, 66, 67, 68, 69, 70, 71, 72, 73, 74, 75, 76, 77, 78, 79, 80]
    // "QRSTUVWXYZabcdef"
    ensures [Char(16), Char(17), Char(18), Char(19), Char(20), Char(21), Char(22), Char(23),
             Char(24), Char(25), Char(26), Char(27), Char(28), Char(29), Char(30), Char(31)] ==
            [81, 82, 83, 84, 85, 86, 87, 88, 89, 90, 97, 98, 99, 100, 101, 102]
    // "ghijklmnopqrstuv"
    ensures [Char(32), Char(33), Char(34), Char(35), Char(36), Char(37), Char(38), Char(39),
             Char(40), Char(41), Char(42), Char(43), Char(44), Char(45), Char(46), Char(47)] ==
            [103, 104, 105, 106, 107, 108, 109, 110, 111, 112, 113, 114, 115, 116, 117, 118]
    // "wxyz0123456789+/"
    ensures [Char(48), Char(49), Char(50), Char(51), Char(52), Char(53), Char(54), Char(55),
             Char(56), Char(57), Char(58), Char(59), Char(60), Char(61), Char(62), Char(63)] ==
            [119, 120, 121, 122, 48, 49, 50, 51, 52, 53, 54, 55, 56, 57, 43, 47]
  {
  }

  /** The decoding table knows these characters, and the padding, and no others. */
  lemma CharValue(c: bv8)
    ensures Value(c).Some? && c != PAD <==> exists v: bv8 :: v < 64 && Char(v) == c
    ensures Value(c).Some? && c != PAD ==> Value(c).value < 64 && Char(Value(c).value) == c
  {
    if Value(c).Some? && c != PAD { assert Char(Value(c).value) == c; }
  }

  /** The characters that are not skipped. */
  function Filter(s: seq<bv8>): (r: seq<bv8>)
    ensures |r| <= |s| && Clean(r)
  {
    if s == [] then []
    else (if Value(s[0]).Some? then [s[0]] else []) + Filter(s[1..])
  }

  lemma {:induction false} FilterAppend(a: seq<bv8>, b: seq<bv8>)
    ensures Filter(a + b) == Filter(a) + Filter(b)
  {
    hide Value, Clean, Filter;
    if a == [] {
      assert a + b == b;
      FilterNothing();
    } else {
      assert (a + b)[1..] == a[1..] + b;
      FilterAppend(a[1..], b);
      FilterFirst(a);
      FilterFirst(a + b);
    }
  }

  lemma FilterNothing()
    ensures Filter([]) == []
  {
  }

  lemma FilterFirst(s: seq<bv8>)
    requires s != []
    ensures Filter(s) == (if Value(s[0]).Some? then [s[0]] else []) + Filter(s[1..])
  {
  }

  lemma {:induction false} FilterSame(s: seq<bv8>)
    requires forall i :: 0 <= i < |s| ==> Value(s[i]).Some?
    ensures Filter(s) == s
  {
    if s != [] { FilterSame(s[1..]); }
  }

  function First(v0: bv8, v1: bv8): bv8 { ((v0 << 2) & 0xFC) | (v1 >> 4) }
  function Second(v1: bv8, v2: bv8): bv8 { ((v1 << 4) & 0xF0) | (v2 >> 2) }
  function Third(v2: bv8, v3: bv8): bv8 { ((v2 << 6) & 0xC0) | v3 }

  function Code(c: bv8): bv8
    requires Value(c).Some?
  {
    Value(c).value
  }

  /** The bytes that four characters stand for. */
  function Group(g: seq<bv8>): (r: seq<bv8>)
    requires |g| == 4 && forall i :: 0 <= i < 4 ==> Value(g[i]).Some?
    ensures 1 <= |r| <= 3
  {
    [First(Code(g[0]), Code(g[1]))]
    + (if g[3] == PAD && g[2] == PAD then [] else [Second(Code(g[1]), Code(g[2]))])
    + (if g[3] == PAD then [] else [Third(Code(g[2]), Code(g[3]))])
  }

  ghost predicate Clean(s: seq<bv8>) {
    forall i :: 0 <= i < |s| ==> Value(s[i]).Some?
  }

  /** The bytes that the complete groups of s stand for. */
  ghost function Whole(s: seq<bv8>): (r: seq<bv8>)
    requires Clean(s)
    ensures |r| <= |s| / 4 * 3
  {
    if |s| < 4 then [] else Group(s[..4]) + Whole(s[4..])
  }

  /** The characters of s after its complete groups. */
  function Left(s: seq<bv8>): (r: seq<bv8>)
    ensures |r| == |s| % 4
  {
    s[|s| - |s| % 4..]
  }

  lemma {:induction false} WholeAppend(a: seq<bv8>, b: seq<bv8>)
    requires |a| % 4 == 0 && Clean(a) && Clean(b)
    ensures Clean(a + b) && Whole(a + b) == Whole(a) + Whole(b)
  {
    hide Value, Group;
    if a == [] {
      assert a + b == b;
    } else {
      assert (a + b)[4..] == a[4..] + b && (a + b)[..4] == a[..4];
      WholeAppend(a[4..], b);
    }
  }

  /** Decoding can stop after a group and carry on with what was left over. */
  lemma WholeResumes(a: seq<bv8>, b: seq<bv8>)
    requires Clean(a) && Clean(b)
    ensures Clean(a + b) && Clean(Left(a) + b)
    ensures Whole(a + b) == Whole(a) + Whole(Left(a) + b)
    ensures Left(a + b) == Left(Left(a) + b)
  {
    hide Value, Whole, Left, Clean;
    var k := |a| - |a| % 4;
    CleanParts(a, b);
    assert a == a[..k] + Left(a) && a + b == a[..k] + (Left(a) + b) by { LeftIs(a); }
    WholeAppend(a[..k], Left(a) + b);
    WholeAppend(a[..k], Left(a));
    WholeShort(Left(a));
    LeftResumes(a[..k], Left(a) + b);
  }

  lemma CleanParts(a: seq<bv8>, b: seq<bv8>)
    requires Clean(a) && Clean(b)
    ensures Clean(a[..|a| - |a| % 4]) && Clean(Left(a)) && Clean(Left(a) + b)
  {
    hide Value;
  }

  lemma LeftIs(a: seq<bv8>)
    ensures Left(a) == a[|a| - |a| % 4..]
  {
  }

  lemma WholeShort(a: seq<bv8>)
    requires Clean(a) && |a| < 4
    ensures Whole(a) == []
  {
  }

  lemma LeftResumes(a: seq<bv8>, b: seq<bv8>)
    requires |a| % 4 == 0
    ensures Left(a + b) == Left(b)
  {
  }

  // ---- Encoding -------------------------------------------------------------

  function Sextet0(a: bv8): bv8 { (a >> 2) & 0x3F }
  function Sextet1(a: bv8, b: bv8): bv8 { (((a & 0x3) << 4) | (b >> 4)) & 0x3F }
  function Sextet2(b: bv8, c: bv8): bv8 { ((b << 2) | (c >> 6)) & 0x3F }
  function Sextet3(c: bv8): bv8 { c & 0x3F }

  function EncodeThree(t: seq<bv8>): (r: seq<bv8>)
    requires 1 <= |t| <= 3
    ensures |r| == 4
  {
    if |t| == 3 then [Char(Sextet0(t[0])), Char(Sextet1(t[0], t[1])), Char(Sextet2(t[1], t[2])), Char(Sextet3(t[2]))]
    else if |t| == 2 then [Char(Sextet0(t[0])), Char(Sextet1(t[0], t[1])), Char((t[1] << 2) & 0x3F), PAD]
    else [Char(Sextet0(t[0])), Char(((t[0] & 0x3) << 4) & 0x3F), PAD, PAD]
  }

  function Encode(s: seq<bv8>): (r: seq<bv8>)
    ensures |r| == (|s| + 2) / 3 * 4
  {
    if s == [] then []
    else if |s| < 3 then EncodeThree(s)
    else EncodeThree(s[..3]) + Encode(s[3..])
  }

  lemma {:induction false} EncodeAppend(a: seq<bv8>, b: seq<bv8>)
    requires |a| % 3 == 0
    ensures Encode(a + b) == Encode(a) + Encode(b)
  {
    if a == [] {
      assert a + b == b;
    } else {
      assert (a + b)[3..] == a[3..] + b && (a + b)[..3] == a[..3];
      EncodeAppend(a[3..], b);
    }
  }

  /** The test vectors of section 10 of RFC 4648 for "foob", "fooba" and "foobar":
      "Zm9vYg==", "Zm9vYmE=" and "Zm9vYmFy". */
  lemma TestVectors()
    ensures Encode([102, 111, 111, 98]) == [90, 109, 57, 118, 89, 103, PAD, PAD]
    ensures Encode([102, 111, 111, 98, 97]) == [90, 109, 57, 118, 89, 109, 69, PAD]
    ensures Encode([102, 111, 111, 98, 97, 114]) == [90, 109, 57, 118, 89, 109, 70, 121]
  {
    hide EncodeThree, Encode;
    var foo: seq<bv8>, zm9v: seq<bv8> := [102, 111, 111], [90, 109, 57, 118];
    Pieces();
    EncodeTwo(foo, [98]);
    EncodeTwo(foo, [98, 97]);
    EncodeTwo(foo, [98, 97, 114]);
    assert foo + [98] == [102, 111, 111, 98] && zm9v + [89, 103, PAD, PAD] == [90, 109, 57, 118, 89, 103, PAD, PAD];
    assert foo + [98, 97] == [102, 111, 111, 98, 97];
    assert zm9v + [89, 109, 69, PAD] == [90, 109, 57, 118, 89, 109, 69, PAD];
    assert foo + [98, 97, 114] == [102, 111, 111, 98, 97, 114];
    assert zm9v + [89, 109, 70, 121] == [90, 109, 57, 118, 89, 109, 70, 121];
  }

  lemma Pieces()
    ensures EncodeThree([102, 111, 111]) == [90, 109, 57, 118]
    ensures EncodeThree([98]) == [89, 103, PAD, PAD] && EncodeThree([98, 97]) == [89, 109, 69, PAD]
    ensures EncodeThree([98, 97, 114]) == [89, 109, 70, 121]
  {
  }

  lemma EncodeTwo(s: seq<bv8>, t: seq<bv8>)
    requires |s| == 3 && 1 <= |t| <= 3
    ensures Encode(s + t) == EncodeThree(s) + EncodeThree(t)
  {
    hide EncodeThree;
    assert (s + t)[..3] == s && (s + t)[3..] == t;
    assert |t| == 3 ==> t[..3] == t && t[3..] == [];
  }

  lemma Bits(a: bv8, b: bv8, c: bv8)
    ensures First(Sextet0(a), Sextet1(a, b)) == a
    ensures Second(Sextet1(a, b), Sextet2(b, c)) == b
    ensures Third(Sextet2(b, c), Sextet3(c)) == c
    ensures Sextet0(a) < 64 && Sextet1(a, b) < 64 && Sextet2(b, c) < 64 && Sextet3(c) < 64
  {
  }

  lemma PaddedBits(a: bv8, b: bv8)
    ensures (b << 2) & 0x3F == Sextet2(b, 0) && ((a & 0x3) << 4) & 0x3F == Sextet1(a, 0)
  {
  }

  lemma GroupOfThree(t: seq<bv8>)
    requires 1 <= |t| <= 3
    ensures Clean(EncodeThree(t)) && Group(EncodeThree(t)) == t
  {
    hide First, Second, Third, Sextet0, Sextet1, Sextet2, Sextet3, Char, Value;
    var a, b, c := t[0], if |t| > 1 then t[1] else 0, if |t| > 2 then t[2] else 0;
    Bits(a, b, c);
    PaddedBits(a, b);
    ValueChar(Sextet0(a)); ValueChar(Sextet1(a, b)); ValueChar(Sextet2(b, c)); ValueChar(Sextet3(c));
    PadValue();
  }

  lemma PadValue()
    ensures Value(PAD) == Some(0)
  {
  }

  /** Decoding undoes encoding. */
  lemma {:induction false} WholeEncoded(s: seq<bv8>)
    ensures Clean(Encode(s)) && Whole(Encode(s)) == s
  {
    hide EncodeThree, Group, Value;
    if s != [] {
      var k := if |s| < 3 then |s| else 3;
      GroupOfThree(s[..k]);
      WholeEncoded(s[k..]);
      assert Encode(s) == EncodeThree(s[..k]) + Encode(s[k..]) by {
        if |s| < 3 { assert s[..k] == s; }
      }
      WholeAppend(EncodeThree(s[..k]), Encode(s[k..]));
      assert EncodeThree(s[..k])[..4] == EncodeThree(s[..k]);
    }
  }

  /** Several encoded strings, one after another. */
  function EncodeEach(parts: seq<seq<bv8>>): seq<bv8> {
    if parts == [] then [] else Encode(parts[0]) + EncodeEach(parts[1..])
  }

  lemma {:induction false} WholeEncodedEach(parts: seq<seq<bv8>>)
    ensures |EncodeEach(parts)| % 4 == 0
    ensures Clean(EncodeEach(parts)) && Whole(EncodeEach(parts)) == Flatten(parts)
  {
    hide Encode, Value, Group, Whole, Clean;
    NoChars();
    if parts != [] {
      WholeEncoded(parts[0]);
      WholeEncodedEach(parts[1..]);
      WholeAppend(Encode(parts[0]), EncodeEach(parts[1..]));
    }
  }

  // ---- The loops -----------------------------------------------------------------

  /** base64Encode */
  method Base64Encode(orig: seq<bv8>) returns (result: array<bv8>)
    ensures fresh(result) && result[..] == Encode(orig)
  {
    hide EncodeThree, Encode;
    assert Encode([]) == [] by { EncodeNothing(); }
    var n := |orig| / 3;
    var havePadding := if |orig| > n * 3 then 1 else 0;
    result := new bv8[4 * (n + havePadding)];
    for i := 0 to n
      invariant result[..4 * i] == Encode(orig[..3 * i])
    {
      PutGroup(result, 4 * i, orig[3 * i..3 * i + 3]);
      EncodeNext(orig, i, 3);
      assert result[..4 * (i + 1)] == result[..4 * i] + result[4 * i..4 * i + 4];
    }
    if havePadding == 1 {
      PutGroup(result, 4 * n, orig[3 * n..]);
      EncodeNext(orig, n, |orig| % 3);
      assert result[..] == result[..4 * n] + result[4 * n..4 * n + 4];
    }
    assert orig[..|orig|] == orig;
  }

  lemma EncodeNothing()
    ensures Encode([]) == []
  {
  }

  lemma EncodeNext(s: seq<bv8>, i: nat, k: nat)
    requires 1 <= k <= 3 && 3 * i + k <= |s|
    ensures Encode(s[..3 * i + k]) == Encode(s[..3 * i]) + EncodeThree(s[3 * i..3 * i + k])
  {
    hide EncodeThree;
    var t := s[3 * i..3 * i + k];
    assert s[..3 * i] + t == s[..3 * i + k];
    EncodeAppend(s[..3 * i], t);
    if k == 3 { assert t[..3] == t && t[3..] == []; }
  }

  method PutGroup(result: array<bv8>, at: nat, t: seq<bv8>)
    requires at + 4 <= result.Length && 1 <= |t| <= 3
    modifies result
    ensures result[at..at + 4] == EncodeThree(t)
    ensures result[..at] == old(result[..at])
  {
    hide Char, Sextet0, Sextet1, Sextet2, Sextet3;
    result[at] := Char(Sextet0(t[0]));
    if |t| == 1 {
      result[at + 1] := Char(((t[0] & 0x3) << 4) & 0x3F);
      result[at + 2] := PAD;
    } else {
      result[at + 1] := Char(Sextet1(t[0], t[1]));
      result[at + 2] := if |t| == 2 then Char((t[1] << 2) & 0x3F) else Char(Sextet2(t[1], t[2]));
    }
    result[at + 3] := if |t| < 3 then PAD else Char(Sextet3(t[2]));
  }

  lemma FilterSnoc(s: seq<bv8>, c: bv8)
    ensures Filter(s + [c]) == if Value(c).Some? then Filter(s) + [c] else Filter(s)
  {
    FilterAppend(s, [c]);
  }

  /** The inner loop of unbase64: the next characters that are not skipped, up
      to four of them. */
  method Collect(d: array<bv8>, from: nat, limit: nat) returns (enc: seq<bv8>, src: nat)
    requires from <= limit <= d.Length
    ensures from <= src <= limit && |enc| <= 4 && |enc| <= src - from
    ensures Clean(enc) && enc == Filter(d[from..src])
    ensures |enc| < 4 ==> src == limit
  {
    hide Value, Filter;
    NoChars();
    assert d[from..from] == [];
    enc, src := [], from;
    while |enc| < 4 && src < limit
      invariant from <= src <= limit && |enc| <= 4 && |enc| <= src - from
      invariant Clean(enc) && enc == Filter(d[from..src])
    {
      FilterSnoc(d[from..src], d[src]);
      assert d[from..src + 1] == d[from..src] + [d[src]];
      if Value(d[src]).Some? { enc := enc + [d[src]]; }
      src := src + 1;
    }
  }

  /** unbase64 on the len bytes at base: the bytes of the complete groups, and
      after them the remain characters that are left over. Nothing is written
      where something is still to be read. */
  method Unbase64(d: array<bv8>, base: nat, len: nat) returns (n: nat, remain: nat)
    requires base + len <= d.Length
    modifies d
    ensures var chars := Filter(old(d[base..base + len]));
            && remain == |chars| % 4 && n == |Whole(chars)| + remain && n <= len
            && d[base..base + n] == Whole(chars) + Left(chars)
    ensures d[..base] == old(d[..base]) && d[base + len..] == old(d[base + len..])
  {
    hide Value, Whole, Filter, Group, Left, Clean, Outside, Decoded;
    ghost var was := d[..];
    assert was[base..base] == [] && d[base..base] == [];
    Untouched(was, base, base);
    NothingDecoded();
    var src, dest := base, base;
    remain := 4;
    while remain == 4
      invariant base <= dest <= src <= base + len && remain <= 4 && base + len <= d.Length
      invariant Outside(d[..], was, base, src)
      invariant remain == 4 ==> Decoded(was[base..src], d[base..dest])
      invariant remain < 4 ==> && src == base + len && var chars := Filter(was[base..src]);
                                  remain == |chars| % 4 && d[base..dest] == Whole(chars) + Left(chars)
      decreases d.Length - src, remain
    {
      src, dest, remain := Round(d, base, dest, src, base + len, was);
    }
    n := dest - base;
    Ends(d[..], was, base, src);
    Lengths(was[base..src]);
  }

  /** One round of the outer loop: four characters give a group, fewer are
      the end. */
  method Round(d: array<bv8>, base: nat, dest: nat, src: nat, limit: nat, ghost was: seq<bv8>)
    returns (src': nat, dest': nat, count: nat)
    requires base <= dest <= src <= limit <= d.Length == |was|
    requires Decoded(was[base..src], d[base..dest]) && Outside(d[..], was, base, src)
    modifies d
    ensures src <= src' <= limit && dest <= dest' <= src' && count <= 4 && src + count <= src'
    ensures Outside(d[..], was, base, src')
    ensures if count == 4 then Decoded(was[base..src'], d[base..dest'])
            else && src' == limit
                 && var chars := Filter(was[base..src']);
                    count == |chars| % 4 && d[base..dest'] == Whole(chars) + Left(chars)
  {
    hide Value, Whole, Filter, Group, Left, Clean, Outside, Decoded;
    ghost var before := d[..];
    var enc;
    enc, src' := Collect(d, src, limit);
    Unread(before, was, base, src, src');
    assert before[src..src'] == d[src..src'];
    DecodeStep(was[base..src], was[src..src'], d[base..dest], enc);
    count := |enc|;
    if |enc| < 4 {
      PutLeft(d, base, dest, enc);
      Within(d[..], before, was, base, dest, dest + |enc|, src');
      dest' := dest + |enc|;
    } else {
      var w := WriteGroup(d, base, dest, enc);
      Within(d[..], before, was, base, dest, dest + 3, src');
      dest' := dest + w;
    }
  }

  lemma NothingDecoded()
    ensures Decoded([], [])
  {
  }

  lemma Ends(now: seq<bv8>, was: seq<bv8>, lo: nat, hi: nat)
    requires lo <= hi <= |was| && Outside(now, was, lo, hi)
    ensures |now| == |was| && now[..lo] == was[..lo] && now[hi..] == was[hi..]
  {
  }

  lemma Lengths(raw: seq<bv8>)
    ensures |Left(Filter(raw))| == |Filter(raw)| % 4
  {
  }

  /** Only what is between lo and hi may differ. */
  ghost predicate Outside(now: seq<bv8>, was: seq<bv8>, lo: nat, hi: nat)
    requires lo <= hi <= |was|
  {
    |now| == |was| && now[..lo] == was[..lo] && now[hi..] == was[hi..]
  }

  lemma Untouched(was: seq<bv8>, lo: nat, hi: nat)
    requires lo <= hi <= |was|
    ensures Outside(was, was, lo, hi)
  {
  }

  /** Writing between l and h only. */
  lemma Within(now: seq<bv8>, before: seq<bv8>, was: seq<bv8>, lo: nat, l: nat, h: nat, hi: nat)
    requires lo <= l <= h <= hi <= |was| == |before|
    requires Outside(before, was, lo, hi) && Outside(now, before, l, h)
    ensures Outside(now, was, lo, hi) && now[..lo] == was[..lo] && now[hi..] == was[hi..]
  {
    assert now[..lo] == now[..l][..lo] && before[..lo] == before[..l][..lo];
    assert now[hi..] == now[h..][hi - h..] && before[hi..] == before[h..][hi - h..];
  }

  lemma Unread(now: seq<bv8>, was: seq<bv8>, base: nat, from: nat, to: nat)
    requires base <= from <= to <= |was| && Outside(now, was, base, from)
    ensures |now| == |was| && now[from..to] == was[from..to] && Outside(now, was, base, to)
    ensures was[base..to] == was[base..from] + was[from..to]
  {
    assert now[from..to] == now[from..][..to - from] && was[from..to] == was[from..][..to - from];
    assert now[to..] == now[from..][to - from..] && was[to..] == was[from..][to - from..];
  }

  /** out is what the complete groups in raw stand for, nothing being left over. */
  ghost predicate Decoded(raw: seq<bv8>, out: seq<bv8>) {
    |Filter(raw)| % 4 == 0 && out == Whole(Filter(raw))
  }

  lemma DecodeStep(raw: seq<bv8>, more: seq<bv8>, out: seq<bv8>, enc: seq<bv8>)
    requires Decoded(raw, out) && enc == Filter(more) && |enc| <= 4
    ensures Clean(enc) && |out| + 3 <= |raw| + 3
    ensures |enc| == 4 ==> Decoded(raw + more, out + Group(enc)) && |out| + 3 <= |raw + more|
    ensures |enc| < 4 ==> && Whole(Filter(raw + more)) == out && Left(Filter(raw + more)) == enc
                          && |Filter(raw + more)| % 4 == |enc| && |out| + |enc| <= |raw + more|
  {
    hide Value, Whole, Filter, Group, Left;
    FilterAppend(raw, more);
    WholeAppend(Filter(raw), enc);
    if |enc| < 4 { LeftShort(Filter(raw), enc); } else { WholeOne(enc); }
  }

  method PutLeft(d: array<bv8>, base: nat, dest: nat, enc: seq<bv8>)
    requires base <= dest && dest + |enc| <= d.Length
    modifies d
    ensures d[base..dest + |enc|] == old(d[base..dest]) + enc
    ensures Outside(d[..], old(d[..]), dest, dest + |enc|)
  {
    forall i | 0 <= i < |enc| { d[dest + i] := enc[i]; }
  }

  method WriteGroup(d: array<bv8>, base: nat, dest: nat, enc: seq<bv8>) returns (w: nat)
    requires base <= dest && dest + 3 <= d.Length && |enc| == 4 && Clean(enc)
    modifies d
    ensures w == |Group(enc)| && d[base..dest + w] == old(d[base..dest]) + Group(enc)
    ensures Outside(d[..], old(d[..]), dest, dest + 3)
  {
    hide Value, First, Second, Third, Group;
    GroupBytes(enc);
    d[dest] := First(Code(enc[0]), Code(enc[1]));
    d[dest + 1] := Second(Code(enc[1]), Code(enc[2]));
    d[dest + 2] := Third(Code(enc[2]), Code(enc[3]));
    if enc[3] == PAD {
      w := if enc[2] == PAD then 1 else 2;
    } else {
      w := 3;
    }
    ghost var s := d[..];
    assert d[base..dest + w] == s[base..dest + w] && d[dest..dest + w] == s[dest..dest + w]
           && d[base..dest] == s[base..dest];
    SliceSplit(s, base, dest, dest + w);
  }

  lemma SliceSplit<T>(s: seq<T>, a: nat, b: nat, c: nat)
    requires a <= b <= c <= |s|
    ensures s[a..c] == s[a..b] + s[b..c]
  {
  }

  lemma GroupBytes(g: seq<bv8>)
    requires |g| == 4 && Clean(g)
    ensures Group(g) == [First(Code(g[0]), Code(g[1])), Second(Code(g[1]), Code(g[2])), Third(Code(g[2]), Code(g[3]))]
                        [..if g[3] != PAD then 3 else if g[2] != PAD then 2 else 1]
  {
    hide First, Second, Third;
  }

  lemma NoChars()
    ensures Filter([]) == [] && Clean([]) && Whole([]) == []
  {
  }

  lemma WholeOne(g: seq<bv8>)
    requires |g| == 4 && Clean(g)
    ensures Whole(g) == Group(g)
  {
    assert g[..4] == g && g[4..] == [];
  }

  lemma LeftShort(done: seq<bv8>, enc: seq<bv8>)
    requires |done| % 4 == 0 && |enc| < 4 && Clean(enc)
    ensures Left(done + enc) == enc && Whole(enc) == []
  {
  }

  // ---- The tunnel ------------------------------------------------------------------

  const REQ_BUF := 4096

  /** The receiving half of a connection that is tunnelled over HTTP. */
  class Tunnel {
    const reqBuf: array<bv8>
    var reqLen: nat
    var base64Count: nat
    ghost var received: seq<bv8>   // everything read since the tunnel was set up
    ghost var handled: seq<bv8>    // what parse_client_data has disposed of

    /** However it was cut up on the way, what has been decoded is what all
        that has been received decodes to. */
    ghost predicate Valid()
      reads this, reqBuf
    {
      && reqBuf.Length == REQ_BUF && reqLen <= REQ_BUF - 1
      && InStep(received, handled, reqBuf[..reqLen], base64Count)
    }

    constructor ()
      ensures Valid() && fresh(reqBuf) && received == [] && handled == []
    {
      NoChars();
      reqBuf := new bv8[REQ_BUF];
      reqLen, base64Count, received, handled := 0, 0, [], [];
    }

    /** One round of do_read: data is what read() put after the bytes that
        are already there. A full buffer ends the connection. */
    method Receive(data: seq<bv8>) returns (tooLong: bool)
      requires Valid() && reqLen + |data| <= REQ_BUF - 1
      modifies `reqLen, `base64Count, `received, reqBuf
      ensures Valid() && received == old(received) + data
      ensures tooLong <==> reqLen == REQ_BUF - 1
    {
      hide Filter, Whole, Left, Group, Value, Outside, InStep, Clean;
      ghost var pending := reqBuf[..reqLen];
      PendingLeft(received, handled, pending, base64Count);
      var start := reqLen - base64Count;
      Read(data);
      var n, remain := Decode(start, base64Count + |data|, pending[..start], pending[start..] + data);
      StillInStep(received, handled, pending, base64Count, data, reqBuf[start..start + n]);
      received := received + data;
      reqLen, base64Count := start + n, remain;
      tooLong := reqLen == REQ_BUF - 1;
    }

    /** unbase64 on what follows the bytes already decoded. */
    method Decode(start: nat, len: nat, ghost decoded: seq<bv8>, ghost chars: seq<bv8>) returns (n: nat, remain: nat)
      requires start + len <= reqBuf.Length && |decoded| == start && |chars| == len
      requires reqBuf[..][..start + len] == decoded + chars
      modifies reqBuf
      ensures n <= len && remain <= n && remain == |Filter(chars)| % 4
      ensures reqBuf[start..start + n] == Whole(Filter(chars)) + Left(Filter(chars))
      ensures reqBuf[..start + n] == decoded + reqBuf[start..start + n]
    {
      hide Filter, Whole, Left, Group, Value, Outside, InStep, Clean;
      DecodeWindow(reqBuf[..], decoded, chars);
      assert reqBuf[..][start..start + len] == reqBuf[start..start + len] && reqBuf[..][..start] == reqBuf[..start];
      n, remain := Unbase64(reqBuf, start, len);
      assert reqBuf[..start + n] == reqBuf[..start] + reqBuf[start..start + n];
    }

    method Read(data: seq<bv8>)
      requires base64Count <= reqLen && reqLen + |data| <= reqBuf.Length
      modifies reqBuf
      ensures reqBuf[..][..reqLen + |data|] == old(reqBuf[..reqLen - base64Count])
              + (old(reqBuf[reqLen - base64Count..reqLen]) + data)
    {
      forall i | 0 <= i < |data| { reqBuf[reqLen + i] := data[i]; }
    }

    /** parse_client_data only looks when nothing is left over, and after a
        request or a frame throws all there is away. */
    method Handle()
      requires Valid() && base64Count == 0
      modifies `reqLen, `handled
      ensures Valid() && reqLen == 0 && handled == old(handled) + old(reqBuf[..reqLen])
    {
      handled := handled + reqBuf[..reqLen];
      reqLen := 0;
    }

    /** A client that sends encoded strings, whole, with whatever it likes
        between the characters: their bytes arrive, all of them. */
    lemma Arrived(parts: seq<seq<bv8>>)
      requires Valid() && Filter(received) == EncodeEach(parts)
      ensures base64Count == 0 && handled + reqBuf[..reqLen] == Flatten(parts)
    {
      hide Filter, Whole, Value;
      WholeEncodedEach(parts);
    }
  }

  lemma DecodeWindow(s: seq<bv8>, a: seq<bv8>, b: seq<bv8>)
    requires |a| + |b| <= |s| && s[..|a| + |b|] == a + b
    ensures s[..|a|] == a && s[|a|..|a| + |b|] == b
  {
    assert s[..|a|] == s[..|a| + |b|][..|a|] && s[|a|..|a| + |b|] == s[..|a| + |b|][|a|..];
  }

  ghost predicate InStep(received: seq<bv8>, handled: seq<bv8>, pending: seq<bv8>, count: nat) {
    var chars := Filter(received);
    && count <= |pending| && count == |chars| % 4
    && handled + pending == Whole(chars) + Left(chars)
  }

  lemma PendingLeft(received: seq<bv8>, handled: seq<bv8>, pending: seq<bv8>, count: nat)
    requires InStep(received, handled, pending, count)
    ensures count <= |pending| && pending[|pending| - count..] == Left(Filter(received))
    ensures handled + pending[..|pending| - count] == Whole(Filter(received))
  {
    hide Whole, Value, Filter;
    var n := |handled + pending|;
    assert (handled + pending)[n - count..] == pending[|pending| - count..];
    assert (handled + pending)[..n - count] == handled + pending[..|pending| - count];
  }

  lemma StillInStep(received: seq<bv8>, handled: seq<bv8>, pending: seq<bv8>, count: nat, data: seq<bv8>, out: seq<bv8>)
    requires InStep(received, handled, pending, count) && count <= |pending|
    requires var chars := Filter(pending[|pending| - count..] + data);
             out == Whole(chars) + Left(chars)
    ensures InStep(received + data, handled, pending[..|pending| - count] + out,
                   |Filter(pending[|pending| - count..] + data)| % 4)
  {
    hide Filter, Whole, Value;
    PendingLeft(received, handled, pending, count);
    Continues(received, data);
    var kept := pending[..|pending| - count];
    assert handled + (kept + out) == (handled + kept) + out;
  }

  lemma Continues(received: seq<bv8>, data: seq<bv8>)
    ensures var chars, more := Filter(received), Filter(Left(Filter(received)) + data);
            && Whole(Filter(received + data)) == Whole(chars) + Whole(more)
            && Left(Filter(received + data)) == Left(more)
            && |Filter(received + data)| % 4 == |more| % 4
  {
    hide Filter, Whole, Value;
    var chars := Filter(received);
    FilterAppend(received, data);
    FilterAppend(Left(chars), data);
    FilterSame(Left(chars));
    WholeResumes(chars, Filter(data));
  }
}
