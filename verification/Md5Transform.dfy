// MD5 (spook/md5.c): the transform, against the formulas of section 3.4 of
// RFC 1321.
module Md5Transform {

  /** A 32-bit word. */
  datatype Word = Word(bits: bv32)

  datatype Regs = Regs(a: Word, b: Word, c: Word, d: Word)

  // ---- The reference ------------------------------------------------------------

  function F(x: Word, y: Word, z: Word): Word { Word(Choice(x.bits, y.bits, z.bits)) }
  function Choice(x: bv32, y: bv32, z: bv32): bv32 { (x & y) | (!x & z) }
  function G(x: Word, y: Word, z: Word): Word { Word((x.bits & z.bits) | (y.bits & !z.bits)) }
  function H(x: Word, y: Word, z: Word): Word { Word(x.bits ^ y.bits ^ z.bits) }
  function I(x: Word, y: Word, z: Word): Word { Word(y.bits ^ (x.bits | !z.bits)) }

  function Auxiliary(i: nat, x: Word, y: Word, z: Word): Word {
    if i < 16 then F(x, y, z) else if i < 32 then G(x, y, z) else if i < 48 then H(x, y, z) else I(x, y, z)
  }

  /** Which word of the block operation i takes. */
  function Index(i: nat): (k: nat)
    ensures k < 16
  {
    (if i < 16 then i else if i < 32 then 5 * i + 1 else if i < 48 then 3 * i + 5 else 7 * i) % 16
  }

  function Among(k: nat, a: nat, b: nat, c: nat, d: nat): nat {
    if k == 0 then a else if k == 1 then b else if k == 2 then c else d
  }

  /** How far operation i rotates. */
  function Amount(i: nat): (s: nat)
    ensures s < 32
  {
    if i < 16 then Among(i % 4, 7, 12, 17, 22)
    else if i < 32 then Among(i % 4, 5, 9, 14, 20)
    else if i < 48 then Among(i % 4, 4, 11, 16, 23)
    else Among(i % 4, 6, 10, 15, 21)
  }

  /** The constant of operation i, as it stands in the program. Section 3.4 of
      RFC 1321 derives the constants from a sine; that is not proved here. */
  function T(i: nat): Word {
    var four := Constants(i / 4);
    Word(if i % 4 == 0 then four.t0 else if i % 4 == 1 then four.t1 else if i % 4 == 2 then four.t2 else four.t3)
  }

  datatype Four = Four(t0: bv32, t1: bv32, t2: bv32, t3: bv32)

  function Constants(q: nat): Four {
    match q
    case 0 => Four(0xd76aa478, 0xe8c7b756, 0x242070db, 0xc1bdceee)
    case 1 => Four(0xf57c0faf, 0x4787c62a, 0xa8304613, 0xfd469501)
    case 2 => Four(0x698098d8, 0x8b44f7af, 0xffff5bb1, 0x895cd7be)
    case 3 => Four(0x6b901122, 0xfd987193, 0xa679438e, 0x49b40821)
    case 4 => Four(0xf61e2562, 0xc040b340, 0x265e5a51, 0xe9b6c7aa)
    case 5 => Four(0xd62f105d, 0x02441453, 0xd8a1e681, 0xe7d3fbc8)
    case 6 => Four(0x21e1cde6, 0xc33707d6, 0xf4d50d87, 0x455a14ed)
    case 7 => Four(0xa9e3e905, 0xfcefa3f8, 0x676f02d9, 0x8d2a4c8a)
    case 8 => Four(0xfffa3942, 0x8771f681, 0x6d9d6122, 0xfde5380c)
    case 9 => Four(0xa4beea44, 0x4bdecfa9, 0xf6bb4b60, 0xbebfbc70)
    case 10 => Four(0x289b7ec6, 0xeaa127fa, 0xd4ef3085, 0x04881d05)
    case 11 => Four(0xd9d4d039, 0xe6db99e5, 0x1fa27cf8, 0xc4ac5665)
    case 12 => Four(0xf4292244, 0x432aff97, 0xab9423a7, 0xfc93a039)
    case 13 => Four(0x655b59c3, 0x8f0ccc92, 0xffeff47d, 0x85845dd1)
    case 14 => Four(0x6fa87e4f, 0xfe2ce6e0, 0xa3014314, 0x4e0811a1)
    case _ => Four(0xf7537e82, 0xbd3af235, 0x2ad7d2bb, 0xeb86d391)
  }

  /** Addition of words, modulo 2^32. */
  function Add(a: Word, b: Word): Word { Word(a.bits + b.bits) }

  function Rotate(w: Word, s: nat): Word
    requires s < 32
  {
    Word((w.bits << s) | (w.bits >> (32 - s)))
  }

  /** What an operation puts in place of the register w. */
  function Mix(f: Word, w: Word, x: Word, data: Word, s: nat): Word
    requires s < 32
  {
    Add(Rotate(Add(Add(w, f), data), s), x)
  }

  /** Operation i; the registers change places instead of names. */
  function Op(i: nat, r: Regs, data: seq<Word>): Regs
    requires |data| == 16
  {
    Regs(r.d, Mix(Auxiliary(i, r.b, r.c, r.d), r.a, r.b, Add(data[Index(i)], T(i)), Amount(i)), r.b, r.c)
  }

  function Ops(i: nat, n: nat, r: Regs, data: seq<Word>): Regs
    requires |data| == 16
    decreases n
  {
    if n == 0 then r else Ops(i + 1, n - 1, Op(i, r, data), data)
  }

  function Transform(buf: Regs, data: seq<Word>): Regs
    requires |data| == 16
  {
    var r := Ops(0, 64, buf, data);
    Regs(Add(buf.a, r.a), Add(buf.b, r.b), Add(buf.c, r.c), Add(buf.d, r.d))
  }

  lemma {:induction false} OpsThen(i: nat, n: nat, m: nat, r: Regs, data: seq<Word>)
    requires |data| == 16
    ensures Ops(i, n + m, r, data) == Ops(i + n, m, Ops(i, n, r, data), data)
    decreases n
  {
    hide Op;
    if n > 0 { OpsThen(i + 1, n - 1, m, Op(i, r, data), data); }
  }

  // ---- The program --------------------------------------------------------------

  function F1(x: Word, y: Word, z: Word): Word { Word(FastChoice(x.bits, y.bits, z.bits)) }
  function FastChoice(x: bv32, y: bv32, z: bv32): bv32 { z ^ (x & (y ^ z)) }
  function F2(x: Word, y: Word, z: Word): Word { F1(z, x, y) }
  function F3(x: Word, y: Word, z: Word): Word { Word(x.bits ^ y.bits ^ z.bits) }
  function F4(x: Word, y: Word, z: Word): Word { Word(y.bits ^ (x.bits | !z.bits)) }

  lemma Chosen(x: bv32, y: bv32, z: bv32)
    ensures z ^ (x & (y ^ z)) == (x & y) | (!x & z)
  {
  }

  lemma Optimized(x: Word, y: Word, z: Word)
    ensures F1(x, y, z) == F(x, y, z)
  {
    hide Choice, FastChoice;
    SameChoice(x.bits, y.bits, z.bits);
  }

  lemma SameChoice(x: bv32, y: bv32, z: bv32)
    ensures FastChoice(x, y, z) == Choice(x, y, z)
  {
    Chosen(x, y, z);
  }

  lemma Swapped(x: Word, y: Word, z: Word)
    ensures G(x, y, z) == F(z, x, y)
  {
  }

  function Macro(i: nat, x: Word, y: Word, z: Word): Word {
    if i < 16 then F1(x, y, z) else if i < 32 then F2(x, y, z) else if i < 48 then F3(x, y, z) else F4(x, y, z)
  }

  lemma MacroIs(i: nat, x: Word, y: Word, z: Word)
    ensures Macro(i, x, y, z) == Auxiliary(i, x, y, z)
  {
    hide F, F1, G;
    Optimized(x, y, z);
    Swapped(x, y, z);
    Optimized(z, x, y);
  }

  /** Four operations bring the registers back to their places. */
  lemma FourOps(i: nat, r: Regs, data: seq<Word>)
    requires |data| == 16
    ensures var a := Mix(Macro(i, r.b, r.c, r.d), r.a, r.b, Add(data[Index(i)], T(i)), Amount(i));
            var d := Mix(Macro(i + 1, a, r.b, r.c), r.d, a, Add(data[Index(i + 1)], T(i + 1)), Amount(i + 1));
            var c := Mix(Macro(i + 2, d, a, r.b), r.c, d, Add(data[Index(i + 2)], T(i + 2)), Amount(i + 2));
            var b := Mix(Macro(i + 3, c, d, a), r.b, c, Add(data[Index(i + 3)], T(i + 3)), Amount(i + 3));
            Ops(i, 4, r, data) == Regs(a, b, c, d)
  {
    hide Mix, Macro, Auxiliary, Index, T, Amount, Add;
    MacroIs(i, r.b, r.c, r.d);
    var s1 := Op(i, r, data);
    MacroIs(i + 1, s1.b, s1.c, s1.d);
    var s2 := Op(i + 1, s1, data);
    MacroIs(i + 2, s2.b, s2.c, s2.d);
    var s3 := Op(i + 2, s2, data);
    MacroIs(i + 3, s3.b, s3.c, s3.d);
    var s4 := Op(i + 3, s3, data);
    assert Ops(i, 4, r, data) == Ops(i + 1, 3, s1, data) == Ops(i + 2, 2, s2, data);
    assert Ops(i + 2, 2, s2, data) == Ops(i + 3, 1, s3, data) == Ops(i + 4, 0, s4, data);
  }

  lemma SixteenOps(i: nat, r0: Regs, r1: Regs, r2: Regs, r3: Regs, r4: Regs, data: seq<Word>)
    requires |data| == 16 && r1 == Ops(i, 4, r0, data) && r2 == Ops(i + 4, 4, r1, data)
    requires r3 == Ops(i + 8, 4, r2, data) && r4 == Ops(i + 12, 4, r3, data)
    ensures r4 == Ops(i, 16, r0, data)
  {
    hide Ops;
    OpsThen(i, 4, 4, r0, data);
    OpsThen(i, 8, 4, r0, data);
    OpsThen(i, 12, 4, r0, data);
  }

  lemma Schedule1()
    ensures Index(0) == 0 && Amount(0) == 7 && T(0) == Word(0xd76aa478)
    ensures Index(1) == 1 && Amount(1) == 12 && T(1) == Word(0xe8c7b756)
    ensures Index(2) == 2 && Amount(2) == 17 && T(2) == Word(0x242070db)
    ensures Index(3) == 3 && Amount(3) == 22 && T(3) == Word(0xc1bdceee)
    ensures Index(4) == 4 && Amount(4) == 7 && T(4) == Word(0xf57c0faf)
    ensures Index(5) == 5 && Amount(5) == 12 && T(5) == Word(0x4787c62a)
    ensures Index(6) == 6 && Amount(6) == 17 && T(6) == Word(0xa8304613)
    ensures Index(7) == 7 && Amount(7) == 22 && T(7) == Word(0xfd469501)
    ensures Index(8) == 8 && Amount(8) == 7 && T(8) == Word(0x698098d8)
    ensures Index(9) == 9 && Amount(9) == 12 && T(9) == Word(0x8b44f7af)
    ensures Index(10) == 10 && Amount(10) == 17 && T(10) == Word(0xffff5bb1)
    ensures Index(11) == 11 && Amount(11) == 22 && T(11) == Word(0x895cd7be)
    ensures Index(12) == 12 && Amount(12) == 7 && T(12) == Word(0x6b901122)
    ensures Index(13) == 13 && Amount(13) == 12 && T(13) == Word(0xfd987193)
    ensures Index(14) == 14 && Amount(14) == 17 && T(14) == Word(0xa679438e)
    ensures Index(15) == 15 && Amount(15) == 22 && T(15) == Word(0x49b40821)
  {
  }

  lemma Schedule2()
    ensures Index(16) == 1 && Amount(16) == 5 && T(16) == Word(0xf61e2562)
    ensures Index(17) == 6 && Amount(17) == 9 && T(17) == Word(0xc040b340)
    ensures Index(18) == 11 && Amount(18) == 14 && T(18) == Word(0x265e5a51)
    ensures Index(19) == 0 && Amount(19) == 20 && T(19) == Word(0xe9b6c7aa)
    ensures Index(20) == 5 && Amount(20) == 5 && T(20) == Word(0xd62f105d)
    ensures Index(21) == 10 && Amount(21) == 9 && T(21) == Word(0x02441453)
    ensures Index(22) == 15 && Amount(22) == 14 && T(22) == Word(0xd8a1e681)
    ensures Index(23) == 4 && Amount(23) == 20 && T(23) == Word(0xe7d3fbc8)
    ensures Index(24) == 9 && Amount(24) == 5 && T(24) == Word(0x21e1cde6)
    ensures Index(25) == 14 && Amount(25) == 9 && T(25) == Word(0xc33707d6)
    ensures Index(26) == 3 && Amount(26) == 14 && T(26) == Word(0xf4d50d87)
    ensures Index(27) == 8 && Amount(27) == 20 && T(27) == Word(0x455a14ed)
    ensures Index(28) == 13 && Amount(28) == 5 && T(28) == Word(0xa9e3e905)
    ensures Index(29) == 2 && Amount(29) == 9 && T(29) == Word(0xfcefa3f8)
    ensures Index(30) == 7 && Amount(30) == 14 && T(30) == Word(0x676f02d9)
    ensures Index(31) == 12 && Amount(31) == 20 && T(31) == Word(0x8d2a4c8a)
  {
  }

  lemma Schedule3()
    ensures Index(32) == 5 && Amount(32) == 4 && T(32) == Word(0xfffa3942)
    ensures Index(33) == 8 && Amount(33) == 11 && T(33) == Word(0x8771f681)
    ensures Index(34) == 11 && Amount(34) == 16 && T(34) == Word(0x6d9d6122)
    ensures Index(35) == 14 && Amount(35) == 23 && T(35) == Word(0xfde5380c)
    ensures Index(36) == 1 && Amount(36) == 4 && T(36) == Word(0xa4beea44)
    ensures Index(37) == 4 && Amount(37) == 11 && T(37) == Word(0x4bdecfa9)
    ensures Index(38) == 7 && Amount(38) == 16 && T(38) == Word(0xf6bb4b60)
    ensures Index(39) == 10 && Amount(39) == 23 && T(39) == Word(0xbebfbc70)
    ensures Index(40) == 13 && Amount(40) == 4 && T(40) == Word(0x289b7ec6)
    ensures Index(41) == 0 && Amount(41) == 11 && T(41) == Word(0xeaa127fa)
    ensures Index(42) == 3 && Amount(42) == 16 && T(42) == Word(0xd4ef3085)
    ensures Index(43) == 6 && Amount(43) == 23 && T(43) == Word(0x04881d05)
    ensures Index(44) == 9 && Amount(44) == 4 && T(44) == Word(0xd9d4d039)
    ensures Index(45) == 12 && Amount(45) == 11 && T(45) == Word(0xe6db99e5)
    ensures Index(46) == 15 && Amount(46) == 16 && T(46) == Word(0x1fa27cf8)
    ensures Index(47) == 2 && Amount(47) == 23 && T(47) == Word(0xc4ac5665)
  {
  }

  lemma Schedule4()
    ensures Index(48) == 0 && Amount(48) == 6 && T(48) == Word(0xf4292244)
    ensures Index(49) == 7 && Amount(49) == 10 && T(49) == Word(0x432aff97)
    ensures Index(50) == 14 && Amount(50) == 15 && T(50) == Word(0xab9423a7)
    ensures Index(51) == 5 && Amount(51) == 21 && T(51) == Word(0xfc93a039)
    ensures Index(52) == 12 && Amount(52) == 6 && T(52) == Word(0x655b59c3)
    ensures Index(53) == 3 && Amount(53) == 10 && T(53) == Word(0x8f0ccc92)
    ensures Index(54) == 10 && Amount(54) == 15 && T(54) == Word(0xffeff47d)
    ensures Index(55) == 1 && Amount(55) == 21 && T(55) == Word(0x85845dd1)
    ensures Index(56) == 8 && Amount(56) == 6 && T(56) == Word(0x6fa87e4f)
    ensures Index(57) == 15 && Amount(57) == 10 && T(57) == Word(0xfe2ce6e0)
    ensures Index(58) == 6 && Amount(58) == 15 && T(58) == Word(0xa3014314)
    ensures Index(59) == 13 && Amount(59) == 21 && T(59) == Word(0x4e0811a1)
    ensures Index(60) == 4 && Amount(60) == 6 && T(60) == Word(0xf7537e82)
    ensures Index(61) == 11 && Amount(61) == 10 && T(61) == Word(0xbd3af235)
    ensures Index(62) == 2 && Amount(62) == 15 && T(62) == Word(0x2ad7d2bb)
    ensures Index(63) == 9 && Amount(63) == 21 && T(63) == Word(0xeb86d391)
  {
  }

  method Round1(buf: Regs, data: seq<Word>) returns (r: Regs)
    requires |data| == 16
    ensures r == Ops(0, 16, buf, data)
  {
    hide Mix, F1, F2, F3, F4, Op, Ops, Add, T, Index, Amount;
    Schedule1();
    var a, b, c, d := buf.a, buf.b, buf.c, buf.d;
    ghost var r0 := Regs(a, b, c, d);
    a := Mix(F1(b, c, d), a, b, Add(data[0], Word(0xd76aa478)), 7);
    d := Mix(F1(a, b, c), d, a, Add(data[1], Word(0xe8c7b756)), 12);
    c := Mix(F1(d, a, b), c, d, Add(data[2], Word(0x242070db)), 17);
    b := Mix(F1(c, d, a), b, c, Add(data[3], Word(0xc1bdceee)), 22);
    FourOps(0, r0, data);
    ghost var r1 := Regs(a, b, c, d);
    a := Mix(F1(b, c, d), a, b, Add(data[4], Word(0xf57c0faf)), 7);
    d := Mix(F1(a, b, c), d, a, Add(data[5], Word(0x4787c62a)), 12);
    c := Mix(F1(d, a, b), c, d, Add(data[6], Word(0xa8304613)), 17);
    b := Mix(F1(c, d, a), b, c, Add(data[7], Word(0xfd469501)), 22);
    FourOps(4, r1, data);
    ghost var r2 := Regs(a, b, c, d);
    a := Mix(F1(b, c, d), a, b, Add(data[8], Word(0x698098d8)), 7);
    d := Mix(F1(a, b, c), d, a, Add(data[9], Word(0x8b44f7af)), 12);
    c := Mix(F1(d, a, b), c, d, Add(data[10], Word(0xffff5bb1)), 17);
    b := Mix(F1(c, d, a), b, c, Add(data[11], Word(0x895cd7be)), 22);
    FourOps(8, r2, data);
    ghost var r3 := Regs(a, b, c, d);
    a := Mix(F1(b, c, d), a, b, Add(data[12], Word(0x6b901122)), 7);
    d := Mix(F1(a, b, c), d, a, Add(data[13], Word(0xfd987193)), 12);
    c := Mix(F1(d, a, b), c, d, Add(data[14], Word(0xa679438e)), 17);
    b := Mix(F1(c, d, a), b, c, Add(data[15], Word(0x49b40821)), 22);
    FourOps(12, r3, data);
    r := Regs(a, b, c, d);
    SixteenOps(0, r0, r1, r2, r3, r, data);
  }

  method Round2(buf: Regs, data: seq<Word>) returns (r: Regs)
    requires |data| == 16
    ensures r == Ops(16, 16, buf, data)
  {
    hide Mix, F1, F2, F3, F4, Op, Ops, Add, T, Index, Amount;
    Schedule2();
    var a, b, c, d := buf.a, buf.b, buf.c, buf.d;
    ghost var r0 := Regs(a, b, c, d);
    a := Mix(F2(b, c, d), a, b, Add(data[1], Word(0xf61e2562)), 5);
    d := Mix(F2(a, b, c), d, a, Add(data[6], Word(0xc040b340)), 9);
    c := Mix(F2(d, a, b), c, d, Add(data[11], Word(0x265e5a51)), 14);
    b := Mix(F2(c, d, a), b, c, Add(data[0], Word(0xe9b6c7aa)), 20);
    FourOps(16, r0, data);
    ghost var r1 := Regs(a, b, c, d);
    a := Mix(F2(b, c, d), a, b, Add(data[5], Word(0xd62f105d)), 5);
    d := Mix(F2(a, b, c), d, a, Add(data[10], Word(0x02441453)), 9);
    c := Mix(F2(d, a, b), c, d, Add(data[15], Word(0xd8a1e681)), 14);
    b := Mix(F2(c, d, a), b, c, Add(data[4], Word(0xe7d3fbc8)), 20);
    FourOps(20, r1, data);
    ghost var r2 := Regs(a, b, c, d);
    a := Mix(F2(b, c, d), a, b, Add(data[9], Word(0x21e1cde6)), 5);
    d := Mix(F2(a, b, c), d, a, Add(data[14], Word(0xc33707d6)), 9);
    c := Mix(F2(d, a, b), c, d, Add(data[3], Word(0xf4d50d87)), 14);
    b := Mix(F2(c, d, a), b, c, Add(data[8], Word(0x455a14ed)), 20);
    FourOps(24, r2, data);
    ghost var r3 := Regs(a, b, c, d);
    a := Mix(F2(b, c, d), a, b, Add(data[13], Word(0xa9e3e905)), 5);
    d := Mix(F2(a, b, c), d, a, Add(data[2], Word(0xfcefa3f8)), 9);
    c := Mix(F2(d, a, b), c, d, Add(data[7], Word(0x676f02d9)), 14);
    b := Mix(F2(c, d, a), b, c, Add(data[12], Word(0x8d2a4c8a)), 20);
    FourOps(28, r3, data);
    r := Regs(a, b, c, d);
    SixteenOps(16, r0, r1, r2, r3, r, data);
  }

  method Round3(buf: Regs, data: seq<Word>) returns (r: Regs)
    requires |data| == 16
    ensures r == Ops(32, 16, buf, data)
  {
    hide Mix, F1, F2, F3, F4, Op, Ops, Add, T, Index, Amount;
    Schedule3();
    var a, b, c, d := buf.a, buf.b, buf.c, buf.d;
    ghost var r0 := Regs(a, b, c, d);
    a := Mix(F3(b, c, d), a, b, Add(data[5], Word(0xfffa3942)), 4);
    d := Mix(F3(a, b, c), d, a, Add(data[8], Word(0x8771f681)), 11);
    c := Mix(F3(d, a, b), c, d, Add(data[11], Word(0x6d9d6122)), 16);
    b := Mix(F3(c, d, a), b, c, Add(data[14], Word(0xfde5380c)), 23);
    FourOps(32, r0, data);
    ghost var r1 := Regs(a, b, c, d);
    a := Mix(F3(b, c, d), a, b, Add(data[1], Word(0xa4beea44)), 4);
    d := Mix(F3(a, b, c), d, a, Add(data[4], Word(0x4bdecfa9)), 11);
    c := Mix(F3(d, a, b), c, d, Add(data[7], Word(0xf6bb4b60)), 16);
    b := Mix(F3(c, d, a), b, c, Add(data[10], Word(0xbebfbc70)), 23);
    FourOps(36, r1, data);
    ghost var r2 := Regs(a, b, c, d);
    a := Mix(F3(b, c, d), a, b, Add(data[13], Word(0x289b7ec6)), 4);
    d := Mix(F3(a, b, c), d, a, Add(data[0], Word(0xeaa127fa)), 11);
    c := Mix(F3(d, a, b), c, d, Add(data[3], Word(0xd4ef3085)), 16);
    b := Mix(F3(c, d, a), b, c, Add(data[6], Word(0x04881d05)), 23);
    FourOps(40, r2, data);
    ghost var r3 := Regs(a, b, c, d);
    a := Mix(F3(b, c, d), a, b, Add(data[9], Word(0xd9d4d039)), 4);
    d := Mix(F3(a, b, c), d, a, Add(data[12], Word(0xe6db99e5)), 11);
    c := Mix(F3(d, a, b), c, d, Add(data[15], Word(0x1fa27cf8)), 16);
    b := Mix(F3(c, d, a), b, c, Add(data[2], Word(0xc4ac5665)), 23);
    FourOps(44, r3, data);
    r := Regs(a, b, c, d);
    SixteenOps(32, r0, r1, r2, r3, r, data);
  }

  method Round4(buf: Regs, data: seq<Word>) returns (r: Regs)
    requires |data| == 16
    ensures r == Ops(48, 16, buf, data)
  {
    hide Mix, F1, F2, F3, F4, Op, Ops, Add, T, Index, Amount;
    Schedule4();
    var a, b, c, d := buf.a, buf.b, buf.c, buf.d;
    ghost var r0 := Regs(a, b, c, d);
    a := Mix(F4(b, c, d), a, b, Add(data[0], Word(0xf4292244)), 6);
    d := Mix(F4(a, b, c), d, a, Add(data[7], Word(0x432aff97)), 10);
    c := Mix(F4(d, a, b), c, d, Add(data[14], Word(0xab9423a7)), 15);
    b := Mix(F4(c, d, a), b, c, Add(data[5], Word(0xfc93a039)), 21);
    FourOps(48, r0, data);
    ghost var r1 := Regs(a, b, c, d);
    a := Mix(F4(b, c, d), a, b, Add(data[12], Word(0x655b59c3)), 6);
    d := Mix(F4(a, b, c), d, a, Add(data[3], Word(0x8f0ccc92)), 10);
    c := Mix(F4(d, a, b), c, d, Add(data[10], Word(0xffeff47d)), 15);
    b := Mix(F4(c, d, a), b, c, Add(data[1], Word(0x85845dd1)), 21);
    FourOps(52, r1, data);
    ghost var r2 := Regs(a, b, c, d);
    a := Mix(F4(b, c, d), a, b, Add(data[8], Word(0x6fa87e4f)), 6);
    d := Mix(F4(a, b, c), d, a, Add(data[15], Word(0xfe2ce6e0)), 10);
    c := Mix(F4(d, a, b), c, d, Add(data[6], Word(0xa3014314)), 15);
    b := Mix(F4(c, d, a), b, c, Add(data[13], Word(0x4e0811a1)), 21);
    FourOps(56, r2, data);
    ghost var r3 := Regs(a, b, c, d);
    a := Mix(F4(b, c, d), a, b, Add(data[4], Word(0xf7537e82)), 6);
    d := Mix(F4(a, b, c), d, a, Add(data[11], Word(0xbd3af235)), 10);
    c := Mix(F4(d, a, b), c, d, Add(data[2], Word(0x2ad7d2bb)), 15);
    b := Mix(F4(c, d, a), b, c, Add(data[9], Word(0xeb86d391)), 21);
    FourOps(60, r3, data);
    r := Regs(a, b, c, d);
    SixteenOps(48, r0, r1, r2, r3, r, data);
  }

  /** MD5Transform */
  method MD5Transform(buf: array<Word>, data: seq<Word>)
    requires buf.Length == 4 && |data| == 16
    modifies buf
    ensures RegsOf(buf[..]) == Transform(old(RegsOf(buf[..])), data)
  {
    hide Ops, Add;
    var r0 := Regs(buf[0], buf[1], buf[2], buf[3]);
    var r1 := Round1(r0, data);
    var r2 := Round2(r1, data);
    var r3 := Round3(r2, data);
    var r4 := Round4(r3, data);
    OpsThen(0, 16, 16, r0, data);
    OpsThen(0, 32, 16, r0, data);
    OpsThen(0, 48, 16, r0, data);
    buf[0] := Add(buf[0], r4.a);
    buf[1] := Add(buf[1], r4.b);
    buf[2] := Add(buf[2], r4.c);
    buf[3] := Add(buf[3], r4.d);
  }

  function RegsOf(buf: seq<Word>): Regs
    requires |buf| == 4
  {
    Regs(buf[0], buf[1], buf[2], buf[3])
  }
}
