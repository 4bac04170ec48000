// MD5 of a message that comes in pieces (spook/md5.c), against the digest of
// the whole message (sections 3.1 to 3.5 of RFC 1321).
module Md5 {
  import opened Bytes
  import opened Md5Transform

  // ---- The reference ------------------------------------------------------------

  const INITIAL := Regs(Word(0x67452301), Word(0xefcdab89), Word(0x98badcfe), Word(0x10325476))

  /** A word from its bytes, the lowest first. */
  function WordFrom(b: seq<bv8>): Word
    requires |b| == 4
  {
    Word((b[0] as bv32) | ((b[1] as bv32) << 8) | ((b[2] as bv32) << 16) | ((b[3] as bv32) << 24))
  }

  function BytesOf(w: Word): (b: seq<bv8>)
    ensures |b| == 4
  {
    [(w.bits & 0xFF) as bv8, ((w.bits >> 8) & 0xFF) as bv8, ((w.bits >> 16) & 0xFF) as bv8, (w.bits >> 24) as bv8]
  }

  function Words(b: seq<bv8>): (w: seq<Word>)
    requires |b| == 64
    ensures |w| == 16
  {
    seq(16, i requires 0 <= i < 16 => WordFrom(b[4 * i..4 * i + 4]))
  }

  /** The registers after all the complete blocks of s. */
  function Fold(r: Regs, s: seq<bv8>): Regs
    decreases |s|
  {
    if |s| < 64 then r else Fold(Transform(r, Words(s[..64])), s[64..])
  }

  /** A number below 2^32 in four bytes, the lowest first. */
  function Low32(n: nat): (b: seq<bv8>)
    ensures |b| == 4
  {
    [(n % 0x100) as bv8, (n / 0x100 % 0x100) as bv8, (n / 0x1_0000 % 0x100) as bv8, (n / 0x100_0000 % 0x100) as bv8]
  }

  const TWO32 := 0x1_0000_0000

  /** The length of the message in bits, modulo 2^64, in eight bytes. */
  function LengthField(m: seq<bv8>): (b: seq<bv8>)
    ensures |b| == 8
  {
    Low32(8 * |m| % TWO32) + Low32(8 * |m| / TWO32 % TWO32)
  }

  function Zeros(n: nat): (z: seq<bv8>)
    ensures |z| == n
  {
    seq(n, _ => 0 as bv8)
  }

  /** A single 1 bit, and 0 bits up to 448 modulo 512. */
  function Padding(n: nat): (p: seq<bv8>)
    ensures (n + |p|) % 64 == 56 && 1 <= |p| <= 64
  {
    [0x80 as bv8] + Zeros((55 - n) % 64)
  }

  function DigestOf(r: Regs): (d: seq<bv8>)
    ensures |d| == 16
  {
    BytesOf(r.a) + BytesOf(r.b) + BytesOf(r.c) + BytesOf(r.d)
  }

  /** The MD5 digest of a message. */
  function Digest(m: seq<bv8>): seq<bv8> {
    DigestOf(Fold(INITIAL, m + Padding(|m|) + LengthField(m)))
  }

  // ---- Complete blocks and the rest ----------------------------------------------

  function Whole(m: seq<bv8>): (w: seq<bv8>)
    ensures |w| % 64 == 0 && |w| <= |m| < |w| + 64
  {
    m[..|m| - |m| % 64]
  }

  function Rest(m: seq<bv8>): (r: seq<bv8>)
    ensures |r| == |m| % 64
  {
    m[|m| - |m| % 64..]
  }

  lemma {:induction false} FoldThen(r: Regs, a: seq<bv8>, b: seq<bv8>)
    requires |a| % 64 == 0
    ensures Fold(r, a + b) == Fold(Fold(r, a), b)
    decreases |a|
  {
    hide Transform, Words;
    if a == [] {
      assert a + b == b;
    } else {
      assert (a + b)[..64] == a[..64] && (a + b)[64..] == a[64..] + b;
      FoldThen(Transform(r, Words(a[..64])), a[64..], b);
    }
  }

  lemma FoldBlock(r: Regs, b: seq<bv8>)
    requires |b| == 64
    ensures Fold(r, b) == Transform(r, Words(b))
  {
    hide Transform, Words;
    assert b[..64] == b && b[64..] == [];
  }

  lemma FoldShort(r: Regs, b: seq<bv8>)
    requires |b| < 64
    ensures Fold(r, b) == r
  {
  }

  /** What has been folded and what waits in the buffer, for a message. */
  ghost predicate Holds(m: seq<bv8>, regs: Regs, rest: seq<bv8>) {
    && |rest| < 64 && |m| % 64 == |rest|
    && regs == Fold(INITIAL, m) && rest == Rest(m)
  }

  lemma HoldsShort(m: seq<bv8>, regs: Regs, rest: seq<bv8>, data: seq<bv8>)
    requires Holds(m, regs, rest) && |rest| + |data| < 64
    ensures Holds(m + data, regs, rest + data)
  {
    hide Fold;
    var w := Whole(m);
    assert m == w + rest && m + data == w + (rest + data);
    FoldThen(INITIAL, w, rest);
    FoldThen(INITIAL, w, rest + data);
    FoldShort(Fold(INITIAL, w), rest);
    FoldShort(Fold(INITIAL, w), rest + data);
    RestAfter(w, rest + data);
  }

  lemma RestAfter(w: seq<bv8>, rest: seq<bv8>)
    requires |w| % 64 == 0 && |rest| < 64
    ensures Rest(w + rest) == rest && |w + rest| % 64 == |rest|
  {
  }

  lemma HoldsBlock(m: seq<bv8>, regs: Regs, rest: seq<bv8>, data: seq<bv8>)
    requires Holds(m, regs, rest) && |rest| + |data| == 64
    ensures Holds(m + data, Transform(regs, Words(rest + data)), [])
  {
    hide Fold, Transform, Words;
    var w := Whole(m);
    assert m == w + rest && m + data == w + (rest + data);
    FoldThen(INITIAL, w, rest);
    FoldThen(INITIAL, w, rest + data);
    FoldShort(Fold(INITIAL, w), rest);
    FoldBlock(Fold(INITIAL, w), rest + data);
    RestAfter(w + (rest + data), []);
    assert w + (rest + data) + [] == m + data;
  }

  // ---- The bit count -------------------------------------------------------------

  predicate Counted(n: nat, bits0: nat, bits1: nat) {
    bits0 == 8 * n % TWO32 && bits1 == 8 * n / TWO32 % TWO32
  }

  lemma InBuffer(n: nat, bits0: nat, bits1: nat)
    requires Counted(n, bits0, bits1)
    ensures bits0 / 8 % 64 == n % 64
  {
    Divides(n);
  }

  lemma Divides(n: nat)
    ensures 8 * n % TWO32 / 8 % 64 == n % 64
  {
    var q := 8 * n / TWO32;
    assert 8 * n % TWO32 == 8 * (n - q * 0x2000_0000);
    assert n == (n - q * 0x2000_0000) + 64 * (q * 0x80_0000);
  }

  /** Adding the length of more data, with the carry done by hand. */
  lemma CountMore(n: nat, len: nat, bits0: nat, bits1: nat, low: nat)
    requires Counted(n, bits0, bits1) && len < TWO32 && low == (bits0 + 8 * len % TWO32) % TWO32
    ensures low < bits0 ==> Counted(n + len, low, ((bits1 + 1) % TWO32 + len / 0x2000_0000) % TWO32)
    ensures low >= bits0 ==> Counted(n + len, low, (bits1 + len / 0x2000_0000) % TWO32)
  {
    var sum := bits0 + 8 * len % TWO32;
    var carry := if low < bits0 then 1 else 0;
    assert sum == carry * TWO32 + low;
    var a, b := 8 * n / TWO32, len / 0x2000_0000;
    assert 8 * len == b * TWO32 + 8 * len % TWO32;
    assert 8 * (n + len) == (a + b + carry) * TWO32 + low;
    Quotient(8 * (n + len), a + b + carry, low);
    Wraps(a, carry, b);
  }

  lemma Quotient(x: nat, q: nat, r: nat)
    requires x == q * TWO32 + r && r < TWO32
    ensures x / TWO32 == q && x % TWO32 == r
  {
  }

  lemma Wraps(a: nat, carry: nat, b: nat)
    ensures ((a % TWO32 + carry) % TWO32 + b) % TWO32 == (a + b + carry) % TWO32
  {
  }

  // ---- The last blocks -----------------------------------------------------------

  /** With the length appended to what is in the block, one more round of
      the transform gives the digest. */
  ghost predicate Padded(m: seq<bv8>, regs: Regs, head: seq<bv8>) {
    |head| == 56 && DigestOf(Transform(regs, Words(head + LengthField(m)))) == Digest(m)
  }

  lemma PaddedIf(m: seq<bv8>, regs: Regs, head: seq<bv8>)
    requires |head| == 56 && DigestOf(Transform(regs, Words(head + LengthField(m)))) == Digest(m)
    ensures Padded(m, regs, head)
  {
  }

  lemma PaddedMeans(m: seq<bv8>, regs: Regs, head: seq<bv8>)
    requires Padded(m, regs, head)
    ensures |head| == 56 && DigestOf(Transform(regs, Words(head + LengthField(m)))) == Digest(m)
  {
  }

  lemma FinalOne(m: seq<bv8>, regs: Regs, rest: seq<bv8>, block: seq<bv8>)
    requires Holds(m, regs, rest) && |rest| <= 55
    requires block == rest + [0x80 as bv8] + Zeros(55 - |rest|) + LengthField(m)
    ensures DigestOf(Transform(regs, Words(block))) == Digest(m)
  {
    hide Fold, Transform, Words, DigestOf, LengthField, Zeros;
    var w := Whole(m);
    assert m == w + rest;
    assert Padding(|m|) == [0x80 as bv8] + Zeros(55 - |rest|);
    assert m + Padding(|m|) + LengthField(m) == w + block;
    FoldThen(INITIAL, w, rest);
    FoldShort(Fold(INITIAL, w), rest);
    FoldThen(INITIAL, w, block);
    FoldBlock(regs, block);
  }

  lemma FinalTwo(m: seq<bv8>, regs: Regs, rest: seq<bv8>, first: seq<bv8>, second: seq<bv8>)
    requires Holds(m, regs, rest) && |rest| > 55
    requires first == rest + [0x80 as bv8] + Zeros(63 - |rest|) && second == Zeros(56) + LengthField(m)
    ensures DigestOf(Transform(Transform(regs, Words(first)), Words(second))) == Digest(m)
  {
    hide Fold, Transform, Words, DigestOf, LengthField;
    var w := Whole(m);
    assert m == w + rest;
    assert Padding(|m|) == [0x80 as bv8] + (Zeros(63 - |rest|) + Zeros(56));
    assert m + Padding(|m|) + LengthField(m) == w + (first + second);
    FoldThen(INITIAL, w, rest);
    FoldShort(Fold(INITIAL, w), rest);
    FoldThen(INITIAL, w, first + second);
    FoldThen(regs, first, second);
    FoldBlock(regs, first);
    FoldBlock(Transform(regs, Words(first)), second);
  }

  // ---- The context ---------------------------------------------------------------

  class Context {
    const buf: array<Word>
    const input: array<bv8>   // the member called in
    var bits0: nat
    var bits1: nat
    ghost var message: seq<bv8>

    ghost predicate Valid()
      reads this, buf, input
    {
      && buf.Length == 4 && input.Length == 64
      && Counted(|message|, bits0, bits1)
      && Holds(message, RegsOf(buf[..]), input[..|message| % 64])
    }

    /** MD5Init */
    constructor ()
      ensures Valid() && fresh(buf) && fresh(input) && message == []
    {
      buf := new Word[4];
      input := new bv8[64];
      bits0, bits1, message := 0, 0, [];
      new;
      buf[0], buf[1], buf[2], buf[3] := INITIAL.a, INITIAL.b, INITIAL.c, INITIAL.d;
    }

    /** memcpy into the block, at most up to its end. */
    method Fill(at: nat, chunk: seq<bv8>)
      requires at + |chunk| <= input.Length
      modifies input
      ensures input[..at + |chunk|] == old(input[..at]) + chunk
    {
      forall i | 0 <= i < |chunk| { input[at + i] := chunk[i]; }
    }

    /** Filling the block up, and MD5Transform on it. */
    method Absorb(at: nat, chunk: seq<bv8>, ghost m: seq<bv8>)
      requires buf.Length == 4 && input.Length == 64 == at + |chunk|
      requires Holds(m, RegsOf(buf[..]), input[..at])
      modifies buf, input
      ensures Holds(m + chunk, RegsOf(buf[..]), [])
    {
      hide Holds, Transform, Words, RegsOf;
      ghost var rest := input[..at];
      Fill(at, chunk);
      assert input[..] == rest + chunk;
      HoldsBlock(m, RegsOf(buf[..]), rest, chunk);
      MD5Transform(buf, Words(input[..]));
    }

    /** Keeping what does not fill the block. */
    method Keep(at: nat, chunk: seq<bv8>, ghost m: seq<bv8>)
      requires buf.Length == 4 && input.Length == 64 && at + |chunk| < 64
      requires Holds(m, RegsOf(buf[..]), input[..at])
      modifies input
      ensures Holds(m + chunk, RegsOf(buf[..]), input[..at + |chunk|])
      ensures |m + chunk| % 64 == at + |chunk|
    {
      hide Holds, RegsOf;
      ghost var rest := input[..at];
      HoldsShort(m, RegsOf(buf[..]), rest, chunk);
      Fill(at, chunk);
      HoldsRest(m + chunk, RegsOf(buf[..]), input[..at + |chunk|]);
    }

    /** MD5Update */
    method MD5Update(data: seq<bv8>)
      requires Valid() && |data| < TWO32
      modifies this`bits0, this`bits1, this`message, buf, input
      ensures Valid() && message == old(message) + data
    {
      hide Holds, Counted, RegsOf;
      ghost var m := message;
      message := m + data;
      var t := Count(|m|, |data|);
      var p := 0;
      if t != 0 {
        if |data| < 64 - t {
          Keep(t, data, m);
          return;
        }
        p := 64 - t;
        Absorb(t, data[..p], m);
      }
      if t == 0 { assert m + data[..0] == m && input[..0] == [] == input[..|m| % 64]; }
      while |data| - p >= 64
        invariant p <= |data| && Holds(m + data[..p], RegsOf(buf[..]), [])
        invariant message == m + data && Counted(|message|, bits0, bits1)
      {
        assert input[..0] == [];
        Absorb(0, data[p..p + 64], m + data[..p]);
        assert m + data[..p] + data[p..p + 64] == m + data[..p + 64];
        p := p + 64;
      }
      assert m + data[..p] + data[p..] == message && input[..0] == [];
      Keep(0, data[p..], m + data[..p]);
    }

    /** The first part of MD5Update: the length goes up by that of the data.
        Returns how many bytes are in the block. */
    method Count(ghost n: nat, len: nat) returns (t: nat)
      requires Counted(n, bits0, bits1) && len < TWO32
      modifies this`bits0, this`bits1
      ensures t == n % 64 && Counted(n + len, bits0, bits1)
    {
      hide Counted;
      InBuffer(n, bits0, bits1);
      CountMore(n, len, bits0, bits1, (bits0 + 8 * len % TWO32) % TWO32);
      t := bits0;
      bits0 := (t + 8 * len % TWO32) % TWO32;
      if bits0 < t { bits1 := (bits1 + 1) % TWO32; }
      bits1 := (bits1 + len / 0x2000_0000) % TWO32;
      t := t / 8 % 64;
    }

    /** MD5Final. Of the context it wipes the registers only. */
    method MD5Final() returns (digest: seq<bv8>)
      requires Valid()
      modifies buf, input
      ensures digest == Digest(message)
    {
      hide Holds, Counted, RegsOf, Transform, Words, DigestOf, Digest, LengthField, Padded;
      InBuffer(|message|, bits0, bits1);
      var count := bits0 / 8 % 64;
      Pad(count);
      PaddedMeans(message, RegsOf(buf[..]), input[..56]);
      ghost var head := input[..56];
      Fill(56, LengthOf());
      assert input[..] == head + LengthField(message);
      MD5Transform(buf, Words(input[..]));
      digest := DigestOf(RegsOf(buf[..]));
      buf[0], buf[1], buf[2], buf[3] := Word(0), Word(0), Word(0), Word(0);
    }

    /** Padding out to 56 bytes of the last block. */
    method Pad(count: nat)
      requires Valid() && count == |message| % 64
      modifies buf, input
      ensures Padded(message, RegsOf(buf[..]), input[..56])
    {
      hide Holds, Counted, RegsOf, Transform, Words, DigestOf, Digest, LengthField, Padded;
      ghost var regs, rest := RegsOf(buf[..]), input[..count];
      Fill(count, [0x80 as bv8]);
      if 64 - 1 - count < 8 {
        Fill(count + 1, Zeros(63 - count));
        ghost var first := rest + [0x80 as bv8] + Zeros(63 - count);
        assert input[..] == first;
        FinalTwo(message, regs, rest, first, Zeros(56) + LengthField(message));
        MD5Transform(buf, Words(input[..]));
        assert input[..0] == [];
        Fill(0, Zeros(56));
        assert input[..56] == Zeros(56);
      } else {
        Fill(count + 1, Zeros(55 - count));
        assert input[..56] == rest + [0x80 as bv8] + Zeros(55 - count);
        FinalOne(message, regs, rest, rest + [0x80 as bv8] + Zeros(55 - count) + LengthField(message));
      }
      PaddedIf(message, RegsOf(buf[..]), input[..56]);
    }

    /** The two words that count bits, as they lie in memory. */
    function LengthOf(): (b: seq<bv8>)
      requires Counted(|message|, bits0, bits1)
      reads this`bits0, this`bits1, this`message
      ensures b == LengthField(message)
    {
      Low32(bits0) + Low32(bits1)
    }
  }

  lemma HoldsRest(m: seq<bv8>, regs: Regs, rest: seq<bv8>)
    requires Holds(m, regs, rest)
    ensures |m| % 64 == |rest|
  {
  }

  /** However a message is cut up. */
  method DigestPieces(pieces: seq<seq<bv8>>) returns (digest: seq<bv8>)
    requires forall i :: 0 <= i < |pieces| ==> |pieces[i]| < TWO32
    ensures digest == Digest(Flatten(pieces))
  {
    hide Digest;
    var ctx := new Context();
    for i := 0 to |pieces|
      invariant ctx.Valid() && ctx.message == Flatten(pieces[..i])
      invariant fresh(ctx) && fresh(ctx.buf) && fresh(ctx.input)
    {
      ctx.MD5Update(pieces[i]);
      FlattenAppend(pieces[..i], [pieces[i]]);
      FlattenSingle(pieces[i]);
      assert pieces[..i] + [pieces[i]] == pieces[..i + 1];
    }
    assert pieces[..|pieces|] == pieces;
    digest := ctx.MD5Final();
  }
}
