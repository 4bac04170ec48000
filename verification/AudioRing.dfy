// The ring of the audio inputs (spook/audio.c): samples are stored, some left
// out or stored twice to keep the rate, and cut into frames of fixed length.
module AudioRing {
  import opened Bytes

  /** What becomes of a sample. */
  datatype Fate = Dropped | Stored | Doubled

  /** The fate of the next sample, and the count that is left. */
  function Next(rate: int, count: int): (Fate, int) {
    if rate == 0 then (Stored, count)
    else if count - 1 == 0 then (if rate < 0 then Dropped else Doubled, if rate < 0 then -rate else rate)
    else (Stored, count - 1)
  }

  /** The fates of n samples in a row, and the count after them. */
  function Fates(rate: int, count: int, n: nat): (r: seq<Fate>)
    ensures |r| == n
    decreases n
  {
    if n == 0 then [] else [Next(rate, count).0] + Fates(rate, Next(rate, count).1, n - 1)
  }

  function CountAfter(rate: int, count: int, n: nat): int
    decreases n
  {
    if n == 0 then count else CountAfter(rate, Next(rate, count).1, n - 1)
  }

  function Copies(f: Fate): nat {
    match f case Dropped => 0 case Stored => 1 case Doubled => 2
  }

  /** The bytes that a sample contributes. */
  function Kept(sample: seq<byte>, f: Fate): seq<byte> {
    match f case Dropped => [] case Stored => sample case Doubled => sample + sample
  }

  /** The samples of d with their fates applied. */
  function Corrected(d: seq<byte>, size: nat, fates: seq<Fate>): seq<byte>
    requires size > 0 && |d| == |fates| * size
    decreases |fates|
  {
    if fates == [] then [] else Kept(d[..size], fates[0]) + Corrected(d[size..], size, fates[1..])
  }

  /** How many samples were doubled, less how many were dropped. */
  function Correction(fates: seq<Fate>): int {
    if fates == [] then 0 else Copies(fates[0]) - 1 + Correction(fates[1..])
  }

  /** One in every |rate| samples is dropped or doubled, from the first on. */
  lemma {:induction false} FatesAre(rate: int, count: int, n: nat, i: nat)
    requires rate != 0 && i < n && 1 <= count <= Abs(rate)
    ensures Fates(rate, count, n)[i]
         == if Multiple(i - (count - 1), Abs(rate)) then (if rate < 0 then Dropped else Doubled) else Stored
    decreases n
  {
    hide Multiple;
    var next := Next(rate, count).1;
    if i > 0 {
      FatesAre(rate, next, n - 1, i - 1);
      if count == 1 { Period(i - 1 - (next - 1), Abs(rate)); }
    } else {
      NotYet(count - 1, Abs(rate));
    }
  }

  /** The count carries on from call to call. */
  lemma {:induction false} FatesThen(rate: int, count: int, n: nat, m: nat)
    ensures Fates(rate, count, n + m) == Fates(rate, count, n) + Fates(rate, CountAfter(rate, count, n), m)
    decreases n
  {
    hide Next;
    if n > 0 {
      FatesThen(rate, Next(rate, count).1, n - 1, m);
      Associative([Next(rate, count).0], Fates(rate, Next(rate, count).1, n - 1),
                  Fates(rate, CountAfter(rate, count, n), m));
    }
  }

  function Abs(x: int): nat { if x < 0 then -x else x }

  lemma Period(x: int, m: nat)
    requires m > 0
    ensures Multiple(x + m, m) == Multiple(x, m)
  {
    var q, r := x / m, x % m;
    assert (q + 1) * m == q * m + m;
    Residue(x + m, q + 1, r, m);
  }

  lemma Residue(x: int, q: int, r: int, m: nat)
    requires m > 0 && x == q * m + r && 0 <= r < m
    ensures x % m == r
  {
    var q', r' := x / m, x % m;
    Apart(q, q', r, r', m);
  }

  lemma Apart(q: int, p: int, r: int, t: int, m: nat)
    requires m > 0 && q * m + r == p * m + t && 0 <= r < m && 0 <= t < m
    ensures r == t
  {
    assert (q - p) * m == q * m - p * m;
    AtLeast(q - p, m);
    AtLeast(p - q, m);
    assert (p - q) * m == -((q - p) * m);
  }

  lemma AtLeast(k: int, m: nat)
    ensures k >= 1 ==> k * m >= m
    ensures k == 0 ==> k * m == 0
  {
  }

  lemma NotYet(k: int, m: nat)
    requires 0 <= k < m
    ensures Multiple(0 - k, m) == (k == 0)
  {
    if k > 0 { Residue(0 - k, -1, m - k, m); }
  }

  /** Stored bytes are as many as came in, plus the correction. */
  lemma {:induction false} CorrectedLength(d: seq<byte>, size: nat, fates: seq<Fate>)
    requires size > 0 && |d| == |fates| * size
    ensures |Corrected(d, size, fates)| == |d| + Correction(fates) * size
    decreases |fates|
  {
    hide Kept, Copies;
    if fates != [] {
      AtLeast(|fates|, size);
      OneLess(|fates|, size);
      CorrectedLength(d[size..], size, fates[1..]);
      KeptLength(d[..size], fates[0]);
      OneMore(fates[0], Correction(fates[1..]), size);
    }
  }

  /** What is stored of two runs of samples is stored of one after the other. */
  lemma {:induction false} CorrectedSplit(a: seq<byte>, b: seq<byte>, size: nat, f: seq<Fate>, g: seq<Fate>)
    requires size > 0 && |a| == |f| * size && |b| == |g| * size && |a + b| == |f + g| * size
    ensures Corrected(a + b, size, f + g) == Corrected(a, size, f) + Corrected(b, size, g)
    decreases |f|
  {
    hide Kept;
    if f == [] {
      assert a + b == b && f + g == g;
    } else {
      AtLeast(|f|, size);
      OneLess(|f|, size);
      OneLess(|f + g|, size);
      assert (f + g)[1..] == f[1..] + g && (a + b)[size..] == a[size..] + b && (a + b)[..size] == a[..size];
      CorrectedSplit(a[size..], b, size, f[1..], g);
      Associative(Kept(a[..size], f[0]), Corrected(a[size..], size, f[1..]), Corrected(b, size, g));
    }
  }

  /** Of one sample nothing is stored, or it is, once or twice. */
  lemma CorrectedOne(sample: seq<byte>)
    requires sample != []
    ensures Corrected(sample, |sample|, [Dropped]) == [] && Corrected(sample, |sample|, [Stored]) == sample
    ensures Corrected(sample, |sample|, [Doubled]) == sample + sample
  {
    hide Corrected;
    KeptOne(sample, |sample|, Dropped);
    KeptOne(sample, |sample|, Stored);
    KeptOne(sample, |sample|, Doubled);
  }

  lemma KeptOne(sample: seq<byte>, size: nat, f: Fate)
    requires size > 0 && |sample| == size
    ensures |[f]| * size == size && Corrected(sample, size, [f]) == Kept(sample, f)
  {
    hide Kept;
    assert sample[..size] == sample && sample[size..] == [] && [f][1..] == [];
    assert Kept(sample, f) + [] == Kept(sample, f);
  }

  /** At rate 0 the samples are stored as they are. */
  lemma {:induction false} Uncorrected(d: seq<byte>, size: nat, count: int, n: nat)
    requires size > 0 && |d| == n * size
    ensures Corrected(d, size, Fates(0, count, n)) == d
    decreases n
  {
    if n > 0 {
      AtLeast(n, size);
      OneLess(n, size);
      Uncorrected(d[size..], size, Next(0, count).1, n - 1);
      assert Fates(0, count, n)[1..] == Fates(0, Next(0, count).1, n - 1);
      assert d[..size] + d[size..] == d;
    }
  }

  lemma KeptLength(sample: seq<byte>, f: Fate)
    ensures |Kept(sample, f)| == Copies(f) * |sample|
  {
  }

  lemma OneMore(f: Fate, c: int, size: nat)
    ensures (Copies(f) - 1 + c) * size == Copies(f) * size - size + c * size
  {
  }

  // ---- Multiples --------------------------------------------------------------------

  predicate Multiple(x: int, m: nat)
    requires m > 0
  {
    x % m == 0
  }

  lemma MultipleSum(x: int, y: int, m: nat)
    requires m > 0 && Multiple(x, m) && Multiple(y, m)
    ensures Multiple(x + y, m) && Multiple(x - y, m)
  {
    var a, b := x / m, y / m;
    assert x == a * m && y == b * m;
    assert x + y == (a + b) * m && x - y == (a - b) * m;
    Residue(x + y, a + b, 0, m);
    Residue(x - y, a - b, 0, m);
  }

  /** Between two multiples there is room for one more step. */
  lemma MultipleRoom(x: int, y: int, m: nat)
    requires m > 0 && Multiple(x, m) && Multiple(y, m) && x < y
    ensures x + m <= y
  {
    var a, b := x / m, y / m;
    assert x == a * m && y == b * m;
    assert (a - b) * m == x - y && (b - a) * m == y - x;
    AtLeast(a - b, m);
    AtLeast(b - a, m);
  }

  lemma MultipleOf(x: nat, k: nat, m: nat)
    requires m > 0 && k > 0 && Multiple(x, k) && Multiple(k, m)
    ensures Multiple(x, m)
  {
    var a, b := x / k, k / m;
    assert x == a * k && k == b * m;
    assert a * (b * m) == (a * b) * m;
    Residue(x, a * b, 0, m);
  }

  function Wrap(i: nat, n: nat): (r: int)
  {
    if i >= n then i - n else i
  }

  /** The bytes of pending are in the ring from r on. */
  ghost predicate Lies(ring: seq<byte>, r: nat, pending: seq<byte>) {
    && r < |ring| && |pending| <= |ring|
    && forall k :: 0 <= k < |pending| ==> ring[Wrap(r + k, |ring|)] == pending[k]
  }

  lemma LiesMore(ring: seq<byte>, ring': seq<byte>, r: nat, w: nat, pending: seq<byte>, more: seq<byte>)
    requires Lies(ring, r, pending) && w == Wrap(r + |pending|, |ring|)
    requires w + |more| <= |ring| && |pending| + |more| <= |ring|
    requires ring' == ring[..w] + more + ring[w + |more|..]
    ensures Lies(ring', r, pending + more)
  {
    var n := |pending|;
    forall k | 0 <= k < n + |more| ensures ring'[Wrap(r + k, |ring|)] == (pending + more)[k] {
      if k < n {
        assert ring[Wrap(r + k, |ring|)] == pending[k];
      } else {
        assert Wrap(r + k, |ring|) == w + (k - n);
      }
    }
  }

  /** A frame at the read index does not wrap. */
  lemma LiesWhole(ring: seq<byte>, r: nat, pending: seq<byte>, n: nat)
    requires Lies(ring, r, pending) && n <= |pending| && r + n <= |ring|
    ensures ring[r..r + n] == pending[..n]
    ensures n < |ring| ==> Lies(ring, Wrap(r + n, |ring|), pending[n..])
  {
    forall k | 0 <= k < n ensures ring[r + k] == pending[k] { assert ring[Wrap(r + k, |ring|)] == pending[k]; }
    if n < |ring| {
      var r' := Wrap(r + n, |ring|);
      forall k | 0 <= k < |pending| - n ensures ring[Wrap(r' + k, |ring|)] == pending[n..][k] {
        assert ring[Wrap(r + (n + k), |ring|)] == pending[n + k];
      }
    }
  }

  // ---- How long stored bytes last --------------------------------------------------------

  /** The cell k bytes behind the write index. */
  function Back(w: nat, k: nat, n: nat): (r: int) {
    if k <= w then w - k else w - k + n
  }

  /** The k-th byte from the end. */
  function Last(s: seq<byte>, k: nat): byte
    requires 1 <= k <= |s|
  {
    s[|s| - k]
  }

  /** The ring holds the last bytes of the stream, as many as it has cells. */
  ghost predicate Latest(ring: seq<byte>, w: nat, stream: seq<byte>) {
    && w < |ring|
    && forall k :: 1 <= k <= |stream| && k <= |ring| ==> ring[Back(w, k, |ring|)] == Last(stream, k)
  }

  lemma LatestMore(ring: seq<byte>, ring': seq<byte>, w: nat, stream: seq<byte>, more: seq<byte>)
    requires Latest(ring, w, stream) && w + |more| <= |ring| && |more| > 0
    requires ring' == ring[..w] + more + ring[w + |more|..]
    ensures Latest(ring', Wrap(w + |more|, |ring|), stream + more)
  {
    var n, m, w' := |ring|, |more|, Wrap(w + |more|, |ring|);
    forall k | 1 <= k <= |stream + more| && k <= n
      ensures ring'[Back(w', k, n)] == Last(stream + more, k)
    {
      if k <= m {
        assert Back(w', k, n) == w + m - k;
      } else {
        assert ring[Back(w, k - m, n)] == Last(stream, k - m) == Last(stream + more, k);
        assert Back(w', k, n) == Back(w, k - m, n);
      }
    }
  }

  /** How many bytes have been stored since block j began. */
  ghost function Since(blocks: seq<seq<byte>>, pending: seq<byte>, j: nat): nat
    requires j < |blocks|
  {
    |Flatten(blocks[j..])| + |pending|
  }

  /** The pointers handed out for the blocks point to where they were stored. */
  ghost predicate Placed(starts: seq<nat>, blocks: seq<seq<byte>>, pending: seq<byte>, w: nat, n: nat, framelen: nat)
    requires n > 0
  {
    && |starts| == |blocks|
    && forall j :: 0 <= j < |blocks| ==>
         starts[j] + framelen <= n && Multiple(starts[j] + Since(blocks, pending, j) - w, n)
  }

  lemma PlacedMore(starts: seq<nat>, blocks: seq<seq<byte>>, pending: seq<byte>, w: nat, n: nat, framelen: nat,
                   more: seq<byte>)
    requires n > 0 && Placed(starts, blocks, pending, w, n, framelen) && w + |more| <= n
    ensures Placed(starts, blocks, pending + more, Wrap(w + |more|, n), n, framelen)
  {
    hide Multiple, Flatten;
    ZeroMultiple(n);
    Residue(n, 1, 0, n);
    assert Multiple(n, n) by { hide *; IsMultiple(n); }
    forall j | 0 <= j < |blocks|
      ensures Multiple(starts[j] + Since(blocks, pending + more, j) - Wrap(w + |more|, n), n)
    {
      var x := starts[j] + Since(blocks, pending, j) - w;
      MultipleSum(x, n, n);
    }
  }

  lemma IsMultiple(n: nat)
    requires n > 0
    ensures Multiple(n, n)
  {
    Residue(n, 1, 0, n);
  }

  lemma PlacedCut(starts: seq<nat>, blocks: seq<seq<byte>>, pending: seq<byte>, w: nat, n: nat, framelen: nat, r: nat)
    requires n > 0 && Placed(starts, blocks, pending, w, n, framelen) && framelen <= |pending|
    requires r + framelen <= n && w == Wrap(r + |pending|, n)
    ensures Placed(starts + [r], blocks + [pending[..framelen]], pending[framelen..], w, n, framelen)
  {
    hide Multiple, Flatten;
    var blocks', starts' := blocks + [pending[..framelen]], starts + [r];
    forall j | 0 <= j < |blocks'|
      ensures starts'[j] + framelen <= n
      ensures Multiple(starts'[j] + Since(blocks', pending[framelen..], j) - w, n)
    {
      SinceCut(blocks, pending, framelen, j);
      if j == |blocks| {
        ZeroMultiple(n);
        IsMultiple(n);
      }
    }
  }

  lemma SinceCut(blocks: seq<seq<byte>>, pending: seq<byte>, framelen: nat, j: nat)
    requires framelen <= |pending| && j <= |blocks|
    ensures Since(blocks + [pending[..framelen]], pending[framelen..], j) ==
            if j < |blocks| then Since(blocks, pending, j) else |pending|
  {
    hide Flatten;
    var last := pending[..framelen];
    assert (blocks + [last])[j..] == blocks[j..] + [last];
    FlattenAppend(blocks[j..], [last]);
    FlattenSingle(last);
    if j == |blocks| {
      assert blocks[j..] == [];
      FlattenNothing<byte>();
    }
  }

  lemma FlattenNothing<T>()
    ensures Flatten<T>([]) == []
  {
  }

  /** The last bytes of a stream, from block j on. */
  lemma StreamFrom(blocks: seq<seq<byte>>, pending: seq<byte>, j: nat)
    requires j < |blocks|
    ensures var s, d := Flatten(blocks) + pending, Since(blocks, pending, j);
            && d <= |s| && |blocks[j]| <= d
            && forall k :: 0 <= k < |blocks[j]| ==> Last(s, d - k) == blocks[j][k]
  {
    hide Flatten;
    FlattenAppend(blocks[..j], blocks[j..]);
    assert blocks[..j] + blocks[j..] == blocks;
    FlattenFirst(blocks[j..]);
    var a, b := Flatten(blocks[..j]), Flatten(blocks[j..]);
    assert a + b + pending == a + (b + pending);
  }

  lemma FlattenFirst(blocks: seq<seq<byte>>)
    requires blocks != []
    ensures |blocks[0]| <= |Flatten(blocks)| && Flatten(blocks)[..|blocks[0]|] == blocks[0]
  {
  }

  lemma BackIs(start: nat, d: nat, w: nat, n: nat)
    requires n > 0 && start < n && w < n && 0 < d && Multiple(start + d - w, n)
    ensures d <= n ==> start == Back(w, d, n)
    ensures n < d <= 2 * n ==> start == Back(w, d - n, n)
  {
    var q := (start + d - w) / n;
    assert start + d - w == q * n;
    if q <= -1 { AtMost(q, -1, n); }
    if q >= 3 { AtMost(3, q, n); }
  }

  lemma AtMost(a: int, b: int, n: nat)
    requires a <= b
    ensures a * n <= b * n
  {
    assert b * n - a * n == (b - a) * n;
  }

  lemma NothingStored(ring: seq<byte>, framelen: nat)
    requires ring != []
    ensures Flatten<byte>([]) == [] && Latest(ring, 0, []) && Placed([], [], [], 0, |ring|, framelen)
            && Lies(ring, 0, [])
  {
  }

  /** As many bytes of a second of sound as make whole frames. */
  function RingLength(second: nat, framelen: nat): (n: nat)
    requires framelen > 0
    ensures n <= second < n + framelen && Multiple(n, framelen)
  {
    RingLengthMultiple(second, framelen);
    second - second % framelen
  }

  lemma RingLengthMultiple(second: nat, framelen: nat)
    requires framelen > 0
    ensures second % framelen <= second && Multiple(second - second % framelen, framelen)
  {
    var q := second / framelen;
    assert second - second % framelen == q * framelen;
    Residue(second - second % framelen, q, 0, framelen);
  }

  // ---- The ring ------------------------------------------------------------------------

  class Ring {
    const sampleSize: nat
    const framelen: nat
    const buf: array<byte>
    var adjustRate: int
    var adjustCount: int
    var iR: nat
    var iW: nat
    ghost var blocks: seq<seq<byte>>   // the frames, as they were when they were cut
    ghost var pending: seq<byte>       // what is stored and not yet in a frame
    ghost var starts: seq<nat>         // where in the ring the frames were cut: their data pointers

    /** Frames and samples fit the ring exactly. */
    ghost predicate Geometry() {
      && 0 < sampleSize && 2 * sampleSize <= framelen && Multiple(framelen, sampleSize)
      && 2 * framelen <= buf.Length && Multiple(buf.Length, framelen)
    }

    /** What is pending lies from the read index on, which is at a frame. */
    ghost predicate Holds()
      reads `iR, `iW, `blocks, `pending, `starts, buf
    {
      && Geometry() && iR < buf.Length && Multiple(iR, framelen) && Multiple(|pending|, sampleSize)
      && |pending| <= framelen + sampleSize && iW == Wrap(iR + |pending|, buf.Length)
      && Lies(buf[..], iR, pending) && Traced()
    }

    /** The ring remembers as much of the stream as it has room for, and frames
        lie where their pointers say. */
    ghost predicate Traced()
      requires Geometry()
      reads `iW, `blocks, `pending, `starts, buf
    {
      Latest(buf[..], iW, Stream()) && Placed(starts, blocks, pending, iW, buf.Length, framelen)
    }

    ghost predicate Valid()
      reads this, buf
    {
      && Holds() && |pending| < framelen
      && forall i :: 0 <= i < |blocks| ==> |blocks[i]| == framelen
    }

    /** Everything stored so far. */
    ghost function Stream(): seq<byte>
      reads `blocks, `pending
    {
      Flatten(blocks) + pending
    }

    /** new_audio_ring */
    constructor (sampleSize: nat, sampleRate: nat, framelen: nat)
      requires 0 < sampleSize && Multiple(framelen, sampleSize) && 2 * sampleSize <= framelen
      requires 2 * framelen <= RingLength(sampleSize * sampleRate, framelen)
      ensures Valid() && fresh(buf) && Stream() == [] && adjustRate == 0
      ensures this.sampleSize == sampleSize && this.framelen == framelen
      ensures buf.Length == RingLength(sampleSize * sampleRate, framelen)
    {
      hide Multiple, Lies, Latest, Placed, Flatten, RingLength;
      ZeroMultiple(framelen);
      ZeroMultiple(sampleSize);
      var buflen := RingLength(sampleSize * sampleRate, framelen);
      this.sampleSize, this.framelen := sampleSize, framelen;
      buf := new byte[buflen];
      adjustRate, adjustCount, iR, iW, blocks, pending, starts := 0, 0, 0, 0, [], [], [];
      new;
      NothingStored(buf[..], framelen);
      assert Stream() == [] && Traced() && Holds();
    }

    /** One copy of a sample. */
    method Store(sample: seq<byte>)
      requires Holds() && |sample| == sampleSize && |pending| < framelen + sampleSize
      modifies `iW, `pending, buf
      ensures Holds() && pending == old(pending) + sample
    {
      hide Lies, Multiple, Latest, Placed, Flatten;
      Room();
      LatestMore(buf[..], buf[..iW] + sample + buf[iW + sampleSize..], iW, Stream(), sample);
      PlacedMore(starts, blocks, pending, iW, buf.Length, framelen, sample);
      Associative(Flatten(blocks), pending, sample);
      ghost var before, w := buf[..], iW;
      forall k | 0 <= k < sampleSize { buf[iW + k] := sample[k]; }
      assert buf[..] == before[..w] + sample + before[w + sampleSize..];
      LiesMore(before, buf[..], iR, w, pending, sample);
      MultipleSum(|pending|, sampleSize, sampleSize);
      iW := iW + sampleSize;
      if iW == buf.Length { iW := 0; }
      pending := pending + sample;
    }

    lemma Room()
      requires Holds() && |pending| < framelen + sampleSize
      ensures iW + sampleSize <= buf.Length && |pending| + sampleSize <= framelen + sampleSize
      ensures |pending| + sampleSize <= buf.Length && Multiple(sampleSize, sampleSize)
    {
      Residue(sampleSize, 1, 0, sampleSize);
      MultipleOf(buf.Length, framelen, sampleSize);
      MultipleOf(iR, framelen, sampleSize);
      MultipleSum(iR, |pending|, sampleSize);
      MultipleSum(iR + |pending|, buf.Length, sampleSize);
      MultipleRoom(iW, buf.Length, sampleSize);
      MultipleSum(framelen, sampleSize, sampleSize);
      MultipleRoom(|pending|, framelen + sampleSize, sampleSize);
    }

    /** A frame is cut off when there are bytes enough for one. */
    method CutFrame(avail: nat) returns (left: nat)
      requires Holds() && avail == |pending| && forall i :: 0 <= i < |blocks| ==> |blocks[i]| == framelen
      modifies `iR, `blocks, `pending, `starts
      ensures Valid() && Stream() == old(Stream()) && old(blocks) <= blocks
      ensures left == |pending|
    {
      hide Lies, Multiple, Flatten, Latest, Placed;
      left := avail;
      if avail >= framelen {
        FrameFits();
        LiesWhole(buf[..], iR, pending, framelen);
        ghost var block := buf[iR..iR + framelen];
        assert buf[..][iR..iR + framelen] == block;
        StreamCut(blocks, block, pending, framelen);
        PlacedCut(starts, blocks, pending, iW, buf.Length, framelen, iR);
        starts := starts + [iR];
        iR := iR + framelen;
        if iR == buf.Length { iR := 0; }
        ZeroMultiple(framelen);
        left := avail - framelen;
        blocks, pending := blocks + [block], pending[framelen..];
      }
    }

    lemma FrameFits()
      requires Holds() && |pending| >= framelen
      ensures iR + framelen <= buf.Length && Multiple(iR + framelen, framelen)
              && Multiple(|pending| - framelen, sampleSize)
    {
      MultipleRoom(iR, buf.Length, framelen);
      Residue(framelen, 1, 0, framelen);
      MultipleSum(iR, framelen, framelen);
      MultipleSum(|pending|, framelen, sampleSize);
    }

    /** A block can be read where its frame points until the ring has gone round
        to it: as long as no more bytes have been stored since it began than
        the ring has cells. One more, and its first byte is another. */
    lemma BlockLasts(j: nat)
      requires Valid() && j < |blocks|
      ensures starts[j] + framelen <= buf.Length
      ensures Since(blocks, pending, j) <= buf.Length ==> buf[starts[j]..starts[j] + framelen] == blocks[j]
      ensures buf.Length < Since(blocks, pending, j) <= 2 * buf.Length ==>
                Since(blocks, pending, j) <= |Stream()| + buf.Length
                && buf[starts[j]] == Last(Stream(), Since(blocks, pending, j) - buf.Length)
    {
      hide Multiple, Flatten;
      var n, d, s := buf.Length, Since(blocks, pending, j), Stream();
      StreamFrom(blocks, pending, j);
      BackIs(starts[j], d, iW, n);
      if d <= n {
        forall k | 0 <= k < framelen ensures buf[starts[j] + k] == blocks[j][k] {
          assert Last(s, d - k) == blocks[j][k];
          assert buf[..][Back(iW, d - k, n)] == Last(s, d - k);
        }
      } else if d <= 2 * n {
        assert buf[..][Back(iW, d - n, n)] == Last(s, d - n);
      }
    }

    /** One round of the loop: the fate of a sample, and a frame if there are
        now bytes enough. */
    method Take(sample: seq<byte>, stored: nat) returns (correction: int, avail: nat)
      requires Valid() && |sample| == sampleSize && stored == |pending|
      modifies `iR, `iW, `blocks, `pending, `starts, `adjustCount, buf
      ensures Valid() && old(blocks) <= blocks && avail == |pending|
      ensures var (fate, count) := Next(adjustRate, old(adjustCount));
              && Stream() == old(Stream()) + Kept(sample, fate)
              && adjustCount == count && correction == Copies(fate) - 1
    {
      hide Lies, Multiple, Flatten, Latest, Placed, Traced;
      ghost var was := Stream();
      correction, avail := 0, stored;
      if adjustRate < 0 {
        adjustCount := adjustCount - 1;
        if adjustCount == 0 {
          adjustCount := -adjustRate;
          correction := -1;
          assert was + [] == was;
          return;
        }
      } else if adjustRate > 0 {
        adjustCount := adjustCount - 1;
        if adjustCount == 0 {
          adjustCount := adjustRate;
          correction := 1;
          Store(sample);
          avail := avail + sampleSize;
        }
      }
      ghost var first := pending;
      Store(sample);
      assert Stream() == Flatten(blocks) + first + sample;
      avail := CutFrame(avail + sampleSize);
    }

    /** audio_ring_input. The meter says whether the rate is to be adjusted
        from now on, and how. */
    method Input(d: seq<byte>, meter: Option<int>) returns (correction: int)
      requires Valid() && Multiple(|d|, sampleSize)
      modifies `adjustRate, `adjustCount, `iR, `iW, `blocks, `pending, `starts, buf
      ensures Valid() && old(blocks) <= blocks
      ensures adjustRate == if meter.Some? then meter.value else old(adjustRate)
      ensures var n, count := |d| / sampleSize, if meter.Some? then 1 else old(adjustCount);
              var fates := Fates(adjustRate, count, n);
              && |d| == n * sampleSize && correction == Correction(fates)
              && Stream() == old(Stream()) + Corrected(d, sampleSize, fates)
              && adjustCount == CountAfter(adjustRate, count, n)
    {
      hide Lies, Multiple, Flatten, Latest, Placed, Kept, Copies, Fates, CountAfter, Correction, Corrected, Next, Owes;
      if meter.Some? { adjustRate, adjustCount := meter.value, 1; }
      CountSamples(|d|, sampleSize);
      ghost var rate, count, was := adjustRate, adjustCount, Stream();
      ghost var n: nat := |d| / sampleSize;
      ghost var left: nat, total := n, Settled(was, d, sampleSize, rate, count, n);
      OwesAll(was, d, sampleSize, rate, count, n);
      correction := 0;
      var avail := if iW < iR then buf.Length - iR + iW else iW - iR;
      var i := 0;
      assert d[0..] == d;
      while i < |d|
        invariant 0 <= i <= |d| && Valid() && avail == |pending| && old(blocks) <= blocks && adjustRate == rate
        invariant Owes(Stream(), correction, d[i..], sampleSize, rate, adjustCount, left, total)
        decreases |d| - i
      {
        ghost var rest := d[i..];
        OwesLess(Stream(), correction, rest, sampleSize, rate, adjustCount, left, total);
        assert rest[..sampleSize] == d[i..i + sampleSize] && rest[sampleSize..] == d[i + sampleSize..];
        var c;
        c, avail := Take(d[i..i + sampleSize], avail);
        correction := correction + c;
        i := i + sampleSize;
        left := left - 1;
      }
      OwesNothing(Stream(), correction, d[i..], sampleSize, rate, adjustCount, left, total);
    }
  }

  /** Where a call ends up. */
  datatype End = End(stream: seq<byte>, correction: int, count: int)

  ghost function Settled(stream: seq<byte>, d: seq<byte>, size: nat, rate: int, count: int, n: nat): End
    requires size > 0 && |d| == n * size
  {
    End(stream + Corrected(d, size, Fates(rate, count, n)), Correction(Fates(rate, count, n)),
      CountAfter(rate, count, n))
  }

  /** With the rest of the samples taken, the end is reached. */
  ghost predicate Owes(stream: seq<byte>, correction: int, rest: seq<byte>, size: nat, rate: int, count: int,
                       left: nat, end: End) {
    && size > 0 && |rest| == left * size
    && var e := Settled(stream, rest, size, rate, count, left);
       end == e.(correction := correction + e.correction)
  }

  lemma OwesAll(stream: seq<byte>, d: seq<byte>, size: nat, rate: int, count: int, n: nat)
    requires size > 0 && |d| == n * size
    ensures Owes(stream, 0, d, size, rate, count, n, Settled(stream, d, size, rate, count, n))
  {
  }

  lemma OwesLess(stream: seq<byte>, correction: int, rest: seq<byte>, size: nat, rate: int, count: int, left: nat,
                 end: End)
    requires Owes(stream, correction, rest, size, rate, count, left, end) && rest != []
    ensures left > 0 && |rest| >= size
    ensures var (fate, next) := Next(rate, count);
            Owes(stream + Kept(rest[..size], fate), correction + (Copies(fate) - 1), rest[size..], size, rate, next,
              left - 1, end)
  {
    hide Corrected, Fates, Correction, CountAfter, Next, Kept, Copies;
    OneLess(left, size);
    FatesStep(rate, count, left);
    CorrectedStep(rest, size, rate, count, left);
    var (fate, next) := Next(rate, count);
    var more := Corrected(rest[size..], size, Fates(rate, next, left - 1));
    assert stream + (Kept(rest[..size], fate) + more) == (stream + Kept(rest[..size], fate)) + more;
  }

  lemma OwesNothing(stream: seq<byte>, correction: int, rest: seq<byte>, size: nat, rate: int, count: int, left: nat,
                    end: End)
    requires Owes(stream, correction, rest, size, rate, count, left, end) && rest == []
    ensures end == End(stream, correction, count)
  {
    if left > 0 { AtLeast(left, size); }
    assert stream + [] == stream;
  }

  lemma StreamCut(blocks: seq<seq<byte>>, block: seq<byte>, pending: seq<byte>, n: nat)
    requires n <= |pending| && block == pending[..n]
    ensures Flatten(blocks + [block]) + pending[n..] == Flatten(blocks) + pending
  {
    hide Flatten;
    FlattenAppend(blocks, [block]);
    FlattenSingle(block);
    assert block + pending[n..] == pending;
  }

  lemma ZeroMultiple(m: nat)
    requires m > 0
    ensures Multiple(0, m)
  {
    Residue(0, 0, 0, m);
  }

  lemma CountSamples(n: nat, m: nat)
    requires m > 0 && Multiple(n, m)
    ensures n == n / m * m
  {
  }

  lemma OneLess(left: nat, m: nat)
    requires m > 0
    ensures left * m > 0 ==> left > 0 && (left - 1) * m == left * m - m && left * m >= m
  {
    if left > 0 { AtLeast(left, m); }
  }

  lemma FatesStep(rate: int, count: int, n: nat)
    requires n > 0
    ensures var (fate, next) := Next(rate, count);
            && Correction(Fates(rate, count, n)) == Copies(fate) - 1 + Correction(Fates(rate, next, n - 1))
            && CountAfter(rate, count, n) == CountAfter(rate, next, n - 1)
  {
    assert Fates(rate, count, n)[1..] == Fates(rate, Next(rate, count).1, n - 1);
  }

  lemma CorrectedStep(d: seq<byte>, size: nat, rate: int, count: int, n: nat)
    requires size > 0 && n > 0 && |d| == n * size && |d| >= size && |d[size..]| == (n - 1) * size
    ensures var (fate, next) := Next(rate, count);
            Corrected(d, size, Fates(rate, count, n)) == Kept(d[..size], fate)
              + Corrected(d[size..], size, Fates(rate, next, n - 1))
  {
    assert Fates(rate, count, n)[1..] == Fates(rate, Next(rate, count).1, n - 1);
  }
}
