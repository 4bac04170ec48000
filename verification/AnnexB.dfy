// Splitting an Annex B byte stream into NAL units (spook/rtp-h263.c).
module AnnexB {
  import opened Bytes

  /** Byte i ends a start code: it is a 1 behind at least two zeros. */
  ghost predicate Mark(d: seq<byte>, i: int) {
    2 <= i < |d| && d[i] == 1 && d[i-1] == 0 && d[i-2] == 0
  }

  ghost predicate Zeros(d: seq<byte>, lo: int, hi: int)
    requires 0 <= lo && hi <= |d|
  {
    forall i :: lo <= i < hi ==> d[i] == 0
  }

  /** [pos, pos + codeLen) is the first start code at or after offset: every
      zero in front of its 1 belongs to it, and no earlier 1 ends a start code. */
  ghost predicate FirstCode(d: seq<byte>, offset: nat, pos: nat, codeLen: nat) {
    && codeLen >= 3
    && offset <= pos
    && pos + codeLen <= |d|
    && Zeros(d, pos, pos + codeLen - 1)
    && d[pos + codeLen - 1] == 1
    && (pos == offset || d[pos-1] != 0)
    && forall i :: offset + 2 <= i < pos + codeLen - 1 ==> !Mark(d, i)
  }

  ghost predicate NoCode(d: seq<byte>, offset: nat) {
    forall i :: offset + 2 <= i < |d| ==> !Mark(d, i)
  }

  lemma FirstCodeUnique(d: seq<byte>, offset: nat, p: nat, c: nat, p': nat, c': nat)
    requires FirstCode(d, offset, p, c) && FirstCode(d, offset, p', c')
    ensures p == p' && c == c'
  {
    assert Mark(d, p + c - 1) && Mark(d, p' + c' - 1);
  }

  lemma FirstCodeExcludesNoCode(d: seq<byte>, offset: nat, p: nat, c: nat)
    requires FirstCode(d, offset, p, c)
    ensures !NoCode(d, offset)
  {
    assert Mark(d, p + c - 1);
  }

  /** findStartCode_2 */
  method FindStartCode(d: seq<byte>, from: nat) returns (pos: nat, codeLen: nat)
    requires from <= |d|
    ensures codeLen != 0 ==> FirstCode(d, from, pos, codeLen)
    ensures codeLen == 0 ==> pos == |d| && NoCode(d, from)
  {
    var numZeros := 0;
    var offset := from;
    while offset < |d|
      invariant from <= offset <= |d|
      invariant 0 <= numZeros <= offset - from
      invariant Zeros(d, offset - numZeros, offset)
      invariant offset - numZeros == from || d[offset - numZeros - 1] != 0
      invariant forall i :: from + 2 <= i < offset ==> !Mark(d, i)
    {
      if d[offset] == 0 {
        numZeros := numZeros + 1;
      } else if d[offset] == 1 && numZeros > 1 {
        return offset - numZeros, numZeros + 1;
      } else {
        assert !(from + 2 <= offset && Mark(d, offset));
        numZeros := 0;
      }
      offset := offset + 1;
    }
    return |d|, 0;
  }

  /** One successful load takes n bytes off d. The second search starts
      codeLen bytes into the buffer, wherever the first code was found. */
  ghost predicate Loads(d: seq<byte>, n: nat) {
    exists p: nat, c: nat :: FirstCode(d, 0, p, c) && LoadsAfter(d, n, p, c)
  }

  ghost predicate LoadsAfter(d: seq<byte>, n: nat, p: nat, c: nat) {
    || (n == |d| && NoCode(d, c))
    || exists q: nat, l: nat :: FirstCode(d, c, q, l) && n == q - p
  }

  /** The buffer begins with a start code of any length. */
  ghost predicate StartsWithCode(d: seq<byte>) {
    exists c: nat :: FirstCode(d, 0, 0, c)
  }

  /** What comes of a load. Nothing keeps the copy inside the unit buffer: when
      the unit is longer, the model stops at the store behind its end. */
  datatype Load = LoadOk | BadStream | LoadOverrun

  class Bitstream {
    var input: seq<byte>      // the bytes from pBuffer to pEnd
    var stream: array<byte>   // pStream: where a loaded unit is copied
    var streamLen: nat
    var used: nat

    /** JK_BitStream_init_FM */
    constructor (input: seq<byte>, stream: array<byte>)
      ensures this.input == input && this.stream == stream && streamLen == 0 && used == 0
    {
      this.input, this.stream, streamLen, used := input, stream, 0, 0;
    }

    /** JK_BitStreamLoadNALU_FM */
    method LoadNalu() returns (r: Load)
      modifies this, stream
      ensures input == old(input) && stream == old(stream)
      ensures r.BadStream? <==> NoCode(input, 0)
      ensures r.BadStream? ==> used == 0 && streamLen == |input| && stream[..] == old(stream[..])
      ensures !r.BadStream? ==> Loads(input, used) && used <= |input|
      ensures !r.BadStream? ==> (r.LoadOverrun? <==> used > stream.Length)
      ensures r.LoadOk? ==> used == streamLen && stream[..used] == input[..used]
    {
      used := 0;
      streamLen := |input|;
      var startPos1, startCodeLen := FindStartCode(input, 0);
      if startCodeLen == 0 { return BadStream; }
      FirstCodeExcludesNoCode(input, 0, startPos1, startCodeLen);
      var startPos2, nextLen := FindStartCode(input, startCodeLen);
      if nextLen != 0 {
        LoadAdvances(input, startPos1, startCodeLen, startPos2, nextLen);
        used := startPos2 - startPos1;
      } else {
        used := streamLen;
      }
      assert LoadsAfter(input, used, startPos1, startCodeLen);
      r := Copy();
    }

    /** The memcpy of a loaded unit. */
    method Copy() returns (r: Load)
      requires used <= |input|
      modifies this`streamLen, stream
      ensures r == if used > stream.Length then LoadOverrun else LoadOk
      ensures r.LoadOk? ==> used == streamLen && stream[..used] == input[..used]
    {
      if used > stream.Length { return LoadOverrun; }
      forall i | 0 <= i < used { stream[i] := input[i]; }
      streamLen := used;
      return LoadOk;
    }
  }

  lemma LoadAdvances(d: seq<byte>, p: nat, c: nat, q: nat, l: nat)
    requires FirstCode(d, 0, p, c) && FirstCode(d, c, q, l)
    ensures q >= p
    ensures q == p <==> p >= c
  {
    if p >= c {
      assert forall i :: c + 2 <= i < p + c - 1 ==> !Mark(d, i);
      assert FirstCode(d, c, p, c);
      FirstCodeUnique(d, c, p, c, q, l);
    }
  }

  /** A load makes no progress exactly when the first start code lies at least
      its own length into the buffer: then the second search finds it again,
      and h263_send repeats that load. */
  lemma LoadStallsIff(d: seq<byte>, n: nat, p: nat, c: nat)
    requires Loads(d, n) && FirstCode(d, 0, p, c)
    ensures n == 0 <==> p >= c
  {
    var p': nat, c': nat :| FirstCode(d, 0, p', c') && LoadsAfter(d, n, p', c');
    FirstCodeUnique(d, 0, p, c, p', c');
    if p >= c {
      assert forall i :: c + 2 <= i < p + c - 1 ==> !Mark(d, i);
      assert FirstCode(d, c, p, c);
      FirstCodeExcludesNoCode(d, c, p, c);
      var q: nat, l: nat :| FirstCode(d, c, q, l) && n == q - p;
      FirstCodeUnique(d, c, p, c, q, l);
    } else if n != |d| {
      var q: nat, l: nat :| FirstCode(d, c, q, l) && n == q - p;
      LoadAdvances(d, p, c, q, l);
    }
  }

  lemma StallExample()
    ensures Loads([9, 9, 9, 0, 0, 1, 65], 0)
  {
    var d: seq<byte> := [9, 9, 9, 0, 0, 1, 65];
    assert FirstCode(d, 0, 3, 3);
    assert FirstCode(d, 3, 3, 3);
    assert LoadsAfter(d, 0, 3, 3);
  }

  // ---- A whole buffer ----------------------------------------------------

  /** Loading again and again comes to the end of the buffer, or to a rest
      without a start code. */
  ghost predicate Ends(d: seq<byte>)
    decreases |d|
  {
    NoCode(d, 0) || forall n: nat {:trigger Loads(d, n)} | Loads(d, n) :: 0 < n <= |d| && Ends(d[n..])
  }

  /** The first start code, if there is one, lies less than its own length into
      the buffer. */
  ghost predicate CodeNear(d: seq<byte>) {
    forall p: nat, c: nat :: FirstCode(d, 0, p, c) ==> p < c
  }

  /** What decides about one load decides about all of them: a load that does
      make progress leaves nothing, or a buffer that has a start code near its
      beginning again. */
  lemma LoadKeepsNear(d: seq<byte>, n: nat)
    requires CodeNear(d) && Loads(d, n)
    ensures 0 < n <= |d| && (n < |d| ==> CodeNear(d[n..]) && !NoCode(d[n..], 0))
  {
    hide FirstCode, NoCode;
    var p: nat, c: nat :| FirstCode(d, 0, p, c) && LoadsAfter(d, n, p, c);
    CodeBounds(d, 0, p, c);
    if n != |d| {
      var q: nat, l: nat :| FirstCode(d, c, q, l) && n == q - p;
      CodeBounds(d, c, q, l);
      var p', c';
      if q > c { p', c' := NextCode(d, p, c, q, l); } else { p', c' := SameCode(d, p, c, l); }
      NearAt(d[n..], p', c');
    }
  }

  lemma CodeBounds(d: seq<byte>, offset: nat, p: nat, c: nat)
    requires FirstCode(d, offset, p, c)
    ensures offset <= p && p + c <= |d| && c >= 3
  {
  }

  lemma NearAt(d: seq<byte>, p: nat, c: nat)
    requires FirstCode(d, 0, p, c) && p < c
    ensures CodeNear(d) && !NoCode(d, 0)
  {
    FirstCodeExcludesNoCode(d, 0, p, c);
    forall p': nat, c': nat | FirstCode(d, 0, p', c') ensures p' < c' {
      FirstCodeUnique(d, 0, p, c, p', c');
    }
  }

  /** The second search finds another start code: then at most two bytes are
      in front of the first, and as many are left in front of the next. */
  lemma NextCode(d: seq<byte>, p: nat, c: nat, q: nat, l: nat) returns (p': nat, c': nat)
    requires FirstCode(d, 0, p, c) && p < c && FirstCode(d, c, q, l) && q > c
    ensures p' < c' && FirstCode(d[q - p..], 0, p', c')
  {
    if p >= 3 {
      assert Mark(d, p + c - 1);
    }
    p', c' := p, l;
    var rest := d[q - p..];
    assert forall k :: 0 <= k < |rest| ==> rest[k] == d[q - p + k];
    forall i | 2 <= i < p + l - 1 ensures !Mark(rest, i) { assert d[q - p + i] == 0; }
  }

  /** The second search finds the first start code again, cut short, or one
      that lies right behind it. */
  lemma SameCode(d: seq<byte>, p: nat, c: nat, l: nat) returns (p': nat, c': nat)
    requires FirstCode(d, 0, p, c) && p < c && FirstCode(d, c, c, l)
    ensures p' < c' && FirstCode(d[c - p..], 0, p', c')
  {
    var rest := d[c - p..];
    assert forall k :: 0 <= k < |rest| ==> rest[k] == d[c - p + k];
    if p == 0 {
      p', c' := 0, l;
    } else {
      assert d[c + l - 1] == 1 && d[p + c - 1] == 1;
      assert l == p;
      if 2 * p <= c {
        p', c' := 0, 2 * p;
        assert Zeros(rest, 0, 2 * p - 1);
      } else {
        p', c' := 2 * p - c, c;
        assert Zeros(rest, p', p' + c - 1) && rest[p' - 1] == d[p - 1];
        forall i | 2 <= i < p' + c - 1 ensures !Mark(rest, i) {
          assert !Mark(d, c - p + i);
        }
      }
    }
  }

  lemma {:induction false} EndsIff(d: seq<byte>)
    ensures Ends(d) <==> CodeNear(d)
    decreases |d|
  {
    if CodeNear(d) {
      forall n: nat | Loads(d, n) ensures 0 < n <= |d| && Ends(d[n..]) {
        LoadKeepsNear(d, n);
        if n == |d| { assert NoCode(d[n..], 0); } else { EndsIff(d[n..]); }
      }
    } else {
      var p: nat, c: nat :| FirstCode(d, 0, p, c) && p >= c;
      FirstCodeExcludesNoCode(d, 0, p, c);
      assert FirstCode(d, c, p, c);
      assert LoadsAfter(d, 0, p, c);
      assert Loads(d, 0);
    }
  }

  /** The units that successive loads cut from a buffer. */
  ghost predicate Partition(d: seq<byte>, units: seq<seq<byte>>) {
    if units == [] then
      d == []
    else
      && |units[0]| <= |d|
      && units[0] == d[..|units[0]|]
      && Loads(d, |units[0]|)
      && Partition(d[|units[0]|..], units[1..])
  }

  /** What one load leaves behind is empty or begins with a start code again,
      and the load took at least a start code: the send loop terminates. */
  lemma LoadLeavesCode(d: seq<byte>, n: nat)
    requires StartsWithCode(d) && Loads(d, n)
    ensures 3 <= n <= |d|
    ensures n == |d| || StartsWithCode(d[n..])
    ensures !NoCode(d, 0)
  {
    var c: nat :| FirstCode(d, 0, 0, c);
    FirstCodeExcludesNoCode(d, 0, 0, c);
    var p': nat, c': nat :| FirstCode(d, 0, p', c') && LoadsAfter(d, n, p', c');
    FirstCodeUnique(d, 0, 0, c, p', c');
    if n != |d| {
      var q: nat, l: nat :| FirstCode(d, c, q, l) && n == q;
      var rest := d[q..];
      assert Zeros(rest, 0, l - 1);
      assert FirstCode(rest, 0, 0, l);
    }
  }

  lemma {:induction false} PartitionConcatenates(d: seq<byte>, units: seq<seq<byte>>)
    requires Partition(d, units)
    ensures Flatten(units) == d
  {
    hide Loads;
    if units != [] { PartitionConcatenates(d[|units[0]|..], units[1..]); }
  }

  /** Cut from a buffer that begins with a start code, so does every unit. */
  lemma {:induction false} PartitionUnits(d: seq<byte>, units: seq<seq<byte>>)
    requires Partition(d, units) && (d == [] || StartsWithCode(d))
    ensures forall i :: 0 <= i < |units| ==> 3 <= |units[i]| && StartsWithCode(units[i])
  {
    hide Loads, StartsWithCode;
    if units != [] {
      var n := |units[0]|;
      LoadsHasCode(d, n);
      LoadLeavesCode(d, n);
      UnitStartsWithCode(d, n);
      PartitionUnits(d[n..], units[1..]);
      forall i | 0 <= i < |units|
        ensures 3 <= |units[i]| && StartsWithCode(units[i])
      {
        if i > 0 { assert units[i] == units[1..][i-1]; }
      }
    }
  }

  lemma NothingLoads()
    ensures forall n: nat :: !Loads([], n)
  {
  }

  lemma NothingToCut(units: seq<seq<byte>>)
    ensures Partition([], units) <==> units == []
  {
    hide Loads;
    NothingLoads();
  }

  lemma LoadsHasCode(d: seq<byte>, n: nat)
    requires Loads(d, n)
    ensures !NoCode(d, 0) && d != []
  {
    var p: nat, c: nat :| FirstCode(d, 0, p, c) && LoadsAfter(d, n, p, c);
    FirstCodeExcludesNoCode(d, 0, p, c);
  }

  lemma UnitStartsWithCode(d: seq<byte>, n: nat)
    requires StartsWithCode(d) && Loads(d, n) && n <= |d|
    ensures StartsWithCode(d[..n])
  {
    var c: nat :| FirstCode(d, 0, 0, c);
    var p': nat, c': nat :| FirstCode(d, 0, p', c') && LoadsAfter(d, n, p', c');
    FirstCodeUnique(d, 0, 0, c, p', c');
    assert c <= n;
    assert FirstCode(d[..n], 0, 0, c);
  }

  // ---- Frames in the form the encoder produces -------------------------

  const START_CODE: seq<byte> := [0, 0, 0, 1]

  /** A NAL unit as section 7.4.1 of ITU-T H.264 constrains it: a nonzero type
      below 24, no start code inside, no zero byte at its end. */
  predicate WellFormedNal(nal: seq<byte>) {
    && |nal| >= 1
    && 1 <= nal[0] % 32 <= 23
    && nal[|nal|-1] != 0
    && forall i :: 0 <= i < |nal| - 2 ==> !(nal[i] == 0 && nal[i+1] == 0 && nal[i+2] == 1)
  }

  function Frame(nals: seq<seq<byte>>): seq<byte> {
    if nals == [] then [] else START_CODE + nals[0] + Frame(nals[1..])
  }

  function Units(nals: seq<seq<byte>>): (us: seq<seq<byte>>)
    ensures |us| == |nals|
  {
    if nals == [] then [] else [START_CODE + nals[0]] + Units(nals[1..])
  }

  lemma FrameStartsWithCode(nals: seq<seq<byte>>)
    requires nals != []
    ensures FirstCode(Frame(nals), 0, 0, 4)
  {
    var d := Frame(nals);
    assert d[0] == 0 && d[1] == 0 && d[2] == 0 && d[3] == 1;
  }

  lemma NoCodeInsideNal(nals: seq<seq<byte>>)
    requires nals != [] && WellFormedNal(nals[0])
    ensures forall i :: 6 <= i < 4 + |nals[0]| ==> !Mark(Frame(nals), i)
    ensures Frame(nals)[3 + |nals[0]|] != 0
  {
    var d, nal := Frame(nals), nals[0];
    assert forall i :: 4 <= i < 4 + |nal| ==> d[i] == nal[i-4];
    forall i | 6 <= i < 4 + |nal| ensures !Mark(d, i) {
      assert !(nal[i-6] == 0 && nal[i-5] == 0 && nal[i-4] == 1);
    }
  }

  lemma SecondCode(nals: seq<seq<byte>>)
    requires nals != [] && WellFormedNal(nals[0])
    ensures var d, m := Frame(nals), 4 + |nals[0]|;
            if |nals| == 1 then |d| == m && NoCode(d, 4) else FirstCode(d, 4, m, 4)
  {
    NoCodeInsideNal(nals);
    var d, rest, m := Frame(nals), Frame(nals[1..]), 4 + |nals[0]|;
    assert d == START_CODE + nals[0] + rest;
    if |nals| > 1 {
      FrameStartsWithCode(nals[1..]);
      assert forall i :: m <= i < |d| ==> d[i] == rest[i-m];
      assert d[m] == 0 && d[m+1] == 0 && d[m+2] == 0 && d[m+3] == 1;
    }
  }

  lemma FrameLoadsFirst(nals: seq<seq<byte>>, n: nat)
    requires nals != [] && WellFormedNal(nals[0])
    requires Loads(Frame(nals), n)
    ensures n == 4 + |nals[0]|
  {
    hide FirstCode, NoCode, Frame, WellFormedNal;
    var d, m := Frame(nals), 4 + |nals[0]|;
    FrameStartsWithCode(nals);
    SecondCode(nals);
    var p: nat, c: nat :| FirstCode(d, 0, p, c) && LoadsAfter(d, n, p, c);
    FirstCodeUnique(d, 0, 0, 4, p, c);
    if n == |d| && NoCode(d, 4) {
      if |nals| > 1 { FirstCodeExcludesNoCode(d, 4, m, 4); }
    } else {
      var q: nat, l: nat :| FirstCode(d, 4, q, l) && n == q;
      FirstCodeExcludesNoCode(d, 4, q, l);
      FirstCodeUnique(d, 4, m, 4, q, l);
    }
  }

  /** A well-formed frame splits into exactly its NAL units. */
  lemma {:induction false} FramePartition(nals: seq<seq<byte>>, units: seq<seq<byte>>)
    requires forall i :: 0 <= i < |nals| ==> WellFormedNal(nals[i])
    requires Partition(Frame(nals), units)
    ensures units == Units(nals)
  {
    var d := Frame(nals);
    if nals == [] {
      NothingToCut(units);
    } else {
      assert d[3] == 1;
      FrameLoadsFirst(nals, |units[0]|);
      assert d == START_CODE + nals[0] + Frame(nals[1..]);
      assert d[|units[0]|..] == Frame(nals[1..]);
      FramePartition(nals[1..], units[1..]);
    }
  }
}
