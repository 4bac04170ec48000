// The search for a pair of UDP ports for RTP and RTCP (spook/rtp.c), an even
// one and the next (section 11 of RFC 3550).
module UdpPorts {
  import opened Bytes

  datatype Range = Range(start: int, end: int)

  /** config_rtprange: an even start and an odd end. Fewer than eight ports
      are complained about and used all the same. */
  function Normalised(first: int, last: int): (r: Range)
    ensures r.start % 2 == 0 && r.end % 2 == 1
    ensures forall p :: IsPair(r, p) <==> p % 2 == 0 && first <= p && p + 1 <= last
  {
    Range(if first % 2 != 0 then first + 1 else first, if last % 2 == 0 then last - 1 else last)
  }

  /** Port p and the next are a pair of the range. */
  predicate IsPair(r: Range, p: int) {
    p % 2 == 0 && r.start <= p && p + 1 <= r.end
  }

  predicate Free(inUse: set<int>, p: int) {
    p !in inUse && p + 1 !in inUse
  }

  /** How many pairs there are; max_tries. */
  function Tries(r: Range): int {
    (r.end - r.start + 1) / 2
  }

  /** The pair that is tried after j others, from port first on: the range
      is gone round. */
  function Nth(r: Range, first: int, j: nat): int {
    if first + 2 * j + 1 <= r.end then first + 2 * j else first + 2 * j - 2 * Tries(r)
  }

  /** C's remainder of a number that is not negative. */
  function Remainder(x: nat, y: int): (m: nat)
    requires y != 0
    ensures m <= x && m < if y < 0 then -y else y
  {
    x % if y < 0 then -y else y
  }

  lemma NthIs(r: Range, first: int, j: nat)
    requires r.start % 2 == 0 && r.end % 2 == 1 && IsPair(r, first) && j < Tries(r)
    ensures IsPair(r, Nth(r, first, j))
  {
  }

  /** No pair is tried twice, and none is left out. */
  lemma NthOnce(r: Range, first: int)
    requires r.start % 2 == 0 && r.end % 2 == 1 && IsPair(r, first)
    ensures forall j, k :: 0 <= j < k < Tries(r) ==> Nth(r, first, j) != Nth(r, first, k)
    ensures forall p :: IsPair(r, p) ==> exists j: nat :: j < Tries(r) && Nth(r, first, j) == p
  {
    forall j, k | 0 <= j < k < Tries(r) ensures Nth(r, first, j) != Nth(r, first, k) {
      NthIs(r, first, j);
      NthIs(r, first, k);
    }
    forall p | IsPair(r, p) ensures exists j: nat :: j < Tries(r) && Nth(r, first, j) == p {
      var j: nat := if p >= first then (p - first) / 2 else (p - first) / 2 + Tries(r);
      NthIs(r, first, j);
      assert Nth(r, first, j) == p;
    }
  }

  /** Where port stands before its check against the end of the range. */
  predicate Due(r: Range, first: int, j: nat, port: int) {
    j < Tries(r) ==> Nth(r, first, j) == if port + 1 > r.end then r.start else port
  }

  lemma DueFirst(r: Range, random: nat)
    requires r.start % 2 == 0 && r.end % 2 == 1 && Tries(r) > 0
    ensures var port := r.start + Remainder(random, r.end - r.start);
            var first := if port % 2 != 0 then port + 1 else port;
            IsPair(r, first) && Due(r, first, 0, first)
  {
  }

  lemma DueNext(r: Range, first: int, j: nat)
    requires r.start % 2 == 0 && r.end % 2 == 1 && IsPair(r, first) && j < Tries(r)
    ensures IsPair(r, Nth(r, first, j)) && Due(r, first, j + 1, Nth(r, first, j) + 2)
  {
  }

  /** Having gone round without success means that there is no free pair. */
  lemma AllTried(r: Range, first: int, inUse: set<int>, tried: seq<int>)
    requires r.start % 2 == 0 && r.end % 2 == 1 && IsPair(r, first) && |tried| == Tries(r)
    requires forall j :: 0 <= j < |tried| ==> tried[j] == Nth(r, first, j) && !Free(inUse, tried[j])
    ensures !exists p :: IsPair(r, p) && Free(inUse, p)
  {
    hide Nth, Tries;
    forall p | IsPair(r, p) ensures !Free(inUse, p) {
      NthOnce(r, first);
      var j: nat :| j < Tries(r) && Nth(r, first, j) == p;
      assert tried[j] == p;
    }
  }

  lemma NoPairs(r: Range)
    requires Tries(r) <= 0
    ensures forall p :: !IsPair(r, p)
  {
  }

  /** The search loop of connect_udp_endpoint, for a random number and the
      ports that others have bound: from a random pair on, each pair of the
      range is tried once, until one is free. */
  method Search(r: Range, random: nat, inUse: set<int>)
    returns (found: Option<int>, rtpOpen: bool, rtcpOpen: bool, ghost tried: seq<int>)
    requires r.start % 2 == 0 && r.end % 2 == 1
    ensures found.Some? ==> IsPair(r, found.value) && Free(inUse, found.value)
    ensures found.Some? <==> exists p :: IsPair(r, p) && Free(inUse, p)
    ensures Tries(r) > 0 ==>
      && |tried| <= Tries(r) && (found.None? ==> |tried| == Tries(r))
      && (exists first :: IsPair(r, first) && forall j :: 0 <= j < |tried| ==> tried[j] == Nth(r, first, j))
    // Both sockets are there for a pair that was found. When the ports run
    // out they are not closed.
    ensures found.Some? ==> rtpOpen && rtcpOpen
    ensures found.None? && tried != [] ==> rtcpOpen && rtpOpen == (tried[|tried| - 1] in inUse)
  {
    hide Nth, Tries, Due, Remainder;
    var port := r.start + Remainder(random, r.end - r.start);
    if port % 2 != 0 { port := port + 1; }
    var maxTries := Tries(r);
    ghost var first := port;
    if maxTries > 0 { DueFirst(r, random); } else { NoPairs(r); }
    tried, found := [], None;
    rtpOpen, rtcpOpen := false, false;
    var i := 0;
    while i < maxTries
      invariant 0 <= i && (maxTries > 0 ==> i <= maxTries && IsPair(r, first))
      invariant maxTries > 0 ==> Due(r, first, i, port)
      invariant tried != [] ==> rtcpOpen && rtpOpen == (tried[|tried| - 1] in inUse)
      invariant |tried| == i && forall j :: 0 <= j < i ==> tried[j] == Nth(r, first, j) && !Free(inUse, tried[j])
    {
      DueNext(r, first, i);
      DueMeans(r, first, i, port);
      if port + 1 > r.end { port := r.start; }
      tried := tried + [port];
      rtpOpen, rtcpOpen := true, true;
      if port in inUse {
        port := port + 2;
      } else if port + 1 in inUse {
        rtpOpen := false;
        port := port + 2;
      } else {
        found := Some(port);
        return;
      }
      i := i + 1;
    }
    if maxTries > 0 { AllTried(r, first, inUse, tried); }
  }

  lemma DueMeans(r: Range, first: int, j: nat, port: int)
    requires Due(r, first, j, port) && j < Tries(r)
    ensures Nth(r, first, j) == if port + 1 > r.end then r.start else port
  {
  }
}
