// rawaudio_send: one block of samples out as RTP packets (spook/rtp-rawaudio.c).
module RawAudio {
  import opened Bytes
  import opened Wire
  import opened Tcp
  import opened Rtp

  const MAX_DATA := 8192   // max_data_size of a new endpoint

  /** How much of what is left goes into the next packet: whole samples. */
  function PieceLength(left: nat, unit: nat): (n: nat)
    requires unit > 0
    ensures n <= left && n <= MAX_DATA && (n == 0 ==> left == 0 || unit > MAX_DATA)
  {
    if left > MAX_DATA then MAX_DATA - MAX_DATA % unit else left
  }

  /** rawaudio_send. What it gets onto the connection is the block, or, when a
      packet is refused, as much of it as was in the packets before; and no
      packet comes near what the header of a frame can count. A sample that is
      larger than a packet is never sent: empty packets are, until one is
      refused. */
  method Send(ep: Endpoint, data: seq<byte>, channels: nat, sampsize: nat, timestamp: nat)
    returns (ok: bool, ghost got: seq<byte>)
    requires ep.Valid() && channels > 0 && sampsize > 0
    modifies ep, ep.conn, ep.conn.sendBuf
    ensures ep.Valid() && ep.torn == old(ep.torn) && old(ep.conn.log) <= ep.conn.log
    ensures Carries(ep.conn.log[|old(ep.conn.log)|..], ep.rtpChan, got)
    ensures Clocked(ep.conn.log[|old(ep.conn.log)|..], ep, timestamp, SampleUnit(channels, sampsize))
    ensures got <= data && (ok ==> got == data)
  {
    hide PieceLength, Endpoint.Valid, Carries, Clocked, SampleUnit, TimeAt, Even;
    var unit := SampleUnit(channels, sampsize);
    var i := 0;
    ghost var log := ep.conn.log;
    got := [];
    CarriesNothing(ep, timestamp, unit);
    Multiple(unit, 0);
    while i < |data|
      invariant 0 <= i <= |data| && ep.Valid() && ep.torn == old(ep.torn) && log <= ep.conn.log
      invariant ep.conn.written == old(ep.conn.written)
      invariant got == data[..i] && Carries(ep.conn.log[|log|..], ep.rtpChan, got)
      invariant Clocked(ep.conn.log[|log|..], ep, timestamp, unit) && (i < |data| ==> Even(i, unit))
      decreases |data| - i, |ep.conn.written| + SEND_BUFFER - |ep.conn.accepted|
    {
      Room(ep);
      var plen := PieceLength(|data| - i, unit);
      TimeCounts(timestamp, i, channels, sampsize);
      EvenNext(|data|, i, unit);
      ok := SendPiece(ep, data, i, plen, TimeAt(timestamp, i, channels, sampsize), log, got, timestamp, unit);
      if !ok { return; }
      got := got + data[i..i + plen];
      assert got == data[..i + plen];
      i := i + plen;
    }
    ok := true;
  }

  function SampleUnit(channels: nat, sampsize: nat): (unit: nat)
    requires channels > 0 && sampsize > 0
    ensures unit > 0 && unit == channels * sampsize
  {
    channels * sampsize
  }

  function TimeAt(timestamp: nat, i: nat, channels: nat, sampsize: nat): nat
    requires channels > 0 && sampsize > 0
  {
    timestamp + i / channels / sampsize
  }

  /** Of these messages the ones on the channel hold just these bytes of audio,
      and all fit their headers by far. */
  ghost predicate Carries(added: seq<Message>, chan: byte, data: seq<byte>) {
    && AllWellFormed(added)
    && (forall p :: p in OnChannel(added, chan) ==> |p| <= 12 + MAX_DATA)
    && Flatten(Bodies(OnChannel(added, chan))) == data
  }

  /** By section 5.1 of RFC 3550 a packet says when its first sample was taken:
      the timestamps count the samples in the packets before. */
  ghost predicate Clocked(added: seq<Message>, ep: Endpoint, timestamp: nat, unit: nat)
    requires unit > 0
  {
    var ps := OnChannel(added, ep.rtpChan);
    forall i :: 0 <= i < |ps| ==>
      && HeaderOf(ps[i]).timestamp == Clock(ep, timestamp, |Flatten(Bodies(ps[..i]))|, unit)
      && Even(|Flatten(Bodies(ps[..i]))|, unit)
  }

  /** So many bytes are whole samples. */
  predicate Even(bytes: nat, unit: nat)
    requires unit > 0
  {
    bytes % unit == 0
  }

  /** The time of the sample behind so many bytes. */
  function Clock(ep: Endpoint, timestamp: nat, bytes: nat, unit: nat): nat
    requires unit > 0
  {
    (ep.startTimestamp + timestamp + bytes / unit) % 0x1_0000_0000
  }

  lemma TimeCounts(timestamp: nat, i: nat, channels: nat, sampsize: nat)
    requires channels > 0 && sampsize > 0
    ensures TimeAt(timestamp, i, channels, sampsize) == timestamp + i / SampleUnit(channels, sampsize)
  {
    DivideTwice(i, channels, sampsize);
  }

  /** A piece ends with a sample unless it is the last. */
  lemma EvenNext(size: nat, i: nat, unit: nat)
    requires unit > 0 && i < size && Even(i, unit)
    ensures var next := i + PieceLength(size - i, unit);
            next <= size && (next < size ==> Even(next, unit))
  {
    if size - i > MAX_DATA {
      FullPiece(unit);
      EvenSum(i, MAX_DATA - MAX_DATA % unit, unit);
    }
  }

  lemma FullPiece(unit: nat)
    requires unit > 0
    ensures 0 <= MAX_DATA - MAX_DATA % unit <= MAX_DATA && Even(MAX_DATA - MAX_DATA % unit, unit)
  {
    Within(MAX_DATA, unit);
    Multiple(unit, MAX_DATA / unit);
  }

  lemma EvenSum(x: nat, y: nat, unit: nat)
    requires unit > 0 && Even(x, unit) && Even(y, unit)
    ensures Even(x + y, unit)
  {
    Within(x, unit);
    Within(y, unit);
    EvenMeans(x, unit);
    EvenMeans(y, unit);
    Sum(unit, x / unit, y / unit);
    Multiple(unit, x / unit + y / unit);
  }

  lemma EvenMeans(x: nat, unit: nat)
    requires unit > 0 && Even(x, unit)
    ensures x == unit * (x / unit)
  {
  }

  lemma Sum(u: nat, a: nat, b: nat)
    ensures u * (a + b) == u * a + u * b
  {
  }

  lemma Multiple(unit: nat, k: nat)
    requires unit > 0
    ensures Even(unit * k, unit)
  {
    Within(unit * k, unit);
    SameQuotient(unit, k, unit * k / unit, 0, unit * k - unit * (unit * k / unit));
  }

  lemma DivideTwice(i: nat, m: nat, n: nat)
    requires m > 0 && n > 0 && m * n > 0
    ensures i / m / n == i / (m * n)
  {
    Within(i, m);
    Within(i / m, n);
    Within(i, m * n);
    Divided(i, m, n, i / m, i / m / n, i / (m * n));
  }

  lemma Divided(i: nat, m: nat, n: nat, a: nat, b: nat, q: nat)
    requires 0 <= i - m * a < m && 0 <= a - n * b < n && 0 <= i - m * n * q < m * n
    ensures b == q
  {
    var r, t := i - m * a, a - n * b;
    Nested(m, n, b, t, r);
    SameQuotient(m * n, b, q, m * t + r, i - m * n * q);
  }

  lemma Within(i: nat, u: nat)
    requires u > 0
    ensures 0 <= i - u * (i / u) < u
  {
  }

  lemma Nested(m: nat, n: nat, b: nat, t: nat, r: nat)
    requires r < m && t < n
    ensures m * (n * b + t) + r == m * n * b + (m * t + r) && m * t + r < m * n
  {
    assert m * (n * b + t) == m * n * b + m * t;
    assert m * (t + 1) == m * t + m;
    Bound(m, n - (t + 1));
    assert m * (n - (t + 1)) == m * n - m * (t + 1);
  }

  lemma SameQuotient(u: nat, q: int, q': int, r: nat, r': nat)
    requires u * q + r == u * q' + r' && r < u && r' < u
    ensures q == q'
  {
    Bound(u, q - q');
    assert u * (q - q') == u * q - u * q';
  }

  lemma Bound(u: nat, d: int)
    ensures d >= 0 ==> u * d >= 0
    ensures d >= 1 ==> u * d >= u
    ensures d <= -1 ==> u * d + u <= 0
  {
  }

  lemma CarriesNothing(ep: Endpoint, timestamp: nat, unit: nat)
    requires unit > 0
    ensures Carries(ep.conn.log[|ep.conn.log|..], ep.rtpChan, [])
    ensures Clocked(ep.conn.log[|ep.conn.log|..], ep, timestamp, unit)
  {
  }

  lemma CarriesMore(a: seq<Message>, b: seq<Message>, chan: byte, data: seq<byte>, packets: seq<seq<byte>>)
    requires Carries(a, chan, data) && AllWellFormed(b) && OnChannel(b, chan) == packets
    requires forall i :: 0 <= i < |packets| ==> |packets[i]| <= 12 + MAX_DATA
    ensures Carries(a + b, chan, data + Flatten(Bodies(packets)))
  {
    hide WellFormed, OnChannel, Flatten, Bodies;
    OnChannelAppend(a, b, chan);
    BodiesAppend(OnChannel(a, chan), packets);
    FlattenAppend(Bodies(OnChannel(a, chan)), Bodies(packets));
    assert forall i :: 0 <= i < |a + b| ==> (a + b)[i] == if i < |a| then a[i] else b[i - |a|];
  }

  lemma BodiesAppend(a: seq<seq<byte>>, b: seq<seq<byte>>)
    ensures Bodies(a + b) == Bodies(a) + Bodies(b)
  {
    hide BodyOf;
  }

  lemma Room(ep: Endpoint)
    requires ep.Valid()
    ensures |ep.conn.accepted| < |ep.conn.written| + SEND_BUFFER
  {
    var a := ep.conn.Avail();
  }

  /** One turn of the loop. */
  method SendPiece(ep: Endpoint, data: seq<byte>, i: nat, plen: nat, timestamp: nat,
                   ghost log: seq<Message>, ghost got: seq<byte>, ghost first: nat, ghost unit: nat)
    returns (ok: bool)
    requires i + plen <= |data| && plen <= MAX_DATA && ep.Valid()
    requires log <= ep.conn.log && Carries(ep.conn.log[|log|..], ep.rtpChan, got)
    requires unit > 0 && Even(i, unit)
    requires |got| == i && timestamp == first + i / unit && Clocked(ep.conn.log[|log|..], ep, first, unit)
    modifies ep, ep.conn, ep.conn.sendBuf
    ensures ep.Valid() && ep.torn == old(ep.torn) && log <= ep.conn.log && ep.conn.written == old(ep.conn.written)
    ensures Carries(ep.conn.log[|log|..], ep.rtpChan, if ok then got + data[i..i + plen] else got)
    ensures Clocked(ep.conn.log[|log|..], ep, first, unit)
    ensures ok ==> |ep.conn.accepted| > |old(ep.conn.accepted)|
  {
    hide Carries, Clocked, HeaderOf, Endpoint.Valid, Endpoint.Sent, Endpoint.Added, Endpoint.Recorded, Queued, Total,
         Body,
         Datas;
    ghost var before, piece, seqnum := ep.conn.log, data[i..i + plen], ep.seqnum;
    OnePart(data, i, plen);
    LogBefore(ep);
    ok := ep.SendRtpPacket([IoVec(data[i..], plen)], timestamp, false);
    LogBefore(ep);
    ghost var packet := ep.PacketFor(piece, timestamp, false, seqnum);
    PacketBody(ep, piece, timestamp, seqnum);
    PieceClocked(ep, before[|log|..], ep.conn.log[|before|..], got, packet, ok, first, unit);
    PieceCarried(ep, before[|log|..], ep.conn.log[|before|..], got, piece, packet, ok);
    Grown(ep, before, packet, ok);
    assert ep.conn.log[|log|..] == before[|log|..] + ep.conn.log[|before|..];
  }

  lemma PieceClocked(ep: Endpoint, a: seq<Message>, b: seq<Message>, got: seq<byte>, packet: seq<byte>, ok: bool,
                     first: nat, unit: nat)
    requires unit > 0 && Clocked(a, ep, first, unit) && Carries(a, ep.rtpChan, got)
    requires ep.Sent(b, if ok then [packet] else [])
    requires HeaderOf(packet).timestamp == Clock(ep, first, |got|, unit) && Even(|got|, unit)
    ensures Clocked(a + b, ep, first, unit)
  {
    hide HeaderOf, OnChannel, Flatten, WellFormed, Clock, Even;
    OnChannelAppend(a, b, ep.rtpChan);
    var ps, all := OnChannel(a, ep.rtpChan), OnChannel(a + b, ep.rtpChan);
    forall i | 0 <= i < |all|
      ensures HeaderOf(all[i]).timestamp == Clock(ep, first, |Flatten(Bodies(all[..i]))|, unit)
              && Even(|Flatten(Bodies(all[..i]))|, unit)
    {
      if i < |ps| { assert all[..i] == ps[..i] && all[i] == ps[i]; } else { assert all[..i] == ps; }
    }
  }

  lemma PieceCarried(ep: Endpoint, a: seq<Message>, b: seq<Message>, got: seq<byte>, piece: seq<byte>,
                     packet: seq<byte>, ok: bool)
    requires |packet| == 12 + |piece| <= 12 + MAX_DATA && BodyOf(packet) == piece
    requires ep.Sent(b, if ok then [packet] else []) && Carries(a, ep.rtpChan, got)
    ensures Carries(a + b, ep.rtpChan, if ok then got + piece else got)
  {
    hide Carries, WellFormed, BodyOf;
    var packets := if ok then [packet] else [];
    SentWellFormed(ep, b, packets);
    CarriesMore(a, b, ep.rtpChan, got, packets);
    assert Bodies(packets) == if ok then [piece] else [];
    FlattenSingle(piece);
    assert got + [] == got;
  }

  lemma Grown(ep: Endpoint, before: seq<Message>, packet: seq<byte>, ok: bool)
    requires before <= ep.conn.log && ep.Sent(ep.conn.log[|before|..], if ok then [packet] else [])
    ensures ok ==> |EncodeAll(ep.conn.log)| > |EncodeAll(before)|
  {
    hide EncodeAll;
    var b := ep.conn.log[|before|..];
    assert ep.conn.log == before + b;
    EncodeAllAppend(before, b);
    EncodeAllFirst(b);
  }

  lemma OnePart(data: seq<byte>, i: nat, plen: nat)
    requires i + plen <= |data|
    ensures var v := [IoVec(data[i..], plen)];
            Backed(v) && Whole(v) && Total(v) == plen && Body(v) == data[i..i + plen]
  {
    var v := [IoVec(data[i..], plen)];
    assert v[0].Data() == data[i..][..plen] == data[i..i + plen];
    assert Datas(v) == [data[i..i + plen]];
    FlattenSingle(data[i..i + plen]);
    assert v[1..] == [];
  }

  lemma LogBefore(ep: Endpoint)
    requires ep.Valid()
    ensures ep.payload < 128 && ep.conn.accepted == EncodeAll(ep.conn.log)
  {
  }

  lemma PacketBody(ep: Endpoint, body: seq<byte>, timestamp: nat, seqnum: nat)
    requires ep.payload < 128
    ensures BodyOf(ep.PacketFor(body, timestamp, false, seqnum)) == body
    ensures HeaderOf(ep.PacketFor(body, timestamp, false, seqnum)).timestamp ==
            (ep.startTimestamp + timestamp) % 0x1_0000_0000
  {
    HeaderFields(ep.payload, false, seqnum, (ep.startTimestamp + timestamp) % 0x1_0000_0000, ep.ssrc, body);
  }
}
