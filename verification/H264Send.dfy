// h263_send: one encoded frame out as RTP packets (spook/rtp-h263.c).
module H264Send {
  import opened Bytes
  import opened AnnexB
  import opened FuA
  import Wire
  import opened Rtp
  import opened Tcp

  predicate AllWellFormed(nals: seq<seq<byte>>) {
    forall i :: 0 <= i < |nals| ==> WellFormedNal(nals[i])
  }

  /** Every unit has at least a four-byte start code and a NAL header. */
  predicate AllLong(units: seq<seq<byte>>) {
    forall i :: 0 <= i < |units| ==> |units[i]| >= 5
  }

  /** The NAL unit in a loaded unit, the start code taken to be four bytes. */
  function NalOf(unit: seq<byte>): seq<byte> { if |unit| < 5 then [0] else unit[4..] }

  /** The four bytes are taken for granted: behind a start code of any other
      length the NAL unit is mangled, by its own header or by a byte too many. */
  lemma RecoveredIffFourByteCode(code: seq<byte>, nal: seq<byte>)
    requires |code| >= 3 && Zeros(code, 0, |code| - 1) && code[|code| - 1] == 1
    requires nal != [] && |code| + |nal| >= 5
    ensures NalOf(code + nal) == nal <==> |code| == 4
  {
    assert NalOf(code + nal) == (code + nal)[4..];
    if |code| == 4 { assert (code + nal)[4..] == nal; }
  }

  function NalsOf(units: seq<seq<byte>>): (nals: seq<seq<byte>>)
    ensures |nals| == |units|
    ensures forall i :: 0 <= i < |nals| ==> nals[i] == NalOf(units[i]) && nals[i] != []
  {
    seq(|units|, i requires 0 <= i < |units| => NalOf(units[i]))
  }

  /** The packets of an endpoint for the given payloads, numbered from s on. */
  ghost function Stamp(ep: Endpoint, ps: seq<Packet>, timestamp: nat, s: nat): (r: seq<seq<byte>>)
    requires ep.payload < 128
    decreases |ps|
  {
    if ps == [] then []
    else [ep.PacketFor(ps[0].payload, timestamp, ps[0].marker, s % SEQ_MOD)] + Stamp(ep, ps[1..], timestamp, s + 1)
  }

  lemma {:induction false} StampAppend(ep: Endpoint, ps: seq<Packet>, qs: seq<Packet>, timestamp: nat, s: nat)
    requires ep.payload < 128
    ensures Stamp(ep, ps + qs, timestamp, s) == Stamp(ep, ps, timestamp, s) + Stamp(ep, qs, timestamp, s + |ps|)
    decreases |ps|
  {
    if ps == [] {
      assert ps + qs == qs;
    } else {
      assert (ps + qs)[1..] == ps[1..] + qs;
      StampAppend(ep, ps[1..], qs, timestamp, s + 1);
    }
  }

  lemma StampOne(ep: Endpoint, p: Packet, timestamp: nat, s: nat)
    requires ep.payload < 128
    ensures Stamp(ep, [p], timestamp, s) == [ep.PacketFor(p.payload, timestamp, p.marker, s % SEQ_MOD)]
  {
  }

  /** What an attempt to send ps in order adds to the connection, and how far
      it takes the packet number: every packet was queued, or all before the
      first one refused, and that one used up a number too. */
  ghost predicate Tried(ep: Endpoint, added: seq<Wire.Message>, s: nat, s': nat,
                        ps: seq<Packet>, timestamp: nat, sent: nat, ok: bool)
    requires ep.payload < 128
  {
    && sent <= |ps| && (ok <==> sent == |ps|)
    && ep.Sent(added, Stamp(ep, ps[..sent], timestamp, s))
    && s' == s + sent + if ok then 0 else 1
  }

  lemma TriedThen(ep: Endpoint, a: seq<Wire.Message>, b: seq<Wire.Message>, s: nat, s': nat, s'': nat,
                  ps: seq<Packet>, qs: seq<Packet>, timestamp: nat, sent: nat, ok: bool)
    requires ep.payload < 128
    requires Tried(ep, a, s, s', ps, timestamp, |ps|, true)
    requires Tried(ep, b, s', s'', qs, timestamp, sent, ok)
    ensures Tried(ep, a + b, s, s'', ps + qs, timestamp, |ps| + sent, ok)
  {
    assert ps[..|ps|] == ps;
    assert (ps + qs)[..|ps| + sent] == ps + qs[..sent];
    Wire.OnChannelAppend(a, b, ep.rtpChan);
    StampAppend(ep, ps, qs[..sent], timestamp, s);
  }

  /** The state of ep against a point in the past, when its connection had
      carried log and its next packet was number s. */
  ghost predicate TriedSince(ep: Endpoint, log: seq<Wire.Message>, s: nat,
                             ps: seq<Packet>, timestamp: nat, sent: nat, ok: bool)
    reads ep, ep.conn, ep.conn.sendBuf
  {
    && ep.Valid() && log <= ep.conn.log
    && Tried(ep, ep.conn.log[|log|..], s, ep.Count(), ps, timestamp, sent, ok)
  }

  lemma NothingTried(ep: Endpoint, timestamp: nat)
    requires ep.Valid()
    ensures TriedSince(ep, ep.conn.log, ep.Count(), [], timestamp, 0, true)
  {
  }

  /** A refusal at packet sent says nothing about the packets after it. */
  lemma RefusedWithin(ep: Endpoint, log: seq<Wire.Message>, s: nat,
                      ps: seq<Packet>, all: seq<Packet>, timestamp: nat, sent: nat)
    requires ps <= all && TriedSince(ep, log, s, ps, timestamp, sent, false)
    ensures TriedSince(ep, log, s, all, timestamp, sent, false)
  {
    assert all[..sent] == ps[..sent];
  }

  /** One more packet, in the parts handed to send_rtp_packet. */
  method SendPayload(ep: Endpoint, v: seq<IoVec>, marker: bool, timestamp: nat,
                     ghost log: seq<Wire.Message>, ghost s: nat, ghost ps: seq<Packet>)
    returns (ok: bool)
    requires Backed(v) && TriedSince(ep, log, s, ps, timestamp, |ps|, true)
    modifies ep, ep.conn, ep.conn.sendBuf
    ensures ep.Valid() && old(ep.conn.log) <= ep.conn.log && ep.conn.written == old(ep.conn.written)
    ensures ok <==> old(ep.conn.Avail()) >= 12 + Total(v) + 4
    ensures ep.torn == (old(ep.torn) || (ok && !Whole(v)))
    ensures ep.Added(ep.conn.log[|old(ep.conn.log)|..],
                     if ok then [ep.Sending(v, timestamp, marker, old(ep.seqnum), old(ep.conn.Avail()))] else [])
    ensures Whole(v) ==>
              TriedSince(ep, log, s, ps + [Packet(Body(v), marker)], timestamp, |ps| + if ok then 1 else 0, ok)
  {
    hide Queued, Total, Endpoint.Added, Endpoint.Recorded, Endpoint.Sent, Tried, Body, Conn.Valid;
    ghost var s', log' := ep.Count(), ep.conn.log;
    ok := ep.SendRtpPacket(v, timestamp, marker);
    if Whole(v) { PacketTried(ep, log, log', s, s', ps, Packet(Body(v), marker), timestamp, ok); }
  }

  lemma PacketTried(ep: Endpoint, log: seq<Wire.Message>, log': seq<Wire.Message>, s: nat, s': nat,
                    ps: seq<Packet>, p: Packet, timestamp: nat, ok: bool)
    requires ep.Valid() && log <= log' <= ep.conn.log && ep.Count() == s' + 1
    requires Tried(ep, log'[|log|..], s, s', ps, timestamp, |ps|, true)
    requires ep.Sent(ep.conn.log[|log'|..],
                     if ok then [ep.PacketFor(p.payload, timestamp, p.marker, s' % SEQ_MOD)] else [])
    ensures TriedSince(ep, log, s, ps + [p], timestamp, |ps| + if ok then 1 else 0, ok)
  {
    var a, b := log'[|log|..], ep.conn.log[|log'|..];
    assert ep.conn.log[|log|..] == a + b;
    StampOne(ep, p, timestamp, s');
    assert [p][..1] == [p] && [p][..0] == [];
    TriedThen(ep, a, b, s, s', ep.Count(), ps, [p], timestamp, if ok then 1 else 0, ok);
  }

  lemma PartsPair(a: seq<byte>, b: seq<byte>)
    ensures Body([Part(a), Part(b)]) == a + b && Total([Part(a), Part(b)]) == |a| + |b|
  {
    assert [Part(a), Part(b)] == [Part(a)] + [Part(b)];
    PartsCons(a, [Part(b)]);
    SinglePart(b);
  }

  /** The fragment of a NAL unit that starts at curr. */
  function FragmentAt(nal: seq<byte>, curr: nat): Packet
    requires 1 <= curr < |nal|
  {
    var end := |nal| - curr <= MAX_RTP_PKT_LENGTH;
    Packet([FuIndicator(nal[0]), FuHeader(nal[0], curr == 1, end)]
           + nal[curr..if end then |nal| else curr + MAX_RTP_PKT_LENGTH], end)
  }

  /** The fragments still to come when the body has been sent up to curr. */
  function Rest(nal: seq<byte>, curr: nat): seq<Packet>
    requires nal != [] && curr >= 1
  {
    if curr >= |nal| then [] else Fragments(nal[0], nal[curr..], curr == 1)
  }

  lemma RestAll(nal: seq<byte>)
    requires |nal| - 1 > MAX_RTP_PKT_LENGTH
    ensures [] + Rest(nal, 1) == Packetize(nal)
  {
  }

  lemma RestStep(nal: seq<byte>, curr: nat, done: seq<Packet>)
    requires 1 <= curr < |nal|
    ensures done + Rest(nal, curr) == (done + [FragmentAt(nal, curr)]) + Rest(nal, curr + MAX_RTP_PKT_LENGTH)
  {
    var body := nal[curr..];
    if |body| > MAX_RTP_PKT_LENGTH {
      assert body[..MAX_RTP_PKT_LENGTH] == nal[curr..curr + MAX_RTP_PKT_LENGTH];
      assert body[MAX_RTP_PKT_LENGTH..] == nal[curr + MAX_RTP_PKT_LENGTH..];
    } else {
      assert body == nal[curr..|nal|];
    }
    assert Rest(nal, curr) == [FragmentAt(nal, curr)] + Rest(nal, curr + MAX_RTP_PKT_LENGTH);
  }

  /** The fragmentation loop. */
  method SendFragments(ep: Endpoint, nal: seq<byte>, timestamp: nat) returns (ok: bool, ghost sent: nat)
    requires ep.Valid() && |nal| - 1 > MAX_RTP_PKT_LENGTH
    modifies ep, ep.conn, ep.conn.sendBuf
    ensures TriedSince(ep, old(ep.conn.log), old(ep.Count()), Packetize(nal), timestamp, sent, ok)
    ensures ep.torn == old(ep.torn) && ep.conn.written == old(ep.conn.written)
  {
    hide TriedSince, FragmentAt, Packetize;
    var remain := |nal| - 1;
    var curr := 1;
    sent, ok := 0, true;
    ghost var log, s := ep.conn.log, ep.Count();
    ghost var done: seq<Packet> := [];
    NothingTried(ep, timestamp);
    RestAll(nal);
    while remain > 0
      invariant 1 <= curr && remain == |nal| - curr && sent == |done| && ok
      invariant done + Rest(nal, curr) == Packetize(nal)
      invariant TriedSince(ep, log, s, done, timestamp, sent, true)
      invariant ep.torn == old(ep.torn) && ep.conn.written == old(ep.conn.written)
    {
      RestStep(nal, curr, done);
      ok := SendFragment(ep, nal, curr, remain, timestamp, log, s, done);
      done := done + [FragmentAt(nal, curr)];
      if !ok {
        RefusedWithin(ep, log, s, done, Packetize(nal), timestamp, sent);
        return;
      }
      sent := sent + 1;
      curr := curr + MAX_RTP_PKT_LENGTH;
      remain := remain - MAX_RTP_PKT_LENGTH;
    }
    assert done == Packetize(nal);
  }

  /** One turn of the fragmentation loop: S, E and the marker come from remain. */
  method SendFragment(ep: Endpoint, nal: seq<byte>, curr: nat, remain: nat, timestamp: nat,
                      ghost log: seq<Wire.Message>, ghost s: nat, ghost done: seq<Packet>)
    returns (ok: bool)
    requires 1 <= curr < |nal| && remain == |nal| - curr
    requires TriedSince(ep, log, s, done, timestamp, |done|, true)
    modifies ep, ep.conn, ep.conn.sendBuf
    ensures TriedSince(ep, log, s, done + [FragmentAt(nal, curr)], timestamp, |done| + if ok then 1 else 0, ok)
    ensures ep.torn == old(ep.torn) && ep.conn.written == old(ep.conn.written)
  {
    hide TriedSince, Endpoint.Valid, Endpoint.Added, Queued, FragmentAt, Body, Total, FuIndicator, FuHeader;
    var end := remain <= MAX_RTP_PKT_LENGTH;
    var start := remain == |nal| - 1;
    var bytes := if remain < MAX_RTP_PKT_LENGTH then remain else MAX_RTP_PKT_LENGTH;
    var head := [FuIndicator(nal[0]), FuHeader(nal[0], start, end)];
    var body := nal[curr..curr + bytes];
    PartsPair(head, body);
    FragmentIs(nal, curr, remain);
    ok := SendPayload(ep, [Part(head), Part(body)], end, timestamp, log, s, done);
  }

  lemma FragmentIs(nal: seq<byte>, curr: nat, remain: nat)
    requires 1 <= curr < |nal| && remain == |nal| - curr
    ensures var end := remain <= MAX_RTP_PKT_LENGTH;
            var bytes := if remain < MAX_RTP_PKT_LENGTH then remain else MAX_RTP_PKT_LENGTH;
            FragmentAt(nal, curr) ==
            Packet([FuIndicator(nal[0]), FuHeader(nal[0], remain == |nal| - 1, end)] + nal[curr..curr + bytes], end)
  {
  }

  /** The parts of an unfragmented packet, hdr being the byte of the unit
      buffer behind a four-byte start code. Of a unit shorter than five bytes
      that byte is not part, and the last part gets a negative length. */
  function UnitParts(unit: seq<byte>, hdr: byte): seq<IoVec> {
    [Part([FNri(hdr) + NalType(hdr)]), IoVec(if |unit| < 5 then [] else unit[5..], |unit| - 5)]
  }

  predicate Marked(hdr: byte) { NalType(hdr) !in {6, 7, 8} }

  /** The body of the send loop for one loaded unit. */
  method SendUnit(ep: Endpoint, unit: seq<byte>, hdr: byte, timestamp: nat) returns (ok: bool, ghost sent: nat)
    requires ep.Valid() && (|unit| >= 5 ==> hdr == unit[4])
    modifies ep, ep.conn, ep.conn.sendBuf
    ensures ep.Valid() && old(ep.conn.log) <= ep.conn.log && ep.conn.written == old(ep.conn.written)
    ensures ep.torn == (old(ep.torn) || (ok && |unit| < 5))
    ensures |unit| >= 5 ==>
              TriedSince(ep, old(ep.conn.log), old(ep.Count()), Packetize(NalOf(unit)), timestamp, sent, ok)
    ensures |unit| < 5 ==>
              && (ok <==> old(ep.conn.Avail()) >= |unit| + 12)
              && ep.Added(ep.conn.log[|old(ep.conn.log)|..],
                          if ok then [UnitSent(ep, unit, hdr, timestamp, old(ep.seqnum), old(ep.conn.Avail()))] else [])
  {
    hide Endpoint.Added, Queued, Endpoint.Recorded;
    var remain := |unit| - 5;
    if remain <= MAX_RTP_PKT_LENGTH {
      NothingTried(ep, timestamp);
      UnitTotal(unit, hdr);
      ok := SendPayload(ep, UnitParts(unit, hdr), Marked(hdr), timestamp, ep.conn.log, ep.Count(), []);
      sent := if ok then 1 else 0;
      assert |unit| >= 5 ==> [Packet(NalOf(unit), Marked(hdr))] == [] + [Packet(NalOf(unit), Marked(hdr))];
    } else {
      ok, sent := SendFragments(ep, unit[4..], timestamp);
    }
  }

  lemma TotalOne(p: IoVec)
    ensures Total([p]) == p.len
  {
  }

  lemma UnitTotal(unit: seq<byte>, hdr: byte)
    ensures Backed(UnitParts(unit, hdr)) && Total(UnitParts(unit, hdr)) == |unit| - 4
    ensures Whole(UnitParts(unit, hdr)) <==> |unit| >= 5
    ensures |unit| >= 5 && hdr == unit[4] ==> Body(UnitParts(unit, hdr)) == NalOf(unit)
  {
    var v := UnitParts(unit, hdr);
    assert v == [v[0]] + [v[1]];
    PartsCons([FNri(hdr) + NalType(hdr)], [v[1]]);
    TotalOne(v[1]);
    if |unit| >= 5 && hdr == unit[4] {
      PartsPair([FNri(hdr) + NalType(hdr)], unit[5..]);
      assert Datas(v) == Datas([Part([FNri(hdr) + NalType(hdr)]), Part(unit[5..])]);
      assert [FNri(hdr) + NalType(hdr)] + unit[5..] == NalOf(unit);
    }
  }

  /** What an unfragmented packet is on the connection when it is not refused. */
  function UnitSent(ep: Endpoint, unit: seq<byte>, hdr: byte, timestamp: nat, seqnum: nat, room: nat): Wire.Message
    requires ep.payload < 128
  {
    ep.Sending(UnitParts(unit, hdr), timestamp, Marked(hdr), seqnum, room)
  }

  // ---- A whole frame --------------------------------------------------------

  lemma Accumulate(ep: Endpoint, log: seq<Wire.Message>, log': seq<Wire.Message>, s: nat, s': nat,
                   ps: seq<Packet>, qs: seq<Packet>, timestamp: nat, sent: nat, ok: bool)
    requires ep.payload < 128 && log <= log' && Tried(ep, log'[|log|..], s, s', ps, timestamp, |ps|, true)
    requires TriedSince(ep, log', s', qs, timestamp, sent, ok)
    ensures TriedSince(ep, log, s, ps + qs, timestamp, |ps| + sent, ok)
  {
    assert ep.conn.log[|log|..] == log'[|log|..] + ep.conn.log[|log'|..];
    TriedThen(ep, log'[|log|..], ep.conn.log[|log'|..], s, s', ep.Count(), ps, qs, timestamp, sent, ok);
  }

  /** All packets of the units loaded so far. */
  function PacketsOf(units: seq<seq<byte>>): seq<Packet> {
    PacketizeAll(NalsOf(units))
  }

  lemma PacketsOfSnoc(units: seq<seq<byte>>, unit: seq<byte>)
    ensures PacketsOf(units + [unit]) == PacketsOf(units) + Packetize(NalOf(unit))
  {
    var nals, last := NalsOf(units), NalsOf([unit]);
    assert NalsOf(units + [unit]) == nals + last;
    PacketizeAllAppend(nals, last);
    assert last[1..] == [];
    assert PacketizeAll(last) == Packetize(NalOf(unit)) + [];
  }

  lemma EmptyWithoutCode(nals: seq<seq<byte>>)
    requires NoCode(Frame(nals), 0)
    ensures nals == []
  {
    if nals != [] {
      FrameStartsWithCode(nals);
      FirstCodeExcludesNoCode(Frame(nals), 0, 0, 4);
    }
  }

  /** A client: cut the connection's bytes into messages and take the packets of
      one channel. */
  function ClientPackets(bytes: seq<byte>, chan: byte): Option<seq<seq<byte>>> {
    match Wire.Deframe(bytes)
    case None => None
    case Some(messages) => Some(Wire.OnChannel(messages, chan))
  }

  /** ... strip their headers and reassemble NAL units. */
  function ClientNals(bytes: seq<byte>, chan: byte): Option<seq<seq<byte>>> {
    match ClientPackets(bytes, chan)
    case None => None
    case Some(packets) => Depacketize(Bodies(packets), Idle)
  }

  /** All packets say the same time, and the last of them has the marker and no
      other has, provided that the frame is one picture. */
  predicate Timed(packets: seq<seq<byte>>, time: nat, nals: seq<seq<byte>>) {
    && (forall i :: 0 <= i < |packets| ==> HeaderOf(packets[i]).timestamp == time)
    && ((packets != [] && forall i :: 0 <= i < |packets| ==> (MarkerOf(packets[i]) <==> i == |packets| - 1))
        <==> OnePicture(nals))
  }

  lemma {:induction false} StampAt(ep: Endpoint, ps: seq<Packet>, timestamp: nat, s: nat, i: nat)
    requires ep.payload < 128 && i < |ps|
    ensures |Stamp(ep, ps, timestamp, s)| == |ps|
    ensures Stamp(ep, ps, timestamp, s)[i] == ep.PacketFor(ps[i].payload, timestamp, ps[i].marker, (s + i) % SEQ_MOD)
    decreases |ps|
  {
    if i > 0 { StampAt(ep, ps[1..], timestamp, s + 1, i - 1); } else { StampLength(ep, ps, timestamp, s); }
  }

  lemma {:induction false} StampLength(ep: Endpoint, ps: seq<Packet>, timestamp: nat, s: nat)
    requires ep.payload < 128
    ensures |Stamp(ep, ps, timestamp, s)| == |ps|
    decreases |ps|
  {
    if ps != [] { StampLength(ep, ps[1..], timestamp, s + 1); }
  }

  lemma StampedHeaders(ep: Endpoint, ps: seq<Packet>, timestamp: nat, s: nat)
    requires ep.payload < 128
    ensures |Stamp(ep, ps, timestamp, s)| == |ps|
    ensures forall i :: 0 <= i < |ps| ==>
      HeaderOf(Stamp(ep, ps, timestamp, s)[i]) == Heading(ep.Origin(), s + i, timestamp, ps[i].marker)
      && MarkerOf(Stamp(ep, ps, timestamp, s)[i]) == ps[i].marker
  {
    hide HeaderOf, Heading, MarkerOf, Stamp;
    StampLength(ep, ps, timestamp, s);
    forall i | 0 <= i < |ps|
      ensures HeaderOf(Stamp(ep, ps, timestamp, s)[i]) == Heading(ep.Origin(), s + i, timestamp, ps[i].marker)
              && MarkerOf(Stamp(ep, ps, timestamp, s)[i]) == ps[i].marker
    {
      StampAt(ep, ps, timestamp, s, i);
      StampedHeader(ep, ps[i], timestamp, s + i);
    }
  }

  lemma StampedHeader(ep: Endpoint, p: Packet, timestamp: nat, s: nat)
    requires ep.payload < 128
    ensures var x := ep.PacketFor(p.payload, timestamp, p.marker, s % SEQ_MOD);
            HeaderOf(x) == Heading(ep.Origin(), s, timestamp, p.marker) && MarkerOf(x) == p.marker
  {
    hide HeaderOf;
    HeaderFields(ep.payload, p.marker, s % SEQ_MOD,
                 (ep.startTimestamp + timestamp) % 0x1_0000_0000, ep.ssrc, p.payload);
  }

  lemma FrameTimed(ep: Endpoint, nals: seq<seq<byte>>, timestamp: nat, s: nat)
    requires ep.payload < 128 && forall i :: 0 <= i < |nals| ==> nals[i] != []
    ensures Timed(Stamp(ep, PacketizeAll(nals), timestamp, s), (ep.startTimestamp + timestamp) % 0x1_0000_0000, nals)
  {
    hide PacketizeAll, HeaderOf, MarkerOf, Stamp, OnePicture;
    StampedHeaders(ep, PacketizeAll(nals), timestamp, s);
    MarkedAtEndIff(nals);
  }

  lemma {:induction false} PacketSizes(nals: seq<seq<byte>>)
    requires forall i :: 0 <= i < |nals| ==> nals[i] != []
    ensures forall p :: p in PacketizeAll(nals) ==> |p.payload| <= 2 + MAX_RTP_PKT_LENGTH
  {
    if nals != [] {
      PacketSizes(nals[1..]);
      var nal := nals[0];
      if |nal| - 1 > MAX_RTP_PKT_LENGTH { LongNalWellFragmented(nal); }
    }
  }

  lemma {:induction false} StampedPackets(ep: Endpoint, ps: seq<Packet>, timestamp: nat, s: nat)
    requires ep.payload < 128
    requires forall p :: p in ps ==> |p.payload| <= 2 + MAX_RTP_PKT_LENGTH
    ensures Bodies(Stamp(ep, ps, timestamp, s)) == Payloads(ps)
    ensures forall x :: x in Stamp(ep, ps, timestamp, s) ==> |x| < 65536
    decreases |ps|
  {
    if ps != [] {
      hide BodyOf;
      StampedPackets(ep, ps[1..], timestamp, s + 1);
      var rest := Stamp(ep, ps[1..], timestamp, s + 1);
      var x := Stamped(ep, ps[0], timestamp, s);
      assert Stamp(ep, ps, timestamp, s) == [x] + rest;
      BodiesCons(x, rest);
      PayloadsCons(ps);
    }
  }

  lemma PayloadsCons(ps: seq<Packet>)
    requires ps != []
    ensures Payloads(ps) == [ps[0].payload] + Payloads(ps[1..])
  {
  }

  lemma Stamped(ep: Endpoint, p: Packet, timestamp: nat, s: nat) returns (x: seq<byte>)
    requires ep.payload < 128
    ensures x == ep.PacketFor(p.payload, timestamp, p.marker, s % SEQ_MOD)
    ensures BodyOf(x) == p.payload && |x| == 12 + |p.payload|
  {
    x := ep.PacketFor(p.payload, timestamp, p.marker, s % SEQ_MOD);
    HeaderFields(ep.payload, p.marker, s % SEQ_MOD,
                 (ep.startTimestamp + timestamp) % 0x1_0000_0000, ep.ssrc, p.payload);
  }

  /** What a fully successful send of a well-formed frame adds to the
      connection reads back as that frame's NAL units, in order. */
  lemma FrameReassembled(ep: Endpoint, added: seq<Wire.Message>, s: nat, s': nat,
                         nals: seq<seq<byte>>, units: seq<seq<byte>>, timestamp: nat, sent: nat)
    requires ep.payload < 128 && AllWellFormed(nals) && Partition(Frame(nals), units)
    requires Tried(ep, added, s, s', PacketsOf(units), timestamp, sent, true)
    ensures ClientPackets(Wire.EncodeAll(added), ep.rtpChan) == Some(Stamp(ep, PacketizeAll(nals), timestamp, s))
    ensures ClientNals(Wire.EncodeAll(added), ep.rtpChan) == Some(nals)
  {
    FramePartition(nals, units);
    UnitsGiveNals(nals);
    assert NalsOf(units) == nals;
    var ps := PacketizeAll(nals);
    assert ps[..sent] == ps;
    PacketSizes(nals);
    StampedPackets(ep, ps, timestamp, s);
    SentWellFormed(ep, added, Stamp(ep, ps, timestamp, s));
    Wire.DeframeEncoded(added);
    DepacketizePacketized(nals);
  }

  lemma {:induction false} UnitAt(nals: seq<seq<byte>>, i: nat)
    requires i < |nals|
    ensures Units(nals)[i] == START_CODE + nals[i]
  {
    if i > 0 { UnitAt(nals[1..], i - 1); }
  }

  lemma UnitsGiveNals(nals: seq<seq<byte>>)
    requires AllWellFormed(nals)
    ensures NalsOf(Units(nals)) == nals
  {
    hide WellFormedNal, NalOf, Units;
    forall i | 0 <= i < |nals| ensures NalOf(Units(nals)[i]) == nals[i] {
      UnitAt(nals, i);
      NalBehindCode(nals[i]);
    }
  }

  lemma NalBehindCode(nal: seq<byte>)
    requires WellFormedNal(nal)
    ensures NalOf(START_CODE + nal) == nal
  {
    assert (START_CODE + nal)[4..] == nal;
  }

  /** The messages of packets of long units all fit their headers. */
  lemma TriedWellFormed(ep: Endpoint, added: seq<Wire.Message>, s: nat, s': nat, nals: seq<seq<byte>>,
                        timestamp: nat, sent: nat, ok: bool)
    requires ep.payload < 128 && forall i :: 0 <= i < |nals| ==> nals[i] != []
    requires Tried(ep, added, s, s', PacketizeAll(nals), timestamp, sent, ok)
    ensures Wire.AllWellFormed(added)
  {
    hide Wire.WellFormed, Stamp, Packetize, PacketizeAll, Endpoint.Sent;
    var ps := PacketizeAll(nals)[..sent];
    PacketSizes(nals);
    StampedPackets(ep, ps, timestamp, s);
    SentWellFormed(ep, added, Stamp(ep, ps, timestamp, s));
  }

  /** The same, read off the connection after the send. */
  lemma ClientRecovers(ep: Endpoint, log: seq<Wire.Message>, s: nat, nals: seq<seq<byte>>,
                       units: seq<seq<byte>>, timestamp: nat, sent: nat)
    requires AllWellFormed(nals) && Partition(Frame(nals), units)
    requires TriedSince(ep, log, s, PacketsOf(units), timestamp, sent, true)
    ensures |Wire.EncodeAll(log)| <= |ep.conn.accepted|
    ensures ClientNals(ep.conn.accepted[|Wire.EncodeAll(log)|..], ep.rtpChan) == Some(nals)
    ensures var packets := ClientPackets(ep.conn.accepted[|Wire.EncodeAll(log)|..], ep.rtpChan);
            packets.Some? && Timed(packets.value, (ep.startTimestamp + timestamp) % 0x1_0000_0000, nals)
  {
    NalsNotEmpty(nals);
    FrameTimed(ep, nals, timestamp, s);
    hide Tried, ClientPackets, ClientNals, Partition, PacketsOf, AllWellFormed, Wire.EncodeAll, Timed, Stamp,
         PacketizeAll;
    var added := ep.conn.log[|log|..];
    FrameReassembled(ep, added, s, ep.Count(), nals, units, timestamp, sent);
    assert ep.conn.log == log + added;
    Wire.EncodeAllAppend(log, added);
  }

  lemma NalsNotEmpty(nals: seq<seq<byte>>)
    requires AllWellFormed(nals)
    ensures forall i :: 0 <= i < |nals| ==> nals[i] != []
  {
  }

  /** units are what successive loads cut from the first used bytes of d. */
  ghost predicate Loaded(d: seq<byte>, units: seq<seq<byte>>, used: nat)
    decreases |units|
  {
    if units == [] then
      used == 0
    else
      var unit := units[|units| - 1];
      && |unit| <= used <= |d| && d[used - |unit|..used] == unit
      && Loads(d[used - |unit|..], |unit|)
      && Loaded(d, units[..|units| - 1], used - |unit|)
  }

  lemma LoadedSnoc(d: seq<byte>, units: seq<seq<byte>>, used: nat, next: nat)
    requires used <= next <= |d| && Loaded(d, units, used)
    requires Loads(d[used..], next - used)
    ensures Loaded(d, units + [d[used..next]], next)
  {
    hide Loads;
    var all := units + [d[used..next]];
    assert all[..|all| - 1] == units;
  }

  lemma {:induction false} LoadedThen(d: seq<byte>, units: seq<seq<byte>>, used: nat, more: seq<seq<byte>>)
    requires used <= |d| && Loaded(d, units, used) && Partition(d[used..], more)
    ensures Partition(d, units + more)
    decreases |units|
  {
    hide Loads, Partition;
    if units == [] {
      assert d[0..] == d && units + more == more;
    } else {
      hide Loaded;
      var n := |units| - 1;
      var unit := units[n];
      LoadedLast(d, units, used);
      var rest := d[used - |unit|..];
      assert rest[..|unit|] == unit && rest[|unit|..] == d[used..];
      PartitionCons(rest, unit, more);
      LoadedThen(d, units[..n], used - |unit|, [unit] + more);
      assert units[..n] + ([unit] + more) == units + more;
    }
  }

  lemma LoadedLast(d: seq<byte>, units: seq<seq<byte>>, used: nat)
    requires units != [] && Loaded(d, units, used)
    ensures var unit := units[|units| - 1];
            && |unit| <= used <= |d| && d[used - |unit|..used] == unit
            && Loads(d[used - |unit|..], |unit|)
            && Loaded(d, units[..|units| - 1], used - |unit|)
  {
  }

  lemma PartitionCons(d: seq<byte>, unit: seq<byte>, more: seq<seq<byte>>)
    requires |unit| <= |d| && d[..|unit|] == unit && Loads(d, |unit|)
    requires Partition(d[|unit|..], more)
    ensures Partition(d, [unit] + more)
  {
    hide Loads;
    assert ([unit] + more)[1..] == more;
  }

  lemma LoadedAll(d: seq<byte>, units: seq<seq<byte>>)
    requires Loaded(d, units, |d|)
    ensures Partition(d, units)
  {
    assert d[|d|..] == [] && units + [] == units;
    LoadedThen(d, units, |d|, []);
  }

  /** Where the send loop stands: units have been loaded and their packets
      sent, the last one perhaps in part. As long as all of them were long
      enough, the connection has carried what it should. */
  ghost predicate UnitsTried(ep: Endpoint, log: seq<Wire.Message>, s: nat, units: seq<seq<byte>>,
                             timestamp: nat, sent: nat, ok: bool)
    reads ep, ep.conn, ep.conn.sendBuf
  {
    && ep.Valid() && log <= ep.conn.log
    && (AllLong(units) ==> TriedSince(ep, log, s, PacketsOf(units), timestamp, sent, ok))
    && (ok && AllLong(units) ==> sent == |PacketsOf(units)|)
  }

  /** The body of the send loop behind the load. */
  method SendAfter(ep: Endpoint, unit: seq<byte>, hdr: byte, timestamp: nat, ghost log: seq<Wire.Message>,
                   ghost s: nat, ghost before: seq<seq<byte>>, ghost already: nat)
    returns (ok: bool, ghost sent: nat)
    requires UnitsTried(ep, log, s, before, timestamp, already, true) && (|unit| >= 5 ==> hdr == unit[4])
    modifies ep, ep.conn, ep.conn.sendBuf
    ensures UnitsTried(ep, log, s, before + [unit], timestamp, sent, ok)
    ensures ep.torn == (old(ep.torn) || (ok && |unit| < 5))
    ensures ep.conn.written == old(ep.conn.written)
    ensures ok && |unit| < 5 ==> |ep.conn.accepted| >= |old(ep.conn.accepted)| + 4
    ensures |ep.conn.accepted| >= |old(ep.conn.accepted)|
  {
    hide Tried, PacketsOf, Endpoint.Valid, Endpoint.Added, Wire.EncodeAll, Wire.Encode, Queued, UnitSent;
    ghost var log', s', ps, qs := ep.conn.log, ep.Count(), PacketsOf(before), Packetize(NalOf(unit));
    LogIs(ep);
    UnitHeavy(ep, unit, hdr, timestamp, ep.seqnum, ep.conn.Avail());
    ok, sent := SendUnit(ep, unit, hdr, timestamp);
    LogIs(ep);
    PacketsOfSnoc(before, unit);
    LongSnoc(before, unit);
    AcceptedGrows(ep, log');
    if ok && |unit| < 5 {
      AddedGrows(ep, log', UnitSent(ep, unit, hdr, timestamp, old(ep.seqnum), old(ep.conn.Avail())));
    }
    if AllLong(before + [unit]) {
      TriedLength(ep, log', s', qs, timestamp, sent, ok);
      Accumulate(ep, log, log', s, s', ps, qs, timestamp, sent, ok);
      sent := |ps| + sent;
    }
  }

  lemma LogIs(ep: Endpoint)
    requires ep.Valid()
    ensures ep.payload < 128 && ep.conn.Valid() && ep.conn.accepted == Wire.EncodeAll(ep.conn.log)
  {
  }

  lemma UnitHeavy(ep: Endpoint, unit: seq<byte>, hdr: byte, timestamp: nat, seqnum: nat, room: nat)
    requires ep.payload < 128
    ensures |unit| < 5 && room >= |unit| + 12 ==>
              |Wire.Encode(UnitSent(ep, unit, hdr, timestamp, seqnum, room))| >= 4
  {
    if |unit| < 5 && room >= |unit| + 12 { ShortFits(ep, unit, hdr, UnitHeader(ep, hdr, timestamp, seqnum), room); }
  }

  lemma AddedGrows(ep: Endpoint, log: seq<Wire.Message>, m: Wire.Message)
    requires ep.Valid() && log <= ep.conn.log && ep.Added(ep.conn.log[|log|..], [m])
    ensures |ep.conn.accepted| >= |Wire.EncodeAll(log)| + |Wire.Encode(m)|
  {
    hide Wire.Encode, Wire.EncodeAll;
    var added := ep.conn.log[|log|..];
    assert ep.conn.log == log + added;
    LogIs(ep);
    Wire.EncodeAllAppend(log, added);
    assert added[0] == m;
    Wire.EncodeAllFirst(added);
  }

  lemma LongSnoc(units: seq<seq<byte>>, unit: seq<byte>)
    ensures AllLong(units + [unit]) <==> AllLong(units) && |unit| >= 5
  {
    var all := units + [unit];
    assert all[|units|] == unit && forall i :: 0 <= i < |units| ==> all[i] == units[i];
  }

  lemma TriedLength(ep: Endpoint, log: seq<Wire.Message>, s: nat, ps: seq<Packet>, timestamp: nat, sent: nat, ok: bool)
    requires TriedSince(ep, log, s, ps, timestamp, sent, ok)
    ensures ok ==> sent == |ps|
  {
  }

  class Sender {
    const bsBuf: array<byte>   // m_ph264BSBuf

    constructor (size: nat)
      ensures bsBuf.Length == size && fresh(bsBuf)
    {
      bsBuf := new byte[size];
    }

    /** h263_send of any frame, and the point of it all: from the bytes queued
        for a well-formed frame a client recovers exactly its NAL units. The
        loop always ends: when loads get stuck, each turn still queues bytes
        until the connection refuses, so that the send fails. It overruns the
        unit buffer if and only if it comes to a unit that is longer. */
    method Send(ep: Endpoint, d: seq<byte>, timestamp: nat)
      returns (r: Result, ghost units: seq<seq<byte>>, ghost used: nat, ghost sent: nat)
      requires ep.Valid() && 5 <= bsBuf.Length && bsBuf != ep.conn.sendBuf
      modifies ep, ep.conn, ep.conn.sendBuf, bsBuf
      ensures Loaded(d, units, used)
      ensures (r.Overrun? <==> !Fits(units, bsBuf.Length)) && (!r.Done? ==> units != [])
      ensures UnitsTried(ep, old(ep.conn.log), old(ep.Count()), Attempted(units, r), timestamp, sent, !r.Refused?)
      ensures ep.torn == (old(ep.torn) || !AllLong(Finished(units, r)))
      ensures r.Done? ==> CodeNear(d) && (Partition(d, units) || (NoCode(d, 0) && units == []))
      ensures |old(ep.conn.accepted)| <= |ep.conn.accepted|
      ensures AllLong(Attempted(units, r)) ==> Wire.AllWellFormed(ep.conn.log[|old(ep.conn.log)|..])
      ensures r.Done? ==> forall nals | AllWellFormed(nals) && d == Frame(nals) ::
                ClientNals(ep.conn.accepted[|old(ep.conn.accepted)|..], ep.rtpChan) == Some(nals)
      ensures r.Done? ==> forall nals | AllWellFormed(nals) && d == Frame(nals) ::
                var packets := ClientPackets(ep.conn.accepted[|old(ep.conn.accepted)|..], ep.rtpChan);
                packets.Some? && Timed(packets.value, (ep.startTimestamp + timestamp) % 0x1_0000_0000, nals)
    {
      hide Timed;
      ghost var log, s := ep.conn.log, ep.Count();
      r, units, used, sent := SendUnits(ep, d, timestamp);
      AcceptedGrows(ep, log);
      if AllLong(Attempted(units, r)) {
        TriedWellFormed(ep, ep.conn.log[|log|..], s, ep.Count(), NalsOf(Attempted(units, r)), timestamp, sent,
          !r.Refused?);
      }
      forall nals | r.Done? && AllWellFormed(nals) && d == Frame(nals)
        ensures ClientNals(ep.conn.accepted[|Wire.EncodeAll(log)|..], ep.rtpChan) == Some(nals)
        ensures var packets := ClientPackets(ep.conn.accepted[|Wire.EncodeAll(log)|..], ep.rtpChan);
                packets.Some? && Timed(packets.value, (ep.startTimestamp + timestamp) % 0x1_0000_0000, nals)
      {
        if !Partition(d, units) { EmptyWithoutCode(nals); }
        FrameLong(nals, units);
        ClientRecovers(ep, log, s, nals, units, timestamp, sent);
      }
    }

    /** The loop of h263_send. A frame without any start code is skipped. */
    method SendUnits(ep: Endpoint, d: seq<byte>, timestamp: nat)
      returns (r: Result, ghost units: seq<seq<byte>>, ghost used: nat, ghost sent: nat)
      requires ep.Valid() && 5 <= bsBuf.Length && bsBuf != ep.conn.sendBuf
      modifies ep, ep.conn, ep.conn.sendBuf, bsBuf
      ensures Loaded(d, units, used)
      ensures (r.Overrun? <==> !Fits(units, bsBuf.Length)) && (!r.Done? ==> units != [])
      ensures UnitsTried(ep, old(ep.conn.log), old(ep.Count()), Attempted(units, r), timestamp, sent, !r.Refused?)
      ensures ep.torn == (old(ep.torn) || !AllLong(Finished(units, r)))
      ensures r.Done? ==> CodeNear(d) && (Partition(d, units) || (NoCode(d, 0) && units == []))
      ensures ep.conn.written == old(ep.conn.written)
    {
      hide UnitsTried, Loaded, Ready, CodeNear, NoCode, AllLong, Fits, Endpoint.Valid;
      var decodeUsed := 0;
      units, used, sent, r := [], 0, 0, Done;
      ghost var log, s := ep.conn.log, ep.Count();
      NothingSent(ep, timestamp);
      ReadyStart(d, bsBuf.Length);
      while decodeUsed < |d|
        invariant r.Done? && 0 <= decodeUsed == used <= |d| && ep.conn.written == old(ep.conn.written)
        invariant UnitsTried(ep, log, s, units, timestamp, sent, true)
        invariant ep.torn == (old(ep.torn) || !AllLong(units))
        invariant Ready(d, units, used) && Fits(units, bsBuf.Length)
        decreases |d| - used, |ep.conn.written| + SEND_BUFFER - |ep.conn.accepted|
      {
        RoomLeft(ep, log, s, units, timestamp, sent);
        ReadyLoaded(d, units, used);
        ghost var before := units;
        var load, ok, next;
        load, ok, next, units, sent := SendNext(ep, d, decodeUsed, timestamp, log, s, units, sent);
        if load.BadStream? {
          Unready(d, units, used);
          return;
        }
        used := next;
        FitsNext(before, units, bsBuf.Length);
        ReadyLoaded(d, units, used);
        if load.LoadOverrun? { r := Overrun; return; }
        if !ok { r := Refused; return; }
        decodeUsed := next;
      }
      ReadyLoaded(d, units, used);
      ReadyEnd(d, units);
    }

    /** One turn of the send loop: load the next unit, up to next, and send its
        packets. */
    method SendNext(ep: Endpoint, d: seq<byte>, used: nat, timestamp: nat, ghost log: seq<Wire.Message>,
                    ghost s: nat, ghost before: seq<seq<byte>>, ghost already: nat)
      returns (load: Load, ok: bool, next: nat, ghost units: seq<seq<byte>>, ghost sent: nat)
      requires used < |d| && 5 <= bsBuf.Length && bsBuf != ep.conn.sendBuf && Ready(d, before, used)
      requires UnitsTried(ep, log, s, before, timestamp, already, true)
      modifies ep, ep.conn, ep.conn.sendBuf, bsBuf
      ensures load.BadStream? <==> NoCode(d[used..], 0)
      ensures load.BadStream? ==> units == before
      ensures !load.LoadOk? ==> ok && ep.torn == old(ep.torn)
      ensures !load.BadStream? ==>
                used <= next <= |d| && |units| == |before| + 1 && units[..|before|] == before && Ready(d, units, next)
      ensures !load.BadStream? ==> (load.LoadOverrun? <==> |units[|before|]| > bsBuf.Length)
      ensures load.LoadOk? ==> ep.torn == (old(ep.torn) || (ok && !AllLong(units[|before|..])))
      ensures AllLong(units) <==> AllLong(before) && AllLong(units[|before|..])
      ensures UnitsTried(ep, log, s, if load.LoadOk? then units else before, timestamp, sent, ok)
      ensures ep.conn.written == old(ep.conn.written)
      ensures load.LoadOk? && ok && next == used ==> |ep.conn.accepted| > |old(ep.conn.accepted)|
    {
      hide UnitsTried, Ready, NoCode, Endpoint.Valid;
      var n;
      load, n := LoadUnit(d, used, before);
      units, ok, sent, next := before, true, already, used + n;
      assert before + [] == before;
      if load.BadStream? { return; }
      ghost var unit := d[used..][..n];
      units := before + [unit];
      LongSnoc(before, unit);
      LongSnoc([], unit);
      assert units[|before|..] == [] + [unit];
      if load.LoadOverrun? { return; }
      ok, sent := SendAfter(ep, bsBuf[..n], bsBuf[4], timestamp, log, s, before, already);
    }

    method LoadUnit(d: seq<byte>, used: nat, ghost units: seq<seq<byte>>) returns (load: Load, n: nat)
      requires used < |d| && Ready(d, units, used)
      modifies bsBuf
      ensures load.BadStream? <==> NoCode(d[used..], 0)
      ensures !load.BadStream? ==> n <= |d| - used && Ready(d, units + [d[used..][..n]], used + n)
      ensures !load.BadStream? ==> (load.LoadOverrun? <==> n > bsBuf.Length)
      ensures load.LoadOk? ==> bsBuf[..n] == d[used..][..n]
    {
      var rest := d[used..];
      var bs := new Bitstream(rest, bsBuf);
      load := bs.LoadNalu();
      n := bs.used;
      if !load.BadStream? { ReadyNext(d, units, used, n); }
    }
  }

  /** What comes of h263_send: 0, -1, or a store behind the end of the unit
      buffer, where the model stops. */
  datatype Result = Done | Refused | Overrun

  /** Every unit fits a buffer of the given size. */
  predicate Fits(units: seq<seq<byte>>, size: nat) {
    forall i :: 0 <= i < |units| ==> |units[i]| <= size
  }

  lemma FitsNext(before: seq<seq<byte>>, units: seq<seq<byte>>, size: nat)
    requires |units| == |before| + 1 && units[..|before|] == before
    ensures Fits(units, size) <==> Fits(before, size) && |units[|before|]| <= size
  {
    assert forall i :: 0 <= i < |before| ==> units[i] == before[i];
  }

  /** The units whose packets were tried: an overrun comes before the packets. */
  function Attempted(units: seq<seq<byte>>, r: Result): seq<seq<byte>> {
    if r.Overrun? && units != [] then units[..|units| - 1] else units
  }

  /** The units whose packets were all queued: a send that fails stops at one. */
  function Finished(units: seq<seq<byte>>, r: Result): seq<seq<byte>> {
    if r.Done? || units == [] then units else units[..|units| - 1]
  }

  /** No unit is longer than its frame. */
  lemma {:induction false} LoadedWithin(d: seq<byte>, units: seq<seq<byte>>, used: nat)
    requires used <= |d| && Loaded(d, units, used)
    ensures Fits(units, |d|)
    decreases |units|
  {
    if units != [] {
      hide Loads;
      var n := |units| - 1;
      LoadedWithin(d, units[..n], used - |units[n]|);
      FitsNext(units[..n], units, |d|);
    }
  }

  // ---- Well-formed frames, as far as they are loaded -------------------------------

  /** The units loaded from a well-formed frame are its first NAL units. */
  lemma {:induction false} LoadedFrame(nals: seq<seq<byte>>, units: seq<seq<byte>>, used: nat)
    requires AllWellFormed(nals) && Loaded(Frame(nals), units, used)
    ensures |units| <= |nals| && used <= |Frame(nals)| && Frame(nals)[used..] == Frame(nals[|units|..])
    ensures forall i :: 0 <= i < |units| ==> units[i] == START_CODE + nals[i]
    decreases |units|
  {
    hide Loads, WellFormedNal, Frame;
    var d := Frame(nals);
    if units == [] {
      assert d[0..] == d && nals[0..] == nals;
    } else {
      var n := |units| - 1;
      LoadedLast(d, units, used);
      LoadedFrame(nals, units[..n], used - |units[n]|);
      NextUnit(nals[n..], |units[n]|);
      assert nals[n..][0] == nals[n] && nals[n..][1..] == nals[|units|..];
      assert d[used - |units[n]|..][|units[n]|..] == d[used..];
      assert d[used - |units[n]|..][..|units[n]|] == units[n];
    }
  }

  lemma {:induction false} NextUnit(nals: seq<seq<byte>>, n: nat)
    requires AllWellFormed(nals) && Loads(Frame(nals), n)
    ensures nals != [] && n <= |Frame(nals)|
    ensures Frame(nals)[..n] == START_CODE + nals[0] && Frame(nals)[n..] == Frame(nals[1..])
  {
    if nals == [] { NothingLoads(); }
    FrameLoadsFirst(nals, n);
    assert Frame(nals) == START_CODE + nals[0] + Frame(nals[1..]);
  }

  /** So h263_send of a well-formed frame overruns the unit buffer exactly when
      it comes to a NAL unit that does not leave room for its start code. */
  lemma {:induction false} FrameFits(nals: seq<seq<byte>>, units: seq<seq<byte>>, used: nat, size: nat)
    requires AllWellFormed(nals) && Loaded(Frame(nals), units, used)
    ensures |units| <= |nals|
    ensures Fits(units, size) <==> forall i :: 0 <= i < |units| ==> |nals[i]| + 4 <= size
  {
    hide WellFormedNal, Frame, Loaded;
    LoadedFrame(nals, units, used);
    assert forall i :: 0 <= i < |units| ==> |units[i]| == |nals[i]| + 4;
  }

  const UNIT_BUFFER := 300 * 1024   // sizeof( m_ph264BSBuf )
  const FRAME_SIZE := 400 * 1024    // of the frames in the heap, unless configured

  /** A NAL unit of n bytes. */
  function LongNal(n: nat): seq<byte> { seq(n, i => if i == 0 then 101 else 1) }

  /** A frame of the default size has room for NAL units that the unit buffer
      has no room for: with one of them h263_send overruns the buffer at its
      first load. */
  lemma {:induction false} LongNalOverruns(n: nat, units: seq<seq<byte>>, used: nat)
    requires UNIT_BUFFER < n + 4 <= FRAME_SIZE
    ensures AllWellFormed([LongNal(n)]) && |Frame([LongNal(n)])| == n + 4 <= FRAME_SIZE
    ensures !NoCode(Frame([LongNal(n)]), 0) && !Partition(Frame([LongNal(n)]), [])
    ensures Loaded(Frame([LongNal(n)]), units, used) && units != [] ==> !Fits(units, UNIT_BUFFER)
  {
    var nal := LongNal(n);
    assert WellFormedNal(nal);
    hide WellFormedNal, Loaded;
    assert [nal][1..] == [];
    assert Frame([nal]) == START_CODE + nal + [];
    if NoCode(Frame([nal]), 0) { EmptyWithoutCode([nal]); }
    if Partition(Frame([nal]), []) { FramePartition([nal], []); }
    if Loaded(Frame([nal]), units, used) { FrameFits([nal], units, used, UNIT_BUFFER); }
  }

  lemma ReadyLoaded(d: seq<byte>, units: seq<seq<byte>>, used: nat)
    requires Ready(d, units, used)
    ensures Loaded(d, units, used)
  {
  }

  lemma FrameLong(nals: seq<seq<byte>>, units: seq<seq<byte>>)
    requires AllWellFormed(nals) && Partition(Frame(nals), units)
    ensures AllLong(units)
  {
    FramePartition(nals, units);
    UnitsLong(nals);
  }

  lemma {:induction false} UnitsLong(nals: seq<seq<byte>>)
    requires AllWellFormed(nals)
    ensures AllLong(Units(nals))
  {
    if nals != [] { UnitsLong(nals[1..]); }
  }

  lemma NothingSent(ep: Endpoint, timestamp: nat)
    requires ep.Valid()
    ensures UnitsTried(ep, ep.conn.log, ep.Count(), [], timestamp, 0, true) && AllLong([])
  {
    NothingTried(ep, timestamp);
  }

  lemma RoomLeft(ep: Endpoint, log: seq<Wire.Message>, s: nat, units: seq<seq<byte>>, timestamp: nat, sent: nat)
    requires UnitsTried(ep, log, s, units, timestamp, sent, true)
    ensures |ep.conn.accepted| < |ep.conn.written| + SEND_BUFFER
  {
    assert ep.conn.Valid();
    var a := ep.conn.Avail();
  }

  /** Between two turns of the send loop: units came from the first used bytes,
      and the rest is empty or has a start code, unless the loop has not got
      anywhere. */
  ghost predicate Ready(d: seq<byte>, units: seq<seq<byte>>, used: nat) {
    && used <= |d| && Loaded(d, units, used)
    && (used > 0 ==> CodeNear(d) && CodeNear(d[used..]) && (used == |d| || !NoCode(d[used..], 0)))
  }

  lemma ReadyStart(d: seq<byte>, size: nat)
    ensures Ready(d, [], 0) && Fits([], size)
  {
  }

  lemma ReadyEnd(d: seq<byte>, units: seq<seq<byte>>)
    requires Ready(d, units, |d|)
    ensures Partition(d, units) && CodeNear(d)
  {
    LoadedAll(d, units);
  }

  lemma ReadyNext(d: seq<byte>, units: seq<seq<byte>>, used: nat, n: nat)
    requires Ready(d, units, used) && Loads(d[used..], n) && n <= |d| - used
    ensures Ready(d, units + [d[used..][..n]], used + n)
  {
    hide Loads, Loaded, CodeNear, NoCode;
    var rest := d[used..];
    assert rest[n..] == d[used + n..] && rest[..n] == d[used..used + n];
    LoadedSnoc(d, units, used, used + n);
    if used == 0 { assert rest == d; }
    if CodeNear(rest) { LoadKeepsNear(rest, n); } else { LoadStalls(rest, n); }
    if n == |rest| { NothingNear(d[used + n..]); }
  }

  lemma NothingNear(d: seq<byte>)
    requires d == []
    ensures CodeNear(d)
  {
  }

  lemma LoadStalls(d: seq<byte>, n: nat)
    requires Loads(d, n) && !CodeNear(d)
    ensures n == 0
  {
    var p: nat, c: nat :| FirstCode(d, 0, p, c) && p >= c;
    LoadStallsIff(d, n, p, c);
  }

  lemma Unready(d: seq<byte>, units: seq<seq<byte>>, used: nat)
    requires Ready(d, units, used) && used < |d| && NoCode(d[used..], 0)
    ensures NoCode(d, 0) && units == [] && CodeNear(d)
  {
    assert d[0..] == d;
    if units != [] { LoadsHasCode(d, |units[|units| - 1]|); }
    if !CodeNear(d) {
      var p: nat, c: nat :| FirstCode(d, 0, p, c) && p >= c;
      FirstCodeExcludesNoCode(d, 0, p, c);
    }
  }

  lemma AcceptedGrows(ep: Endpoint, log: seq<Wire.Message>)
    requires ep.Valid() && log <= ep.conn.log
    ensures |Wire.EncodeAll(log)| <= |ep.conn.accepted|
  {
    assert ep.conn.log == log + ep.conn.log[|log|..];
    Wire.EncodeAllAppend(log, ep.conn.log[|log|..]);
  }

  // ---- Units that are too short ------------------------------------------------

  /** An unfragmented packet becomes a whole frame if and only if its unit has
      at least five bytes; or, by chance, when it has four and there was just
      room for the packet without its last byte. */
  lemma UnitFramedIff(ep: Endpoint, unit: seq<byte>, hdr: byte, timestamp: nat, seqnum: nat, room: nat)
    requires ep.payload < 128 && |unit| <= 5 + MAX_RTP_PKT_LENGTH && room >= |unit| + 12
    ensures Wire.WellFormed(UnitSent(ep, unit, hdr, timestamp, seqnum, room))
            <==> |unit| >= 5 || (|unit| == 4 && room == 16)
  {
    var v, header := UnitParts(unit, hdr), UnitHeader(ep, hdr, timestamp, seqnum);
    UnitTotal(unit, hdr);
    PartsCons(header, v);
    if |unit| >= 5 {
      WholeTotal([Part(header)] + v);
      QueuedWhole(ep.rtpChan, [Part(header)] + v, room);
    } else {
      ShortFits(ep, unit, hdr, header, room);
    }
  }

  function UnitHeader(ep: Endpoint, hdr: byte, timestamp: nat, seqnum: nat): (h: seq<byte>)
    requires ep.payload < 128
    ensures |h| == 12
  {
    RtpHeader(ep.payload, Marked(hdr), seqnum, (ep.startTimestamp + timestamp) % 0x1_0000_0000, ep.ssrc)
  }

  /** What is queued of the packet of a short unit: no more than its two first
      parts, and what of them fits. */
  lemma ShortFits(ep: Endpoint, unit: seq<byte>, hdr: byte, header: seq<byte>, room: nat)
    requires |unit| < 5 && |header| == 12 && room >= |unit| + 12
    ensures var v := [Part(header)] + UnitParts(unit, hdr);
            var len := |unit| + 8;
            && Total(v) == len
            && Fitting([Wire.FrameHead(ep.rtpChan, len)] + Datas(v), room) ==
               Wire.FrameHead(ep.rtpChan, len) + (if room >= 16 then header else [])
               + (if room == 16 then [] else [FNri(hdr) + NalType(hdr)])
  {
    hide Wire.FrameHead;
    var b: byte := FNri(hdr) + NalType(hdr);
    var v, head := UnitParts(unit, hdr), Wire.FrameHead(ep.rtpChan, |unit| + 8);
    UnitTotal(unit, hdr);
    PartsCons(header, v);
    assert Datas([Part(header)] + v) == [header, [b], []];
    FittingFour(head, header, [b], room);
    assert [head] + [header, [b], []] == [head, header, [b], []];
  }

  lemma FittingFour(a: seq<byte>, b: seq<byte>, c: seq<byte>, room: nat)
    requires |a| == 4 && |b| == 12 && |c| == 1 && room >= 12
    ensures Fitting([a, b, c, []], room) == a + (if room >= 16 then b else []) + (if room == 16 then [] else c)
  {
    hide Fitting;
    assert [a, b, c, []] == [a] + [b, c, []];
    FittingFirst(a, [b, c, []], room);
    FittingThree(b, c, room - 4);
    Associative(a, if room >= 16 then b else [], if room == 16 then [] else c);
  }

  lemma FittingThree(b: seq<byte>, c: seq<byte>, room: nat)
    ensures Fitting([b, c, []], room) ==
            if |b| > room then [] + Fitted(c, room) else b + Fitted(c, room - |b|)
  {
    hide Fitting;
    assert [b, c, []] == [b] + [c, []];
    FittingFirst(b, [c, []], room);
    FittingLast(c, room);
    if |b| <= room { FittingLast(c, room - |b|); }
  }

  function Fitted(c: seq<byte>, room: nat): seq<byte> {
    if |c| <= room then c else []
  }

  lemma FittingLast(c: seq<byte>, room: nat)
    ensures Fitting([c, []], room) == Fitted(c, room)
  {
    assert [c, []] == [c] + [[]];
    FittingFirst(c, [[]], room);
    FittingNone(room);
    if |c| <= room { FittingNone(room - |c|); }
  }

  lemma FittingFirst(p: seq<byte>, more: seq<seq<byte>>, room: nat)
    ensures Fitting([p] + more, room) ==
            if |p| <= room then p + Fitting(more, room - |p|) else Fitting(more, room)
  {
    assert ([p] + more)[1..] == more;
  }

  lemma FittingNone(room: nat)
    ensures Fitting([[]], room) == []
  {
  }

  /** From there on the client is out of step: it takes the header's word for
      the length, and takes the bytes behind for the next message. */
  lemma ShortMisread(ep: Endpoint, unit: seq<byte>, hdr: byte, timestamp: nat, seqnum: nat, room: nat, rest: seq<byte>)
    requires ep.payload < 128 && |unit| < 5 && room > 16
    ensures var header, len := UnitHeader(ep, hdr, timestamp, seqnum), |unit| + 8;
            var queued := Wire.Encode(UnitSent(ep, unit, hdr, timestamp, seqnum, room));
            && queued == Wire.FrameHead(ep.rtpChan, len) + header + [FNri(hdr) + NalType(hdr)]
            && Wire.First(queued + rest) == Some(Wire.Interleaved(ep.rtpChan, header[..len]))
            && |queued| == 4 + len + (5 - |unit|)
  {
    hide Fitting, Wire.ExtentOf, RtpHeader;
    var header, len := UnitHeader(ep, hdr, timestamp, seqnum), |unit| + 8;
    ShortFits(ep, unit, hdr, header, room);
    var body := header + [FNri(hdr) + NalType(hdr)];
    var d := Wire.FrameHead(ep.rtpChan, len) + body;
    assert Wire.Encode(UnitSent(ep, unit, hdr, timestamp, seqnum, room)) == d;
    FrameFirst(ep.rtpChan, len, body + rest);
    assert d + rest == Wire.FrameHead(ep.rtpChan, len) + (body + rest);
    assert (body + rest)[..len] == header[..len];
  }

  lemma FrameFirst(chan: byte, len: nat, tail: seq<byte>)
    requires len <= |tail| && len < 65536
    ensures Wire.First(Wire.FrameHead(chan, len) + tail) == Some(Wire.Interleaved(chan, tail[..len]))
  {
    var d := Wire.FrameHead(chan, len) + tail;
    assert d[2..] == Put16(len) + tail;
    Get16Put16(len, tail);
    assert d[4..4 + len] == tail[..len];
  }

  /** Frames with such a unit: nothing behind a start code ... */
  lemma EmptyUnit(units: seq<seq<byte>>)
    ensures Partition(START_CODE, units) ==> units == [START_CODE]
    ensures !AllLong([START_CODE])
  {
    OneUnit(START_CODE, 4, units);
    assert |[START_CODE][0]| == 4;
  }

  /** ... and a start code at the end. */
  lemma TrailingCode(units: seq<seq<byte>>)
    ensures Partition([0, 0, 0, 1, 65, 0, 0, 1], units) ==> units == [[0, 0, 0, 1, 65], [0, 0, 1]]
    ensures !AllLong([[0, 0, 0, 1, 65], [0, 0, 1]])
  {
    var d: seq<byte> := [0, 0, 0, 1, 65, 0, 0, 1];
    assert d[5..] == [0, 0, 1] && d[..5] == [0, 0, 0, 1, 65];
    assert FirstCode(d, 0, 0, 4) && FirstCode(d, 4, 5, 3);
    if Partition(d, units) {
      LoadsTo(d, |units[0]|, 4, 5, 3);
      OneUnit([0, 0, 1], 3, units[1..]);
      assert units == [units[0]] + units[1..];
    }
    assert [[0, 0, 0, 1, 65], [0, 0, 1]][1] == [0, 0, 1];
  }

  lemma OneUnit(d: seq<byte>, c: nat, units: seq<seq<byte>>)
    requires FirstCode(d, 0, 0, c) && |d| == c
    ensures Partition(d, units) ==> units == [d]
  {
    if Partition(d, units) {
      var n := |units[0]|;
      var p': nat, c': nat :| FirstCode(d, 0, p', c') && LoadsAfter(d, n, p', c');
      FirstCodeUnique(d, 0, 0, c, p', c');
      assert n == c && d[n..] == [] && units[0] == d;
      NothingToCut(units[1..]);
      assert units == [units[0]] + units[1..];
    }
  }

  lemma LoadsTo(d: seq<byte>, n: nat, c: nat, q: nat, l: nat)
    requires FirstCode(d, 0, 0, c) && FirstCode(d, c, q, l) && Loads(d, n)
    ensures n == q
  {
    var p': nat, c': nat :| FirstCode(d, 0, p', c') && LoadsAfter(d, n, p', c');
    FirstCodeUnique(d, 0, 0, c, p', c');
    FirstCodeExcludesNoCode(d, c, q, l);
    var q': nat, l': nat :| FirstCode(d, c, q', l') && n == q' - p';
    FirstCodeUnique(d, c, q, l, q', l');
  }
}
