// RTP endpoints whose packets travel interleaved on an RTSP connection
// (spook/rtp.c, with the packet header of section 5.1 of RFC 3550).
module Rtp {
  import opened Bytes
  import opened Pmsg
  import opened Wire
  import opened Tcp

  const SEQ_MOD := 65536

  // "Unnamed stream"
  const UNNAMED_STREAM: seq<byte> := [85, 110, 110, 97, 109, 101, 100, 32, 115, 116, 114, 101, 97, 109]

  function RtpHeader(payloadType: byte, marker: bool, seqnum: nat, timestamp: nat, ssrc: nat): (h: seq<byte>)
    requires payloadType < 128
    ensures |h| == 12
  {
    [128, payloadType + (if marker then 128 else 0)] + Put16(seqnum) + Put32(timestamp) + Put32(ssrc)
  }

  // ---- What a receiver reads from a packet ------------------------------------

  function SeqOf(packet: seq<byte>): nat { if |packet| < 12 then 0 else Get16(packet[2..]) }

  function MarkerOf(packet: seq<byte>): bool { |packet| >= 2 && packet[1] >= 128 }

  function BodyOf(packet: seq<byte>): seq<byte> { if |packet| < 12 then [] else packet[12..] }

  /** The fields of section 5.1 of RFC 3550. */
  datatype Header = Header(version: byte, padding: bool, extension: bool, csrcCount: byte,
                           marker: bool, payloadType: byte, seqnum: nat, timestamp: nat, ssrc: nat)

  function HeaderOf(packet: seq<byte>): Header {
    if |packet| < 12 then Header(0, false, false, 0, false, 0, 0, 0, 0)
    else
      Header(packet[0] / 64, packet[0] / 32 % 2 == 1, packet[0] / 16 % 2 == 1, packet[0] % 16,
             MarkerOf(packet), packet[1] % 128, SeqOf(packet), Get32(packet[4..]), Get32(packet[8..]))
  }

  /** Version 2 with nothing optional. */
  function PlainHeader(payloadType: byte, marker: bool, seqnum: nat, timestamp: nat, ssrc: nat): Header {
    Header(2, false, false, 0, marker, payloadType, seqnum % SEQ_MOD, timestamp % 0x1_0000_0000, ssrc % 0x1_0000_0000)
  }

  lemma HeaderFields(payloadType: byte, marker: bool, seqnum: nat, timestamp: nat, ssrc: nat, body: seq<byte>)
    requires payloadType < 128
    ensures var p := RtpHeader(payloadType, marker, seqnum, timestamp, ssrc) + body;
            HeaderOf(p) == PlainHeader(payloadType, marker, seqnum, timestamp, ssrc)
            && SeqOf(p) == seqnum % SEQ_MOD && MarkerOf(p) == marker && BodyOf(p) == body
  {
    hide Get16, Put16, Get32, Put32;
    var p := RtpHeader(payloadType, marker, seqnum, timestamp, ssrc) + body;
    var first: byte := payloadType + if marker then 128 else 0;
    var behind := Put32(timestamp) + (Put32(ssrc) + body);
    assert p == [128, first] + (Put16(seqnum) + behind);
    assert p[2..] == Put16(seqnum) + behind && p[4..] == behind && p[8..] == Put32(ssrc) + body;
    Get16Put16(seqnum, behind);
    Get32Put32(timestamp, Put32(ssrc) + body);
    Get32Put32(ssrc, body);
  }

  function Bodies(packets: seq<seq<byte>>): (r: seq<seq<byte>>)
    ensures |r| == |packets|
    ensures forall i :: 0 <= i < |r| ==> r[i] == BodyOf(packets[i])
  {
    seq(|packets|, i requires 0 <= i < |packets| => BodyOf(packets[i]))
  }

  lemma BodiesCons(x: seq<byte>, rest: seq<seq<byte>>)
    ensures Bodies([x] + rest) == [BodyOf(x)] + Bodies(rest)
  {
  }

  function HeadersOf(packets: seq<seq<byte>>): (r: seq<Header>)
    ensures |r| == |packets|
    ensures forall i :: 0 <= i < |r| ==> r[i] == HeaderOf(packets[i])
  {
    seq(|packets|, i requires 0 <= i < |packets| => HeaderOf(packets[i]))
  }

  // ---- What reaches the receiver ------------------------------------------------

  /** What all packets of an endpoint have in common. */
  datatype Source = Source(payload: byte, startTimestamp: nat, ssrc: nat)

  /** A send: was it queued or refused, and what was it to carry? */
  datatype Attempt = Attempt(queued: bool, timestamp: nat, marker: bool)

  function Heading(src: Source, s: nat, timestamp: nat, marker: bool): Header {
    PlainHeader(src.payload, marker, s, src.startTimestamp + timestamp, src.ssrc)
  }

  /** The headers that reach the receiver when attempts, numbered from s on,
      are queued or refused. */
  function Carried(src: Source, s: nat, attempts: seq<Attempt>): seq<Header>
    decreases |attempts|
  {
    if attempts == [] then []
    else Arriving(src, s, attempts[0]) + Carried(src, s + 1, attempts[1..])
  }

  function Arriving(src: Source, s: nat, a: Attempt): seq<Header> {
    if a.queued then [Heading(src, s, a.timestamp, a.marker)] else []
  }

  lemma {:induction false} CarriedSnoc(src: Source, s: nat, attempts: seq<Attempt>, a: Attempt)
    ensures Carried(src, s, attempts + [a]) == Carried(src, s, attempts) + Arriving(src, s + |attempts|, a)
    decreases |attempts|
  {
    hide First;
    if attempts == [] {
      assert attempts + [a] == [a] && [a][1..] == [];
    } else {
      assert (attempts + [a])[1..] == attempts[1..] + [a];
      CarriedSnoc(src, s + 1, attempts[1..], a);
    }
  }

  lemma {:induction false} CarriedAppend(src: Source, s: nat, a: seq<Attempt>, b: seq<Attempt>)
    ensures Carried(src, s, a + b) == Carried(src, s, a) + Carried(src, s + |a|, b)
    decreases |a|
  {
    if a == [] {
      assert a + b == b;
    } else {
      hide Carried;
      assert (a + b)[1..] == a[1..] + b;
      CarriedFirst(src, s, a + b);
      CarriedFirst(src, s, a);
      CarriedAppend(src, s + 1, a[1..], b);
    }
  }

  lemma CarriedFirst(src: Source, s: nat, attempts: seq<Attempt>)
    requires attempts != []
    ensures Carried(src, s, attempts) == Arriving(src, s, attempts[0]) + Carried(src, s + 1, attempts[1..])
  {
  }

  /** Receiver gaps count refusals: between two consecutive packets that
      arrive, the sequence number jumps by one more than the number of sends
      refused in between, modulo 2^16. */
  lemma GapCountsRefusals(src: Source, s: nat, before: seq<Attempt>, x: Attempt, refused: seq<Attempt>, y: Attempt,
                          after: seq<Attempt>)
    requires x.queued && y.queued && forall i :: 0 <= i < |refused| ==> !refused[i].queued
    ensures var k := |Carried(src, s, before)|;
            var got := Carried(src, s, before + ([x] + (refused + ([y] + after))));
            k + 1 < |got| && got[k + 1].seqnum == (got[k].seqnum + |refused| + 1) % SEQ_MOD
  {
    hide Carried;
    var n := s + |before| + 1;
    var rest := refused + ([y] + after);
    CarriedAppend(src, s, before, [x] + rest);
    assert ([x] + rest)[1..] == rest;
    CarriedFirst(src, s + |before|, [x] + rest);
    CarriedAppend(src, n, refused, [y] + after);
    NoneCarried(src, n, refused);
    CarriedFirst(src, n + |refused|, [y] + after);
  }

  lemma {:induction false} NoneCarried(src: Source, s: nat, attempts: seq<Attempt>)
    requires forall i :: 0 <= i < |attempts| ==> !attempts[i].queued
    ensures Carried(src, s, attempts) == []
    decreases |attempts|
  {
    if attempts != [] { NoneCarried(src, s + 1, attempts[1..]); }
  }

  lemma {:induction false} CarriedSource(src: Source, s: nat, attempts: seq<Attempt>)
    ensures forall h :: h in Carried(src, s, attempts) ==>
              h.version == 2 && h.payloadType == src.payload && h.ssrc == src.ssrc % 0x1_0000_0000
    decreases |attempts|
  {
    if attempts != [] { CarriedSource(src, s + 1, attempts[1..]); }
  }

  /** RTCP packets one behind the other, by the check of appendix A.2 of
      RFC 3550: each has version 2, and the lengths add up to the whole. */
  predicate Compound(d: seq<byte>) {
    d == [] ||
    (|d| >= 4 && d[0] / 64 == 2 &&
     var n := 4 * (Get16(d[2..]) + 1); n <= |d| && Compound(d[n..]))
  }

  function SenderReport(ssrc: nat, ntpSec: nat, ntpUsec: nat, timestamp: nat, packets: nat, octets: int): (r: seq<byte>)
    ensures |r| == 28
  {
    [128, 200] + Put16(6) + Put32(ssrc) + Put32(ntpSec) + Put32(ntpUsec) + Put32(timestamp) + Put32(packets)
    + Put32(octets)
  }

  function Description(ssrc: nat): (r: seq<byte>)
    ensures |r| == 24
  {
    [129, 202] + Put16(4) + Put32(ssrc) + [1, 14] + UNNAMED_STREAM
  }

  lemma WordAt(before: seq<byte>, v: int, behind: seq<byte>)
    ensures Get32((before + Put32(v) + behind)[|before|..]) == v % 0x1_0000_0000
  {
    hide Get32, Put32;
    var d := before + Put32(v) + behind;
    assert d[|before|..] == Put32(v) + behind;
    Get32Put32(v, behind);
  }

  /** What a receiver reads by section 6.4.1 of RFC 3550. */
  lemma ReportFields(ssrc: nat, ntpSec: nat, ntpUsec: nat, timestamp: nat, packets: nat, octets: int)
    ensures var r := SenderReport(ssrc, ntpSec, ntpUsec, timestamp, packets, octets);
            && r[0] == 128 && r[1] == 200 && Get16(r[2..]) == 6 && Get32(r[4..]) == ssrc % 0x1_0000_0000
            && Get32(r[8..]) == ntpSec % 0x1_0000_0000 && Get32(r[12..]) == ntpUsec % 0x1_0000_0000
            && Get32(r[16..]) == timestamp % 0x1_0000_0000 && Get32(r[20..]) == packets % 0x1_0000_0000
            && Get32(r[24..]) == octets % 0x1_0000_0000
  {
    hide Get32, Put32;
    var h0 := [128, 200] + Put16(6);
    var h1 := h0 + Put32(ssrc);
    var h2 := h1 + Put32(ntpSec);
    var h3 := h2 + Put32(ntpUsec);
    var h4 := h3 + Put32(timestamp);
    var h5 := h4 + Put32(packets);
    var r := h5 + Put32(octets);
    Before(h0, Put32(ssrc), r, ssrc);
    Before(h1, Put32(ntpSec), r, ntpSec);
    Before(h2, Put32(ntpUsec), r, ntpUsec);
    Before(h3, Put32(timestamp), r, timestamp);
    Before(h4, Put32(packets), r, packets);
    Before(h5, Put32(octets), r, octets);
    Get16Put16(6, r[4..]);
    assert r[2..] == Put16(6) + r[4..];
  }

  lemma Before(h: seq<byte>, w: seq<byte>, r: seq<byte>, v: int)
    requires w == Put32(v) && h + w <= r
    ensures |h| + 4 <= |r| && Get32(r[|h|..]) == v % 0x1_0000_0000
  {
    hide Get32, Put32;
    WordAt(h, v, r[|h + w|..]);
    assert h + w + r[|h + w|..] == r;
  }

  /** ... and by section 6.5. */
  lemma DescriptionFields(ssrc: nat)
    ensures var d := Description(ssrc);
            && d[0] == 129 && d[1] == 202 && Get16(d[2..]) == 4 && Get32(d[4..]) == ssrc % 0x1_0000_0000
            && d[8] == 1 && d[9] == 14 && d[10..] == UNNAMED_STREAM
  {
    hide Get32, Put32;
    var d := Description(ssrc);
    Before([129, 202] + Put16(4), Put32(ssrc), d, ssrc);
    Get16Put16(4, d[4..]);
    assert d[2..] == Put16(4) + d[4..];
  }

  /** A receiver that checks the lengths accepts the sender report, but not the
      two packets together: the description is four bytes longer than it says. */
  lemma ReportCompound(ssrc: nat, ntpSec: nat, ntpUsec: nat, timestamp: nat, packets: nat, octets: int)
    ensures var r, d := SenderReport(ssrc, ntpSec, ntpUsec, timestamp, packets, octets), Description(ssrc);
            Compound(r) && Compound(r + d[..20]) && !Compound(r + d)
  {
    hide Get32, Put32, SenderReport, Description, Compound;
    var r, d := SenderReport(ssrc, ntpSec, ntpUsec, timestamp, packets, octets), Description(ssrc);
    ReportFields(ssrc, ntpSec, ntpUsec, timestamp, packets, octets);
    DescriptionFields(ssrc);
    Cut(r, 28, []);
    Cut(r, 28, d[..20]);
    Cut(r, 28, d);
    Cut(d[..20], 20, []);
    Cut(d[..20], 20, d[20..]);
    assert r + [] == r && d[..20] + [] == d[..20] && d[..20] + d[20..] == d;
    NotCompound(d[20..]);
  }

  lemma NotCompound(d: seq<byte>)
    requires d != [] && d[0] == 114
    ensures !Compound(d) && Compound([])
  {
  }

  lemma Cut(d: seq<byte>, n: nat, rest: seq<byte>)
    requires |d| == n >= 4 && d[0] / 64 == 2 && n == 4 * (Get16(d[2..]) + 1)
    ensures Compound(d + rest) <==> Compound(rest)
  {
    assert (d + rest)[n..] == rest;
    assert (d + rest)[2..][0] == d[2..][0] && (d + rest)[2..][1] == d[2..][1];
  }

  class Endpoint {
    const payload: byte
    const ssrc: nat
    const startTimestamp: nat
    const conn: Conn
    const rtpChan: byte
    const rtcpChan: byte
    var lastTimestamp: nat
    var seqnum: nat
    var packetCount: nat
    var octetCount: int
    var forceRtcp: bool
    var rtcpTimer: bool            // rtcp_send_event is enabled

    ghost const firstSeq: nat
    ghost const logStart: nat         // where in conn.log this endpoint's life begins
    ghost var attempts: seq<Attempt>  // one entry per RTP send
    ghost var torn: bool              // a packet with a part of negative length was queued

    /** The packets this endpoint got onto the connection have exactly the
        headers of the attempts that were not refused. */
    ghost predicate Recorded(log: seq<Message>, attempts: seq<Attempt>) {
      && logStart <= |log|
      && HeadersOf(OnChannel(log[logStart..], rtpChan)) == Carried(Origin(), firstSeq, attempts)
    }

    function Origin(): Source {
      Source(payload, startTimestamp, ssrc)
    }

    /** The number of the next packet before it is cut to sixteen bits. */
    ghost function Count(): nat
      reads `attempts
    {
      firstSeq + |attempts|
    }

    ghost predicate Valid()
      reads this, conn, conn.sendBuf
    {
      conn.Valid() && Numbered()
    }

    ghost predicate Numbered()
      reads `seqnum, `attempts, `torn, conn`log
    {
      && payload < 128 && rtpChan != rtcpChan
      && seqnum == Count() % SEQ_MOD
      && (!torn ==> Recorded(conn.log, attempts))
    }

    /** new_rtp_endpoint followed by connect_interleaved_endpoint; the random
        values are arguments. */
    constructor (payload: byte, ssrc: nat, startTimestamp: nat, seqnum: nat,
                 conn: Conn, rtpChan: byte, rtcpChan: byte)
      requires conn.Valid() && payload < 128 && seqnum < SEQ_MOD && rtpChan != rtcpChan
      ensures Valid() && attempts == [] && !torn && this.seqnum == seqnum && forceRtcp && !rtcpTimer
      ensures this.conn == conn && this.rtpChan == rtpChan && this.rtcpChan == rtcpChan
    {
      this.payload, this.ssrc, this.startTimestamp := payload, ssrc, startTimestamp;
      this.conn, this.rtpChan, this.rtcpChan := conn, rtpChan, rtcpChan;
      lastTimestamp, this.seqnum := startTimestamp, seqnum;
      packetCount, octetCount, forceRtcp, rtcpTimer := 0, 0, true, false;
      firstSeq, logStart, attempts, torn := seqnum, |conn.log|, [], false;
    }

    function PacketFor(body: seq<byte>, timestamp: nat, marker: bool, seqnum: nat): (p: seq<byte>)
      requires payload < 128
      ensures |p| == 12 + |body|
    {
      RtpHeader(payload, marker, seqnum, (startTimestamp + timestamp) % 0x1_0000_0000, ssrc) + body
    }

    /** A sender report and a source description, for a time of day. */
    function Report(ntpSec: nat, ntpUsec: nat): (r: seq<byte>)
      reads `lastTimestamp, `packetCount, `octetCount
      ensures |r| == 52
    {
      SenderReport(ssrc, ntpSec, ntpUsec, lastTimestamp, packetCount, octetCount) + Description(ssrc)
    }

    /** rtcp_send on this transport. A report the buffer has no room for is
        dropped silently: interleave_send answers 1, never a negative number,
        so the session is not torn down here. */
    method RtcpSend()
      requires conn.Valid()
      modifies this`forceRtcp, conn, conn.sendBuf
      ensures conn.Valid() && !forceRtcp && conn.written == old(conn.written)
      ensures if old(conn.Avail()) < 56 then conn.log == old(conn.log)
              else exists sec, usec :: Reported(old(conn.log), sec, usec)
    {
      forceRtcp := false;
      var ntpSec: nat :| 0 <= ntpSec;
      var ntpUsec: nat :| 0 <= ntpUsec;
      var report := Report(ntpSec, ntpUsec);
      SinglePart(report);
      var refused := conn.InterleaveSend(rtcpChan, [Part(report)]);
      assert report == Report(ntpSec, ntpUsec);
      assert !refused ==> Reported(old(conn.log), ntpSec, ntpUsec);
    }

    /** To what was on the connection before, a report was added. */
    ghost predicate Reported(before: seq<Message>, ntpSec: nat, ntpUsec: nat)
      reads `lastTimestamp, `packetCount, `octetCount, conn`log
    {
      conn.log == before + [Interleaved(rtcpChan, Report(ntpSec, ntpUsec))]
    }

    /** send_rtp_packet on this transport, the parts behind the header given:
        queued or refused, the attempt uses up one sequence number and is
        counted. */
    method SendRtpPacket(v: seq<IoVec>, timestamp: nat, marker: bool) returns (ok: bool)
      requires Valid() && Backed(v)
      modifies this, conn, conn.sendBuf
      ensures Valid() && old(conn.log) <= conn.log && conn.written == old(conn.written)
      ensures ok <==> old(conn.Avail()) >= 12 + Total(v) + 4
      ensures attempts == old(attempts) + [Attempt(ok, timestamp, marker)]
      ensures torn == (old(torn) || (ok && !Whole(v)))
      ensures seqnum == (old(seqnum) + 1) % SEQ_MOD
      ensures lastTimestamp == (startTimestamp + timestamp) % 0x1_0000_0000
      ensures packetCount == old(packetCount) + 1
      ensures octetCount == old(octetCount) + 12 + Total(v)
      ensures !forceRtcp && rtcpTimer == (old(rtcpTimer) || old(forceRtcp))
      ensures Added(conn.log[|old(conn.log)|..],
                    if ok then [Sending(v, timestamp, marker, old(seqnum), old(conn.Avail()))] else [])
      ensures Whole(v) ==> Sent(conn.log[|old(conn.log)|..],
                                if ok then [PacketFor(Body(v), timestamp, marker, old(seqnum))] else [])
    {
      hide Queued, Added, Sent, Total, Recorded, HeaderOf, RtpHeader;
      lastTimestamp := (startTimestamp + timestamp) % 0x1_0000_0000;
      var hdr := RtpHeader(payload, marker, seqnum, lastTimestamp, ssrc);
      HeaderFields(payload, marker, seqnum, lastTimestamp, ssrc, Body(v));
      ok := SendWithHeader(hdr, v, timestamp, marker);
    }

    /** The message that a packet becomes on the connection, sent with the given
        room. */
    function Sending(v: seq<IoVec>, timestamp: nat, marker: bool, seqnum: nat, room: nat): Message
      requires payload < 128
    {
      var timestamp32 := (startTimestamp + timestamp) % 0x1_0000_0000;
      Queued(rtpChan, [Part(RtpHeader(payload, marker, seqnum, timestamp32, ssrc))] + v, room)
    }

    method SendWithHeader(hdr: seq<byte>, v: seq<IoVec>, ghost timestamp: nat, ghost marker: bool) returns (ok: bool)
      requires Valid() && Backed(v) && |hdr| == 12
      requires HeaderOf(hdr + Body(v)) == Heading(Origin(), Count(), timestamp, marker)
      modifies this`octetCount, this`packetCount, this`forceRtcp, this`rtcpTimer
      modifies this`seqnum, this`attempts, this`torn, conn, conn.sendBuf
      ensures Valid() && old(conn.log) <= conn.log && conn.written == old(conn.written)
      ensures ok <==> old(conn.Avail()) >= 12 + Total(v) + 4
      ensures attempts == old(attempts) + [Attempt(ok, timestamp, marker)]
      ensures torn == (old(torn) || (ok && !Whole(v)))
      ensures seqnum == (old(seqnum) + 1) % SEQ_MOD
      ensures packetCount == old(packetCount) + 1
      ensures octetCount == old(octetCount) + 12 + Total(v)
      ensures !forceRtcp && rtcpTimer == (old(rtcpTimer) || old(forceRtcp))
      ensures Added(conn.log[|old(conn.log)|..],
                    if ok then [Queued(rtpChan, [Part(hdr)] + v, old(conn.Avail()))] else [])
      ensures Whole(v) ==> Sent(conn.log[|old(conn.log)|..], if ok then [hdr + Body(v)] else [])
    {
      hide Queued, Added, Sent, Total, Body, Recorded;
      PartsCons(hdr, v);
      ok := Transmit([Part(hdr)] + v);
      ghost var a := Attempt(ok, timestamp, marker);
      if !torn && (Whole(v) || !ok) {
        ghost var added := conn.log[|old(conn.log)|..];
        if ok { SentOn(added, [hdr + Body(v)]); } else { AddedNothing(added); }
        RecordAttempt(old(conn.log), conn.log, attempts, a, hdr + Body(v));
      }
      Advance(a, ok && !Whole(v));
    }

    /** Either way the sequence number moves on, modulo 2^16. */
    method Advance(ghost a: Attempt, ghost tears: bool)
      requires payload < 128 && rtpChan != rtcpChan
      requires seqnum == Count() % SEQ_MOD
      requires torn || tears || Recorded(conn.log, attempts + [a])
      modifies this`seqnum, this`attempts, this`torn
      ensures attempts == old(attempts) + [a] && torn == (old(torn) || tears) && Numbered()
      ensures seqnum == (old(seqnum) + 1) % SEQ_MOD
    {
      attempts := attempts + [a];
      torn := torn || tears;
      seqnum := (seqnum + 1) % SEQ_MOD;
    }

    /** The interleaved branch of send_rtp_packet and the accounting behind it,
        which are the same whether the frame was queued or refused. */
    method Transmit(v: seq<IoVec>) returns (ok: bool)
      requires conn.Valid() && Backed(v) && rtpChan != rtcpChan
      modifies this`octetCount, this`packetCount, this`forceRtcp, this`rtcpTimer, conn, conn.sendBuf
      ensures conn.Valid() && old(conn.log) <= conn.log && conn.written == old(conn.written)
      ensures ok <==> old(conn.Avail()) >= Total(v) + 4
      ensures packetCount == old(packetCount) + 1 && octetCount == old(octetCount) + Total(v)
      ensures !forceRtcp && rtcpTimer == (old(rtcpTimer) || old(forceRtcp))
      ensures Added(conn.log[|old(conn.log)|..], if ok then [Queued(rtpChan, v, old(conn.Avail()))] else [])
      ensures Whole(v) ==> Sent(conn.log[|old(conn.log)|..], if ok then [Body(v)] else [])
    {
      hide Sent, Added, Report, Queued, Body, Total, Conn.Ring, EncodeAll, Encode, Whole, Datas, WellFormed;
      var refused := conn.InterleaveSend(rtpChan, v);
      ghost var middle := conn.log;
      var len := TotalLength(v);
      octetCount := octetCount + len;
      packetCount := packetCount + 1;
      if forceRtcp {
        RtcpSend();
        assert conn.log == middle || exists r :: |r| == 52 && conn.log == middle + [Interleaved(rtcpChan, r)];
        rtcpTimer := true;
      }
      ghost var m := if refused then [] else [Queued(rtpChan, v, old(conn.Avail()))];
      AddedOne(old(conn.log), middle, conn.log, m);
      if Whole(v) { AddedSent(conn.log[|old(conn.log)|..], Body(v), !refused); }
      return !refused;
    }

    /** The messages added are the given ones, and perhaps one report. */
    ghost predicate Added(added: seq<Message>, ms: seq<Message>) {
      added == ms || exists r :: |r| == 52 && added == ms + [Interleaved(rtcpChan, r)]
    }

    lemma AddedOne(before: seq<Message>, middle: seq<Message>, log: seq<Message>, ms: seq<Message>)
      requires middle == before + ms
      requires log == middle || exists r :: |r| == 52 && log == middle + [Interleaved(rtcpChan, r)]
      ensures before <= log && Added(log[|before|..], ms)
    {
      if log == middle {
        assert log[|before|..] == ms;
      } else {
        var r :| |r| == 52 && log == middle + [Interleaved(rtcpChan, r)];
        assert log[|before|..] == ms + [Interleaved(rtcpChan, r)];
      }
    }

    lemma AddedSent(added: seq<Message>, packet: seq<byte>, ok: bool)
      requires rtpChan != rtcpChan && Added(added, if ok then [Interleaved(rtpChan, packet)] else [])
      ensures Sent(added, if ok then [packet] else [])
    {
      var a: seq<Message> := if ok then [Interleaved(rtpChan, packet)] else [];
      assert OnChannel(a, rtpChan) == if ok then [packet] else [];
      if added != a {
        var r :| |r| == 52 && added == a + [Interleaved(rtcpChan, r)];
        OnChannelAppend(a, [Interleaved(rtcpChan, r)], rtpChan);
      }
    }

    lemma SentOn(added: seq<Message>, packets: seq<seq<byte>>)
      requires Sent(added, packets)
      ensures OnChannel(added, rtpChan) == packets
    {
    }

    lemma AddedNothing(added: seq<Message>)
      requires rtpChan != rtcpChan
      ensures Added(added, []) ==> OnChannel(added, rtpChan) == []
    {
      if Added(added, []) { AddedSent(added, [], false); }
    }

    /** The messages added are the given packets on this endpoint's RTP
        channel and, besides them, only reports on its RTCP channel. */
    ghost predicate Sent(added: seq<Message>, packets: seq<seq<byte>>) {
      && OnChannel(added, rtpChan) == packets
      && forall i :: 0 <= i < |added| ==>
           && added[i].Interleaved?
           && (added[i].chan == rtpChan || (added[i].chan == rtcpChan && |added[i].payload| == 52))
    }

    lemma RecordAttempt(before: seq<Message>, log: seq<Message>, was: seq<Attempt>, a: Attempt, packet: seq<byte>)
      requires before <= log && Recorded(before, was)
      requires OnChannel(log[|before|..], rtpChan) == if a.queued then [packet] else []
      requires HeaderOf(packet) == Heading(Origin(), firstSeq + |was|, a.timestamp, a.marker)
      ensures Recorded(log, was + [a])
    {
      hide HeaderOf, Heading;
      OnChannelSplit(before, log, logStart, rtpChan);
      var p, q := OnChannel(before[logStart..], rtpChan), OnChannel(log[|before|..], rtpChan);
      HeadersOfAppend(p, q);
      assert HeadersOf(q) == Arriving(Origin(), firstSeq + |was|, a);
      CarriedSnoc(Origin(), firstSeq, was, a);
    }
  }

  lemma OnChannelSplit(before: seq<Message>, log: seq<Message>, start: nat, chan: byte)
    requires start <= |before| && before <= log
    ensures OnChannel(log[start..], chan) == OnChannel(before[start..], chan) + OnChannel(log[|before|..], chan)
  {
    assert log[start..] == before[start..] + log[|before|..];
    OnChannelAppend(before[start..], log[|before|..], chan);
  }

  lemma SinglePart(d: seq<byte>)
    ensures Total([Part(d)]) == |d| && Body([Part(d)]) == d
  {
    FlattenSingle(d);
    assert Datas([Part(d)]) == [d];
  }

  lemma PartsCons(d: seq<byte>, v: seq<IoVec>)
    ensures Total([Part(d)] + v) == |d| + Total(v) && Body([Part(d)] + v) == d + Body(v)
    ensures Backed([Part(d)] + v) == Backed(v) && Whole([Part(d)] + v) == Whole(v)
  {
    var all := [Part(d)] + v;
    assert all[1..] == v && Datas(all)[1..] == Datas(v);
    assert forall i :: 0 <= i < |v| ==> v[i] == all[i + 1];
  }

  lemma HeadersOfAppend(a: seq<seq<byte>>, b: seq<seq<byte>>)
    ensures HeadersOf(a + b) == HeadersOf(a) + HeadersOf(b)
  {
    hide HeaderOf;
  }

  // ---- Several tracks on one connection -------------------------------------

  /** Endpoints of one connection, none of which sends on another's channel. */
  ghost predicate Apart(conn: Conn, eps: seq<Endpoint>) {
    && (forall i :: 0 <= i < |eps| ==> eps[i].conn == conn)
    && (forall i, j :: 0 <= i < |eps| && 0 <= j < |eps| && i != j ==>
          eps[i] != eps[j] && eps[i].rtpChan != eps[j].rtpChan && eps[i].rtcpChan != eps[j].rtpChan)
  }

  /** The connection is in order, and so is every track on it. */
  ghost predicate InStep(conn: Conn, eps: seq<Endpoint>)
    reads conn, conn.sendBuf, eps
  {
    && conn.Valid() && AllWellFormed(conn.log) && Apart(conn, eps)
    && forall i :: 0 <= i < |eps| ==> eps[i].Numbered() && !eps[i].torn
  }

  /** Messages that are not on its channel do not touch an endpoint's record. */
  lemma RecordedLater(ep: Endpoint, before: seq<Message>, log: seq<Message>, attempts: seq<Attempt>)
    requires before <= log && ep.Recorded(before, attempts) && OnChannel(log[|before|..], ep.rtpChan) == []
    ensures ep.Recorded(log, attempts)
  {
    OnChannelSplit(before, log, ep.logStart, ep.rtpChan);
    var a := OnChannel(before[ep.logStart..], ep.rtpChan);
    assert a + [] == a;
  }

  /** What an endpoint sends is on its own two channels, and fits the header
      when its packets do. */
  lemma {:induction false} SentElsewhere(ep: Endpoint, added: seq<Message>, packets: seq<seq<byte>>, chan: byte)
    requires ep.Sent(added, packets) && chan != ep.rtpChan && chan != ep.rtcpChan
    ensures OnChannel(added, chan) == []
  {
    if added != [] {
      assert ep.Sent(added[1..], OnChannel(added[1..], ep.rtpChan));
      SentElsewhere(ep, added[1..], OnChannel(added[1..], ep.rtpChan), chan);
    }
  }

  lemma SentWellFormed(ep: Endpoint, added: seq<Message>, packets: seq<seq<byte>>)
    requires ep.Sent(added, packets) && forall i :: 0 <= i < |packets| ==> |packets[i]| < 65536
    ensures AllWellFormed(added)
  {
    forall i | 0 <= i < |added| ensures WellFormed(added[i]) {
      ChannelPayloads(added, i);
    }
  }

  /** A step of one endpoint keeps all the others in step. */
  lemma StillInStep(conn: Conn, eps: seq<Endpoint>, k: nat, before: seq<Message>, packets: seq<seq<byte>>)
    requires k < |eps| && Apart(conn, eps) && conn.Valid() && AllWellFormed(before) && before <= conn.log
    requires eps[k].Sent(conn.log[|before|..], packets)
    requires forall i :: 0 <= i < |packets| ==> |packets[i]| < 65536
    requires eps[k].Numbered() && !eps[k].torn
    requires forall i :: 0 <= i < |eps| && i != k ==> RecordedAt(eps[i], before)
    ensures InStep(conn, eps)
  {
    hide Conn.Valid, WellFormed, Endpoint.Sent, Endpoint.Recorded;
    var added := conn.log[|before|..];
    SentWellFormed(eps[k], added, packets);
    assert conn.log == before + added;
    forall i | 0 <= i < |eps| && i != k ensures eps[i].Numbered() {
      assert RecordedAt(eps[i], before);
      SentElsewhere(eps[k], added, packets, eps[i].rtpChan);
      RecordedLater(eps[i], before, conn.log, eps[i].attempts);
    }
  }

  /** An endpoint in step with what its connection had carried before. */
  ghost predicate RecordedAt(ep: Endpoint, log: seq<Message>)
    reads ep
  {
    && ep.payload < 128 && ep.rtpChan != ep.rtcpChan && ep.seqnum == ep.Count() % SEQ_MOD
    && !ep.torn && ep.Recorded(log, ep.attempts)
  }

  method SendOn(conn: Conn, eps: seq<Endpoint>, k: nat, v: seq<IoVec>, timestamp: nat, marker: bool)
    requires InStep(conn, eps) && k < |eps| && Backed(v) && Whole(v) && 12 + Total(v) < 65536
    modifies conn, conn.sendBuf, eps
    ensures InStep(conn, eps) && old(conn.log) <= conn.log
    ensures forall i :: 0 <= i < |eps| && i != k ==> LeftAlone(eps[i], old(conn.log), old(eps[i].attempts))
  {
    hide Endpoint.Sent, Endpoint.Added, Endpoint.Recorded, Conn.Valid, WellFormed, Total, Body, Queued, Datas;
    ghost var before := conn.log;
    assert forall i :: 0 <= i < |eps| ==> RecordedAt(eps[i], before);
    WholeTotal(v);
    var ok := eps[k].SendRtpPacket(v, timestamp, marker);
    ghost var packets := if ok then [eps[k].PacketFor(Body(v), timestamp, marker, old(eps[k].seqnum))] else [];
    assert forall i :: 0 <= i < |eps| && i != k ==> RecordedAt(eps[i], before);
    StillInStep(conn, eps, k, before, packets);
    forall i | 0 <= i < |eps| && i != k ensures LeftAlone(eps[i], before, old(eps[i].attempts)) {
      SentElsewhere(eps[k], conn.log[|before|..], packets, eps[i].rtpChan);
    }
  }

  /** Since then an endpoint has tried nothing, and nothing has come on its channel. */
  ghost predicate LeftAlone(ep: Endpoint, before: seq<Message>, attempts: seq<Attempt>)
    reads ep, ep.conn
  {
    before <= ep.conn.log && OnChannel(ep.conn.log[|before|..], ep.rtpChan) == [] && ep.attempts == attempts
  }

  method ReportOn(conn: Conn, eps: seq<Endpoint>, k: nat)
    requires InStep(conn, eps) && k < |eps|
    modifies conn, conn.sendBuf, eps
    ensures InStep(conn, eps) && old(conn.log) <= conn.log
    ensures forall i :: 0 <= i < |eps| ==> LeftAlone(eps[i], old(conn.log), old(eps[i].attempts))
  {
    hide Endpoint.Recorded, Endpoint.Report, Conn.Valid, WellFormed;
    ghost var before := conn.log;
    assert forall i :: 0 <= i < |eps| ==> RecordedAt(eps[i], before);
    eps[k].RtcpSend();
    ghost var added := conn.log[|before|..];
    assert eps[k].Sent(added, []) by { ReportSent(eps[k], before, conn.log); }
    RecordedLater(eps[k], before, conn.log, eps[k].attempts);
    StillInStep(conn, eps, k, before, []);
    forall i | 0 <= i < |eps| ensures LeftAlone(eps[i], before, old(eps[i].attempts)) {
      if i != k { SentElsewhere(eps[k], added, [], eps[i].rtpChan); }
    }
  }

  lemma ReportSent(ep: Endpoint, before: seq<Message>, log: seq<Message>)
    requires ep.rtpChan != ep.rtcpChan
    requires log == before || exists r :: |r| == 52 && log == before + [Interleaved(ep.rtcpChan, r)]
    ensures before <= log && ep.Sent(log[|before|..], [])
  {
    if log != before {
      var r :| |r| == 52 && log == before + [Interleaved(ep.rtcpChan, r)];
      assert log[|before|..] == [Interleaved(ep.rtcpChan, r)];
    }
  }

  method AnswerOn(conn: Conn, eps: seq<Endpoint>, line: Line, fields: seq<Field>, body: Option<seq<byte>>)
    requires InStep(conn, eps) && Replies(line, fields)
    modifies conn, conn.sendBuf
    ensures InStep(conn, eps) && old(conn.log) <= conn.log
    ensures forall i :: 0 <= i < |eps| ==> LeftAlone(eps[i], old(conn.log), eps[i].attempts)
  {
    hide Endpoint.Recorded, Conn.Valid, WellFormed, Replies, Print, SendOutcome;
    ghost var before := conn.log;
    conn.Answer(line, fields, body);
    ReplyElsewhere(before, conn.log);
    forall i | 0 <= i < |eps| ensures eps[i].Numbered() {
      assert RecordedAt(eps[i], before);
      RecordedLater(eps[i], before, conn.log, eps[i].attempts);
    }
  }

  lemma ReplyElsewhere(before: seq<Message>, log: seq<Message>)
    requires log == before || exists head, body :: log == before + [Reply(head, body)]
    ensures before <= log && forall chan :: OnChannel(log[|before|..], chan) == []
  {
    if log != before {
      var head, body :| log == before + [Reply(head, body)];
      assert log[|before|..] == [Reply(head, body)];
    }
  }

  /** Any run of several tracks on one connection: packets, reports, replies
      with or without a body and partial writes in any order. The client gets
      the messages that were accepted, and on each track exactly the sequence
      numbers of the packets that were not refused. */
  method Traffic(conn: Conn, eps: seq<Endpoint>, steps: nat)
    requires InStep(conn, eps)
    modifies conn, conn.sendBuf, eps
    ensures InStep(conn, eps) && old(conn.log) <= conn.log
    ensures Deframe(conn.accepted) == Some(conn.log)
    ensures conn.written <= conn.accepted && Receive(conn.written).0 <= conn.log
    ensures forall i :: 0 <= i < |eps| ==> eps[i].Recorded(conn.log, eps[i].attempts)
  {
    hide *;
    var n := steps;
    while n > 0 && !conn.dropped
      invariant InStep(conn, eps) && old(conn.log) <= conn.log
    {
      n := n - 1;
      var choice: int := *;
      var k: nat := *;
      match choice {
        case 0 =>
          var v: seq<IoVec> := *;
          var timestamp: nat := *;
          var marker: bool := *;
          if k < |eps| && Backed(v) && Whole(v) && 12 + Total(v) < 65536 {
            SendOn(conn, eps, k, v, timestamp, marker);
          }
        case 1 => if k < |eps| { ReportOn(conn, eps, k); }
        case 2 =>
          var line: Line := *;
          var fields: seq<Field> := *;
          var body: Option<seq<byte>> := *;
          if Replies(line, fields) { AnswerOn(conn, eps, line, fields, body); }
        case _ => WriteOn(conn, eps);
      }
    }
    AllRecorded(conn, eps);
  }

  method WriteOn(conn: Conn, eps: seq<Endpoint>)
    requires InStep(conn, eps) && !conn.dropped
    modifies conn
    ensures InStep(conn, eps) && conn.log == old(conn.log)
  {
    hide Endpoint.Recorded, Conn.Valid, WellFormed;
    var calls: nat := *;
    var drained := conn.ConnWrite(calls);
    forall i | 0 <= i < |eps| ensures eps[i].Numbered() {
      assert old(eps[i].Numbered());
    }
  }

  lemma AllRecorded(conn: Conn, eps: seq<Endpoint>)
    requires InStep(conn, eps)
    ensures Deframe(conn.accepted) == Some(conn.log)
    ensures conn.written <= conn.accepted && Receive(conn.written).0 <= conn.log
    ensures forall i :: 0 <= i < |eps| ==> eps[i].Recorded(conn.log, eps[i].attempts)
  {
    hide Endpoint.Recorded, Conn.Valid, WellFormed, Deframe, Receive;
    conn.ReceivedSoFar();
  }
}
