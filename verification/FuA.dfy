// RTP payloads for NAL units: what h263_send hands to send_rtp_packet, and
// the receiver that RFC 6184 sections 5.6 and 5.8 prescribe.
module FuA {
  import opened Bytes
  import opened AnnexB

  const MAX_RTP_PKT_LENGTH := 1400
  const FU_A: byte := 28

  datatype Packet = Packet(payload: seq<byte>, marker: bool)

  function NalType(b: byte): byte { b % 32 }

  /** The F and NRI bits of a NAL header, in place. */
  function FNri(b: byte): byte { b / 32 * 32 }

  function FuIndicator(hdr: byte): byte { FNri(hdr) + FU_A }

  function FuHeader(hdr: byte, start: bool, end: bool): byte {
    (if start then 128 else 0) + (if end then 64 else 0) + NalType(hdr)
  }

  /** Fragmentation units for what is left of a NAL unit's body. */
  function Fragments(hdr: byte, body: seq<byte>, start: bool): seq<Packet> {
    if |body| <= MAX_RTP_PKT_LENGTH then
      [Packet([FuIndicator(hdr), FuHeader(hdr, start, true)] + body, true)]
    else
      [Packet([FuIndicator(hdr), FuHeader(hdr, start, false)] + body[..MAX_RTP_PKT_LENGTH], false)]
      + Fragments(hdr, body[MAX_RTP_PKT_LENGTH..], false)
  }

  function Packetize(nal: seq<byte>): seq<Packet>
    requires nal != []
  {
    if |nal| - 1 <= MAX_RTP_PKT_LENGTH then
      [Packet(nal, NalType(nal[0]) !in {6, 7, 8})]
    else
      Fragments(nal[0], nal[1..], true)
  }

  function PacketizeAll(nals: seq<seq<byte>>): seq<Packet>
    requires forall i :: 0 <= i < |nals| ==> nals[i] != []
  {
    if nals == [] then [] else Packetize(nals[0]) + PacketizeAll(nals[1..])
  }

  function Payloads(ps: seq<Packet>): (r: seq<seq<byte>>)
    ensures |r| == |ps|
    ensures forall i :: 0 <= i < |ps| ==> r[i] == ps[i].payload
  {
    seq(|ps|, i requires 0 <= i < |ps| => ps[i].payload)
  }

  // ---- The receiver ------------------------------------------------------

  datatype Assembly = Idle | Partial(nal: seq<byte>)

  /** One received payload: the new assembly state and the NAL units completed,
      or None when the payload breaks the rules of section 5.8. */
  function Receive(p: seq<byte>, a: Assembly): Option<(Assembly, seq<seq<byte>>)> {
    if p == [] then None
    else if 1 <= NalType(p[0]) <= 23 then
      if a.Idle? then Some((Idle, [p])) else None
    else if NalType(p[0]) == FU_A && |p| >= 2 then
      var start, end := p[1] / 128 == 1, p[1] / 64 % 2 == 1;
      if (start && end) || start != a.Idle? then None
      else
        var nal := (if start then [FNri(p[0]) + NalType(p[1])] else a.nal) + p[2..];
        if end then Some((Idle, [nal])) else Some((Partial(nal), []))
    else None
  }

  /** The NAL units of a whole run of payloads, none left unfinished. */
  function Depacketize(ps: seq<seq<byte>>, a: Assembly): Option<seq<seq<byte>>> {
    if ps == [] then
      if a.Idle? then Some([]) else None
    else
      match Receive(ps[0], a)
      case None => None
      case Some((a', done)) =>
        match Depacketize(ps[1..], a')
        case None => None
        case Some(more) => Some(done + more)
  }

  lemma {:induction false} DepacketizeFragments(hdr: byte, body: seq<byte>, a: Assembly, tail: seq<seq<byte>>)
    requires a.Idle? ==> |body| > MAX_RTP_PKT_LENGTH
    ensures var nal := (if a.Idle? then [hdr] else a.nal) + body;
            Depacketize(Payloads(Fragments(hdr, body, a.Idle?)) + tail, a) ==
            match Depacketize(tail, Idle)
            case None => None
            case Some(more) => Some([nal] + more)
    decreases |body|
  {
    hide FuIndicator, FuHeader, NalType, FNri, Receive;
    var begun := if a.Idle? then [hdr] else a.nal;
    var fs := Fragments(hdr, body, a.Idle?);
    var ps := Payloads(fs) + tail;
    assert ps[0] == fs[0].payload;
    if |body| <= MAX_RTP_PKT_LENGTH {
      ReceiveFragment(hdr, body, a, true);
      assert ps[1..] == tail;
    } else {
      var chunk, body' := body[..MAX_RTP_PKT_LENGTH], body[MAX_RTP_PKT_LENGTH..];
      ReceiveFragment(hdr, chunk, a, false);
      assert ps[1..] == Payloads(Fragments(hdr, body', false)) + tail;
      DepacketizeFragments(hdr, body', Partial(begun + chunk), tail);
      assert begun + chunk + body' == begun + body;
      NothingDone(Depacketize(ps[1..], Partial(begun + chunk)));
    }
  }

  /** One fragment received in its turn. */
  lemma ReceiveFragment(hdr: byte, chunk: seq<byte>, a: Assembly, end: bool)
    requires end ==> a.Partial?
    ensures var p := [FuIndicator(hdr), FuHeader(hdr, a.Idle?, end)] + chunk;
            var nal := (if a.Idle? then [hdr] else a.nal) + chunk;
            Receive(p, a) == Some(if end then (Idle, [nal]) else (Partial(nal), []))
  {
    hide FuIndicator, FuHeader, NalType, FNri;
    FuHeaderBits(hdr, a.Idle?, end);
    var p := [FuIndicator(hdr), FuHeader(hdr, a.Idle?, end)] + chunk;
    assert p[2..] == chunk;
  }

  lemma NothingDone(rest: Option<seq<seq<byte>>>)
    ensures rest == match rest case None => None case Some(more) => Some([] + more)
  {
    if rest.Some? { assert [] + rest.value == rest.value; }
  }

  lemma FuHeaderBits(hdr: byte, start: bool, end: bool)
    ensures var h := FuHeader(hdr, start, end);
            (h / 128 == 1 <==> start) && (h / 64 % 2 == 1 <==> end) && NalType(h) == NalType(hdr)
    ensures NalType(FuIndicator(hdr)) == FU_A && FNri(FuIndicator(hdr)) == FNri(hdr)
    ensures FNri(hdr) + NalType(hdr) == hdr
  {
  }

  /** Reassembling the payloads of a frame gives its NAL units, in order. */
  lemma {:induction false} DepacketizePacketized(nals: seq<seq<byte>>)
    requires forall i :: 0 <= i < |nals| ==> nals[i] != [] && 1 <= NalType(nals[i][0]) <= 23
    ensures Depacketize(Payloads(PacketizeAll(nals)), Idle) == Some(nals)
  {
    NothingPacketized();
    if nals != [] {
      hide Depacketize, Packetize, Payloads, NalType;
      DepacketizePacketized(nals[1..]);
      DepacketizeNal(nals[0], Payloads(PacketizeAll(nals[1..])));
      PayloadsAppend(Packetize(nals[0]), PacketizeAll(nals[1..]));
      assert [nals[0]] + nals[1..] == nals;
    }
  }

  lemma NothingPacketized()
    ensures Payloads(PacketizeAll([])) == [] && Depacketize([], Idle) == Some([])
  {
  }

  lemma PayloadsAppend(a: seq<Packet>, b: seq<Packet>)
    ensures Payloads(a + b) == Payloads(a) + Payloads(b)
  {
  }

  lemma DepacketizeNal(nal: seq<byte>, tail: seq<seq<byte>>)
    requires nal != [] && 1 <= NalType(nal[0]) <= 23
    ensures Depacketize(Payloads(Packetize(nal)) + tail, Idle) ==
            match Depacketize(tail, Idle)
            case None => None
            case Some(more) => Some([nal] + more)
  {
    if |nal| - 1 <= MAX_RTP_PKT_LENGTH {
      var ps := Payloads(Packetize(nal)) + tail;
      assert ps[0] == nal && ps[1..] == tail;
      assert Receive(nal, Idle) == Some((Idle, [nal]));
    } else {
      hide Depacketize, Fragments;
      DepacketizeFragments(nal[0], nal[1..], Idle, tail);
      assert [nal[0]] + nal[1..] == nal;
    }
  }

  // ---- Shape of the fragments ---------------------------------------------

  ghost predicate IsStart(p: Packet) requires |p.payload| >= 2 { p.payload[1] / 128 == 1 }

  ghost predicate IsEnd(p: Packet) requires |p.payload| >= 2 { p.payload[1] / 64 % 2 == 1 }

  /** A NAL unit too long for one packet becomes at least two fragments of at
      most 1400 payload bytes; only the first has S, only the last has E and
      the RTP marker, and every one carries the unit's F, NRI and type. */
  ghost predicate WellFragmented(ps: seq<Packet>, hdr: byte, start: bool) {
    && forall i :: 0 <= i < |ps| ==>
         && 2 <= |ps[i].payload| <= 1402
         && ps[i].payload[0] % 32 == 28 && FNri(ps[i].payload[0]) == FNri(hdr)
         && NalType(ps[i].payload[1]) == NalType(hdr)
         && (IsStart(ps[i]) <==> start && i == 0)
         && (IsEnd(ps[i]) <==> i == |ps| - 1)
         && (ps[i].marker <==> i == |ps| - 1)
  }

  lemma {:induction false} FragmentsShape(hdr: byte, body: seq<byte>, start: bool)
    ensures WellFragmented(Fragments(hdr, body, start), hdr, start)
    ensures |Fragments(hdr, body, start)| >= 1
    ensures |body| > MAX_RTP_PKT_LENGTH ==> |Fragments(hdr, body, start)| >= 2
    decreases |body|
  {
    var ps := Fragments(hdr, body, start);
    FuHeaderBits(hdr, start, |body| <= MAX_RTP_PKT_LENGTH);
    if |body| > MAX_RTP_PKT_LENGTH {
      var rest := Fragments(hdr, body[MAX_RTP_PKT_LENGTH..], false);
      FragmentsShape(hdr, body[MAX_RTP_PKT_LENGTH..], false);
      assert forall i :: 1 <= i < |ps| ==> ps[i] == rest[i-1];
    }
  }

  lemma LongNalWellFragmented(nal: seq<byte>)
    requires |nal| - 1 > MAX_RTP_PKT_LENGTH
    ensures |Packetize(nal)| >= 2 && WellFragmented(Packetize(nal), nal[0], true)
  {
    FragmentsShape(nal[0], nal[1..], true);
  }

  // ---- Markers -------------------------------------------------------------

  const SEI: byte := 6
  const SPS: byte := 7
  const PPS: byte := 8

  /** A NAL unit in one packet is marked unless it is SEI or a parameter set. */
  lemma ShortNalMarker(nal: seq<byte>)
    requires 0 < |nal| <= 1401
    ensures |Packetize(nal)| == 1
    ensures Packetize(nal)[0].marker <==> nal[0] % 32 != SEI && nal[0] % 32 != SPS && nal[0] % 32 != PPS
  {
  }

  /** A NAL unit that is sent without any marker. */
  predicate Unmarked(nal: seq<byte>) {
    0 < |nal| <= 1401 && nal[0] % 32 in {SEI, SPS, PPS}
  }

  /** A frame that is marked as section 5.1 of RFC 6184 wants it: of the NAL
      units that it has just the last is marked. */
  predicate OnePicture(nals: seq<seq<byte>>) {
    nals != [] && !Unmarked(nals[|nals| - 1]) && forall i :: 0 <= i < |nals| - 1 ==> Unmarked(nals[i])
  }

  /** The last packet has the marker and no other. */
  predicate EndMarked(ps: seq<Packet>) {
    ps != [] && forall i :: 0 <= i < |ps| ==> (ps[i].marker <==> i == |ps| - 1)
  }

  lemma NalMarkers(nal: seq<byte>)
    requires nal != []
    ensures Packetize(nal) != [] && (EndMarked(Packetize(nal)) <==> !Unmarked(nal))
    ensures (forall i :: 0 <= i < |Packetize(nal)| ==> !Packetize(nal)[i].marker) <==> Unmarked(nal)
  {
    if |nal| <= 1401 {
      ShortNalMarker(nal);
    } else {
      hide Packetize;
      LongNalWellFragmented(nal);
      assert Packetize(nal)[|Packetize(nal)| - 1].marker;
    }
  }

  /** Only the last packet of a frame is marked if and only if the frame is SEI
      and parameter sets, each in one packet, and then one NAL unit of any
      other kind or size. A picture of several slices is marked within. */
  lemma {:induction false} MarkedAtEndIff(nals: seq<seq<byte>>)
    requires forall i :: 0 <= i < |nals| ==> nals[i] != []
    ensures EndMarked(PacketizeAll(nals)) <==> OnePicture(nals)
  {
    if nals != [] {
      hide Packetize, Unmarked, EndMarked;
      var a, b := Packetize(nals[0]), PacketizeAll(nals[1..]);
      NalMarkers(nals[0]);
      MarkedAtEndIff(nals[1..]);
      if |nals| == 1 {
        assert a + b == a;
      } else {
        NalMarkers(nals[1]);
        EndMarkedAppend(a, b);
        PictureBegins(nals);
      }
    }
  }

  lemma EndMarkedAppend(a: seq<Packet>, b: seq<Packet>)
    requires b != []
    ensures EndMarked(a + b) <==> EndMarked(b) && forall i :: 0 <= i < |a| ==> !a[i].marker
  {
    var ps := a + b;
    if EndMarked(ps) {
      assert forall i :: 0 <= i < |a| ==> a[i] == ps[i];
      assert forall i :: 0 <= i < |b| ==> b[i] == ps[|a| + i];
    }
  }

  lemma PictureBegins(nals: seq<seq<byte>>)
    requires |nals| > 1
    ensures OnePicture(nals) <==> Unmarked(nals[0]) && OnePicture(nals[1..])
  {
    hide Unmarked;
    assert forall i :: 0 <= i < |nals| - 1 ==> nals[1..][i] == nals[i + 1];
    if Unmarked(nals[0]) && OnePicture(nals[1..]) {
      forall i | 0 <= i < |nals| - 1 ensures Unmarked(nals[i]) {
        if i > 0 { assert nals[1..][i - 1] == nals[i]; }
      }
    }
  }

  lemma {:induction false} PacketizeAllAppend(a: seq<seq<byte>>, b: seq<seq<byte>>)
    requires forall i :: 0 <= i < |a| ==> a[i] != []
    requires forall i :: 0 <= i < |b| ==> b[i] != []
    ensures forall i :: 0 <= i < |a + b| ==> (a + b)[i] != []
    ensures PacketizeAll(a + b) == PacketizeAll(a) + PacketizeAll(b)
  {
    hide Packetize;
    if a == [] {
      assert a + b == b;
    } else {
      assert (a + b)[1..] == a[1..] + b && (a + b)[0] == a[0];
      PacketizeAllAppend(a[1..], b);
      Associative(Packetize(a[0]), PacketizeAll(a[1..]), PacketizeAll(b));
    }
  }
}
