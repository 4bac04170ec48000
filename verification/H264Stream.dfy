// A stream of H.264 frames on a connection that may refuse packets: what a
// receiver gets that gives up a NAL unit when a sequence number is missing.
module H264Stream {
  import opened Bytes
  import opened AnnexB
  import opened FuA
  import Wire
  import opened Tcp
  import Pmsg
  import opened Rtp
  import opened H264Send

  // ---- The receiver ---------------------------------------------------------------

  /** The sequence number to come next, and what there is of a NAL unit. */
  datatype Receiver = Receiver(next: Option<nat>, held: Assembly)

  /** A payload that does not continue what is held makes the receiver drop
      that, and perhaps begin anew. */
  function Take(p: seq<byte>, a: Assembly): (Assembly, seq<seq<byte>>) {
    match Receive(p, a)
    case Some(x) => x
    case None =>
      match Receive(p, Idle)
      case Some(x) => x
      case None => (Idle, [])
  }

  /** One packet: the new state and the NAL units that are complete. Behind a
      gap nothing that is held can be completed. */
  function Accept(r: Receiver, packet: seq<byte>): (Receiver, seq<seq<byte>>) {
    var (a, done) := Take(BodyOf(packet), if r.next == Some(SeqOf(packet)) then r.held else Idle);
    (Receiver(Some((SeqOf(packet) + 1) % SEQ_MOD), a), done)
  }

  /** A run of packets. */
  function Collect(r: Receiver, packets: seq<seq<byte>>): (Receiver, seq<seq<byte>>)
    decreases |packets|
  {
    if packets == [] then (r, [])
    else
      var (r', done) := Accept(r, packets[0]);
      var (r'', more) := Collect(r', packets[1..]);
      (r'', done + more)
  }

  lemma {:induction false} CollectAppend(r: Receiver, a: seq<seq<byte>>, b: seq<seq<byte>>)
    ensures var (r', done) := Collect(r, a);
            Collect(r, a + b) == (Collect(r', b).0, done + Collect(r', b).1)
    decreases |a|
  {
    hide Accept;
    if a == [] {
      assert a + b == b;
      var more := Collect(r, b).1;
      assert [] + more == more;
    } else {
      assert (a + b)[1..] == a[1..] + b;
      var (r', done) := Accept(r, a[0]);
      CollectAppend(r', a[1..], b);
      var (r'', more) := Collect(r', a[1..]);
      Associative(done, more, Collect(r'', b).1);
    }
  }

  // ---- What one NAL unit comes to ----------------------------------------------------

  lemma AcceptStamped(r: Receiver, ep: Endpoint, p: Packet, timestamp: nat, s: nat)
    requires ep.payload < 128
    ensures var x := ep.PacketFor(p.payload, timestamp, p.marker, s % SEQ_MOD);
            var (a, done) := Take(p.payload, if r.next == Some(s % SEQ_MOD) then r.held else Idle);
            Accept(r, x) == (Receiver(Some((s + 1) % SEQ_MOD), a), done)
  {
    hide Take, HeaderOf, PlainHeader, RtpHeader, SeqOf, MarkerOf, BodyOf;
    HeaderFields(ep.payload, p.marker, s % SEQ_MOD, (ep.startTimestamp + timestamp) % 0x1_0000_0000, ep.ssrc,
      p.payload);
  }

  /** The first fragment begins anew whatever is held; any other continues. */
  lemma TakeFragment(hdr: byte, chunk: seq<byte>, held: Assembly, start: bool, end: bool)
    requires (start ==> !end) && (!start ==> held.Partial?)
    ensures var nal := (if start then [hdr] else held.nal) + chunk;
            Take([FuIndicator(hdr), FuHeader(hdr, start, end)] + chunk, held) ==
            if end then (Idle, [nal]) else (Partial(nal), [])
  {
    hide FuIndicator, FuHeader, NalType, FNri;
    FuHeaderBits(hdr, start, end);
    if start { ReceiveFragment(hdr, chunk, Idle, end); } else { ReceiveFragment(hdr, chunk, held, end); }
  }

  /** Of the fragments of a NAL unit the first k arrive. */
  lemma {:induction false} CollectFragments(r: Receiver, ep: Endpoint, hdr: byte, body: seq<byte>, start: bool,
                                            timestamp: nat, s: nat, k: nat)
    requires ep.payload < 128 && k <= |Fragments(hdr, body, start)|
    requires if start then |body| > MAX_RTP_PKT_LENGTH else r.next == Some(s % SEQ_MOD) && r.held.Partial?
    ensures var nal := (if start then [hdr] else r.held.nal) + body;
            Collect(r, Stamp(ep, Fragments(hdr, body, start)[..k], timestamp, s)).1 ==
            if k == |Fragments(hdr, body, start)| then [nal] else []
    decreases |body|
  {
    if k == 0 {
      CollectNothing(r, ep, timestamp, s);
    } else {
      hide FuIndicator, FuHeader, Accept, Take, Collect, Stamp, Fragments;
      var end := |body| <= MAX_RTP_PKT_LENGTH;
      var begun := if start then [hdr] else r.held.nal;
      var chunk := if end then body else body[..MAX_RTP_PKT_LENGTH];
      var more := FragmentsAre(hdr, body, start);
      var fs := Fragments(hdr, body, start)[..k];
      assert fs[1..] == more[..k - 1];
      var r' := FirstFragment(r, ep, hdr, chunk, start, end, fs, timestamp, s);
      if end {
        CollectNothing(r', ep, timestamp, s + 1);
        NothingLast([begun + chunk]);
      } else {
        CollectFragments(r', ep, hdr, body[MAX_RTP_PKT_LENGTH..], false, timestamp, s + 1, k - 1);
        Associative(begun, chunk, body[MAX_RTP_PKT_LENGTH..]);
        NothingFirst(Collect(r', Stamp(ep, fs[1..], timestamp, s + 1)).1);
      }
    }
  }

  lemma NothingLast<T>(done: seq<T>)
    ensures done + [] == done
  {
  }

  lemma NothingFirst<T>(more: seq<T>)
    ensures [] + more == more
  {
  }

  lemma FragmentsAre(hdr: byte, body: seq<byte>, start: bool) returns (more: seq<Packet>)
    ensures var end := |body| <= MAX_RTP_PKT_LENGTH;
            var chunk := if end then body else body[..MAX_RTP_PKT_LENGTH];
            && more == (if end then [] else Fragments(hdr, body[MAX_RTP_PKT_LENGTH..], false))
            && var first := Packet([FuIndicator(hdr), FuHeader(hdr, start, end)] + chunk, end);
               Fragments(hdr, body, start) == [first] + more
    ensures |body| > MAX_RTP_PKT_LENGTH ==> body[..MAX_RTP_PKT_LENGTH] + body[MAX_RTP_PKT_LENGTH..] == body
  {
    hide FuIndicator, FuHeader;
    more := if |body| <= MAX_RTP_PKT_LENGTH then [] else Fragments(hdr, body[MAX_RTP_PKT_LENGTH..], false);
  }

  /** The first of a run of fragments is taken up. */
  lemma FirstFragment(r: Receiver, ep: Endpoint, hdr: byte, chunk: seq<byte>, start: bool, end: bool, fs: seq<Packet>,
                      timestamp: nat, s: nat)
    returns (r': Receiver)
    requires ep.payload < 128 && fs != [] && (start ==> !end)
    requires fs[0] == Packet([FuIndicator(hdr), FuHeader(hdr, start, end)] + chunk, end)
    requires start || (r.next == Some(s % SEQ_MOD) && r.held.Partial?)
    ensures var begun := if start then [hdr] else r.held.nal;
            && r' == Receiver(Some((s + 1) % SEQ_MOD), if end then Idle else Partial(begun + chunk))
            && Collect(r, Stamp(ep, fs, timestamp, s)).1 ==
               (if end then [begun + chunk] else []) + Collect(r', Stamp(ep, fs[1..], timestamp, s + 1)).1
  {
    hide FuIndicator, FuHeader, Accept, Take, Stamp;
    var held := if r.next == Some(s % SEQ_MOD) then r.held else Idle;
    AcceptStamped(r, ep, fs[0], timestamp, s);
    TakeFragment(hdr, chunk, held, start, end);
    StampFirst(ep, fs, timestamp, s);
    var x := ep.PacketFor(fs[0].payload, timestamp, fs[0].marker, s % SEQ_MOD);
    r' := Accept(r, x).0;
    CollectFirst(r, x, Stamp(ep, fs[1..], timestamp, s + 1));
  }

  lemma CollectFirst(r: Receiver, x: seq<byte>, more: seq<seq<byte>>)
    ensures Collect(r, [x] + more).1 == Accept(r, x).1 + Collect(Accept(r, x).0, more).1
  {
    hide Accept;
    assert ([x] + more)[1..] == more;
  }

  lemma CollectNothing(r: Receiver, ep: Endpoint, timestamp: nat, s: nat)
    requires ep.payload < 128
    ensures Collect(r, Stamp(ep, [], timestamp, s)) == (r, [])
  {
  }

  lemma StampFirst(ep: Endpoint, ps: seq<Packet>, timestamp: nat, s: nat)
    requires ep.payload < 128 && ps != []
    ensures Stamp(ep, ps, timestamp, s)
         == [ep.PacketFor(ps[0].payload, timestamp, ps[0].marker, s % SEQ_MOD)] + Stamp(ep, ps[1..], timestamp, s + 1)
  {
  }

  /** Of the packets of a NAL unit the first k arrive: it is there if and only
      if that is all of them, whatever the receiver held before. */
  lemma CollectNal(r: Receiver, ep: Endpoint, nal: seq<byte>, timestamp: nat, s: nat, k: nat)
    requires ep.payload < 128 && nal != [] && 1 <= NalType(nal[0]) <= 23 && k <= |Packetize(nal)|
    ensures Collect(r, Stamp(ep, Packetize(nal)[..k], timestamp, s)).1 == if k == |Packetize(nal)| then [nal] else []
  {
    var ps := Packetize(nal);
    if |nal| - 1 <= MAX_RTP_PKT_LENGTH {
      if k == 0 {
        CollectNothing(r, ep, timestamp, s);
      } else {
        hide Accept;
        AcceptStamped(r, ep, ps[0], timestamp, s);
        assert ps[..k] == ps && ps[1..] == [];
        StampFirst(ep, ps, timestamp, s);
        var (r', done) := Accept(r, ep.PacketFor(nal, timestamp, ps[0].marker, s % SEQ_MOD));
        CollectNothing(r', ep, timestamp, s + 1);
        assert done == [nal];
      }
    } else {
      CollectFragments(r, ep, nal[0], nal[1..], true, timestamp, s, k);
      assert [nal[0]] + nal[1..] == nal;
    }
  }

  // ---- What one frame comes to --------------------------------------------------------

  /** The NAL units whose packets are all among the first k. */
  function Arrived(nals: seq<seq<byte>>, k: nat): seq<seq<byte>>
    requires forall i :: 0 <= i < |nals| ==> nals[i] != []
  {
    if nals == [] || |Packetize(nals[0])| > k then []
    else [nals[0]] + Arrived(nals[1..], k - |Packetize(nals[0])|)
  }

  lemma {:induction false} CollectFrame(r: Receiver, ep: Endpoint, nals: seq<seq<byte>>, timestamp: nat, s: nat, k: nat)
    requires forall i :: 0 <= i < |nals| ==> nals[i] != [] && 1 <= NalType(nals[i][0]) <= 23
    requires ep.payload < 128 && k <= |PacketizeAll(nals)|
    ensures Collect(r, Stamp(ep, PacketizeAll(nals)[..k], timestamp, s)).1 == Arrived(nals, k)
    decreases |nals|
  {
    hide Packetize, Stamp, Collect;
    if nals == [] {
      CollectNothing(r, ep, timestamp, s);
    } else {
      var ps, qs := Packetize(nals[0]), PacketizeAll(nals[1..]);
      assert PacketizeAll(nals) == ps + qs;
      if k < |ps| {
        assert (ps + qs)[..k] == ps[..k];
        CollectNal(r, ep, nals[0], timestamp, s, k);
      } else {
        assert (ps + qs)[..k] == ps + qs[..k - |ps|] && ps[..|ps|] == ps;
        StampAppend(ep, ps, qs[..k - |ps|], timestamp, s);
        CollectNal(r, ep, nals[0], timestamp, s, |ps|);
        var a, b := Stamp(ep, ps, timestamp, s), Stamp(ep, qs[..k - |ps|], timestamp, s + |ps|);
        CollectAppend(r, a, b);
        CollectFrame(Collect(r, a).0, ep, nals[1..], timestamp, s + |ps|, k - |ps|);
      }
    }
  }

  // ---- A run of frames -------------------------------------------------------------------

  /** One h263_send: of the packets of a frame the first sent were queued, and
      if these were not all, one more was refused. */
  datatype Burst = Burst(nals: seq<seq<byte>>, timestamp: nat, sent: nat)

  predicate Proper(b: Burst) {
    AllWellFormed(b.nals) && b.sent <= |PacketizeAll(b.nals)|
  }

  predicate AllProper(bursts: seq<Burst>) {
    forall i :: 0 <= i < |bursts| ==> Proper(bursts[i])
  }

  /** The sequence numbers that a burst uses up. */
  function Numbers(b: Burst): nat
    requires Proper(b)
  {
    b.sent + if b.sent == |PacketizeAll(b.nals)| then 0 else 1
  }

  function AllNumbers(bursts: seq<Burst>): nat
    requires AllProper(bursts)
  {
    if bursts == [] then 0 else Numbers(bursts[0]) + AllNumbers(bursts[1..])
  }

  ghost function PacketsOfBurst(ep: Endpoint, b: Burst, s: nat): seq<seq<byte>>
    requires ep.payload < 128 && Proper(b)
  {
    Stamp(ep, PacketizeAll(b.nals)[..b.sent], b.timestamp, s)
  }

  /** The packets of a run that were queued, numbered from s on. */
  ghost function PacketsOfBursts(ep: Endpoint, bursts: seq<Burst>, s: nat): seq<seq<byte>>
    requires ep.payload < 128 && AllProper(bursts)
    decreases |bursts|
  {
    if bursts == [] then []
    else PacketsOfBurst(ep, bursts[0], s) + PacketsOfBursts(ep, bursts[1..], s + Numbers(bursts[0]))
  }

  /** The NAL units of a run whose packets were all queued. */
  function AllArrived(bursts: seq<Burst>): seq<seq<byte>>
    requires AllProper(bursts)
  {
    if bursts == [] then [] else Arrived(bursts[0].nals, bursts[0].sent) + AllArrived(bursts[1..])
  }

  lemma {:induction false} BurstsSnoc(ep: Endpoint, bursts: seq<Burst>, b: Burst, s: nat)
    requires ep.payload < 128 && AllProper(bursts) && Proper(b)
    ensures AllProper(bursts + [b]) && AllNumbers(bursts + [b]) == AllNumbers(bursts) + Numbers(b)
    ensures PacketsOfBursts(ep, bursts + [b], s)
         == PacketsOfBursts(ep, bursts, s) + PacketsOfBurst(ep, b, s + AllNumbers(bursts))
    decreases |bursts|
  {
    hide Proper, Numbers, PacketsOfBurst;
    var all := bursts + [b];
    if bursts == [] {
      assert all == [b] && all[1..] == [];
      assert PacketsOfBursts(ep, all, s) == PacketsOfBurst(ep, b, s) + [];
    } else {
      assert all[1..] == bursts[1..] + [b] && all[0] == bursts[0];
      var s' := s + Numbers(bursts[0]);
      BurstsSnoc(ep, bursts[1..], b, s');
      Associative(PacketsOfBurst(ep, bursts[0], s), PacketsOfBursts(ep, bursts[1..], s'),
                  PacketsOfBurst(ep, b, s' + AllNumbers(bursts[1..])));
    }
  }

  /** From the packets that arrive a receiver gets exactly the NAL units whose
      packets were all queued, in order. */
  lemma {:induction false} CollectBursts(r: Receiver, ep: Endpoint, bursts: seq<Burst>, s: nat)
    requires ep.payload < 128 && AllProper(bursts)
    ensures Collect(r, PacketsOfBursts(ep, bursts, s)).1 == AllArrived(bursts)
    decreases |bursts|
  {
    hide Arrived, Numbers, PacketizeAll, Stamp, WellFormedNal;
    if bursts == [] {
    } else {
      hide Collect;
      var b, s' := bursts[0], s + Numbers(bursts[0]);
      NalsBegin(b.nals);
      CollectFrame(r, ep, b.nals, b.timestamp, s, b.sent);
      var first, more := PacketsOfBurst(ep, b, s), PacketsOfBursts(ep, bursts[1..], s');
      CollectAppend(r, first, more);
      CollectBursts(Collect(r, first).0, ep, bursts[1..], s');
    }
  }

  lemma NalsBegin(nals: seq<seq<byte>>)
    requires AllWellFormed(nals)
    ensures forall i :: 0 <= i < |nals| ==> nals[i] != [] && 1 <= NalType(nals[i][0]) <= 23
  {
  }

  // ---- Sending ---------------------------------------------------------------------------

  lemma FirstPackets(nals: seq<seq<byte>>, m: nat)
    requires m <= |nals| && forall i :: 0 <= i < |nals| ==> nals[i] != []
    ensures PacketizeAll(nals[..m]) <= PacketizeAll(nals)
  {
    hide Packetize, PacketizeAll;
    assert nals[..m] + nals[m..] == nals;
    PacketizeAllAppend(nals[..m], nals[m..]);
  }

  /** A frame of well-formed NAL units, none longer than the unit buffer. */
  datatype Picture = Picture(nals: seq<seq<byte>>, timestamp: nat)

  predicate Sendable(f: Picture, size: nat) {
    AllWellFormed(f.nals) && forall i :: 0 <= i < |f.nals| ==> |f.nals[i]| + 4 <= size
  }

  /** The frames sent so far are the first of these, in order. */
  predicate Sends(bursts: seq<Burst>, frames: seq<Picture>) {
    && |bursts| <= |frames|
    && forall i :: 0 <= i < |bursts| ==> bursts[i].nals == frames[i].nals && bursts[i].timestamp == frames[i].timestamp
  }

  /** h263_send of a well-formed frame whose NAL units fit the unit buffer. */
  method SendFrame(sender: Sender, ep: Endpoint, nals: seq<seq<byte>>, timestamp: nat) returns (ghost b: Burst)
    requires ep.Valid() && 5 <= sender.bsBuf.Length && sender.bsBuf != ep.conn.sendBuf
    requires Sendable(Picture(nals, timestamp), sender.bsBuf.Length)
    modifies ep, ep.conn, ep.conn.sendBuf, sender.bsBuf
    ensures ep.Valid() && ep.torn == old(ep.torn) && old(ep.conn.log) <= ep.conn.log
    ensures b.nals == nals && b.timestamp == timestamp && Proper(b) && ep.Count() == old(ep.Count()) + Numbers(b)
    ensures ep.Sent(ep.conn.log[|old(ep.conn.log)|..], PacketsOfBurst(ep, b, old(ep.Count())))
    ensures Wire.AllWellFormed(ep.conn.log[|old(ep.conn.log)|..])
  {
    hide Tried, Loaded, Fits, Partition, AllWellFormed, PacketizeAll, Endpoint.Valid, Endpoint.Sent, Wire.AllWellFormed,
         PacketsOf, Frame, NoCode, CodeNear;
    ghost var log, s := ep.conn.log, ep.Count();
    var result;
    ghost var units, used, sent;
    result, units, used, sent := sender.Send(ep, Frame(nals), timestamp);
    FrameFits(nals, units, used, sender.bsBuf.Length);
    UnitsOf(nals, units, used);
    if result.Done? && !Partition(Frame(nals), units) { EmptyWithoutCode(nals); }
    if result.Done? && Partition(Frame(nals), units) { WholeFrame(nals, units); }
    BurstTried(ep, log, s, nals, units, timestamp, sent, result.Done?);
    b := Burst(nals, timestamp, sent);
  }

  /** The units that were loaded are long, and their packets the first of the frame. */
  lemma UnitsOf(nals: seq<seq<byte>>, units: seq<seq<byte>>, used: nat)
    requires AllWellFormed(nals) && Loaded(Frame(nals), units, used)
    ensures |units| <= |nals| && AllLong(units) && PacketsOf(units) == PacketizeAll(nals[..|units|])
  {
    hide Loaded, Frame;
    LoadedFrame(nals, units, used);
    forall i | 0 <= i < |units| ensures NalOf(units[i]) == nals[i] && |units[i]| >= 5 {
      hide WellFormedNal;
      NalBehindCode(nals[i]);
      NalsBegin(nals);
    }
    assert NalsOf(units) == nals[..|units|];
  }

  lemma WholeFrame(nals: seq<seq<byte>>, units: seq<seq<byte>>)
    requires AllWellFormed(nals) && Partition(Frame(nals), units)
    ensures |units| == |nals|
  {
    FramePartition(nals, units);
  }

  lemma BurstTried(ep: Endpoint, log: seq<Wire.Message>, s: nat, nals: seq<seq<byte>>, units: seq<seq<byte>>,
                   timestamp: nat, sent: nat, ok: bool)
    requires AllWellFormed(nals) && |units| <= |nals| && PacketsOf(units) == PacketizeAll(nals[..|units|])
    requires AllLong(units) && UnitsTried(ep, log, s, units, timestamp, sent, ok) && (ok ==> |units| == |nals|)
    ensures var b := Burst(nals, timestamp, sent);
            && Proper(b) && ep.payload < 128 && ep.Count() == s + Numbers(b)
            && log <= ep.conn.log && ep.Sent(ep.conn.log[|log|..], PacketsOfBurst(ep, b, s))
  {
    hide WellFormedNal, PacketizeAll, Stamp, Endpoint.Sent, PacketsOf, Endpoint.Valid;
    LogIs(ep);
    NalsBegin(nals);
    FirstPackets(nals, |units|);
    assert nals[..|nals|] == nals;
    assert PacketizeAll(nals)[..sent] == PacketsOf(units)[..sent];
  }

  /** Any run of a connection with several tracks, one of which carries frames:
      frames on that track, packets on the others, reports, replies and partial
      writes, in any order and refused or not. From what has been queued on
      its channel a receiver gets exactly the NAL units whose packets were all
      queued, whatever it held before. */
  method Stream(sender: Sender, conn: Conn, eps: seq<Endpoint>, k: nat, frames: seq<Picture>, steps: nat)
    returns (ghost bursts: seq<Burst>)
    requires InStep(conn, eps) && k < |eps| && 5 <= sender.bsBuf.Length && sender.bsBuf != conn.sendBuf
    requires forall i :: 0 <= i < |frames| ==> Sendable(frames[i], sender.bsBuf.Length)
    modifies conn, conn.sendBuf, eps, sender.bsBuf
    ensures InStep(conn, eps) && old(conn.log) <= conn.log && AllProper(bursts) && Sends(bursts, frames)
    ensures Streamed(eps[k], old(conn.log), old(eps[k].Count()), bursts)
    ensures Wire.Deframe(conn.accepted) == Some(conn.log)
    ensures forall r: Receiver ::
      Collect(r, Wire.OnChannel(conn.log[|old(conn.log)|..], eps[k].rtpChan)).1 == AllArrived(bursts)
  {
    hide *;
    var n := steps;
    bursts := [];
    ghost var log, s := conn.log, eps[k].Count();
    StreamStart(conn, eps, k, frames);
    var i := 0;
    while n > 0 && !conn.dropped
      invariant InStep(conn, eps) && log <= conn.log
      invariant AllProper(bursts) && Streamed(eps[k], log, s, bursts)
      invariant i == |bursts| <= |frames| && Sends(bursts, frames)
    {
      n := n - 1;
      var choice: int := *;
      var j: nat := *;
      match choice {
        case 0 =>
          if i < |frames| {
            bursts := StreamFrame(sender, conn, eps, k, frames, i, log, s, bursts);
            i := i + 1;
          }
        case _ => StreamOther(conn, eps, k, choice, j, log, s, bursts);
      }
    }
    StreamEnd(conn, eps, k, log, s, bursts);
  }

  /** Since then an endpoint has sent these bursts and nothing else. */
  ghost predicate Streamed(ep: Endpoint, log: seq<Wire.Message>, s: nat, bursts: seq<Burst>)
    requires AllProper(bursts)
    reads ep, ep.conn
  {
    && ep.payload < 128 && log <= ep.conn.log && ep.Count() == s + AllNumbers(bursts)
    && Wire.OnChannel(ep.conn.log[|log|..], ep.rtpChan) == PacketsOfBursts(ep, bursts, s)
  }

  lemma StreamStart(conn: Conn, eps: seq<Endpoint>, k: nat, frames: seq<Picture>)
    requires InStep(conn, eps) && k < |eps|
    ensures AllProper([]) && Sends([], frames) && Streamed(eps[k], conn.log, eps[k].Count(), [])
  {
  }

  lemma StreamEnd(conn: Conn, eps: seq<Endpoint>, k: nat, log: seq<Wire.Message>, s: nat, bursts: seq<Burst>)
    requires InStep(conn, eps) && k < |eps| && AllProper(bursts) && Streamed(eps[k], log, s, bursts)
    ensures log <= conn.log && Wire.Deframe(conn.accepted) == Some(conn.log)
    ensures forall r: Receiver :: Collect(r, Wire.OnChannel(conn.log[|log|..], eps[k].rtpChan)).1 == AllArrived(bursts)
  {
    hide Collect, AllArrived, Proper, Wire.Deframe, PacketsOfBursts, AllNumbers;
    AllRecorded(conn, eps);
    assert eps[k].conn == conn;
    forall r: Receiver
      ensures Collect(r, Wire.OnChannel(conn.log[|log|..], eps[k].rtpChan)).1 == AllArrived(bursts)
    {
      CollectBursts(r, eps[k], bursts, s);
    }
  }

  lemma StreamedLater(ep: Endpoint, log: seq<Wire.Message>, s: nat, bursts: seq<Burst>, before: seq<Wire.Message>)
    requires AllProper(bursts) && ep.payload < 128 && log <= before && LeftAlone(ep, before, ep.attempts)
    requires ep.Count() == s + AllNumbers(bursts)
    requires Wire.OnChannel(before[|log|..], ep.rtpChan) == PacketsOfBursts(ep, bursts, s)
    ensures Streamed(ep, log, s, bursts)
  {
    hide Proper, PacketsOfBursts, AllNumbers;
    var a, b := before[|log|..], ep.conn.log[|before|..];
    assert ep.conn.log[|log|..] == a + b;
    Wire.OnChannelAppend(a, b, ep.rtpChan);
    var ps := Wire.OnChannel(a, ep.rtpChan);
    assert ps + [] == ps;
  }

  /** A step that is none of this endpoint's packets. */
  method StreamOther(conn: Conn, eps: seq<Endpoint>, k: nat, choice: int, j: nat,
                     ghost log: seq<Wire.Message>, ghost s: nat, ghost bursts: seq<Burst>)
    requires InStep(conn, eps) && k < |eps| && !conn.dropped && AllProper(bursts) && Streamed(eps[k], log, s, bursts)
    modifies conn, conn.sendBuf, eps
    ensures InStep(conn, eps) && log <= conn.log && Streamed(eps[k], log, s, bursts)
  {
    hide InStep, Proper, PacketsOfBursts, AllNumbers, Replies, Total;
    ghost var before := conn.log;
    StreamingOn(conn, eps, k);
    match choice {
      case 1 =>
        var v: seq<IoVec> := *;
        var timestamp: nat := *;
        var marker: bool := *;
        if j < |eps| && j != k && Backed(v) && Whole(v) && 12 + Total(v) < 65536 {
          SendOn(conn, eps, j, v, timestamp, marker);
          StreamedLater(eps[k], log, s, bursts, before);
        }
      case 2 =>
        if j < |eps| {
          ReportOn(conn, eps, j);
          StreamedLater(eps[k], log, s, bursts, before);
        }
      case 3 =>
        var line: Pmsg.Line := *;
        var fields: seq<Pmsg.Field> := *;
        var body: Option<seq<byte>> := *;
        if Replies(line, fields) {
          AnswerOn(conn, eps, line, fields, body);
          StreamedLater(eps[k], log, s, bursts, before);
        }
      case _ => WriteOn(conn, eps);
    }
  }

  lemma StreamingOn(conn: Conn, eps: seq<Endpoint>, k: nat)
    requires InStep(conn, eps) && k < |eps|
    ensures eps[k].conn == conn
  {
  }

  method StreamFrame(sender: Sender, conn: Conn, eps: seq<Endpoint>, k: nat, frames: seq<Picture>,
                     i: nat, ghost log: seq<Wire.Message>, ghost s: nat, ghost bursts: seq<Burst>)
    returns (ghost more: seq<Burst>)
    requires InStep(conn, eps) && k < |eps| && 5 <= sender.bsBuf.Length && sender.bsBuf != conn.sendBuf
    requires i == |bursts| < |frames| && Sendable(frames[i], sender.bsBuf.Length) && Sends(bursts, frames)
    requires AllProper(bursts) && Streamed(eps[k], log, s, bursts)
    modifies conn, conn.sendBuf, eps, sender.bsBuf
    ensures InStep(conn, eps) && log <= conn.log && AllProper(more) && Streamed(eps[k], log, s, more)
    ensures |more| == |bursts| + 1 && Sends(more, frames)
  {
    hide Proper, PacketsOfBursts, PacketsOfBurst, AllNumbers, Numbers, Endpoint.Sent, Endpoint.Recorded, Conn.Valid,
         WellFormedNal;
    var f := frames[i];
    ghost var before := conn.log;
    assert forall i :: 0 <= i < |eps| ==> RecordedAt(eps[i], before);
    ghost var b := SendFrame(sender, eps[k], f.nals, f.timestamp);
    assert forall i :: 0 <= i < |eps| && i != k ==> RecordedAt(eps[i], before);
    BurstSizes(eps[k], b, s + AllNumbers(bursts));
    StillInStep(conn, eps, k, before, PacketsOfBurst(eps[k], b, s + AllNumbers(bursts)));
    more := StreamedMore(eps[k], log, s, bursts, b, before);
  }

  lemma StreamedMore(ep: Endpoint, log: seq<Wire.Message>, s: nat, bursts: seq<Burst>, b: Burst,
                     before: seq<Wire.Message>)
    returns (more: seq<Burst>)
    requires ep.payload < 128 && AllProper(bursts) && Proper(b) && log <= before <= ep.conn.log
    requires Wire.OnChannel(before[|log|..], ep.rtpChan) == PacketsOfBursts(ep, bursts, s)
    requires ep.Count() == s + AllNumbers(bursts) + Numbers(b)
    requires ep.Sent(ep.conn.log[|before|..], PacketsOfBurst(ep, b, s + AllNumbers(bursts)))
    ensures AllProper(more) && Streamed(ep, log, s, more) && more == bursts + [b]
  {
    hide Proper, PacketsOfBursts, PacketsOfBurst, AllNumbers, Numbers, Endpoint.Sent, Endpoint.Recorded;
    more := bursts + [b];
    BurstsSnoc(ep, bursts, b, s);
    BurstStreamed(ep, log, before, PacketsOfBurst(ep, b, s + AllNumbers(bursts)));
  }

  lemma BurstSizes(ep: Endpoint, b: Burst, s: nat)
    requires ep.payload < 128 && Proper(b)
    ensures forall i :: 0 <= i < |PacketsOfBurst(ep, b, s)| ==> |PacketsOfBurst(ep, b, s)[i]| < 65536
  {
    NalsBegin(b.nals);
    hide PacketizeAll, Stamp, WellFormedNal;
    PacketSizes(b.nals);
    StampedPackets(ep, PacketizeAll(b.nals)[..b.sent], b.timestamp, s);
  }

  lemma BurstStreamed(ep: Endpoint, log: seq<Wire.Message>, before: seq<Wire.Message>, packets: seq<seq<byte>>)
    requires log <= before <= ep.conn.log && ep.Sent(ep.conn.log[|before|..], packets)
    ensures Wire.OnChannel(ep.conn.log[|log|..], ep.rtpChan) == Wire.OnChannel(before[|log|..], ep.rtpChan) + packets
  {
    assert ep.conn.log[|log|..] == before[|log|..] + ep.conn.log[|before|..];
    Wire.OnChannelAppend(before[|log|..], ep.conn.log[|before|..], ep.rtpChan);
  }
}
