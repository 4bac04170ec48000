// The registries of the RTSP server and what ties them together
// (spook/rtsp.c, live.c, rtp.c, session.c, tcp.c). Objects are known by their
// addresses; freeing one takes it out of its map.
module RtspWorld {
  import opened Bytes

  const MAX_TRACKS := 2
  const MAX_INTERLEAVE_CHANNELS := 8

  type Address = nat

  datatype Trans = Unconnected | Udp | Inter(conn: Address, rtpChan: nat, rtcpChan: nat)

  datatype Endpoint = Endpoint(session: Address, trans: Trans)

  datatype Session = Session(ep: seq<Option<Address>>, control: Option<Address>, playing: bool)

  /** One entry of an rtsp_conn's ichan. */
  datatype Channel = Channel(ep: Option<Address>, rtcp: bool)

  datatype RtspSession = RtspSession(address: Address, id: string, sess: Address)

  type Endpoints = map<Address, Endpoint>
  type Sessions = map<Address, Session>
  type Conns = map<Address, Option<seq<Channel>>>   // a connection's proto_state

  // ---- Channels -------------------------------------------------------------

  /** An endpoint interleaved on a connection owns its two channels there. */
  ghost predicate Connected(conns: Conns, e: Address, t: Trans)
    requires t.Inter?
  {
    && t.conn in conns && conns[t.conn].Some? && |conns[t.conn].value| == MAX_INTERLEAVE_CHANNELS
    && t.rtcpChan == t.rtpChan + 1 < MAX_INTERLEAVE_CHANNELS
    && conns[t.conn].value[t.rtpChan] == Channel(Some(e), false)
    && conns[t.conn].value[t.rtcpChan] == Channel(Some(e), true)
  }

  /** Channel i of connection c, if it names an endpoint, names a live one that
      is interleaved there and owns the channel as its RTP or its RTCP half. */
  ghost predicate Backed(endpoints: Endpoints, c: Address, chans: seq<Channel>, i: nat)
    requires i < |chans|
  {
    chans[i].ep.Some? ==>
      var e := chans[i].ep.value;
      && e in endpoints && endpoints[e].trans.Inter? && endpoints[e].trans.conn == c
      && i == if chans[i].rtcp then endpoints[e].trans.rtcpChan else endpoints[e].trans.rtpChan
  }

  ghost predicate Channels(endpoints: Endpoints, conns: Conns) {
    && (forall c :: c in conns && conns[c].Some? ==>
          && |conns[c].value| == MAX_INTERLEAVE_CHANNELS
          && forall i :: 0 <= i < MAX_INTERLEAVE_CHANNELS ==> Backed(endpoints, c, conns[c].value, i))
    && (forall e :: e in endpoints && endpoints[e].trans.Inter? ==> Connected(conns, e, endpoints[e].trans))
  }

  /** No two live endpoints share a channel of a connection. */
  lemma ChannelsExclusive(endpoints: Endpoints, conns: Conns, e: Address, f: Address)
    requires Channels(endpoints, conns) && e in endpoints && f in endpoints && e != f
    requires endpoints[e].trans.Inter? && endpoints[f].trans.Inter?
    requires endpoints[e].trans.conn == endpoints[f].trans.conn
    ensures {endpoints[e].trans.rtpChan, endpoints[e].trans.rtcpChan}
         !! {endpoints[f].trans.rtpChan, endpoints[f].trans.rtcpChan}
  {
    assert Connected(conns, e, endpoints[e].trans) && Connected(conns, f, endpoints[f].trans);
  }

  /** A channel names an endpoint iff the endpoint is live, interleaved on that
      connection, and has the channel as its RTP or its RTCP half. */
  ghost predicate ChannelsExact(endpoints: Endpoints, conns: Conns) {
    forall c, i, e | c in conns && conns[c].Some? && 0 <= i < |conns[c].value| ::
      Names(conns, c, i, e) <==> Owns(endpoints, c, i, e)
  }

  ghost predicate Names(conns: Conns, c: Address, i: nat, e: Address)
    requires c in conns && conns[c].Some? && i < |conns[c].value|
  {
    conns[c].value[i].ep == Some(e)
  }

  ghost predicate Owns(endpoints: Endpoints, c: Address, i: nat, e: Address) {
    && e in endpoints && endpoints[e].trans.Inter? && endpoints[e].trans.conn == c
    && (i == endpoints[e].trans.rtpChan || i == endpoints[e].trans.rtcpChan)
  }

  lemma ChannelsAreExact(endpoints: Endpoints, conns: Conns)
    requires Channels(endpoints, conns)
    ensures ChannelsExact(endpoints, conns)
  {
    forall c, i, e | c in conns && conns[c].Some? && 0 <= i < |conns[c].value|
      ensures Names(conns, c, i, e) <==> Owns(endpoints, c, i, e)
    {
      assert Backed(endpoints, c, conns[c].value, i);
      if Owns(endpoints, c, i, e) { assert Connected(conns, e, endpoints[e].trans); }
    }
  }

  /** The channels that named the endpoints of gone name nobody now; nothing
      else changed. */
  ghost predicate Freed(before: Conns, now: Conns, gone: set<Address>) {
    && before.Keys == now.Keys
    && forall c :: c in before ==> FreedOn(before[c], now[c], gone)
  }

  ghost predicate FreedOn(before: Option<seq<Channel>>, now: Option<seq<Channel>>, gone: set<Address>) {
    match before
    case None => now == None
    case Some(chans) =>
      now.Some? && |now.value| == |chans| && forall i :: 0 <= i < |chans| ==>
        now.value[i] == if chans[i].ep.Some? && chans[i].ep.value in gone then Channel(None, chans[i].rtcp)
          else chans[i]
  }

  lemma FreedNone(conns: Conns)
    ensures Freed(conns, conns, {})
  {
  }

  lemma FreedThen(a: Conns, b: Conns, c: Conns, first: set<Address>, second: set<Address>)
    requires Freed(a, b, first) && Freed(b, c, second)
    ensures Freed(a, c, first + second)
  {
    forall x | x in a ensures FreedOn(a[x], c[x], first + second) {
      assert FreedOn(a[x], b[x], first) && FreedOn(b[x], c[x], second);
    }
  }

  lemma FreeChannels(endpoints: Endpoints, before: Conns, now: Conns, e: Address)
    requires Channels(endpoints, before) && Freed(before, now, {e})
    ensures Channels(endpoints - {e}, now)
  {
    var rest := endpoints - {e};
    forall c | c in now && now[c].Some?
      ensures |now[c].value| == MAX_INTERLEAVE_CHANNELS
      ensures forall i :: 0 <= i < MAX_INTERLEAVE_CHANNELS ==> Backed(rest, c, now[c].value, i)
    {
      assert FreedOn(before[c], now[c], {e});
      forall i | 0 <= i < MAX_INTERLEAVE_CHANNELS ensures Backed(rest, c, now[c].value, i) {
        assert Backed(endpoints, c, before[c].value, i);
      }
    }
    forall f | f in rest && rest[f].trans.Inter? ensures Connected(now, f, rest[f].trans) {
      assert Connected(before, f, endpoints[f].trans);
      assert FreedOn(before[rest[f].trans.conn], now[rest[f].trans.conn], {e});
    }
  }

  /** Giving up the two channels of an interleaved endpoint frees all it has. */
  lemma DisconnectFrees(endpoints: Endpoints, conns: Conns, e: Address)
    requires Channels(endpoints, conns) && e in endpoints && endpoints[e].trans.Inter?
    ensures var t := endpoints[e].trans;
            && Connected(conns, e, t)
            && var chans := conns[t.conn].value;
               Freed(conns, conns[t.conn := Some(chans[t.rtpChan := Channel(None, false)]
                                                      [t.rtcpChan := Channel(None, true)])], {e})
  {
    var t := endpoints[e].trans;
    assert Connected(conns, e, t);
    forall c, i | c in conns && conns[c].Some? && 0 <= i < MAX_INTERLEAVE_CHANNELS && conns[c].value[i].ep == Some(e)
      ensures c == t.conn && (i == t.rtpChan || i == t.rtcpChan)
    {
      assert Backed(endpoints, c, conns[c].value, i);
    }
  }

  lemma NotInterleavedFree(endpoints: Endpoints, conns: Conns, e: Address)
    requires Channels(endpoints, conns)
    requires e in endpoints ==> !endpoints[e].trans.Inter?
    ensures Freed(conns, conns, {e})
  {
    forall c, i | c in conns && conns[c].Some? && 0 <= i < MAX_INTERLEAVE_CHANNELS
      ensures conns[c].value[i].ep != Some(e)
    {
      assert Backed(endpoints, c, conns[c].value, i);
    }
  }

  /** Connecting a waiting endpoint to two free channels. */
  lemma Interleave(endpoints: Endpoints, conns: Conns, e: Address, c: Address, r: nat)
    requires Channels(endpoints, conns) && e in endpoints && endpoints[e].trans == Unconnected
    requires c in conns && conns[c].Some? && r + 1 < MAX_INTERLEAVE_CHANNELS
    requires |conns[c].value| == MAX_INTERLEAVE_CHANNELS
    requires conns[c].value[r].ep.None? && conns[c].value[r + 1].ep.None?
    ensures Channels(endpoints[e := endpoints[e].(trans := Inter(c, r, r + 1))],
                     conns[c := Some(conns[c].value[r := Channel(Some(e), false)][r + 1 := Channel(Some(e), true)])])
  {
    var endpoints' := endpoints[e := endpoints[e].(trans := Inter(c, r, r + 1))];
    var conns' := conns[c := Some(conns[c].value[r := Channel(Some(e), false)][r + 1 := Channel(Some(e), true)])];
    forall d, i | d in conns' && conns'[d].Some? && 0 <= i < MAX_INTERLEAVE_CHANNELS
      ensures Backed(endpoints', d, conns'[d].value, i)
    {
      assert Backed(endpoints, d, conns[d].value, i);
    }
    forall f | f in endpoints' && endpoints'[f].trans.Inter? ensures Connected(conns', f, endpoints'[f].trans) {
      if f != e { assert Connected(conns, f, endpoints[f].trans); }
    }
  }

  /** A connection starts using channels; none is taken yet. */
  lemma OpenChannels(endpoints: Endpoints, conns: Conns, c: Address, chans: seq<Channel>)
    requires Channels(endpoints, conns) && (c in conns ==> conns[c].None?)
    requires |chans| == MAX_INTERLEAVE_CHANNELS
    requires forall i :: 0 <= i < MAX_INTERLEAVE_CHANNELS ==> chans[i].ep.None?
    ensures Channels(endpoints, conns[c := Some(chans)]) && Channels(endpoints, conns[c := None])
  {
    forall f | f in endpoints && endpoints[f].trans.Inter? ensures Connected(conns, f, endpoints[f].trans)
      && endpoints[f].trans.conn != c {
    }
  }

  /** Changing the transport of an endpoint to something not interleaved, or
      making an endpoint. */
  lemma Connects(endpoints: Endpoints, conns: Conns, e: Address, now: Endpoint)
    requires Channels(endpoints, conns) && !now.trans.Inter?
    requires e in endpoints ==> !endpoints[e].trans.Inter?
    ensures Channels(endpoints[e := now], conns)
  {
    var endpoints' := endpoints[e := now];
    forall c, i | c in conns && conns[c].Some? && 0 <= i < MAX_INTERLEAVE_CHANNELS
      ensures Backed(endpoints', c, conns[c].value, i)
    {
      assert Backed(endpoints, c, conns[c].value, i);
    }
  }

  lemma CloseChannels(endpoints: Endpoints, conns: Conns, c: Address)
    requires Channels(endpoints, conns)
    requires forall e :: e in endpoints && endpoints[e].trans.Inter? ==> endpoints[e].trans.conn != c
    ensures Channels(endpoints, conns - {c})
  {
    forall f | f in endpoints && endpoints[f].trans.Inter? ensures Connected(conns - {c}, f, endpoints[f].trans) {
      assert Connected(conns, f, endpoints[f].trans);
    }
  }

  // ---- Tracks -----------------------------------------------------------------

  ghost predicate Owned(sessions: Sessions, s: Address, t: nat, e: Address) {
    s in sessions && t < |sessions[s].ep| && sessions[s].ep[t] == Some(e)
  }

  /** Endpoints and the track slots of sessions name each other; track says
      which slot an endpoint is in. */
  ghost predicate Tracks(tracks: nat, sessions: Sessions, endpoints: Endpoints, track: map<Address, nat>) {
    && (forall s :: s in sessions ==> |sessions[s].ep| == MAX_TRACKS)
    && (forall e :: e in endpoints ==> e in track && Owned(sessions, endpoints[e].session, track[e], e))
    && (forall s, t :: s in sessions && 0 <= t < MAX_TRACKS && sessions[s].ep[t].Some? ==>
          var e := sessions[s].ep[t].value;
          t < tracks && e in endpoints && endpoints[e].session == s && e in track && track[e] == t)
  }

  lemma FreeTrack(tracks: nat, sessions: Sessions, endpoints: Endpoints, track: map<Address, nat>, s: Address, t: nat)
    requires Tracks(tracks, sessions, endpoints, track) && s in sessions && t < MAX_TRACKS && sessions[s].ep[t].Some?
    ensures Tracks(tracks, sessions[s := sessions[s].(ep := sessions[s].ep[t := None])],
                   endpoints - {sessions[s].ep[t].value}, track)
  {
  }

  lemma AddTrack(tracks: nat, sessions: Sessions, endpoints: Endpoints, track: map<Address, nat>, s: Address, t: nat,
                 e: Address, trans: Trans)
    requires Tracks(tracks, sessions, endpoints, track) && s in sessions && t < tracks <= MAX_TRACKS
    requires sessions[s].ep[t].None? && e !in endpoints
    ensures Tracks(tracks, sessions[s := sessions[s].(ep := sessions[s].ep[t := Some(e)])],
                   endpoints[e := Endpoint(s, trans)], track[e := t])
  {
  }

  lemma SameTracks(tracks: nat, sessions: Sessions, endpoints: Endpoints, track: map<Address, nat>, e: Address,
                   trans: Trans)
    requires Tracks(tracks, sessions, endpoints, track) && e in endpoints
    ensures Tracks(tracks, sessions, endpoints[e := endpoints[e].(trans := trans)], track)
  {
  }

  // ---- Sessions -----------------------------------------------------------------

  /** The list that get_session searches and the sessions' control blocks
      name each other. */
  ghost predicate Controlled(sessions: Sessions, list: seq<RtspSession>) {
    && (forall i :: 0 <= i < |list| ==>
          list[i].sess in sessions && sessions[list[i].sess].control == Some(list[i].address))
    && (forall i, j :: 0 <= i < j < |list| ==> list[i].sess != list[j].sess)
    && (forall s :: s in sessions && sessions[s].control.Some? ==> exists i :: 0 <= i < |list| && list[i].sess == s)
  }

  /** The live source lists every session once. */
  ghost predicate Listed(sessions: Sessions, list: seq<Address>) {
    && (forall i :: 0 <= i < |list| ==> list[i] in sessions)
    && (forall i, j :: 0 <= i < j < |list| ==> list[i] != list[j])
    && (forall s :: s in sessions ==> s in list)
  }

  /** Unlinking s from the live source's list. */
  function Without(list: seq<Address>, s: Address): seq<Address> {
    if list == [] then []
    else (if list[0] == s then [] else [list[0]]) + Without(list[1..], s)
  }

  /** Unlinking the control block of s. */
  function Uncontrolled(list: seq<RtspSession>, s: Address): seq<RtspSession> {
    if list == [] then []
    else (if list[0].sess == s then [] else [list[0]]) + Uncontrolled(list[1..], s)
  }

  ghost predicate Distinct<T>(list: seq<T>) {
    forall i, j :: 0 <= i < j < |list| ==> list[i] != list[j]
  }

  lemma {:induction false} WithoutKeeps(list: seq<Address>, s: Address)
    ensures forall x :: x in Without(list, s) <==> x in list && x != s
    ensures Distinct(list) ==> Distinct(Without(list, s))
  {
    if list != [] {
      WithoutKeeps(list[1..], s);
      assert forall x :: x in list <==> x == list[0] || x in list[1..];
      if Distinct(list) { assert list[0] !in list[1..]; }
    }
  }

  function SessionsOf(list: seq<RtspSession>): (r: seq<Address>)
    ensures |r| == |list| && forall i :: 0 <= i < |r| ==> r[i] == list[i].sess
  {
    seq(|list|, i requires 0 <= i < |list| => list[i].sess)
  }

  lemma {:induction false} UncontrolledKeeps(list: seq<RtspSession>, s: Address)
    ensures forall r :: r in Uncontrolled(list, s) <==> r in list && r.sess != s
  {
    if list != [] {
      UncontrolledKeeps(list[1..], s);
      assert forall r :: r in list <==> r == list[0] || r in list[1..];
    }
  }

  lemma {:induction false} UncontrolledSessions(list: seq<RtspSession>, s: Address)
    ensures SessionsOf(Uncontrolled(list, s)) == Without(SessionsOf(list), s)
  {
    if list != [] {
      UncontrolledSessions(list[1..], s);
      assert SessionsOf(list)[1..] == SessionsOf(list[1..]);
      var head := if list[0].sess == s then [] else [list[0]];
      assert SessionsOf(head + Uncontrolled(list[1..], s)) == SessionsOf(head) + SessionsOf(Uncontrolled(list[1..], s));
    }
  }

  lemma DropListed(sessions: Sessions, list: seq<Address>, s: Address)
    requires Listed(sessions, list)
    ensures Listed(sessions - {s}, Without(list, s))
  {
    WithoutKeeps(list, s);
    forall i | 0 <= i < |Without(list, s)| ensures Without(list, s)[i] in sessions - {s} {
      assert Without(list, s)[i] in Without(list, s);
    }
  }

  lemma DropControlled(sessions: Sessions, list: seq<RtspSession>, s: Address)
    requires Controlled(sessions, list)
    ensures Controlled(sessions - {s}, Uncontrolled(list, s))
  {
    var list' := Uncontrolled(list, s);
    UncontrolledKeeps(list, s);
    UncontrolledSessions(list, s);
    forall r | r in list' ensures r.sess in sessions - {s} && sessions[r.sess].control == Some(r.address) {
      assert r in list;
    }
    WithoutKeeps(SessionsOf(list), s);
    assert Distinct(SessionsOf(list'));
    forall x | x in sessions - {s} && sessions[x].control.Some?
      ensures exists i :: 0 <= i < |list'| && list'[i].sess == x {
      var i :| 0 <= i < |list| && list[i].sess == x;
      assert list[i] in list';
    }
  }

  // ---- Teardown ------------------------------------------------------------------

  /** Slot t is torn down: by name, or with everything else. */
  predicate Picked(ep: seq<Option<Address>>, which: Option<Address>, t: nat)
    requires t < |ep|
  {
    ep[t].Some? && (which.None? || which == ep[t])
  }

  /** The track slots of a session after the first n were gone through. */
  function Kept(ep: seq<Option<Address>>, which: Option<Address>, n: nat): (r: seq<Option<Address>>)
    requires n <= |ep|
    ensures |r| == |ep|
    ensures forall t :: 0 <= t < |ep| ==> r[t] == if t < n && Picked(ep, which, t) then None else ep[t]
  {
    if n == 0 then ep
    else
      var r := Kept(ep, which, n - 1);
      if Picked(ep, which, n - 1) then r[n - 1 := None] else r
  }

  /** The endpoints that go with those slots. */
  function Gone(ep: seq<Option<Address>>, which: Option<Address>, n: nat): (r: set<Address>)
    requires n <= |ep|
    ensures forall e :: e in r <==> exists t :: 0 <= t < n && Picked(ep, which, t) && ep[t] == Some(e)
  {
    if n == 0 then {}
    else Gone(ep, which, n - 1) + if Picked(ep, which, n - 1) then {ep[n - 1].value} else {}
  }

  lemma PickedRest(ep: seq<Option<Address>>, which: Option<Address>, n: nat)
    requires n <= |ep| && forall t :: n <= t < |ep| ==> ep[t].None?
    ensures Kept(ep, which, n) == Kept(ep, which, |ep|)
    ensures Gone(ep, which, n) == Gone(ep, which, |ep|)
  {
  }

  /** Session s has had its first n slots gone through, and nothing else
      has happened since. */
  ghost predicate Torn(sessions: Sessions, endpoints: Endpoints, conns: Conns, s: Address, which: Option<Address>,
                       n: nat,
                       sessions': Sessions, endpoints': Endpoints, conns': Conns)
    requires s in sessions && n <= |sessions[s].ep|
  {
    var was := sessions[s];
    && sessions' == sessions[s := was.(ep := Kept(was.ep, which, n))]
    && endpoints' == endpoints - Gone(was.ep, which, n)
    && Freed(conns, conns', Gone(was.ep, which, n))
  }

  lemma TornStart(sessions: Sessions, endpoints: Endpoints, conns: Conns, s: Address, which: Option<Address>)
    requires s in sessions
    ensures Torn(sessions, endpoints, conns, s, which, 0, sessions, endpoints, conns)
  {
    FreedNone(conns);
  }

  lemma TornSlot(sessions: Sessions, endpoints: Endpoints, conns: Conns, s: Address, which: Option<Address>, n: nat,
                 sessions': Sessions, endpoints': Endpoints, conns': Conns)
    requires s in sessions && n < |sessions[s].ep| && s in sessions'
    requires Torn(sessions, endpoints, conns, s, which, n, sessions', endpoints', conns')
    ensures sessions'[s] == sessions[s].(ep := Kept(sessions[s].ep, which, n))
    ensures sessions'[s].ep[n] == sessions[s].ep[n]
  {
  }

  lemma TornKept(sessions: Sessions, endpoints: Endpoints, conns: Conns, s: Address, which: Option<Address>, n: nat,
                 sessions': Sessions, endpoints': Endpoints, conns': Conns)
    requires s in sessions && n < |sessions[s].ep| && !Picked(sessions[s].ep, which, n)
    requires Torn(sessions, endpoints, conns, s, which, n, sessions', endpoints', conns')
    ensures Torn(sessions, endpoints, conns, s, which, n + 1, sessions', endpoints', conns')
  {
    hide Freed;
    assert Gone(sessions[s].ep, which, n + 1) == Gone(sessions[s].ep, which, n);
  }

  lemma TornPicked(sessions: Sessions, endpoints: Endpoints, conns: Conns, s: Address, which: Option<Address>, n: nat,
                   sessions': Sessions, endpoints': Endpoints, conns': Conns, conns'': Conns)
    requires s in sessions && n < |sessions[s].ep| && Picked(sessions[s].ep, which, n) && s in sessions'
    requires Torn(sessions, endpoints, conns, s, which, n, sessions', endpoints', conns')
    requires n < |sessions'[s].ep| && Freed(conns', conns'', {sessions[s].ep[n].value})
    ensures Torn(sessions, endpoints, conns, s, which, n + 1,
                 sessions'[s := sessions'[s].(ep := sessions'[s].ep[n := None])],
                 endpoints' - {sessions[s].ep[n].value}, conns'')
  {
    hide Freed;
    FreedThen(conns, conns', conns'', Gone(sessions[s].ep, which, n), {sessions[s].ep[n].value});
  }

  /** All slots gone through: the new state, outright. */
  lemma TornDown(sessions: Sessions, endpoints: Endpoints, conns: Conns, s: Address, which: Option<Address>, n: nat,
                 sessions': Sessions, endpoints': Endpoints, conns': Conns)
    requires s in sessions && n <= |sessions[s].ep| && forall t :: n <= t < |sessions[s].ep| ==> sessions[s].ep[t].None?
    requires Torn(sessions, endpoints, conns, s, which, n, sessions', endpoints', conns')
    ensures var ep := sessions[s].ep;
            && sessions' == sessions[s := sessions[s].(ep := Kept(ep, which, |ep|))]
            && endpoints' == endpoints - Gone(ep, which, |ep|) && Freed(conns, conns', Gone(ep, which, |ep|))
  {
    hide Freed;
    PickedRest(sessions[s].ep, which, n);
  }

  predicate Empty(ep: seq<Option<Address>>) {
    forall t :: 0 <= t < |ep| ==> ep[t].None?
  }

  /** Every session a client can name has an endpoint. */
  ghost predicate Busy(sessions: Sessions) {
    forall s :: s in sessions && sessions[s].control.Some? ==> !Empty(sessions[s].ep)
  }

  // ---- Looking up and setting up ---------------------------------------------------

  /** The first entry with the client's session identifier. */
  function Lookup(list: seq<RtspSession>, header: Option<string>): (r: Option<RtspSession>)
    ensures r.Some? ==> r.value in list && header == Some(r.value.id)
    ensures r.None? ==> header.None? || forall i :: 0 <= i < |list| ==> list[i].id != header.value
  {
    if header.None? || list == [] then None
    else if list[0].id == header.value then Some(list[0])
    else
      var r := Lookup(list[1..], header);
      assert r.None? ==> forall i :: 1 <= i < |list| ==> list[i] == list[1..][i - 1];
      r
  }

  /** get_session never returns a deleted session, nor one that nothing is
      streamed in. */
  lemma LookupLive(sessions: Sessions, list: seq<RtspSession>, header: Option<string>)
    requires Controlled(sessions, list) && Busy(sessions)
    ensures var r := Lookup(list, header);
            r.Some? ==> && r.value.sess in sessions && sessions[r.value.sess].control == Some(r.value.address)
                        && !Empty(sessions[r.value.sess].ep)
  {
  }

  datatype Interleaved = AnyChannel | Requested(chan: int) | Malformed

  /** What the Transport header asks for; for UDP, whether the client's port
      could be read and the endpoint connected to it. */
  datatype Transport = OverTcp(chans: Interleaved) | OverUdp(connects: bool) | OtherTransport

  function NoChannels(): (chans: seq<Channel>)
    ensures |chans| == MAX_INTERLEAVE_CHANNELS
  {
    seq(MAX_INTERLEAVE_CHANNELS, _ => Channel(None, false))
  }

  /** The channels of a connection, which has none before the first is set up. */
  function ChannelsOf(state: Option<seq<Channel>>): seq<Channel> {
    match state
    case Some(chans) => chans
    case None => NoChannels()
  }

  predicate FreePair(chans: seq<Channel>, r: int) {
    0 <= r && r + 1 < |chans| && chans[r].ep.None? && chans[r + 1].ep.None?
  }

  /** Channels r and r + 1 are what the client gets for its request. */
  predicate Granted(chans: seq<Channel>, asked: Interleaved, r: int) {
    match asked
    case Malformed => false
    case Requested(n) => r == n && FreePair(chans, r)
    case AnyChannel => r % 2 == 0 && FreePair(chans, r) && forall k :: 0 <= k < r && k % 2 == 0 ==> !FreePair(chans, k)
  }

  /** The client can be given the transport it asks for. */
  ghost predicate Possible(chans: seq<Channel>, transport: Transport) {
    match transport
    case OverTcp(asked) => exists r :: Granted(chans, asked, r)
    case OverUdp(connects) => connects
    case OtherTransport => false
  }

  ghost predicate Suits(chans: seq<Channel>, transport: Transport, c: Address, now: Trans) {
    match transport
    case OverTcp(asked) => now.Inter? && now.conn == c && now.rtcpChan == now.rtpChan + 1
      && Granted(chans, asked, now.rtpChan)
    case OverUdp(connects) => connects && now == Udp
    case OtherTransport => false
  }

  /** A new session heads the source's list. */
  lemma ListNew(sessions: Sessions, list: seq<RtspSession>, live: seq<Address>, s: Address, now: Session)
    requires Controlled(sessions, list) && Listed(sessions, live) && s !in sessions && now.control.None?
    ensures Controlled(sessions[s := now], list) && Listed(sessions[s := now], [s] + live)
  {
    var live' := [s] + live;
    forall x | x in sessions[s := now] ensures x in live' {
      if x == s { assert live'[0] == s; } else { var i :| 0 <= i < |live| && live[i] == x; assert live'[i + 1] == x; }
    }
  }

  lemma TracksNew(tracks: nat, sessions: Sessions, endpoints: Endpoints, track: map<Address, nat>, s: Address,
                  now: Session)
    requires Tracks(tracks, sessions, endpoints, track) && s !in sessions && |now.ep| == MAX_TRACKS && Empty(now.ep)
    ensures Tracks(tracks, sessions[s := now], endpoints, track)
  {
  }

  /** A session gets its control block. */
  lemma ControlNew(sessions: Sessions, list: seq<RtspSession>, live: seq<Address>, s: Address, rs: RtspSession)
    requires Controlled(sessions, list) && Listed(sessions, live) && s in sessions && sessions[s].control.None?
             && rs.sess == s
    ensures var sessions' := sessions[s := sessions[s].(control := Some(rs.address))];
            Controlled(sessions', [rs] + list) && Listed(sessions', live)
  {
    var sessions' := sessions[s := sessions[s].(control := Some(rs.address))];
    var list' := [rs] + list;
    forall x | x in sessions' && sessions'[x].control.Some? ensures exists i :: 0 <= i < |list'| && list'[i].sess == x {
      if x == s { assert list'[0].sess == s; }
      else { var i :| 0 <= i < |list| && list[i].sess == x; assert list'[i + 1].sess == x; }
    }
  }

  lemma TracksSame(tracks: nat, sessions: Sessions, endpoints: Endpoints, track: map<Address, nat>, s: Address,
                   now: Session)
    requires Tracks(tracks, sessions, endpoints, track) && s in sessions && now.ep == sessions[s].ep
    ensures Tracks(tracks, sessions[s := now], endpoints, track)
  {
  }

  /** Dropping what was just added to the lists gives the lists back. */
  lemma UnlistNew(sessions: Sessions, list: seq<RtspSession>, live: seq<Address>, s: Address)
    requires Controlled(sessions, list) && Listed(sessions, live) && s !in sessions
    ensures Without([s] + live, s) == live && Uncontrolled(list, s) == list
  {
    NothingToUnlist(live, s);
    NothingToDrop(list, s);
    assert ([s] + live)[1..] == live;
  }

  lemma {:induction false} NothingToUnlist(list: seq<Address>, s: Address)
    requires forall i :: 0 <= i < |list| ==> list[i] != s
    ensures Without(list, s) == list
  {
    if list != [] { NothingToUnlist(list[1..], s); }
  }

  lemma {:induction false} NothingToDrop(list: seq<RtspSession>, s: Address)
    requires forall i :: 0 <= i < |list| ==> list[i].sess != s
    ensures Uncontrolled(list, s) == list
  {
    if list != [] { NothingToDrop(list[1..], s); }
  }

  /** Freeing an endpoint that is not interleaved frees no channel. */
  lemma FreedNothing(endpoints: Endpoints, before: Conns, now: Conns, e: Address)
    requires Channels(endpoints, before) && Freed(before, now, {e})
    requires e in endpoints ==> !endpoints[e].trans.Inter?
    ensures now == before
  {
    NotInterleavedFree(endpoints, before, e);
    forall c | c in before ensures now[c] == before[c] {
      assert FreedOn(before[c], now[c], {e}) && FreedOn(before[c], before[c], {e});
      if before[c].Some? { assert now[c].value == before[c].value; }
    }
  }

  lemma FreedEmpty(before: Conns, now: Conns)
    requires Freed(before, now, {})
    ensures now == before
  {
    forall c | c in before ensures now[c] == before[c] {
      assert FreedOn(before[c], now[c], {});
      if before[c].Some? { assert now[c].value == before[c].value; }
    }
  }

  /** Tearing down by name an endpoint that was just set up takes that one only. */
  lemma OnlyNew(tracks: nat, sessions: Sessions, endpoints: Endpoints, track: map<Address, nat>, s: Address, t: nat,
                e: Address)
    requires Tracks(tracks, sessions, endpoints, track) && s in sessions && t < MAX_TRACKS && e !in endpoints
    requires sessions[s].ep[t].None?
    ensures var ep := sessions[s].ep[t := Some(e)];
            Gone(ep, Some(e), MAX_TRACKS) == {e} && Kept(ep, Some(e), MAX_TRACKS) == sessions[s].ep
  {
    var ep := sessions[s].ep[t := Some(e)];
    forall k | 0 <= k < MAX_TRACKS ensures Picked(ep, Some(e), k) <==> k == t {
    }
  }

  lemma NothingGone(ep: seq<Option<Address>>, which: Option<Address>)
    requires Empty(ep)
    ensures Gone(ep, which, |ep|) == {} && Kept(ep, which, |ep|) == ep
  {
  }

  /** The sessions of a client that uses a session of its own stay busy. */
  lemma StillBusy(sessions: Sessions, s: Address, now: Session)
    requires Busy(sessions) && !Empty(now.ep)
    ensures Busy(sessions[s := now]) && Busy(sessions - {s})
  {
  }

  lemma BusyAfter(sessions: Sessions, s: Address, kept: seq<Option<Address>>)
    requires Busy(sessions) && s in sessions
    ensures Busy(if Empty(kept) then sessions - {s} else sessions[s := sessions[s].(ep := kept)])
  {
  }

  lemma LookupAgain(list: seq<RtspSession>, header: Option<string>)
    ensures var r := Lookup(list, header); r.Some? ==> Lookup(list, Some(r.value.id)) == r
  {
  }

  /** A teardown by name takes the endpoint named and no other. */
  lemma OnlyThat(tracks: nat, sessions: Sessions, endpoints: Endpoints, track: map<Address, nat>, s: Address, t: nat)
    requires Tracks(tracks, sessions, endpoints, track) && s in sessions && t < MAX_TRACKS && sessions[s].ep[t].Some?
    ensures |sessions[s].ep| == MAX_TRACKS
    ensures Gone(sessions[s].ep, sessions[s].ep[t], MAX_TRACKS) == {sessions[s].ep[t].value}
    ensures Kept(sessions[s].ep, sessions[s].ep[t], MAX_TRACKS) == sessions[s].ep[t := None]
  {
    var ep := sessions[s].ep;
    forall k | 0 <= k < MAX_TRACKS ensures Picked(ep, ep[t], k) <==> k == t {
      assert ep[k].Some? ==> track[ep[k].value] == k;
    }
  }

  /** A teardown of the whole session takes every endpoint that is part of it. */
  lemma AllOfThem(tracks: nat, sessions: Sessions, endpoints: Endpoints, track: map<Address, nat>, s: Address)
    requires Tracks(tracks, sessions, endpoints, track) && s in sessions
    ensures |sessions[s].ep| == MAX_TRACKS && Empty(Kept(sessions[s].ep, None, MAX_TRACKS))
    ensures forall e :: e in endpoints ==> (endpoints[e].session == s <==> e in Gone(sessions[s].ep, None, MAX_TRACKS))
  {
    var ep := sessions[s].ep;
    forall e | e in endpoints && endpoints[e].session == s ensures e in Gone(ep, None, MAX_TRACKS) {
      assert Owned(sessions, s, track[e], e);
      assert Picked(ep, None, track[e]);
    }
  }

  lemma TrackOf(tracks: nat, sessions: Sessions, endpoints: Endpoints, track: map<Address, nat>, e: Address)
    requires Tracks(tracks, sessions, endpoints, track) && e in endpoints
    ensures e in track && track[e] < MAX_TRACKS
    ensures endpoints[e].session in sessions && |sessions[endpoints[e].session].ep| == MAX_TRACKS
    ensures sessions[endpoints[e].session].ep[track[e]] == Some(e)
  {
    assert Owned(sessions, endpoints[e].session, track[e], e);
  }

  lemma ChannelFacts(endpoints: Endpoints, conns: Conns, c: Address)
    requires Channels(endpoints, conns) && c in conns && conns[c].Some?
    ensures |conns[c].value| == MAX_INTERLEAVE_CHANNELS
  {
  }

  lemma ChannelFact(endpoints: Endpoints, conns: Conns, c: Address, i: nat)
    requires Channels(endpoints, conns) && c in conns && conns[c].Some? && i < |conns[c].value|
    requires conns[c].value[i].ep.Some?
    ensures var e := conns[c].value[i].ep.value;
            e in endpoints && endpoints[e].trans.Inter? && endpoints[e].trans.conn == c
  {
    assert Backed(endpoints, c, conns[c].value, i);
  }

  lemma FreedFact(before: Conns, now: Conns, c: Address, e: Address)
    requires Freed(before, now, {e}) && c in before && before[c].Some?
    ensures now.Keys == before.Keys && now[c].Some? && |now[c].value| == |before[c].value|
    ensures forall k :: 0 <= k < |now[c].value| ==>
              now[c].value[k] == if before[c].value[k].ep == Some(e) then Channel(None, before[c].value[k].rtcp)
                else before[c].value[k]
  {
    assert FreedOn(before[c], now[c], {e});
  }

  lemma NobodyOn(endpoints: Endpoints, conns: Conns, c: Address)
    requires Channels(endpoints, conns) && c in conns && conns[c].Some?
    requires forall k :: 0 <= k < |conns[c].value| ==> conns[c].value[k].ep.None? || conns[c].value[k].rtcp
    ensures forall e :: e in endpoints && endpoints[e].trans.Inter? ==> endpoints[e].trans.conn != c
  {
    forall e | e in endpoints && endpoints[e].trans.Inter? ensures endpoints[e].trans.conn != c {
      assert Connected(conns, e, endpoints[e].trans);
    }
  }

  lemma NobodyYet(endpoints: Endpoints, conns: Conns, c: Address)
    requires Channels(endpoints, conns) && c in conns && conns[c].None?
    ensures forall e :: e in endpoints && endpoints[e].trans.Inter? ==> endpoints[e].trans.conn != c
  {
    forall e | e in endpoints && endpoints[e].trans.Inter? ensures endpoints[e].trans.conn != c {
      assert Connected(conns, e, endpoints[e].trans);
    }
  }

  /** Memory that nothing occupies can always be found. */
  lemma Spare(inUse: set<Address>) returns (a: Address)
    ensures forall x :: x in inUse ==> x < a
  {
    if inUse == {} { return 0; }
    var x :| x in inUse;
    var b := Spare(inUse - {x});
    a := if b <= x then x + 1 else b;
    forall y | y in inUse ensures y < a {
      if y != x { assert y in inUse - {x}; }
    }
  }
}
