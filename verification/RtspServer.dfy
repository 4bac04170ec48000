// The RTSP server's state and the requests and events that change it
// (spook/rtsp.c, live.c, rtp.c, session.c, tcp.c).
module RtspServer {
  import opened Bytes
  import opened RtspWorld

  /** Everything but the bookkeeping of the proof. */
  datatype World = World(endpoints: Endpoints, sessions: Sessions, conns: Conns,
                         rtspSessions: seq<RtspSession>, liveSessions: seq<Address>)

  /** What malloc and random_id give a request. */
  datatype Memory = Memory(session: Address, control: Address, endpoint: Address, id: string)

  /** The world without session s, which had no endpoint. */
  function Closed(w: World, s: Address): World {
    w.(sessions := w.sessions - {s}, liveSessions := Without(w.liveSessions, s),
      rtspSessions := Uncontrolled(w.rtspSessions, s))
  }

  /** A SETUP request, parsed: whether its URL is under a known location, the
      track it names, its credentials, and its Transport and Session headers. */
  datatype SetupRequest = SetupRequest(found: bool, track: int, authorised: bool,
                                       transport: Option<Transport>, session: Option<string>)

  ghost predicate Acceptable(tracks: nat, w: World, c: Address, req: SetupRequest)
    requires c in w.conns
  {
    && req.found && 0 <= req.track < tracks && req.authorised
    && req.transport.Some? && Possible(ChannelsOf(w.conns[c]), req.transport.value)
    && (req.session.Some? ==>
          var rs := Lookup(w.rtspSessions, req.session);
          && rs.Some? && rs.value.sess in w.sessions && req.track < |w.sessions[rs.value.sess].ep|
          && w.sessions[rs.value.sess].ep[req.track].None?)
  }

  ghost predicate On(e: Endpoint, c: Address) {
    e.trans.Inter? && e.trans.conn == c
  }

  datatype Step =
    | Accepting
    | SettingUp(c: Address, req: SetupRequest, control: Address, id: string)
    | Describing(found: bool, authorised: bool, ready: bool)
    | Playing(header: Option<string>)
    | TearingDown(found: bool, t: int, header: Option<string>)
    | Losing(e: Address)
    | Dropping(c: Address)

  /** No endpoint of the session is interleaved on the connection. */
  ghost predicate Elsewhere(endpoints: Endpoints, s: Address, c: Address) {
    forall e :: e in endpoints && endpoints[e].session == s ==> !On(endpoints[e], c)
  }

  class Server {
    const tracks: nat                   // tracks of the live source that have media
    var endpoints: Endpoints
    var sessions: Sessions
    var conns: Conns
    var rtspSessions: seq<RtspSession>  // newest first
    var liveSessions: seq<Address>      // the source's sess_list, newest first
    ghost var track: map<Address, nat>  // which track of its session an endpoint is

    ghost predicate Valid()
      reads this
    {
      && tracks <= MAX_TRACKS
      && Channels(endpoints, conns) && Tracks(tracks, sessions, endpoints, track)
      && Controlled(sessions, rtspSessions) && Listed(sessions, liveSessions)
    }

    /** Between requests: every session a client can name has an endpoint. */
    ghost predicate Settled()
      reads this
    {
      Valid() && Busy(sessions)
    }

    ghost function Now(): World
      reads this
    {
      World(endpoints, sessions, conns, rtspSessions, liveSessions)
    }

    constructor (tracks: nat)
      requires tracks <= MAX_TRACKS
      ensures Settled() && this.tracks == tracks && sessions == map[] && conns == map[] && endpoints == map[]
    {
      this.tracks := tracks;
      endpoints, sessions, conns, track := map[], map[], map[], map[];
      rtspSessions, liveSessions := [], [];
    }

    // ---- Tearing down -----------------------------------------------------------

    /** interleave_disconnect */
    method InterleaveDisconnect(c: Address, chan: nat)
      requires c in conns && conns[c].Some? && chan < |conns[c].value|
      modifies this`conns
      ensures conns == old(conns)[c := Some(old(conns)[c].value[chan := Channel(None, old(conns)[c].value[chan].rtcp)])]
    {
      conns := conns[c := Some(conns[c].value[chan := conns[c].value[chan].(ep := None)])];
    }

    /** del_rtp_endpoint: the endpoint's channels are given back with it. */
    method DelRtpEndpoint(e: Address)
      requires Channels(endpoints, conns) && e in endpoints
      modifies this`endpoints, this`conns
      ensures endpoints == old(endpoints) - {e} && Freed(old(conns), conns, {e})
      ensures Channels(endpoints, conns)
    {
      hide Channels, Freed;
      ghost var before := conns;
      match endpoints[e].trans {
        case Inter(c, r, q) =>
          DisconnectFrees(endpoints, conns, e);
          InterleaveDisconnect(c, r);
          InterleaveDisconnect(c, q);
          assert conns == before[c := Some(before[c].value[r := Channel(None, false)][q := Channel(None, true)])];
        case _ =>
          NotInterleavedFree(endpoints, conns, e);
      }
      FreeChannels(endpoints, before, conns, e);
      endpoints := endpoints - {e};
    }

    /** A track's endpoint goes, and its session's slot with it. */
    method DelTrack(s: Address, t: nat)
      requires Valid() && s in sessions && t < MAX_TRACKS
      requires |sessions[s].ep| == MAX_TRACKS && sessions[s].ep[t].Some?
      modifies this`endpoints, this`conns, this`sessions
      ensures Valid() && endpoints == old(endpoints) - {old(sessions)[s].ep[t].value}
      ensures sessions == old(sessions)[s := old(sessions)[s].(ep := old(sessions)[s].ep[t := None])]
      ensures Freed(old(conns), conns, {old(sessions)[s].ep[t].value})
    {
      hide Channels, Freed, Tracks, Controlled, Listed;
      ghost var e := sessions[s].ep[t].value;
      FreeTrack(tracks, sessions, endpoints, track, s, t);
      TrackFacts(tracks, sessions, endpoints, track, s, t);
      SameControl(sessions, rtspSessions, liveSessions, s, sessions[s].(ep := sessions[s].ep[t := None]));
      DelRtpEndpoint(sessions[s].ep[t].value);
      sessions := sessions[s := sessions[s].(ep := sessions[s].ep[t := None])];
    }

    /** The list surgery of live_teardown, and del_session. */
    method DelSession(s: Address)
      requires Valid() && s in sessions && forall t :: 0 <= t < |sessions[s].ep| ==> sessions[s].ep[t].None?
      modifies this`sessions, this`rtspSessions, this`liveSessions
      ensures Valid() && sessions == old(sessions) - {s}
      ensures liveSessions == Without(old(liveSessions), s) && rtspSessions == Uncontrolled(old(rtspSessions), s)
    {
      hide Channels, Tracks, Controlled, Listed;
      DropListed(sessions, liveSessions, s);
      DropControlled(sessions, rtspSessions, s);
      DropTracks(tracks, sessions, endpoints, track, s);
      NotControlled(sessions, rtspSessions, s);
      liveSessions := Without(liveSessions, s);
      if sessions[s].control.Some? { rtspSessions := Uncontrolled(rtspSessions, s); }
      sessions := sessions - {s};
    }

    /** One round of the loop of live_teardown. */
    method DelNext(s: Address, t: nat, which: Option<Address>, ghost first: Sessions, ghost endpoints0: Endpoints,
                   ghost conns0: Conns)
      requires Valid() && s in sessions && s in first && t < |first[s].ep| == MAX_TRACKS
      requires Torn(first, endpoints0, conns0, s, which, t, sessions, endpoints, conns)
      requires Picked(first[s].ep, which, t)
      modifies this`endpoints, this`conns, this`sessions
      ensures Valid() && s in sessions
      ensures Torn(first, endpoints0, conns0, s, which, t + 1, sessions, endpoints, conns)
    {
      hide Channels, Freed, Tracks, Controlled, Listed, Torn;
      TornSlot(first, endpoints0, conns0, s, which, t, sessions, endpoints, conns);
      DelTrack(s, t);
      TornPicked(first, endpoints0, conns0, s, which, t, old(sessions), old(endpoints), old(conns), conns);
    }

    /** live_teardown: endpoint which of session s goes, or all of them; with
        the last one goes the session. */
    method Teardown(s: Address, which: Option<Address>)
      requires Valid() && s in sessions && |sessions[s].ep| == MAX_TRACKS
      modifies this`endpoints, this`conns, this`sessions, this`rtspSessions, this`liveSessions
      ensures Valid()
      ensures var ep := old(sessions)[s].ep;
              && endpoints == old(endpoints) - Gone(ep, which, MAX_TRACKS)
              && Freed(old(conns), conns, Gone(ep, which, MAX_TRACKS))
              && var kept := Kept(ep, which, MAX_TRACKS);
                 if Empty(kept) then
                   && sessions == old(sessions) - {s}
                   && liveSessions == Without(old(liveSessions), s)
                   && rtspSessions == Uncontrolled(old(rtspSessions), s)
                 else
                   && sessions == old(sessions)[s := old(sessions)[s].(ep := kept)]
                   && liveSessions == old(liveSessions) && rtspSessions == old(rtspSessions)
    {
      hide Channels, Freed, Tracks, Controlled, Listed, Torn;
      ghost var was := sessions[s];
      TornStart(sessions, endpoints, conns, s, which);
      UnusedTracks(tracks, sessions, endpoints, track, s);
      var remaining := 0;
      var i := 0;
      while i < MAX_TRACKS && i < tracks
        invariant 0 <= i <= MAX_TRACKS && i <= tracks && Valid()
        invariant s in sessions && Torn(old(sessions), old(endpoints), old(conns), s, which, i, sessions, endpoints,
                  conns)
        invariant rtspSessions == old(rtspSessions) && liveSessions == old(liveSessions)
        invariant remaining >= 0 && (remaining == 0 <==> forall t :: 0 <= t < i && was.ep[t].Some? ==>
                  Picked(was.ep, which, t))
      {
        TornSlot(old(sessions), old(endpoints), old(conns), s, which, i, sessions, endpoints, conns);
        if sessions[s].ep[i].Some? && (which.None? || sessions[s].ep[i] == which) {
          DelNext(s, i, which, old(sessions), old(endpoints), old(conns));
        } else {
          TornKept(old(sessions), old(endpoints), old(conns), s, which, i, sessions, endpoints, conns);
          if sessions[s].ep[i].Some? { remaining := remaining + 1; }
        }
        i := i + 1;
      }
      TornDown(old(sessions), old(endpoints), old(conns), s, which, i, sessions, endpoints, conns);
      assert remaining == 0 <==> Empty(Kept(was.ep, which, MAX_TRACKS));
      if remaining == 0 { DelSession(s); }
    }

    // ---- Setting up --------------------------------------------------------------

    /** get_session */
    method GetSession(header: Option<string>) returns (rs: Option<RtspSession>)
      ensures rs == Lookup(rtspSessions, header)
    {
      if header.None? { return None; }
      var i := 0;
      while i < |rtspSessions|
        invariant 0 <= i <= |rtspSessions| && Lookup(rtspSessions, header) == Lookup(rtspSessions[i..], header)
      {
        if rtspSessions[i].id == header.value { return Some(rtspSessions[i]); }
        i := i + 1;
      }
      return None;
    }

    /** live_open and new_session, in memory that nothing occupies. */
    method Open(s: Address)
      requires Valid() && s !in sessions
      modifies this`sessions, this`liveSessions
      ensures Valid()
      ensures sessions == old(sessions)[s := Session([None, None], None, false)]
      ensures liveSessions == [s] + old(liveSessions)
    {
      hide Channels, Tracks, Controlled, Listed;
      var blank := Session([None, None], None, false);
      ListNew(sessions, rtspSessions, liveSessions, s, blank);
      TracksNew(tracks, sessions, endpoints, track, s, blank);
      sessions := sessions[s := blank];
      liveSessions := [s] + liveSessions;
    }

    /** live_setup and new_rtp_endpoint */
    method LiveSetup(s: Address, t: nat, e: Address) returns (ok: bool)
      requires Valid() && s in sessions && t < MAX_TRACKS && e !in endpoints
      requires |sessions[s].ep| == MAX_TRACKS && sessions[s].ep[t].None?
      modifies this`sessions, this`endpoints, this`track
      ensures Valid() && ok == (t < tracks) && track == if ok then old(track)[e := t] else old(track)
      ensures if ok then
                && endpoints == old(endpoints)[e := Endpoint(s, Unconnected)]
                && sessions == old(sessions)[s := old(sessions)[s].(ep := old(sessions)[s].ep[t := Some(e)])]
              else endpoints == old(endpoints) && sessions == old(sessions)
    {
      hide Channels, Tracks, Controlled, Listed;
      if t >= tracks { return false; }
      var now := sessions[s].(ep := sessions[s].ep[t := Some(e)]);
      AddTrack(tracks, sessions, endpoints, track, s, t, e, Unconnected);
      SameControl(sessions, rtspSessions, liveSessions, s, now);
      Connects(endpoints, conns, e, Endpoint(s, Unconnected));
      endpoints := endpoints[e := Endpoint(s, Unconnected)];
      track := track[e := t];
      sessions := sessions[s := now];
      return true;
    }

    /** The choice of channels in rtsp_interleave_setup. */
    method PickChannels(c: Address, asked: Interleaved) returns (r: int)
      requires c in conns && |ChannelsOf(conns[c])| == MAX_INTERLEAVE_CHANNELS
      ensures r == -1 || Granted(ChannelsOf(conns[c]), asked, r)
      ensures r == -1 ==> forall k :: !Granted(ChannelsOf(conns[c]), asked, k)
    {
      match asked {
        case Malformed => return -1;
        case Requested(n) =>
          if n < 0 || n + 1 < 0 || n >= MAX_INTERLEAVE_CHANNELS || n + 1 >= MAX_INTERLEAVE_CHANNELS { return -1; }
          if conns[c].Some? && (conns[c].value[n].ep.Some? || conns[c].value[n + 1].ep.Some?) { return -1; }
          return n;
        case AnyChannel =>
          if conns[c].None? { return 0; }
          var i := 0;
          while i < MAX_INTERLEAVE_CHANNELS
            invariant i % 2 == 0 && 0 <= i <= MAX_INTERLEAVE_CHANNELS
            invariant forall k :: 0 <= k < i && k % 2 == 0 ==> !FreePair(conns[c].value, k)
          {
            if conns[c].value[i].ep.None? && conns[c].value[i + 1].ep.None? { return i; }
            i := i + 2;
          }
          return -1;
      }
    }

    /** rtsp_interleave_setup */
    method InterleaveSetup(e: Address, c: Address, asked: Interleaved) returns (ok: bool)
      requires Valid() && e in endpoints && endpoints[e].trans == Unconnected && c in conns
      modifies this`endpoints, this`conns
      ensures Valid() && ok == exists r :: Granted(ChannelsOf(old(conns)[c]), asked, r)
      ensures !ok ==> endpoints == old(endpoints) && conns == old(conns)
      ensures ok ==>
        exists r: nat :: Granted(ChannelsOf(old(conns)[c]), asked, r)
          && endpoints == old(endpoints)[e := old(endpoints)[e].(trans := Inter(c, r, r + 1))]
          && conns == old(conns)[c := Some(ChannelsOf(old(conns)[c])
                                             [r := Channel(Some(e), false)][r + 1 := Channel(Some(e), true)])]
    {
      hide Channels, Tracks, Controlled, Listed, NoChannels;
      ChannelCount(endpoints, conns, c);
      var r := PickChannels(c, asked);
      if r == -1 { return false; }
      GrantedFree(ChannelsOf(conns[c]), asked, r);
      var chans := ChannelsOf(conns[c]);
      if conns[c].None? {
        OpenChannels(endpoints, conns, c, chans);
        conns := conns[c := Some(chans)];
      }
      Interleave(endpoints, conns, e, c, r);
      SameTracks(tracks, sessions, endpoints, track, e, Inter(c, r, r + 1));
      conns := conns[c := Some(chans[r := Channel(Some(e), false)][r + 1 := Channel(Some(e), true)])];
      endpoints := endpoints[e := endpoints[e].(trans := Inter(c, r, r + 1))];
      return true;
    }

    /** The transport half of handle_SETUP. */
    method Connect(e: Address, c: Address, transport: Transport) returns (ok: bool)
      requires Valid() && e in endpoints && endpoints[e].trans == Unconnected && c in conns
      modifies this`endpoints, this`conns
      ensures Valid() && ok == Possible(ChannelsOf(old(conns)[c]), transport)
      ensures !ok ==> endpoints == old(endpoints) && conns == old(conns)
      ensures ok ==> exists t :: Suits(ChannelsOf(old(conns)[c]), transport, c, t)
                              && endpoints == old(endpoints)[e := old(endpoints)[e].(trans := t)]
      ensures conns - {c} == old(conns) - {c} && c in conns
    {
      hide Channels, Tracks, Controlled, Listed, NoChannels, Granted;
      match transport {
        case OverTcp(asked) =>
          ok := InterleaveSetup(e, c, asked);
          if ok {
            ghost var r: nat :| Granted(ChannelsOf(old(conns)[c]), asked, r)
              && endpoints == old(endpoints)[e := old(endpoints)[e].(trans := Inter(c, r, r + 1))];
            assert Suits(ChannelsOf(old(conns)[c]), transport, c, Inter(c, r, r + 1));
          }
        case OverUdp(connects) =>
          if connects {
            Connects(endpoints, conns, e, endpoints[e].(trans := Udp));
            SameTracks(tracks, sessions, endpoints, track, e, Udp);
            endpoints := endpoints[e := endpoints[e].(trans := Udp)];
            assert Suits(ChannelsOf(old(conns)[c]), transport, c, Udp);
          }
          ok := connects;
        case OtherTransport =>
          ok := false;
      }
    }

    /** new_rtsp_session */
    method NewRtspSession(s: Address, address: Address, id: string) returns (rs: RtspSession)
      requires Valid() && s in sessions && sessions[s].control.None?
      modifies this`sessions, this`rtspSessions
      ensures Valid() && rs == RtspSession(address, id, s) && rtspSessions == [rs] + old(rtspSessions)
      ensures sessions == old(sessions)[s := old(sessions)[s].(control := Some(address))]
    {
      hide Channels, Tracks, Controlled, Listed;
      rs := RtspSession(address, id, s);
      var now := sessions[s].(control := Some(address));
      ControlNew(sessions, rtspSessions, liveSessions, s, rs);
      TracksSame(tracks, sessions, endpoints, track, s, now);
      sessions := sessions[s := now];
      rtspSessions := [rs] + rtspSessions;
    }

    /** A session that was opened for a request that is then refused. */
    method Abandon(s: Address)
      requires Valid() && s in sessions && |sessions[s].ep| == MAX_TRACKS && Empty(sessions[s].ep)
      modifies this`endpoints, this`conns, this`sessions, this`rtspSessions, this`liveSessions
      ensures Valid() && Now() == Closed(old(Now()), s)
    {
      hide Channels, Tracks, Controlled, Listed, Freed, FreedOn;
      NothingGone(sessions[s].ep, None);
      Teardown(s, None);
      FreedEmpty(old(conns), conns);
      assert endpoints == old(endpoints);
    }

    /** What handle_SETUP does when the transport is refused. */
    method Undo(s: Address, t: nat, e: Address, ghost was: World)
      requires Valid() && s in was.sessions && t < MAX_TRACKS && e !in was.endpoints
      requires Tracks(tracks, was.sessions, was.endpoints, track) && was.sessions[s].ep[t].None?
      requires conns == was.conns && rtspSessions == was.rtspSessions && liveSessions == was.liveSessions
      requires endpoints == was.endpoints[e := Endpoint(s, Unconnected)]
      requires sessions == was.sessions[s := was.sessions[s].(ep := was.sessions[s].ep[t := Some(e)])]
      modifies this`endpoints, this`conns, this`sessions, this`rtspSessions, this`liveSessions
      ensures Valid() && Now() == if Empty(was.sessions[s].ep) then Closed(was, s) else was
    {
      hide Channels, Tracks, Controlled, Listed, Freed, FreedOn, Empty;
      OnlyNew(tracks, was.sessions, was.endpoints, track, s, t, e);
      UnusedTracks(tracks, sessions, endpoints, track, s);
      Teardown(s, sessions[s].ep[t]);
      FreedNothing(old(endpoints), was.conns, conns, e);
      assert endpoints == was.endpoints;
      if Empty(was.sessions[s].ep) {
        assert sessions == was.sessions - {s};
      } else {
        assert sessions == was.sessions;
      }
    }

    /** handle_SETUP once the session is there: rs is its control block if it
        is an old one. */
    method SetupTrack(s: Address, rs: Option<RtspSession>, t: nat, c: Address, transport: Transport, m: Memory)
      returns (code: nat, reply: Option<RtspSession>)
      requires Valid() && s in sessions && t < MAX_TRACKS && c in conns && m.endpoint !in endpoints
      requires Empty(sessions[s].ep) == rs.None? && |sessions[s].ep| == MAX_TRACKS
      requires rs.None? ==> sessions[s].control.None?
      modifies this`endpoints, this`conns, this`sessions, this`rtspSessions, this`liveSessions, this`track
      ensures Valid() && code in {200, 404, 461}
      ensures code == 200 <==>
                old(sessions)[s].ep[t].None? && t < tracks && Possible(ChannelsOf(old(conns)[c]), transport)
      ensures code == 404 <==> old(sessions)[s].ep[t].None? && t >= tracks
      ensures code != 200 ==> Now() == if rs.None? then Closed(old(Now()), s) else old(Now())
      ensures code == 200 ==>
        && liveSessions == old(liveSessions) && reply.Some?
        && (exists tr :: Suits(ChannelsOf(old(conns)[c]), transport, c, tr)
                      && endpoints == old(endpoints)[m.endpoint := Endpoint(s, tr)])
        && var ep := old(sessions)[s].ep[t := Some(m.endpoint)];
           if rs.Some? then
             && reply == rs && rtspSessions == old(rtspSessions)
             && sessions == old(sessions)[s := old(sessions)[s].(ep := ep)]
           else
             && reply == Some(RtspSession(m.control, m.id, s)) && rtspSessions == [reply.value] + old(rtspSessions)
             && sessions == old(sessions)[s := old(sessions)[s].(ep := ep, control := Some(m.control))]
      ensures code == 200 ==> conns - {c} == old(conns) - {c} && c in conns
    {
      hide Channels, Tracks, Controlled, Listed, Freed, Possible, Suits, ChannelsOf, Empty;
      if sessions[s].ep[t].Some? {
        SomeTrack(sessions[s].ep, t);
        return 461, None;
      }
      ghost var was := Now();
      var ok := LiveSetup(s, t, m.endpoint);
      if !ok {
        if rs.None? { Abandon(s); }
        return 404, None;
      }
      TracksGrow(tracks, was.sessions, was.endpoints, old(track), m.endpoint, t);
      ok := Connect(m.endpoint, c, transport);
      if !ok {
        Undo(s, t, m.endpoint, was);
        return 461, None;
      }
      if rs.None? {
        var made := NewRtspSession(s, m.control, m.id);
        return 200, Some(made);
      }
      return 200, rs;
    }

    // ---- Requests ------------------------------------------------------------------

    /** handle_SETUP. A refused request leaves nothing behind; the reply to a
        granted one names the session that the new endpoint is a track of. */
    method HandleSetup(c: Address, req: SetupRequest, m: Memory) returns (code: nat, reply: Option<RtspSession>)
      requires Settled() && c in conns
      requires m.session !in sessions && m.endpoint !in endpoints
      modifies this`endpoints, this`conns, this`sessions, this`rtspSessions, this`liveSessions, this`track
      ensures Settled() && (code == 200 <==> Acceptable(tracks, old(Now()), c, req))
      ensures var rs := Lookup(old(rtspSessions), req.session);
              code == if !req.found || req.track < 0 || req.track >= MAX_TRACKS then 404
                      else if !req.authorised then 401
                      else if req.transport.None? then 461
                      else if req.session.Some? && rs.None? then 454
                      else if req.session.Some? && Taken(old(sessions), rs.value.sess, req.track) then 461
                      else if req.track >= tracks then 404
                      else if !Possible(ChannelsOf(old(conns)[c]), req.transport.value) then 461
                      else 200
      ensures code != 200 ==> Now() == old(Now())
      ensures code == 200 ==>
        && reply.Some? && Lookup(rtspSessions, Some(reply.value.id)) == reply
        && var s := reply.value.sess;
           && s in sessions && 0 <= req.track < |sessions[s].ep| && sessions[s].ep[req.track] == Some(m.endpoint)
           && (exists tr :: Suits(ChannelsOf(old(conns)[c]), req.transport.value, c, tr)
                         && endpoints == old(endpoints)[m.endpoint := Endpoint(s, tr)])
           && sessions - {s} == old(sessions) - {s}
           && if req.session.Some? then
                && reply == Lookup(old(rtspSessions), req.session) && s in old(sessions)
                  && req.track < |old(sessions)[s].ep|
                && sessions[s] == old(sessions)[s].(ep := old(sessions)[s].ep[req.track := Some(m.endpoint)])
              else
                && s == m.session && reply.value.id == m.id
                && sessions[s] == Session([None, None][req.track := Some(m.endpoint)], Some(m.control), false)
      ensures code == 200 ==> conns - {c} == old(conns) - {c} && c in conns
    {
      hide Channels, Tracks, Controlled, Listed, Possible, Suits, ChannelsOf, Empty, Busy;
      if !req.found || req.track < 0 || req.track >= MAX_TRACKS { return 404, None; }
      if !req.authorised { return 401, None; }
      if req.transport.None? { return 461, None; }
      if req.session.None? {
        code, reply := SetupNew(c, req.track, req.transport.value, m);
      } else {
        var rs := GetSession(req.session);
        if rs.None? { return 454, None; }
        LookupLive(sessions, rtspSessions, req.session);
        UnusedTracks(tracks, sessions, endpoints, track, rs.value.sess);
        LookupAgain(rtspSessions, req.session);
        ghost var ep := sessions[rs.value.sess].ep;
        code, reply := SetupTrack(rs.value.sess, rs, req.track, c, req.transport.value, m);
        if code == 200 {
          SomeTrack(sessions[rs.value.sess].ep, req.track);
          StillBusy(old(sessions), rs.value.sess, sessions[rs.value.sess]);
        }
      }
    }

    /** The session has an endpoint for the track. */
    predicate Taken(sessions: map<Address, Session>, s: Address, t: int) {
      s in sessions && 0 <= t < |sessions[s].ep| && sessions[s].ep[t].Some?
    }

    /** handle_SETUP without a Session header */
    method SetupNew(c: Address, t: nat, transport: Transport, m: Memory) returns (code: nat, reply: Option<RtspSession>)
      requires Settled() && c in conns && t < MAX_TRACKS
      requires m.session !in sessions && m.endpoint !in endpoints
      modifies this`endpoints, this`conns, this`sessions, this`rtspSessions, this`liveSessions, this`track
      ensures Settled()
      ensures code == if t >= tracks then 404 else if !Possible(ChannelsOf(old(conns)[c]), transport) then 461 else 200
      ensures code != 200 ==> Now() == old(Now())
      ensures code == 200 ==>
        && reply == Some(RtspSession(m.control, m.id, m.session)) && rtspSessions == [reply.value] + old(rtspSessions)
        && sessions == old(sessions)[m.session := Session([None, None][t := Some(m.endpoint)], Some(m.control), false)]
        && exists tr :: Suits(ChannelsOf(old(conns)[c]), transport, c, tr)
                     && endpoints == old(endpoints)[m.endpoint := Endpoint(m.session, tr)]
      ensures code == 200 ==> conns - {c} == old(conns) - {c} && c in conns
    {
      hide Channels, Tracks, Controlled, Listed, Possible, Suits, ChannelsOf, Busy;
      UnlistNew(sessions, rtspSessions, liveSessions, m.session);
      Open(m.session);
      code, reply := SetupTrack(m.session, None, t, c, transport, m);
      if code != 200 {
        assert sessions == old(sessions);
      } else {
        SomeTrack(sessions[m.session].ep, t);
        StillBusy(old(sessions), m.session, sessions[m.session]);
        assert sessions == old(sessions)[m.session := sessions[m.session]];
      }
    }

    /** handle_DESCRIBE. The session opened for it is gone again afterwards,
        except that a client who is refused for want of credentials leaves
        one behind that nobody can name or tear down. */
    method HandleDescribe(found: bool, authorised: bool, ready: bool, m: Memory) returns (code: nat)
      requires Settled() && m.session !in sessions
      modifies this`endpoints, this`conns, this`sessions, this`rtspSessions, this`liveSessions
      ensures Settled()
      ensures code == if !found then 404 else if !authorised then 401 else if ready then 200 else 404
      ensures Now() == if code == 401
                       then old(Now()).(sessions := old(sessions)[m.session := Session([None, None], None, false)],
                                        liveSessions := [m.session] + old(liveSessions))
                       else old(Now())
    {
      hide Channels, Tracks, Controlled, Listed;
      if !found { return 404; }
      UnlistNew(sessions, rtspSessions, liveSessions, m.session);
      Open(m.session);
      if !authorised { return 401; }
      code := if ready then 200 else 404;
      Abandon(m.session);
      assert sessions == old(sessions);
    }

    /** handle_PLAY */
    method HandlePlay(header: Option<string>) returns (code: nat)
      requires Settled()
      modifies this`sessions
      ensures Settled()
      ensures var rs := Lookup(old(rtspSessions), header);
              if rs.None? then code == 454 && sessions == old(sessions)
              else
                && code == 200
                && sessions == old(sessions)[rs.value.sess := old(sessions)[rs.value.sess].(playing := true)]
    {
      hide Channels, Tracks, Controlled, Listed;
      var rs := GetSession(header);
      if rs.None? { return 454; }
      LookupLive(sessions, rtspSessions, header);
      var s := rs.value.sess;
      var now := sessions[s].(playing := true);
      SameControl(sessions, rtspSessions, liveSessions, s, now);
      TracksSame(tracks, sessions, endpoints, track, s, now);
      sessions := sessions[s := now];
      return 200;
    }

    /** A teardown of the session that a client or an endpoint names. */
    method Close(s: Address, which: Option<Address>)
      requires Settled() && s in sessions && |sessions[s].ep| == MAX_TRACKS
      modifies this`endpoints, this`conns, this`sessions, this`rtspSessions, this`liveSessions
      ensures Settled()
      ensures endpoints == old(endpoints) - Gone(old(sessions)[s].ep, which, MAX_TRACKS)
      ensures Freed(old(conns), conns, Gone(old(sessions)[s].ep, which, MAX_TRACKS))
      ensures var kept := Kept(old(sessions)[s].ep, which, MAX_TRACKS);
              sessions == if Empty(kept) then old(sessions) - {s} else old(sessions)[s := old(sessions)[s].(ep := kept)]
    {
      hide Channels, Tracks, Controlled, Listed, Freed, Empty, Busy;
      Teardown(s, which);
      BusyAfter(old(sessions), s, Kept(old(sessions)[s].ep, which, MAX_TRACKS));
    }

    /** handle_TEARDOWN. A URL that names a track without an endpoint tears
        down the whole session, like one that names no track. */
    method HandleTeardown(found: bool, t: int, header: Option<string>) returns (code: nat)
      requires Settled()
      modifies this`endpoints, this`conns, this`sessions, this`rtspSessions, this`liveSessions
      ensures Settled()
      ensures code == if !found || t >= MAX_TRACKS then 404
                      else if Lookup(old(rtspSessions), header).None? then 454 else 200
      ensures code != 200 ==> Now() == old(Now())
      ensures code == 200 ==>
        var s := Lookup(old(rtspSessions), header).value.sess;
        && s in old(sessions) && |old(sessions)[s].ep| == MAX_TRACKS
        && if t >= 0 && old(sessions)[s].ep[t].Some? then
             && endpoints == old(endpoints) - {old(sessions)[s].ep[t].value}
             && (var kept := old(sessions)[s].ep[t := None];
                 sessions == if Empty(kept) then old(sessions) - {s}
                   else old(sessions)[s := old(sessions)[s].(ep := kept)])
           else
             && sessions == old(sessions) - {s}
             && (forall e :: e in endpoints <==> e in old(endpoints) && old(endpoints)[e].session != s)
    {
      hide Channels, Tracks, Controlled, Listed, Busy, Freed, Empty;
      if !found || t >= MAX_TRACKS { return 404; }
      var rs := GetSession(header);
      if rs.None? { return 454; }
      LookupLive(sessions, rtspSessions, header);
      var s := rs.value.sess;
      UnusedTracks(tracks, sessions, endpoints, track, s);
      if t >= 0 && sessions[s].ep[t].Some? {
        OnlyThat(tracks, sessions, endpoints, track, s, t);
        Close(s, sessions[s].ep[t]);
      } else {
        AllOfThem(tracks, sessions, endpoints, track, s);
        Close(s, None);
      }
      return 200;
    }

    // ---- Losing endpoints and connections ----------------------------------------------

    /** A socket error on an endpoint, or its client's silence, tears it down. */
    method LoseEndpoint(e: Address)
      requires Settled() && e in endpoints
      modifies this`endpoints, this`conns, this`sessions, this`rtspSessions, this`liveSessions
      ensures Settled() && endpoints == old(endpoints) - {e} && Freed(old(conns), conns, {e})
      ensures var s := old(endpoints)[e].session; sessions - {s} == old(sessions) - {s}
    {
      hide Channels, Tracks, Controlled, Listed, Busy, Freed, Kept, Empty;
      TrackOf(tracks, sessions, endpoints, track, e);
      OnlyThat(tracks, sessions, endpoints, track, endpoints[e].session, track[e]);
      Close(endpoints[e].session, Some(e));
    }

    /** rtsp_conn_disconnect: afterwards no endpoint is interleaved on the
        connection, and those that were not are still there. */
    method ConnDisconnect(c: Address)
      requires Settled() && c in conns && conns[c].Some?
      modifies this`endpoints, this`conns, this`sessions, this`rtspSessions, this`liveSessions
      ensures Settled() && c in conns && conns[c].None? && conns.Keys == old(conns).Keys
      ensures forall e :: e in endpoints <==> e in old(endpoints) && !On(old(endpoints)[e], c)
      ensures forall e :: e in endpoints ==> endpoints[e] == old(endpoints)[e]
      ensures forall s :: s in old(sessions) && Elsewhere(old(endpoints), s, c) ==>
              s in sessions && sessions[s] == old(sessions)[s]
    {
      hide Channels, Tracks, Controlled, Listed, Busy, Freed;
      ChannelFacts(endpoints, conns, c);
      var i := 0;
      while i < MAX_INTERLEAVE_CHANNELS
        invariant 0 <= i <= MAX_INTERLEAVE_CHANNELS && Settled()
        invariant c in conns && conns[c].Some? && |conns[c].value| == MAX_INTERLEAVE_CHANNELS
        invariant conns.Keys == old(conns).Keys
        invariant forall k :: 0 <= k < i ==> conns[c].value[k].ep.None? || conns[c].value[k].rtcp
        invariant forall e :: e in endpoints ==> e in old(endpoints) && endpoints[e] == old(endpoints)[e]
        invariant forall e :: e in old(endpoints) && !On(old(endpoints)[e], c) ==> e in endpoints
        invariant forall s :: s in old(sessions) && Elsewhere(old(endpoints), s, c) ==>
                  s in sessions && sessions[s] == old(sessions)[s]
      {
        if conns[c].value[i].ep.Some? && !conns[c].value[i].rtcp {
          ghost var before := conns;
          ChannelFact(endpoints, conns, c, i);
          ghost var e := conns[c].value[i].ep.value;
          ghost var was, home := sessions, endpoints[e].session;
          LoseEndpoint(conns[c].value[i].ep.value);
          forall s | s in old(sessions) && Elsewhere(old(endpoints), s, c)
            ensures s in sessions && sessions[s] == old(sessions)[s] {
            assert s != home;
            assert s in was - {home} && (was - {home})[s] == was[s];
            assert s in sessions - {home} && (sessions - {home})[s] == sessions[s];
          }
          FreedFact(before, conns, c, e);
        }
        i := i + 1;
      }
      NobodyOn(endpoints, conns, c);
      CloseChannels(endpoints, conns, c);
      OpenChannels(endpoints, conns - {c}, c, NoChannels());
      assert conns[c := None] == (conns - {c})[c := None];
      conns := conns[c := None];
    }

    /** drop_conn */
    method DropConn(c: Address)
      requires Settled() && c in conns
      modifies this`endpoints, this`conns, this`sessions, this`rtspSessions, this`liveSessions
      ensures Settled() && conns.Keys == old(conns).Keys - {c}
      ensures forall e :: e in endpoints <==> e in old(endpoints) && !On(old(endpoints)[e], c)
      ensures forall e :: e in endpoints ==> endpoints[e] == old(endpoints)[e]
      ensures forall s :: s in old(sessions) && Elsewhere(old(endpoints), s, c) ==>
              s in sessions && sessions[s] == old(sessions)[s]
    {
      hide Channels, Tracks, Controlled, Listed, Busy;
      if conns[c].Some? { ConnDisconnect(c); } else { NobodyYet(endpoints, conns, c); }
      CloseChannels(endpoints, conns, c);
      conns := conns - {c};
    }

    /** do_accept */
    method Accept(c: Address)
      requires Settled() && c !in conns
      modifies this`conns
      ensures Settled() && conns == old(conns)[c := None]
    {
      hide Tracks, Controlled, Listed, Busy;
      OpenChannels(endpoints, conns, c, NoChannels());
      conns := conns[c := None];
    }

    // ---- Whole runs --------------------------------------------------------------------

    /** One request or event; one that concerns what is not there is no event. */
    method Do(step: Step)
      requires Settled()
      modifies this
      ensures Settled()
    {
      hide Channels, Tracks, Controlled, Listed, Busy, Acceptable, Freed;
      ghost var x := Spare(sessions.Keys);
      ghost var y := Spare(endpoints.Keys);
      ghost var z := Spare(conns.Keys);
      assert x !in sessions && y !in endpoints && z !in conns;
      var s: Address :| s !in sessions;
      var e: Address :| e !in endpoints;
      match step {
        case Accepting =>
          var c: Address :| c !in conns;
          Accept(c);
        case SettingUp(c, req, control, id) =>
          if c in conns { var code, reply := HandleSetup(c, req, Memory(s, control, e, id)); }
        case Describing(found, authorised, ready) =>
          var code := HandleDescribe(found, authorised, ready, Memory(s, 0, e, ""));
        case Playing(header) =>
          var code := HandlePlay(header);
        case TearingDown(found, t, header) =>
          var code := HandleTeardown(found, t, header);
        case Losing(lost) =>
          if lost in endpoints { LoseEndpoint(lost); }
        case Dropping(c) =>
          if c in conns { DropConn(c); }
      }
    }

    /** Whatever clients do and whatever fails, in whatever order. */
    method Serve(steps: seq<Step>)
      requires Settled()
      modifies this
      ensures Settled() && ChannelsExact(endpoints, conns)
    {
      for i := 0 to |steps|
        invariant Settled()
      {
        Do(steps[i]);
      }
      ChannelsAreExact(endpoints, conns);
    }
  }

  lemma SomeTrack(ep: seq<Option<Address>>, t: nat)
    requires t < |ep| && ep[t].Some?
    ensures !Empty(ep)
  {
  }

  /** Remembering which track an endpoint to come will be. */
  lemma TracksGrow(tracks: nat, sessions: Sessions, endpoints: Endpoints, track: map<Address, nat>, e: Address, t: nat)
    requires Tracks(tracks, sessions, endpoints, track) && e !in endpoints
    ensures Tracks(tracks, sessions, endpoints, track[e := t])
  {
  }

  lemma ChannelCount(endpoints: Endpoints, conns: Conns, c: Address)
    requires Channels(endpoints, conns) && c in conns
    ensures |ChannelsOf(conns[c])| == MAX_INTERLEAVE_CHANNELS
    ensures conns[c].None? ==> forall i :: 0 <= i < MAX_INTERLEAVE_CHANNELS ==> ChannelsOf(conns[c])[i].ep.None?
  {
  }

  lemma GrantedFree(chans: seq<Channel>, asked: Interleaved, r: int)
    requires Granted(chans, asked, r)
    ensures FreePair(chans, r)
  {
  }

  /** Only the source's tracks are ever set up. */
  lemma UnusedTracks(tracks: nat, sessions: Sessions, endpoints: Endpoints, track: map<Address, nat>, s: Address)
    requires Tracks(tracks, sessions, endpoints, track) && s in sessions
    ensures |sessions[s].ep| == MAX_TRACKS && forall t :: tracks <= t < MAX_TRACKS ==> sessions[s].ep[t].None?
  {
  }

  lemma TrackFacts(tracks: nat, sessions: Sessions, endpoints: Endpoints, track: map<Address, nat>, s: Address, t: nat)
    requires Tracks(tracks, sessions, endpoints, track) && s in sessions && t < MAX_TRACKS
    ensures |sessions[s].ep| == MAX_TRACKS
    ensures sessions[s].ep[t].Some? ==>
              && t < tracks && sessions[s].ep[t].value in endpoints
              && endpoints[sessions[s].ep[t].value].session == s
  {
  }

  /** Changing a session's tracks or playing state leaves the lists in order. */
  lemma SameControl(sessions: Sessions, list: seq<RtspSession>, live: seq<Address>, s: Address, now: Session)
    requires Controlled(sessions, list) && Listed(sessions, live) && s in sessions
    requires now.control == sessions[s].control
    ensures Controlled(sessions[s := now], list) && Listed(sessions[s := now], live)
  {
  }

  lemma DropTracks(tracks: nat, sessions: Sessions, endpoints: Endpoints, track: map<Address, nat>, s: Address)
    requires Tracks(tracks, sessions, endpoints, track) && s in sessions
    requires forall t :: 0 <= t < |sessions[s].ep| ==> sessions[s].ep[t].None?
    ensures Tracks(tracks, sessions - {s}, endpoints, track)
  {
  }

  lemma NotControlled(sessions: Sessions, list: seq<RtspSession>, s: Address)
    requires Controlled(sessions, list) && s in sessions
    ensures sessions[s].control.None? ==> Uncontrolled(list, s) == list
    ensures forall i :: 0 <= i < |Uncontrolled(list, s)| ==> Uncontrolled(list, s)[i].sess != s
  {
    UncontrolledKeeps(list, s);
    forall i | 0 <= i < |Uncontrolled(list, s)| ensures Uncontrolled(list, s)[i].sess != s {
      assert Uncontrolled(list, s)[i] in Uncontrolled(list, s);
    }
    if sessions[s].control.None? { NothingToDrop(list, s); }
  }
}
