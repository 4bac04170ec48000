// The event loop (spook/event.c). Callbacks are arbitrary: each may add,
// remove, enable, disable and reschedule events, and end the loop.
module EventLoop {
  import opened EventList
  import opened EventTrace

  ghost predicate HappenedIn(t: seq<Item>, x: Item, since: nat) {
    exists k :: since <= k < |t| && t[k] == x
  }

  lemma HappenedLater(t: seq<Item>, t': seq<Item>, x: Item, since: nat)
    requires t <= t'
    ensures HappenedIn(t, x, since) ==> HappenedIn(t', x, since)
  {
    if HappenedIn(t, x, since) {
      var k :| since <= k < |t| && t[k] == x;
      assert t'[k] == x;
    }
  }

  lemma GrownSame(nodes: seq<Event>)
    ensures Grown(nodes, nodes)
  {
  }

  lemma GrownThen(a: seq<Event>, b: seq<Event>, c: seq<Event>)
    requires Grown(a, b) && Grown(b, c)
    ensures Grown(a, c)
  {
    assert c[|c| - |a|..] == c[|c| - |b|..][|b| - |a|..];
  }

  lemma GrownHas(before: seq<Event>, now: seq<Event>)
    requires Grown(before, now)
    ensures forall e :: e in before ==> e in now
  {
    forall e | e in before ensures e in now {
      var i :| 0 <= i < |before| && before[i] == e;
      assert now[|now| - |before|..][i] == e;
    }
  }

  lemma HappenedNow(t: seq<Item>, x: Item, t': seq<Item>, since: nat)
    requires t + [x] <= t' && since <= |t|
    ensures HappenedIn(t', x, since)
  {
    assert t'[|t|] == x;
  }

  lemma HappenedOn(t: seq<Item>, items: seq<Item>, x: Item, since: nat)
    requires since <= |t|
    ensures HappenedIn(t + items, x, since) <==> HappenedIn(t, x, since) || x in items
  {
    var t' := t + items;
    if HappenedIn(t, x, since) {
      var k :| since <= k < |t| && t[k] == x;
      assert t'[k] == x;
    }
    if i :| 0 <= i < |items| && items[i] == x { assert t'[|t| + i] == x; }
  }

  lemma EndsStep(t: seq<Item>, items: seq<Item>, since: nat)
    requires since <= |t| && |items| <= 1 && EndsCalls(t, since)
    requires HappenedIn(t, Ended, since) ==> forall k :: 0 <= k < |items| ==> !items[k].Invoked?
    ensures EndsCalls(t + items, since)
    ensures HappenedIn(t + items, Ended, since) <==> HappenedIn(t, Ended, since) || Ended in items
  {
    HappenedOn(t, items, Ended, since);
    var t' := t + items;
    forall j, k | since <= j < k < |t'| && t'[j] == Ended ensures !t'[k].Invoked? {
      if k < |t| { assert t[j] == Ended && t[k] == t'[k]; } else { assert t[j] == Ended && t'[k] == items[k - |t|]; }
    }
  }

  /** The events a dispatch loop has passed by, all of nodes but rest, were
      called or removed if they were due to run and their time had come. */
  ghost predicate Served(t: seq<Item>, was: set<Event>, since: nat, due: set<Event>, any: bool,
                         nodes: seq<Event>, rest: seq<Event>)
  {
    && Grown(rest, nodes)
    && forall i :: 0 <= i < |nodes| - |rest| ==>
         nodes[i] in was && (nodes[i] in due || any) ==>
           HappenedIn(t, Invoked(nodes[i]), since) || HappenedIn(t, Removed(nodes[i]), since)
  }

  lemma ServedStart(t: seq<Item>, was: set<Event>, since: nat, due: set<Event>, any: bool, nodes: seq<Event>)
    ensures Served(t, was, since, due, any, nodes, nodes)
  {
  }

  lemma ServedEnd(t: seq<Item>, was: set<Event>, since: nat, due: set<Event>, any: bool, nodes: seq<Event>)
    requires Served(t, was, since, due, any, nodes, [])
    ensures forall e :: e in nodes && e in was && (e in due || any) ==>
              HappenedIn(t, Invoked(e), since) || HappenedIn(t, Removed(e), since)
  {
    hide HappenedIn;
  }

  lemma ServedNext(t: seq<Item>, t': seq<Item>, was: set<Event>, since: nat, due: set<Event>, any: bool,
                   nodes: seq<Event>, rest: seq<Event>)
    requires Served(t, was, since, due, any, nodes, rest) && t <= t' && rest != []
    requires rest[0] in was && (rest[0] in due || any) ==>
               HappenedIn(t', Invoked(rest[0]), since) || HappenedIn(t', Removed(rest[0]), since)
    ensures Served(t', was, since, due, any, nodes, rest[1..])
  {
    hide HappenedIn;
    var k := |nodes| - |rest|;
    assert nodes[k..][0] == nodes[k] == rest[0] && nodes[k+1..] == rest[1..];
    forall i | 0 <= i < k
      ensures nodes[i] in was && (nodes[i] in due || any) ==>
                HappenedIn(t', Invoked(nodes[i]), since) || HappenedIn(t', Removed(nodes[i]), since)
    {
      HappenedLater(t, t', Invoked(nodes[i]), since);
      HappenedLater(t, t', Removed(nodes[i]), since);
    }
  }

  /** The calls since from were of the events that a dispatch loop has passed
      by, all of nodes but rest, each at most once, and of these only of such as
      were to run and are due. */
  ghost predicate Calling(t: seq<Item>, from: nat, was: set<Event>, due: set<Event>, any: bool,
                          nodes: seq<Event>, rest: seq<Event>)
  {
    && Grown(rest, nodes)
    && (forall k :: from <= k < |t| && t[k].Invoked? ==>
          exists i :: 0 <= i < |nodes| - |rest| && t[k].e == nodes[i] && nodes[i] in was && (nodes[i] in due || any))
    && CallsOnce(t, from)
  }

  ghost predicate CallsOnce(t: seq<Item>, from: nat) {
    forall j, k :: from <= j < k < |t| && t[j].Invoked? && t[k].Invoked? ==> t[j].e != t[k].e
  }

  lemma CallingStart(t: seq<Item>, was: set<Event>, due: set<Event>, any: bool, nodes: seq<Event>)
    ensures Calling(t, |t|, was, due, any, nodes, nodes)
  {
  }

  /** A turn of the loop: the next event is called first of all, or not at all. */
  ghost predicate OneCall(t: seq<Item>, from: nat, e: Event, may: bool) {
    forall k :: from <= k < |t| && t[k].Invoked? ==> k == from && t[k].e == e && may
  }

  lemma CalledOnce(t: seq<Item>, t': seq<Item>, e: Event)
    requires t + [Invoked(e)] <= t' && NoCalls(t', |t| + 1)
    ensures OneCall(t', |t|, e, true)
  {
    assert t'[|t|] == Invoked(e);
  }

  lemma TurnsNoCalls(t: seq<Item>, t': seq<Item>, turns: seq<Turn>, nodes: seq<Event>)
    requires t' == t + Done(turns) && Called(turns, nodes)
    ensures NoCalls(t', |t|)
  {
    DoneNoCalls(turns, nodes);
  }

  lemma CallingNext(t: seq<Item>, t': seq<Item>, from: nat, was: set<Event>, due: set<Event>, any: bool,
                    nodes: seq<Event>, rest: seq<Event>)
    requires Calling(t, from, was, due, any, nodes, rest) && t <= t' && from <= |t| && rest != []
    requires forall i, j :: 0 <= i < j < |nodes| ==> nodes[i] != nodes[j]
    requires OneCall(t', |t|, rest[0], rest[0] in was && (rest[0] in due || any))
    ensures Calling(t', from, was, due, any, nodes, rest[1..])
  {
    var n := |nodes| - |rest|;
    assert nodes[n..][0] == nodes[n] == rest[0] && nodes[n + 1..] == rest[1..];
    forall k | from <= k < |t'| && t'[k].Invoked?
      ensures exists i :: 0 <= i < n + 1 && t'[k].e == nodes[i] && nodes[i] in was && (nodes[i] in due || any)
    {
      if k < |t| { assert t[k] == t'[k]; } else { assert t'[k].e == nodes[n]; }
    }
    forall j, k | from <= j < k < |t'| && t'[j].Invoked? && t'[k].Invoked? ensures t'[j].e != t'[k].e {
      assert t[j] == t'[j];
      if k < |t| { assert t[k] == t'[k]; } else { assert t'[k].e == nodes[n]; }
    }
  }

  lemma CallingEnd(t: seq<Item>, from: nat, was: set<Event>, due: set<Event>, any: bool, nodes: seq<Event>,
                   rest: seq<Event>)
    requires Calling(t, from, was, due, any, nodes, rest)
    ensures CallsDue(t, from, was, due, any, nodes)
  {
  }

  /** What a dispatch loop calls: events of its list that were to run and are
      due, each at most once. */
  ghost predicate CallsDue(t: seq<Item>, from: nat, was: set<Event>, due: set<Event>, any: bool, nodes: seq<Event>) {
    && (forall k :: from <= k < |t| && t[k].Invoked? ==>
          t[k].e in nodes && t[k].e in was && (t[k].e in due || any))
    && CallsOnce(t, from)
  }

  /** An event that was called by item k: if one-shot it is flagged, unless it
      was rescheduled afterwards; any other timer is enabled and not flagged,
      unless it was disabled or removed afterwards. */
  ghost predicate ArmedAfter(t: seq<Item>, k: nat, e: Event, remove: bool, enabled: bool) {
    if e.oneshot then remove || HappenedIn(t, Rescheduled(e), k)
    else e.kind == Time ==>
      && (!remove || HappenedIn(t, Removed(e), k))
      && (enabled || HappenedIn(t, Removed(e), k) || HappenedIn(t, Disabled(e), k))
  }

  predicate DueByKind(e: Event, expired: set<Event>, selected: bool, ready: set<Event>) {
    match e.kind
    case Time => e in expired
    case Always => true
    case Fd => selected && e in ready
    case Soft => false
  }

  /** Timers come before the events that are always due, and descriptors last. */
  function Rank(kind: Kind): nat {
    match kind case Time => 0 case Always => 1 case Fd => 2 case Soft => 3
  }

  ghost predicate InOrder(t: seq<Item>, from: nat) {
    forall j, k :: from <= j < k < |t| && t[j].Invoked? && t[k].Invoked? ==>
      t[j].e != t[k].e && Rank(t[j].e.kind) <= Rank(t[k].e.kind)
  }

  /** The calls since from were of events of these kinds that were to run and
      are due, each at most once. */
  ghost predicate OnlyDue(t: seq<Item>, from: nat, was: set<Event>, expired: set<Event>, selected: bool,
                          ready: set<Event>, kinds: set<Kind>)
  {
    && (forall k :: from <= k < |t| && t[k].Invoked? ==>
          t[k].e.kind in kinds && t[k].e in was && DueByKind(t[k].e, expired, selected, ready))
    && InOrder(t, from)
  }

  lemma Started(before: seq<Item>, t: seq<Item>)
    requires t == before + [PassStart]
    ensures NoCalls(t, |before|) && !HappenedIn(t, Ended, |before|)
  {
  }

  /** The calls of a pass, its first item included. */
  lemma PassCalls(before: seq<Item>, t: seq<Item>, was: set<Event>, expired: set<Event>, selected: bool,
                  ready: set<Event>)
    requires before + [PassStart] <= t
    requires OnlyDue(t, |before| + 1, was, expired, selected, ready, {Time, Always, Fd})
    ensures InOrder(t, |before|)
    ensures forall k, e :: |before| <= k < |t| && t[k] == Invoked(e) ==>
              e in was && DueByKind(e, expired, selected, ready)
  {
    assert t[|before|] == PassStart;
  }

  lemma NothingDue(t: seq<Item>, was: set<Event>, expired: set<Event>, selected: bool, ready: set<Event>)
    ensures OnlyDue(t, |t|, was, expired, selected, ready, {})
  {
  }

  lemma NoneDue(t: seq<Item>, was: set<Event>, nodes: seq<Event>)
    ensures CallsDue(t, |t|, was, {}, false, nodes)
  {
  }

  lemma OnlyDueMore(t: seq<Item>, t': seq<Item>, from: nat, was: set<Event>, expired: set<Event>, selected: bool,
                    ready: set<Event>, kinds: set<Kind>, kind: Kind, due: set<Event>, nodes: seq<Event>)
    requires OnlyDue(t, from, was, expired, selected, ready, kinds) && from <= |t| && t <= t'
    requires CallsDue(t', |t|, was, due, kind == Always, nodes) && (forall q :: q in kinds ==> Rank(q) < Rank(kind))
    requires forall e :: e in nodes ==> e.kind == kind
    requires forall e :: e in nodes && (e in due || kind == Always) ==> DueByKind(e, expired, selected, ready)
    ensures OnlyDue(t', from, was, expired, selected, ready, kinds + {kind})
  {
    hide DueByKind;
    forall k | from <= k < |t'| && t'[k].Invoked?
      ensures t'[k].e.kind in kinds + {kind} && t'[k].e in was && DueByKind(t'[k].e, expired, selected, ready)
    {
      if k < |t| { assert t[k] == t'[k]; }
    }
    forall j, k | from <= j < k < |t'| && t'[j].Invoked? && t'[k].Invoked?
      ensures t'[j].e != t'[k].e && Rank(t'[j].e.kind) <= Rank(t'[k].e.kind)
    {
      if j < |t| { assert t[j] == t'[j]; }
      if k < |t| { assert t[k] == t'[k]; }
    }
  }

  ghost predicate Mentions(t: seq<Item>, known: seq<Event>) {
    forall k :: 0 <= k < |t| && t[k].Invoked? ==> t[k].e in known
  }

  ghost predicate Sound(t: seq<Item>, e: Event)
    reads e`enabled, e`running
  {
    && (Quiet(t, e) ==> !e.running && !e.enabled)
    && (New(t, e) ==> !e.running)
  }

  class EventLoop {
    const time: EventList
    const fd: EventList
    const always: EventList
    const soft: EventList      // the listeners of a soft queue
    var endLoop: bool
    var registry: seq<Event>   // every event made so far; callbacks keep pointers to them
    ghost var trace: seq<Item>

    ghost predicate Lists()
      reads time, fd, always, soft, time.nodes`next, time.nodes`prev, fd.nodes`next, fd.nodes`prev,
            always.nodes`next, always.nodes`prev, soft.nodes`next, soft.nodes`prev, `registry
    {
      ListsIn(registry)
    }

    ghost predicate ListsIn(r: seq<Event>)
      reads time, fd, always, soft, time.nodes`next, time.nodes`prev, fd.nodes`next, fd.nodes`prev,
            always.nodes`next, always.nodes`prev, soft.nodes`next, soft.nodes`prev
    {
      && time.Valid() && fd.Valid() && always.Valid() && soft.Valid()
      && time.kind == Time && fd.kind == Fd && always.kind == Always && soft.kind == Soft
      && (forall i :: 0 <= i < |time.nodes| ==> time.nodes[i] in r)
      && (forall i :: 0 <= i < |fd.nodes| ==> fd.nodes[i] in r)
      && (forall i :: 0 <= i < |always.nodes| ==> always.nodes[i] in r)
      && (forall i :: 0 <= i < |soft.nodes| ==> soft.nodes[i] in r)
    }

    /** What the flags say about the run so far: a quiet event is neither
        enabled nor due to run, and a new one is not due to run. */
    ghost predicate Flags()
      reads `registry, `trace, registry`enabled, registry`running
    {
      && (forall i :: 0 <= i < |trace| ==> Eventless(trace[i]) || trace[i].e in registry)
      && (forall i :: 0 <= i < |registry| ==> Sound(trace, registry[i]))
      && Safe(trace)
    }

    ghost predicate Valid()
      reads this, time, fd, always, soft, registry, time.nodes`next, time.nodes`prev, fd.nodes`next, fd.nodes`prev,
            always.nodes`next, always.nodes`prev, soft.nodes`next, soft.nodes`prev
    {
      Lists() && Flags() && time != fd && fd != always && always != time && soft !in {time, fd, always}
    }

    constructor ()
      ensures Valid() && trace == [] && registry == []
    {
      time := new EventList(Time);
      fd := new EventList(Fd);
      always := new EventList(Always);
      soft := new EventList(Soft);
      endLoop, registry, trace := false, [], [];
    }

    /** One more item, when the flags already fit it. */
    ghost method Record(x: Item)
      requires Safe(trace)
      requires forall i :: 0 <= i < |trace| ==> Eventless(trace[i]) || trace[i].e in registry
      requires Eventless(x) || x.e in registry
      requires x.Invoked? ==> !Quiet(trace, x.e) && !New(trace, x.e)
      requires forall i :: 0 <= i < |registry| ==> SoundAfter(trace, x, registry[i])
      modifies this`trace
      ensures trace == old(trace) + [x] && Flags()
    {
      SafeSnoc(trace, x);
      forall i | 0 <= i < |registry| ensures Sound(trace + [x], registry[i]) {
        Snoc(trace, x, registry[i]);
      }
      hide Quiet, New, Safe;
      trace := trace + [x];
    }

    /** Since the old state events have only been added. */
    twostate predicate Extends()
      reads this
    {
      && |old(registry)| <= |registry|
      && forall i :: 0 <= i < |registry| ==>
           if i < |old(registry)| then registry[i] == old(registry)[i] else fresh(registry[i])
    }

    ghost predicate Happened(x: Item, since: nat)
      reads `trace
    {
      HappenedIn(trace, x, since)
    }

    /** On one of the three lists of the loop. */
    ghost predicate Listed(e: Event)
      reads time`nodes, fd`nodes, always`nodes
    {
      e in time.nodes || e in fd.nodes || e in always.nodes
    }

    /** How a pass stands that began when the trace had since items. Of the
        events that were due to run, each still is, or was removed in the
        meantime, and no other on the lists is; the events called are armed; and
        when the loop was ended, it knows. */
    ghost predicate Still(was: set<Event>, since: nat)
      reads `trace, `endLoop, `registry, time`nodes, fd`nodes, always`nodes,
            registry`running, registry`remove, registry`enabled
    {
      && since <= |trace| && EndsCalls(trace, since) && (Happened(Ended, since) ==> endLoop)
      && (forall e :: e in was ==> e in registry)
      && forall i :: 0 <= i < |registry| ==> StillOne(registry[i], was, since)
    }

    ghost predicate StillOne(e: Event, was: set<Event>, since: nat)
      reads `trace, time`nodes, fd`nodes, always`nodes, e`running, e`remove, e`enabled
    {
      && (e in was ==> e.running || Happened(Removed(e), since))
      && (e.running && Listed(e) ==> e in was)
      && forall k :: since <= k < |trace| && trace[k] == Invoked(e) ==> ArmedAfter(trace, k, e, e.remove, e.enabled)
    }

    /** A change of flags that goes with the given items, at most one. */
    twostate predicate Stepped(new items: seq<Item>)
      reads this, registry, time, fd, always
    {
      && Extends()
      && (forall i :: 0 <= i < |old(registry)| ==> FlagsStepped(old(registry)[i], items))
      && (forall i :: 0 <= i < |old(registry)| && Listed(old(registry)[i]) ==> old(Listed(registry[i])))
      && forall i :: |old(registry)| <= i < |registry| ==> !registry[i].running
    }

    twostate predicate FlagsStepped(e: Event, new items: seq<Item>)
      reads e
    {
      && (e.running ==> old(e.running)) && (old(e.running) && !e.running ==> Removed(e) in items)
      && (old(e.remove) && !e.remove ==> Rescheduled(e) in items || (Invoked(e) in items && !e.oneshot))
      && (!old(e.remove) && e.remove ==> Removed(e) in items || e.oneshot)
      && (old(e.enabled) && !e.enabled ==> Removed(e) in items || Disabled(e) in items)
      && (Invoked(e) in items && e.oneshot ==> e.remove)
      && (Invoked(e) in items && !e.oneshot && e.kind == Time ==> !e.remove && e.enabled)
    }

    twostate lemma StillStep(new was: set<Event>, since: nat, new items: seq<Item>)
      requires (forall e :: e in was ==> e in old(registry)) && old(Still(was, since)) && Stepped(items)
      requires trace == old(trace) + items && |items| <= 1
      requires old(endLoop) || Ended in items ==> endLoop
      requires Mentions(old(trace), old(registry)) && Mentions(items, old(registry))
      requires items != [] && items[0].Invoked? ==> !old(endLoop)
      ensures Still(was, since)
    {
      hide HappenedIn;
      forall i | 0 <= i < |registry| ensures StillOne(registry[i], was, since) {
        var e := registry[i];
        HappenedOn(old(trace), items, Removed(e), since);
        forall k | since <= k < |trace| && trace[k] == Invoked(e)
          ensures ArmedAfter(trace, k, e, e.remove, e.enabled)
        {
          if k < |old(trace)| {
            assert old(trace)[k] == Invoked(e);
            HappenedOn(old(trace), items, Rescheduled(e), k);
            HappenedOn(old(trace), items, Removed(e), k);
            HappenedOn(old(trace), items, Disabled(e), k);
          } else {
            assert items[0] == Invoked(e);
          }
        }
      }
      EndsStep(old(trace), items, since);
    }

    // ---- What callbacks can do ------------------------------------------------

    function ListOf(kind: Kind): EventList {
      match kind
      case Time => time
      case Fd => fd
      case Always => always
      case Soft => soft
    }

    method RemoveEvent(e: Event)
      requires Valid() && e in registry
      modifies this`trace, e`remove, e`running, e`enabled
      ensures Valid() && trace == old(trace) + [Removed(e)]
      ensures e.remove && !e.running && !e.enabled
      ensures Stepped([Removed(e)])
    {
      hide Lists, Quiet, New, Safe;
      e.remove := true;
      e.running, e.enabled := false, false;
      Record(Removed(e));
    }

    method SetEventEnabled(e: Event, enabled: bool)
      requires Valid() && e in registry
      modifies this`trace, e`enabled
      ensures Valid() && trace == old(trace) + [if enabled then Enabled(e) else Disabled(e)]
      ensures e.enabled == enabled
      ensures Stepped([if enabled then Enabled(e) else Disabled(e)])
    {
      hide Lists, Quiet, New, Safe;
      e.enabled := enabled;
      Record(if enabled then Enabled(e) else Disabled(e));
    }

    /** resched_event, which also takes back a pending removal. */
    method ReschedEvent(e: Event)
      requires Valid() && e in registry
      modifies this`trace, e`enabled, e`remove
      ensures Valid() && trace == old(trace) + [Rescheduled(e)]
      ensures e.enabled && !e.remove
      ensures Stepped([Rescheduled(e)])
    {
      hide Lists, Quiet, New, Safe;
      e.remove := false;
      e.enabled := true;
      Record(Rescheduled(e));
    }

    /** add_timer_event, add_alarm_event, add_fd_event, add_always_event and
        add_softqueue_event: the event starts enabled, at the front of the list of its kind. */
    method AddEvent(kind: Kind, oneshot: bool) returns (e: Event)
      requires Valid()
      modifies this`registry, this`trace, time, fd, always, soft, registry`prev
      ensures Valid() && fresh(e) && registry == old(registry) + [e] && trace == old(trace) + [Added(e)]
      ensures Stepped([Added(e)])
      ensures e.kind == kind && e.oneshot == oneshot && e.enabled && !e.remove && !e.running
      ensures ListOf(kind).nodes == [e] + old(ListOf(kind).nodes)
      ensures AllGrown(old(time.nodes), old(fd.nodes), old(always.nodes)) && Grown(old(soft.nodes), soft.nodes)
    {
      hide ListsIn, Flags, Linked, Listed, Grown, Stepped;
      e := new Event(kind, oneshot, true);
      Link(e);
      Register(e);
      AddStepped(e);
    }

    twostate lemma AddStepped(new e: Event)
      requires registry == old(registry) + [e] && fresh(e) && !e.running
      requires forall x :: x in old(registry) ==>
        x.running == old(x.running) && x.remove == old(x.remove) && x.enabled == old(x.enabled)
      requires forall x :: x in old(registry) && Listed(x) ==> old(Listed(x))
      ensures Stepped([Added(e)])
    {
    }

    method Register(e: Event)
      requires Flags() && e !in registry && !e.running
      modifies this`registry, this`trace
      ensures Flags() && registry == old(registry) + [e] && trace == old(trace) + [Added(e)]
    {
      hide Quiet, New, Safe;
      Unmentioned(trace, e);
      registry := registry + [e];
      Record(Added(e));
    }

    method Link(e: Event)
      requires Lists() && e !in registry && e.prev == null
      modifies time, fd, always, soft, registry`prev, e`next
      ensures ListsIn(registry + [e])
      ensures ListOf(e.kind).nodes == [e] + old(ListOf(e.kind).nodes)
      ensures forall x :: x in registry && Listed(x) ==> old(Listed(x))
      ensures AllGrown(old(time.nodes), old(fd.nodes), old(always.nodes)) && Grown(old(soft.nodes), soft.nodes)
    {
      hide Linked;
      if e.kind == Time {
        time.Prepend(e);
      } else if e.kind == Fd {
        fd.Prepend(e);
      } else if e.kind == Always {
        always.Prepend(e);
      } else {
        soft.Prepend(e);
      }
    }

    /** Lists only grow at their front while a pass is under way. */
    ghost predicate AllGrown(t: seq<Event>, f: seq<Event>, a: seq<Event>)
      reads time`nodes, fd`nodes, always`nodes
    {
      Grown(t, time.nodes) && Grown(f, fd.nodes) && Grown(a, always.nodes)
    }

    /** Any callback: any finite series of the operations above, on any event
        that was ever made, and possibly exit_event_loop. */
    method Callback(ghost was: set<Event>, ghost since: nat)
      requires Valid() && Still(was, since) && (forall e :: e in was ==> e in registry)
      modifies this, time, fd, always, soft, registry
      ensures Valid() && Extends() && old(trace) <= trace && Still(was, since) && (old(endLoop) ==> endLoop)
      ensures AllGrown(old(time.nodes), old(fd.nodes), old(always.nodes)) && Grown(old(soft.nodes), soft.nodes)
      ensures Ordinary(trace[|old(trace)|..], old(registry)) && FlagsStay()
    {
      hide Lists, Flags, Still, Ordinary, Grown;
      var ops: nat := *;
      Nothing(trace, registry);
      GrownSame(time.nodes);
      GrownSame(fd.nodes);
      GrownSame(always.nodes);
      GrownSame(soft.nodes);
      while ops > 0
        invariant Valid() && Extends() && old(trace) <= trace && Still(was, since) && (old(endLoop) ==> endLoop)
        invariant AllGrown(old(time.nodes), old(fd.nodes), old(always.nodes)) && Grown(old(soft.nodes), soft.nodes)
        invariant Ordinary(trace[|old(trace)|..], old(registry)) && FlagsStay()
      {
        ops := ops - 1;
        ghost var t, known := trace, registry;
        ghost var t1, f1, a1, s1 := time.nodes, fd.nodes, always.nodes, soft.nodes;
        Operation(was, since);
        OrdinaryThen(old(trace), t, trace, old(registry), known);
        GrownThen(old(time.nodes), t1, time.nodes);
        GrownThen(old(fd.nodes), f1, fd.nodes);
        GrownThen(old(always.nodes), a1, always.nodes);
        GrownThen(old(soft.nodes), s1, soft.nodes);
      }
    }

    /** Nothing takes back that a listener is to be removed: its flag stays. */
    twostate predicate FlagsStay()
      reads this, registry
    {
      forall e :: e in old(registry) && e in registry && e.kind == Soft && old(e.remove) ==> e.remove
    }

    method Operation(ghost was: set<Event>, ghost since: nat)
      requires Valid() && Still(was, since) && (forall e :: e in was ==> e in registry)
      modifies this, time, fd, always, soft, registry
      ensures Valid() && Extends() && old(trace) <= trace && Still(was, since) && (old(endLoop) ==> endLoop)
      ensures AllGrown(old(time.nodes), old(fd.nodes), old(always.nodes)) && Grown(old(soft.nodes), soft.nodes)
      ensures Ordinary(trace[|old(trace)|..], old(registry)) && FlagsStay()
    {
      hide Lists, Flags, Still, Stepped, Mentions, Grown, Ordinary;
      MentionsKnown();
      ghost var item := Change();
      NoCallMentions(item, old(registry));
      StillStep(was, since, [item]);
      OrdinaryOne(old(trace), item, old(registry));
    }

    /** One operation. */
    method Change() returns (ghost item: Item)
      requires Valid()
      modifies this, time, fd, always, soft, registry
      ensures Valid() && Extends() && trace == old(trace) + [item] && Stepped([item]) && FlagsStay()
      ensures AllGrown(old(time.nodes), old(fd.nodes), old(always.nodes)) && Grown(old(soft.nodes), soft.nodes)
      ensures !item.PassStart? && !item.Invoked? && (item.Added? ==> item.e !in old(registry))
      ensures old(endLoop) || item == Ended ==> endLoop
    {
      hide Lists, ListsIn, Flags, Stepped, FlagsStepped, Listed, Quiet, New, Safe, Grown, HappenedIn;
      GrownSame(time.nodes);
      GrownSame(fd.nodes);
      GrownSame(always.nodes);
      GrownSame(soft.nodes);
      var op: int := *;
      var pick: int := *;
      var kind: Kind := *;
      var oneshot: bool := *;
      if 2 <= op <= 4 && 0 <= pick < |registry| {
        var e := registry[pick];
        if op == 2 {
          RemoveEvent(e);
          return Removed(e);
        } else if op == 3 || e.kind != Time {
          SetEventEnabled(e, oneshot);
          return if oneshot then Enabled(e) else Disabled(e);
        } else {
          ReschedEvent(e);
          return Rescheduled(e);
        }
      } else if op == 0 {
        var e := AddEvent(kind, oneshot);
        return Added(e);
      } else {
        ExitEventLoop();
        return Ended;
      }
    }

    lemma NoCallMentions(x: Item, known: seq<Event>)
      requires !x.Invoked?
      ensures Mentions([x], known)
    {
    }

    lemma MentionsKnown()
      requires Flags()
      ensures Mentions(trace, registry)
    {
    }

    /** exit_event_loop */
    method ExitEventLoop()
      requires Valid()
      modifies this`endLoop, this`trace
      ensures Valid() && endLoop && trace == old(trace) + [Ended]
      ensures Stepped([Ended])
    {
      hide Lists, Quiet, New, Safe;
      endLoop := true;
      Record(Ended);
    }

    // ---- One pass of the loop ---------------------------------------------------

    /** Where a loop over a list stands: rest is what it has still to visit. */
    ghost predicate At(list: EventList, e: Event?, rest: seq<Event>)
      reads list`nodes
    {
      Grown(rest, list.nodes) && e == if rest == [] then null else rest[0]
    }

    lemma AtStart(list: EventList)
      requires Lists() && list in {time, fd, always, soft}
      ensures At(list, list.head, list.nodes) && forall e :: e in list.nodes ==> e in registry
    {
    }

    lemma AtNext(list: EventList, e: Event, rest: seq<Event>)
      requires Lists() && list in {time, fd, always, soft} && At(list, e, rest)
      ensures e in registry && rest != [] && rest[0] == e && At(list, e.next, rest[1..]) && Grown(rest, list.nodes)
      ensures list.nodes[|list.nodes| - |rest|] == e
    {
      var k := |list.nodes| - |rest|;
      assert list.nodes[k..][0] == list.nodes[k] == e;
      assert list.nodes[k].next == if k + 1 < |list.nodes| then list.nodes[k+1] else null;
      assert list.nodes[k+1..] == rest[1..];
    }

    /** The loops at the head of a pass: what is enabled now is due to run. */
    method MarkRunning(list: EventList)
      requires Valid() && list in {time, fd, always}
      requires forall e :: e in registry ==> !New(trace, e)
      modifies registry`running
      ensures Valid() && Marked(list.nodes)
      ensures forall e :: e in registry ==> e.running == old(e.running) || e.running == e.enabled
    {
      hide Lists, Flags, New, At;
      ghost var rest, n := list.nodes, 0;
      AtStart(list);
      var e := list.head;
      while e != null
        invariant Valid() && At(list, e, rest) && n >= 0 && |rest| + n == |list.nodes|
        invariant forall i :: 0 <= i < n ==> list.nodes[i].running == list.nodes[i].enabled
        invariant forall e :: e in registry ==> e.running == old(e.running) || e.running == e.enabled
        decreases |rest|
      {
        AtNext(list, e, rest);
        Mark(e);
        e, rest, n := e.next, rest[1..], n + 1;
      }
      AtEnd(list, rest);
    }

    /** The three loops at the head of a pass. */
    method MarkAll()
      requires Valid() && forall e :: e in registry ==> !New(trace, e)
      modifies registry`running
      ensures Valid() && Marked(time.nodes) && Marked(always.nodes) && Marked(fd.nodes)
    {
      hide Flags, New, Linked;
      MarkRunning(time);
      MarkRunning(always);
      MarkRunning(fd);
    }

    /** Due to run are just the enabled ones. */
    ghost predicate Marked(nodes: seq<Event>)
      reads nodes`running, nodes`enabled
    {
      forall i :: 0 <= i < |nodes| ==> nodes[i].running == nodes[i].enabled
    }

    method Mark(e: Event)
      requires Valid() && e in registry && !New(trace, e)
      modifies e`running
      ensures Valid() && e.running == e.enabled
    {
      hide Lists, Quiet, New, Safe;
      e.running := e.enabled;
    }

    /** A dispatch loop of a pass, for the events that the clock or select made
        due. Unless the loop is ended, each event of the list that is due, and
        was to run when the trace had since items, has been called by then or
        removed. */
    method Dispatch(list: EventList, due: set<Event>, ghost was: set<Event>, ghost since: nat)
      requires Valid() && list in {time, fd, always}
      requires Still(was, since) && (forall e :: e in was ==> e in registry)
      modifies this, time, fd, always, soft, registry
      ensures Valid() && Extends() && old(trace) <= trace && Still(was, since) && (old(endLoop) ==> endLoop)
      ensures AllGrown(old(time.nodes), old(fd.nodes), old(always.nodes))
      ensures !endLoop ==> forall e :: e in old(list.nodes) && e in was && (e in due || list.kind == Always) ==>
                Happened(Invoked(e), since) || Happened(Removed(e), since)
      ensures CallsDue(trace, |old(trace)|, was, due, list.kind == Always, old(list.nodes))
    {
      hide Lists, Flags, At, Still, Served, HappenedIn, Grown, Calling, OneCall, CallsDue;
      ghost var t0, f0, a0 := time.nodes, fd.nodes, always.nodes;
      GrownSame(t0);
      GrownSame(f0);
      GrownSame(a0);
      ghost var nodes, rest, any := list.nodes, list.nodes, list.kind == Always;
      AtStart(list);
      Distinct(list);
      ServedStart(trace, was, since, due, any, nodes);
      CallingStart(trace, was, due, any, nodes);
      var e := list.head;
      while e != null
        invariant Valid() && Extends() && old(trace) <= trace && At(list, e, rest) && (old(endLoop) ==> endLoop)
        invariant AllGrown(t0, f0, a0)
        invariant Still(was, since) && (forall x :: x in was ==> x in registry)
        invariant Served(trace, was, since, due, any, nodes, rest)
        invariant Calling(trace, |old(trace)|, was, due, any, nodes, rest)
        decreases |rest|
      {
        AtNext(list, e, rest);
        CallingEnd(trace, |old(trace)|, was, due, any, nodes, rest);
        if e.running && endLoop { return; }
        ghost var t, t1, f1, a1 := trace, time.nodes, fd.nodes, always.nodes;
        Visit(list, e, due, rest, was, since);
        GrownThen(t0, t1, time.nodes);
        GrownThen(f0, f1, fd.nodes);
        GrownThen(a0, a1, always.nodes);
        ServedNext(t, trace, was, since, due, any, nodes, rest);
        CallingNext(t, trace, |old(trace)|, was, due, any, nodes, rest);
        e, rest := e.next, rest[1..];
      }
      AtEnd(list, rest);
      ServedEnd(trace, was, since, due, any, nodes);
      CallingEnd(trace, |old(trace)|, was, due, any, nodes, rest);
    }

    lemma Distinct(list: EventList)
      requires Lists() && list in {time, fd, always}
      ensures forall i, j :: 0 <= i < j < |list.nodes| ==> list.nodes[i] != list.nodes[j]
    {
    }

    /** The three dispatch loops. */
    method DispatchAll(expired: set<Event>, selected: bool, ready: set<Event>, ghost was: set<Event>, ghost since: nat)
      requires Valid() && Still(was, since) && (forall e :: e in was ==> e in registry)
      modifies this, time, fd, always, soft, registry
      ensures Valid() && Extends() && old(trace) <= trace && since <= |trace|
      ensures !endLoop ==>
        forall e | e in was && Due(e, old(time.nodes), expired, old(always.nodes), selected, old(fd.nodes), ready) ::
          Happened(Invoked(e), since) || Happened(Removed(e), since)
      ensures OnlyDue(trace, |old(trace)|, was, expired, selected, ready, {Time, Always, Fd})
      ensures Still(was, since) && AllGrown(old(time.nodes), old(fd.nodes), old(always.nodes))
    {
      hide Lists, Flags, Still, HappenedIn, OnlyDue, CallsDue, Grown;
      ghost var start := |trace|;
      NothingDue(trace, was, expired, selected, ready);
      Kinds();
      ghost var n, a, f := time.nodes, always.nodes, fd.nodes;
      Dispatch(time, expired, was, since);
      ghost var t, t1, f1, a1 := trace, time.nodes, fd.nodes, always.nodes;
      OnlyDueMore(old(trace), t, start, was, expired, selected, ready, {}, Time, expired, n);
      Kinds();
      GrownHas(a, always.nodes);
      n := always.nodes;
      Dispatch(always, {}, was, since);
      ghost var t' := trace;
      AllGrownThen(old(time.nodes), old(fd.nodes), old(always.nodes), t1, f1, a1);
      ghost var t2, f2, a2 := time.nodes, fd.nodes, always.nodes;
      OnlyDueMore(t, t', start, was, expired, selected, ready, {} + {Time}, Always, {}, n);
      Kinds();
      GrownHas(f, fd.nodes);
      n := fd.nodes;
      if selected {
        Dispatch(fd, ready, was, since);
        AllGrownThen(old(time.nodes), old(fd.nodes), old(always.nodes), t2, f2, a2);
      } else {
        NoneDue(t', was, n);
      }
      OnlyDueMore(t', trace, start, was, expired, selected, ready, {} + {Time} + {Always}, Fd,
                  if selected then ready else {}, n);
      assert {} + {Time} + {Always} + {Fd} == {Time, Always, Fd};
      StillSince(was, since);
      forall e: Event
        ensures HappenedIn(t, Invoked(e), since) || HappenedIn(t', Invoked(e), since) ==> Happened(Invoked(e), since)
        ensures HappenedIn(t, Removed(e), since) || HappenedIn(t', Removed(e), since) ==> Happened(Removed(e), since)
      {
        HappenedLater(t, trace, Invoked(e), since);
        HappenedLater(t, trace, Removed(e), since);
        HappenedLater(t', trace, Invoked(e), since);
        HappenedLater(t', trace, Removed(e), since);
      }
    }

    lemma AllGrownThen(t: seq<Event>, f: seq<Event>, a: seq<Event>, t': seq<Event>, f': seq<Event>, a': seq<Event>)
      requires Grown(t, t') && Grown(f, f') && Grown(a, a') && AllGrown(t', f', a')
      ensures AllGrown(t, f, a)
    {
      GrownThen(t, t', time.nodes);
      GrownThen(f, f', fd.nodes);
      GrownThen(a, a', always.nodes);
    }

    lemma Kinds()
      requires Lists()
      ensures time.kind == Time && fd.kind == Fd && always.kind == Always
      ensures (forall e :: e in time.nodes ==> e.kind == Time) && (forall e :: e in fd.nodes ==> e.kind == Fd)
      ensures forall e :: e in always.nodes ==> e.kind == Always
    {
    }

    lemma StillSince(was: set<Event>, since: nat)
      requires Still(was, since)
      ensures since <= |trace|
    {
    }

    method Visit(list: EventList, e: Event, due: set<Event>, ghost rest: seq<Event>,
                 ghost was: set<Event>, ghost since: nat)
      requires Valid() && list in {time, fd, always} && At(list, e, rest) && (e.running ==> !endLoop)
      requires Still(was, since) && (forall x :: x in was ==> x in registry)
      modifies this, time, fd, always, soft, registry
      ensures Valid() && Extends() && old(trace) <= trace && Still(was, since) && (old(endLoop) ==> endLoop)
      ensures AllGrown(old(time.nodes), old(fd.nodes), old(always.nodes))
      ensures rest != [] && At(list, e.next, rest[1..])
      ensures e in was && (e in due || list.kind == Always) ==>
                HappenedIn(trace, Invoked(e), since) || HappenedIn(trace, Removed(e), since)
      ensures OneCall(trace, |old(trace)|, e, e in was && (e in due || list.kind == Always))
    {
      hide Lists, Flags, At, Still, HappenedIn, Grown;
      AtNext(list, e, rest);
      StillOf(e, was, since);
      assert Listed(e);
      ghost var t, now := trace, list.nodes;
      if e.running && (e in due || list.kind == Always) {
        Fire(e, was, since);
        HappenedNow(t, Invoked(e), trace, since);
        CalledOnce(t, trace, e);
        AtStill(list, e, rest, now);
        AtNext(list, e, rest);
      } else {
        GrownSame(time.nodes);
        GrownSame(fd.nodes);
        GrownSame(always.nodes);
      }
    }

    lemma StillStart(was: set<Event>, since: nat)
      requires since <= |trace| && NoCalls(trace, since) && !HappenedIn(trace, Ended, since)
      requires forall e :: e in was <==> e in registry && e.running && Listed(e)
      ensures Still(was, since)
    {
    }

    lemma StillOf(e: Event, was: set<Event>, since: nat)
      requires Still(was, since) && e in registry
      ensures since <= |trace|
      ensures e in was ==> e.running || HappenedIn(trace, Removed(e), since)
      ensures e.running && Listed(e) ==> e in was
    {
      var i :| 0 <= i < |registry| && registry[i] == e;
      assert StillOne(registry[i], was, since);
    }

    lemma AtEnd(list: EventList, rest: seq<Event>)
      requires At(list, null, rest)
      ensures rest == []
    {
    }

    lemma AtStill(list: EventList, e: Event?, rest: seq<Event>, was: seq<Event>)
      requires Grown(rest, was) && Grown(was, list.nodes) && e == if rest == [] then null else rest[0]
      ensures At(list, e, rest)
    {
      var now := list.nodes;
      assert now[|now| - |rest|..] == now[|now| - |was|..][|was| - |rest|..];
    }

    /** The flag changes just before a callback: a one-shot event is flagged for
        removal, any other timer is rescheduled. */
    method Arm(e: Event)
      modifies e`remove, e`enabled
      ensures e.remove == if e.oneshot then true else e.kind != Time && old(e.remove)
      ensures e.enabled == (old(e.enabled) || (!e.oneshot && e.kind == Time))
    {
      if e.kind == Time {
        if !e.oneshot { e.remove, e.enabled := false, true; } else { e.remove := true; }
      } else if e.oneshot {
        e.remove := true;
      }
    }

    // ---- Soft-queue listeners ---------------------------------------------------

    /** sq_run behind the read, for the queue whose listeners are on soft: they
        are called from the front with no look at their flags, until the end
        of the list or of the loop, and then the flagged ones are stripped. The
        trace gets what the callbacks do to events, turns also the calls. Seen
        from outside, the dispatch is safe if and only if no listener that is
        reached is wronged. */
    method SqRun(ghost was: set<Event>, ghost since: nat) returns (ghost turns: seq<Turn>, ghost list: seq<Event>)
      requires Valid() && Still(was, since) && (forall e :: e in was ==> e in registry)
      modifies this, time, fd, always, soft, registry
      ensures Valid() && Extends() && old(trace) <= trace && Still(was, since) && (old(endLoop) ==> endLoop)
      ensures AllGrown(old(time.nodes), old(fd.nodes), old(always.nodes))
      ensures trace == old(trace) + Done(turns) && Called(turns, old(soft.nodes))
      ensures InTurn(turns, old(soft.nodes), old(endLoop), endLoop)
      ensures |turns| < |old(soft.nodes)| ==> endLoop
      ensures Grown(old(soft.nodes), list) && soft.nodes == Unflagged(list)
      ensures forall i :: 0 <= i < |turns| && turns[i].e.oneshot ==> turns[i].e !in soft.nodes
      ensures Safe(old(trace) + Calls(turns)) <==> forall i :: 0 <= i < |turns| ==> !Wronged(old(trace), turns, i)
    {
      hide Lists, Flags, Still, Grown, Unflagged, InTurn, Done, Safe, Wronged, Calls, Called;
      ghost var nodes, start := soft.nodes, trace;
      ValidSafe();
      turns := SqDispatch(was, since);
      SoftDispatchSafeIff(start, turns, nodes);
      list := soft.nodes;
      StripList(soft);
      UnflaggedMeans(list);
    }

    /** The loop in sq_run. */
    method SqDispatch(ghost was: set<Event>, ghost since: nat) returns (ghost turns: seq<Turn>)
      requires Valid() && Still(was, since) && (forall e :: e in was ==> e in registry)
      modifies this, time, fd, always, soft, registry
      ensures Valid() && Extends() && old(trace) <= trace && Still(was, since) && (old(endLoop) ==> endLoop)
      ensures AllGrown(old(time.nodes), old(fd.nodes), old(always.nodes)) && Grown(old(soft.nodes), soft.nodes)
      ensures trace == old(trace) + Done(turns) && Called(turns, old(soft.nodes))
      ensures InTurn(turns, old(soft.nodes), old(endLoop), endLoop)
      ensures |turns| < |old(soft.nodes)| ==> endLoop
      ensures forall i :: 0 <= i < |turns| && turns[i].e.oneshot ==> turns[i].e.remove
    {
      hide Lists, Flags, Still, Ordinary, Grown, InTurn, Done, At, Called, SqAt;
      ghost var t0, f0, a0 := time.nodes, fd.nodes, always.nodes;
      GrownSame(t0);
      GrownSame(f0);
      GrownSame(a0);
      ghost var nodes, rest, start := soft.nodes, soft.nodes, trace;
      turns := [];
      SqStart(nodes);
      var e := soft.head;
      while e != null
        invariant Valid() && Extends() && old(trace) <= trace && Still(was, since) && (old(endLoop) ==> endLoop)
        invariant AllGrown(t0, f0, a0) && SqAt(turns, nodes, rest, e, old(endLoop))
        invariant trace == start + Done(turns)
        invariant forall i :: 0 <= i < |turns| ==> turns[i].e in nodes && (turns[i].e.oneshot ==> turns[i].e.remove)
        decreases |rest|
      {
        SqNow(turns, nodes, rest, e, old(endLoop));
        if endLoop { return; }
        ghost var t1, f1, a1, s1 := time.nodes, fd.nodes, always.nodes, soft.nodes;
        ghost var turn := SqTurn(e, nodes, was, since);
        GrownThen(t0, t1, time.nodes);
        GrownThen(f0, f1, fd.nodes);
        GrownThen(a0, a1, always.nodes);
        SqNext(turns, nodes, rest, e, old(endLoop), s1, turn);
        turns := turns + [turn];
        e, rest := e.next, rest[1..];
      }
      SqEnd(turns, nodes, rest, old(endLoop));
    }

    /** Where the loop in sq_run stands. */
    ghost predicate SqAt(turns: seq<Turn>, nodes: seq<Event>, rest: seq<Event>, e: Event?, before: bool)
      reads soft`nodes, `endLoop
    {
      && At(soft, e, rest) && |turns| + |rest| == |nodes| && rest == nodes[|turns|..] && Grown(nodes, soft.nodes)
      && InTurn(turns, nodes, before, endLoop) && Called(turns, nodes)
    }

    lemma SqStart(nodes: seq<Event>)
      requires Lists() && nodes == soft.nodes
      ensures SqAt([], nodes, nodes, soft.head, endLoop) && Done([]) == []
      ensures forall e :: e in nodes ==> e in registry && e.kind == Soft
    {
      AtStart(soft);
    }

    lemma SqNow(turns: seq<Turn>, nodes: seq<Event>, rest: seq<Event>, e: Event, before: bool)
      requires Lists() && SqAt(turns, nodes, rest, e, before)
      ensures e in nodes && rest != [] && rest[0] == e && |turns| < |nodes| && nodes[|turns|] == e
      ensures Grown(nodes, soft.nodes) && InTurn(turns, nodes, before, endLoop) && Called(turns, nodes)
      ensures Grown(rest, soft.nodes) && rest == nodes[|turns|..]
    {
      hide InTurn, Called, Linked;
      AtNext(soft, e, rest);
    }

    lemma SqNext(turns: seq<Turn>, nodes: seq<Event>, rest: seq<Event>, e: Event, before: bool, s1: seq<Event>,
                 turn: Turn)
      requires Lists() && InTurn(turns, nodes, before, false) && Called(turns, nodes)
      requires Grown(nodes, s1) && Grown(rest, s1) && Grown(s1, soft.nodes)
      requires |turns| < |nodes| && rest == nodes[|turns|..] && rest[0] == e == turn.e
      requires Ordinary(turn.ops, nodes) && turn.ended == endLoop
      ensures SqAt(turns + [turn], nodes, rest[1..], e.next, before)
      ensures Done(turns + [turn]) == Done(turns) + turn.ops
    {
      hide InTurn, Linked, Ordinary, Done;
      AtStill(soft, e, rest, s1);
      AtNext(soft, e, rest);
      GrownThen(nodes, s1, soft.nodes);
      InTurnNext(turns, nodes, before, turn);
      DoneNext(turns, turn);
    }

    lemma SqEnd(turns: seq<Turn>, nodes: seq<Event>, rest: seq<Event>, before: bool)
      requires SqAt(turns, nodes, rest, null, before)
      ensures |turns| == |nodes| && Grown(nodes, soft.nodes) && InTurn(turns, nodes, before, endLoop)
      ensures Called(turns, nodes)
    {
      AtEnd(soft, rest);
    }

    lemma ValidSafe()
      requires Flags()
      ensures Safe(trace)
    {
    }

    /** One turn of the loop in sq_run. */
    method SqTurn(e: Event, ghost nodes: seq<Event>, ghost was: set<Event>, ghost since: nat)
      returns (ghost turn: Turn)
      requires Valid() && Still(was, since) && (forall e :: e in was ==> e in registry)
      requires e in nodes && forall e :: e in nodes ==> e in registry && e.kind == Soft
      modifies this, time, fd, always, soft, registry
      ensures Valid() && Extends() && Still(was, since) && (old(endLoop) ==> endLoop)
      ensures AllGrown(old(time.nodes), old(fd.nodes), old(always.nodes)) && Grown(old(soft.nodes), soft.nodes)
      ensures turn.e == e && turn.ended == endLoop && trace == old(trace) + turn.ops
      ensures Ordinary(turn.ops, nodes) && (e.oneshot ==> e.remove) && FlagsStay()
    {
      hide Lists, Flags, Still, Ordinary, Grown;
      ghost var known := registry;
      FlagOnly(e, was, since);
      ghost var t := trace;
      Callback(was, since);
      turn := Turn(e, trace[|t|..], endLoop);
      OrdinaryOf(turn.ops, known, nodes);
    }

    /** The flag of a one-shot listener, which is on none of the loop's lists. */
    method FlagOnly(e: Event, ghost was: set<Event>, ghost since: nat)
      requires Valid() && Still(was, since) && e in registry
      modifies e`remove
      ensures Valid() && Still(was, since) && e.remove == (old(e.remove) || e.oneshot)
    {
      hide Lists, Quiet, New, Safe, HappenedIn, EndsCalls;
      if e.oneshot { e.remove := true; }
      forall i | 0 <= i < |registry| ensures StillOne(registry[i], was, since) {
        assert old(StillOne(registry[i], was, since));
      }
    }

    /** Calling e's callback, with the flag changes just before it. It is the
        first thing that happens, and nothing else is called. */
    method Fire(e: Event, ghost was: set<Event>, ghost since: nat)
      requires Valid() && e in registry && e.running && !endLoop
      requires Still(was, since) && (forall e :: e in was ==> e in registry)
      modifies this, time, fd, always, soft, registry
      ensures Valid() && Extends() && old(trace) + [Invoked(e)] <= trace && NoCalls(trace, |old(trace)| + 1)
      ensures Still(was, since) && (old(endLoop) ==> endLoop)
      ensures AllGrown(old(time.nodes), old(fd.nodes), old(always.nodes))
    {
      hide Lists, Flags, Grown, Still;
      Begin(e, was, since);
      ghost var t := trace;
      // The callback of a descriptor event may be sq_run.
      var queue: bool := *;
      if queue && e.kind == Fd {
        ghost var nodes := soft.nodes;
        ghost var turns, list := SqRun(was, since);
        TurnsNoCalls(t, trace, turns, nodes);
      } else {
        ghost var known := registry;
        Callback(was, since);
        OrdinaryNoCalls(t, trace, known);
      }
    }

    /** What the loop does just before the call. */
    method Begin(e: Event, ghost was: set<Event>, ghost since: nat)
      requires Valid() && e in registry && e.running && !endLoop
      requires Still(was, since) && (forall e :: e in was ==> e in registry)
      modifies e`remove, e`enabled, this`trace
      ensures Valid() && trace == old(trace) + [Invoked(e)] && Still(was, since)
    {
      hide Lists, Quiet, New, Safe, HappenedIn, Still, Mentions, Stepped;
      MentionsKnown();
      Arm(e);
      Record(Invoked(e));
      Mentioned(e, registry);
      ArmStepped(e);
      StillStep(was, since, [Invoked(e)]);
    }

    lemma Mentioned(e: Event, known: seq<Event>)
      requires e in known
      ensures Mentions([Invoked(e)], known)
    {
    }

    twostate lemma ArmStepped(e: Event)
      requires registry == old(registry) && time.nodes == old(time.nodes)
      requires fd.nodes == old(fd.nodes) && always.nodes == old(always.nodes)
      requires forall x :: x in registry ==>
        x.running == old(x.running) && (x != e ==> x.remove == old(x.remove) && x.enabled == old(x.enabled))
      requires e.remove == if e.oneshot then true else e.kind != Time && old(e.remove)
      requires e.enabled == (old(e.enabled) || (!e.oneshot && e.kind == Time))
      ensures Stepped([Invoked(e)])
    {
    }

    /** One pass of event_loop: the clock decides which timers are due, select
        which descriptors are, and whether there are any. Called is what was
        enabled when the pass began and is due, each event once, timers first and
        descriptors last, and nothing once the loop has been ended. Unless it is ended, all of these are
        called, or else removed before their turn. In the end the lists have
        grown to t, f and a and been stripped: a one-shot event that was called
        is gone unless it was rescheduled afterwards, and any other timer is
        there and enabled unless it was removed or disabled afterwards. */
    method Pass(expired: set<Event>, selected: bool, ready: set<Event>)
      returns (ghost t: seq<Event>, ghost f: seq<Event>, ghost a: seq<Event>)
      requires Valid()
      modifies this, time, fd, always, soft, registry
      ensures Valid() && Extends() && old(trace) + [PassStart] <= trace
      ensures !endLoop ==>
        forall e | e in old(registry) && old(e.enabled) && Due(e, old(time.nodes), expired, old(always.nodes),
          selected, old(fd.nodes), ready) ::
          Happened(Invoked(e), |old(trace)|) || Happened(Removed(e), |old(trace)|)
      ensures forall k, e :: |old(trace)| <= k < |trace| && trace[k] == Invoked(e) ==>
        e in old(registry) && old(e.enabled)
        && Due(e, old(time.nodes), expired, old(always.nodes), selected, old(fd.nodes), ready)
      ensures InOrder(trace, |old(trace)|) && EndsCalls(trace, |old(trace)|)
      ensures Grown(old(time.nodes), t) && Grown(old(fd.nodes), f) && Grown(old(always.nodes), a)
      ensures time.nodes == Unflagged(t) && fd.nodes == Unflagged(f) && always.nodes == Unflagged(a)
      ensures forall k, e :: |old(trace)| <= k < |trace| && trace[k] == Invoked(e) ==>
        ArmedAfter(trace, k, e, !Listed(e), e.enabled)
    {
      hide Lists, Flags, HappenedIn, Due, DueByKind, Still, Unflagged, OnlyDue, Listed, ArmedAfter, Grown, InOrder,
           EndsCalls;
      ghost var since := |old(trace)|;
      ghost var was := BeginPass(expired, selected, ready);
      DispatchAll(expired, selected, ready, was, since);
      StillMeans(was, since);
      t, f, a := time.nodes, fd.nodes, always.nodes;
      StripAll();
      PassCalls(old(trace), trace, was, expired, selected, ready);
      UnflaggedMeans(t);
      UnflaggedMeans(f);
      UnflaggedMeans(a);
      ListedStill(old(time.nodes), old(fd.nodes), old(always.nodes), t, f, a);
    }

    /** The head of a pass: what is enabled is to run. */
    method BeginPass(expired: set<Event>, selected: bool, ready: set<Event>) returns (ghost was: set<Event>)
      requires Valid()
      modifies this`trace, registry`running
      ensures Valid() && trace == old(trace) + [PassStart] && Still(was, |old(trace)|)
      ensures forall e | e in registry && e.enabled &&
                         Due(e, time.nodes, expired, always.nodes, selected, fd.nodes, ready) :: e in was
      ensures forall e :: e in was ==>
        e in registry && e.enabled && (e in time.nodes || e in fd.nodes || e in always.nodes)
      ensures forall e :: e in was && DueByKind(e, expired, selected, ready) ==>
                Due(e, time.nodes, expired, always.nodes, selected, fd.nodes, ready)
    {
      hide Lists, Flags, New, HappenedIn, Marked, Due, DueByKind, Still, Linked, Listed;
      StartPass();
      Started(old(trace), trace);
      MarkAll();
      was := set e | e in registry && e.running && Listed(e);
      StillStart(was, |old(trace)|);
      DueMarked(was, expired, selected, ready);
    }

    lemma StillMeans(was: set<Event>, since: nat)
      requires Still(was, since)
      ensures EndsCalls(trace, since)
      ensures forall k, e :: since <= k < |trace| && trace[k] == Invoked(e) && e in registry ==>
                ArmedAfter(trace, k, e, e.remove, e.enabled)
    {
      hide ArmedAfter, EndsCalls;
      forall k, e | since <= k < |trace| && trace[k] == Invoked(e) && e in registry
        ensures ArmedAfter(trace, k, e, e.remove, e.enabled)
      {
        var i :| 0 <= i < |registry| && registry[i] == e;
        assert StillOne(registry[i], was, since);
      }
    }

    /** An event that was on a list is there still if and only if it is not
        flagged. */
    lemma ListedStill(t0: seq<Event>, f0: seq<Event>, a0: seq<Event>, t: seq<Event>, f: seq<Event>, a: seq<Event>)
      requires Grown(t0, t) && Grown(f0, f) && Grown(a0, a)
      requires forall e :: e in time.nodes <==> e in t && !e.remove
      requires forall e :: e in fd.nodes <==> e in f && !e.remove
      requires forall e :: e in always.nodes <==> e in a && !e.remove
      ensures forall e :: e in t0 || e in f0 || e in a0 ==> Listed(e) == !e.remove
    {
      GrownHas(t0, t);
      GrownHas(f0, f);
      GrownHas(a0, a);
    }

    /** What was marked is what is enabled; none of it was missed, and no other
        event is due. */
    lemma DueMarked(was: set<Event>, expired: set<Event>, selected: bool, ready: set<Event>)
      requires Lists() && Marked(time.nodes) && Marked(always.nodes) && Marked(fd.nodes)
      requires forall e :: e in was <==> e in registry && e.running && Listed(e)
      ensures forall e | e in registry && e.enabled &&
                         Due(e, time.nodes, expired, always.nodes, selected, fd.nodes, ready) :: e in was
      ensures forall e :: e in was ==>
        e in registry && e.enabled && (e in time.nodes || e in fd.nodes || e in always.nodes)
      ensures forall e :: e in was && DueByKind(e, expired, selected, ready) ==>
                Due(e, time.nodes, expired, always.nodes, selected, fd.nodes, ready)
    {
      hide Linked;
    }

    ghost predicate Due(e: Event, t: seq<Event>, expired: set<Event>, a: seq<Event>, selected: bool, f: seq<Event>,
                        ready: set<Event>) {
      (e in t && e in expired) || e in a || (selected && e in f && e in ready)
    }

    ghost method StartPass()
      requires Valid()
      modifies this`trace
      ensures Valid() && trace == old(trace) + [PassStart]
      ensures forall e :: e in registry ==> !New(trace, e)
    {
      hide Lists, Safe;
      Record(PassStart);
    }

    method StripAll()
      requires Valid()
      modifies time, fd, always, registry`next, registry`prev
      ensures Valid()
      ensures time.nodes == old(Unflagged(time.nodes)) && fd.nodes == old(Unflagged(fd.nodes))
      ensures always.nodes == old(Unflagged(always.nodes))
    {
      hide Lists, Unflagged;
      StripList(time);
      StripList(fd);
      StripList(always);
    }

    lemma OthersApart(list: EventList)
      requires Lists() && list in {time, fd, always, soft}
      ensures forall o: EventList, e :: o in {time, fd, always, soft} && o != list && e in o.nodes ==> e !in list.nodes
    {
    }

    /** Stripping one list leaves the other two alone: their events differ in kind. */
    method StripList(list: EventList)
      requires Valid() && list in {time, fd, always, soft}
      modifies list, registry`next, registry`prev
      ensures Valid() && list.nodes == old(Unflagged(list.nodes))
    {
      hide Linked, Flags, Unflagged;
      UnflaggedWithin(list.nodes);
      OthersApart(list);
      list.Strip();
    }

    /** event_loop, observed for at most the given number of passes. It makes a
        single pass or goes on until it is ended. However often it runs and
        whatever the callbacks do, the run stays safe. */
    method Run(single: bool, passes: nat) returns (ghost made: nat)
      requires Valid()
      modifies this, time, fd, always, soft, registry
      ensures Valid() && Safe(trace) && old(trace) <= trace
      ensures made <= passes && (passes > 0 ==> made > 0) && (single ==> made <= 1)
      ensures made < passes ==> endLoop || single
    {
      hide Lists, HappenedIn, Due, InOrder, ArmedAfter, Grown, Unflagged, EndsCalls, Listed;
      endLoop, made := false, 0;
      var n := passes;
      while n > 0
        invariant Valid() && old(trace) <= trace
        invariant Extends()
        invariant made + n == passes && (single ==> made == 0)
      {
        n := n - 1;
        made := made + 1;
        var expired: set<Event> := *;
        var selected: bool := *;
        var ready: set<Event> := *;
        ghost var t, f, a := Pass(expired, selected, ready);
        if endLoop || single { break; }
      }
    }
  }

  /** What the flags have to be before x is recorded. */
  ghost predicate SoundAfter(t: seq<Item>, x: Item, e: Event)
    reads e`enabled, e`running
  {
    && (x == Removed(e) || (Quiet(t, e) && x != Enabled(e) && x != Rescheduled(e)) ==> !e.running && !e.enabled)
    && (x == Added(e) || (New(t, e) && x != PassStart) ==> !e.running)
  }

  /** A list only grows at its front. */
  ghost predicate Grown(before: seq<Event>, now: seq<Event>) {
    |before| <= |now| && now[|now| - |before|..] == before
  }
}
