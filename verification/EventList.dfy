// Events and the doubly linked lists the event loop keeps them on
// (spook/event.c).
module EventList {

  datatype Kind = Time | Fd | Always | Soft

  class Event {
    const kind: Kind
    const oneshot: bool   // one of e->flags
    var next: Event?
    var prev: Event?
    // the rest of e->flags
    var enabled: bool
    var remove: bool
    var running: bool

    /** new_event, with the flags its callers then set. */
    constructor (kind: Kind, oneshot: bool, enabled: bool)
      ensures this.kind == kind && next == null && prev == null
      ensures this.enabled == enabled && !remove && this.oneshot == oneshot && !running
    {
      this.kind, this.oneshot := kind, oneshot;
      next, prev := null, null;
      this.enabled, remove, running := enabled, false, false;
    }
  }

  /** The events of nodes, in this order, are the list that starts at head. */
  ghost predicate Linked(head: Event?, nodes: seq<Event>)
    reads nodes`next, nodes`prev
  {
    && head == (if nodes == [] then null else nodes[0])
    && (forall i, j :: 0 <= i < j < |nodes| ==> nodes[i] != nodes[j])
    && (forall i {:trigger nodes[i].next} :: 0 <= i < |nodes| ==>
          nodes[i].next == if i + 1 < |nodes| then nodes[i+1] else null)
    && (forall i {:trigger nodes[i].prev} :: 0 <= i < |nodes| ==>
          nodes[i].prev == if i > 0 then nodes[i-1] else null)
  }

  /** The events not flagged for removal, in order. */
  ghost function Unflagged(nodes: seq<Event>): (kept: seq<Event>)
    reads nodes`remove
  {
    if nodes == [] then []
    else
      var last := nodes[|nodes| - 1];
      Unflagged(nodes[..|nodes| - 1]) + if last.remove then [] else [last]
  }

  lemma UnflaggedNext(nodes: seq<Event>, i: nat)
    requires i < |nodes|
    ensures Unflagged(nodes[..i+1]) == Unflagged(nodes[..i]) + if nodes[i].remove then [] else [nodes[i]]
  {
    assert nodes[..i+1][..i] == nodes[..i];
  }

  lemma {:induction false} UnflaggedWithin(nodes: seq<Event>)
    ensures forall i :: 0 <= i < |Unflagged(nodes)| ==> Unflagged(nodes)[i] in nodes
  {
    if nodes != [] { UnflaggedWithin(nodes[..|nodes| - 1]); }
  }

  lemma {:induction false} UnflaggedMeans(nodes: seq<Event>)
    ensures forall e :: e in Unflagged(nodes) <==> e in nodes && !e.remove
  {
    if nodes != [] { UnflaggedMeans(nodes[..|nodes| - 1]); }
  }

  class EventList {
    const kind: Kind
    var head: Event?
    ghost var nodes: seq<Event>

    ghost predicate Valid()
      reads this, nodes`next, nodes`prev
    {
      Linked(head, nodes) && forall i :: 0 <= i < |nodes| ==> nodes[i].kind == kind
    }

    constructor (kind: Kind)
      ensures Valid() && nodes == [] && this.kind == kind
    {
      this.kind := kind;
      head, nodes := null, [];
    }

    /** The list part of add_timer_event, add_fd_event and add_always_event. */
    method Prepend(e: Event)
      requires Valid() && e.kind == kind && e !in nodes && e.prev == null
      modifies this, e`next, nodes`prev
      ensures Valid() && nodes == [e] + old(nodes)
    {
      e.next := head;
      if e.next != null { e.next.prev := e; }
      head := e;
      nodes := [e] + nodes;
    }

    /** What strip_events does with a flagged event, the k-th of the list. */
    method Unlink(e: Event, ghost k: nat)
      requires Valid() && k < |nodes| && nodes[k] == e
      modifies this, nodes`next, nodes`prev
      ensures Valid() && nodes == old(nodes)[..k] + old(nodes)[k+1..]
      ensures e.next == old(e.next)
    {
      ghost var was := nodes;
      assert e.next == if k + 1 < |was| then was[k+1] else null;
      assert e.prev == if k > 0 then was[k-1] else null;
      if e.next != null { e.next.prev := e.prev; }
      if e.prev != null { e.prev.next := e.next; } else { head := e.next; }
      nodes := was[..k] + was[k+1..];
      UnlinkedAt(was, k);
    }

    lemma UnlinkedAt(was: seq<Event>, k: nat)
      requires k < |was| && nodes == was[..k] + was[k+1..]
      ensures forall i {:trigger nodes[i]} :: 0 <= i < |nodes| ==> nodes[i] == was[if i < k then i else i + 1]
    {
    }

    /** strip_events leaves a well-formed list of the unflagged events, in order. */
    method Strip()
      requires Valid()
      modifies this, nodes`next, nodes`prev
      ensures Valid() && nodes == old(Unflagged(nodes))
    {
      hide Linked, Unflagged, Stripping;
      ghost var all, kept, i := nodes, [], 0;
      var e := head;
      StripStart();
      while e != null
        invariant Stripping(all, kept, i) && i <= |all| && kept == Unflagged(all[..i])
        invariant e == if i < |all| then all[i] else null
        decreases |all| - i
      {
        UnflaggedNext(all, i);
        e := StripNext(e, all, kept, i);
        if !all[i].remove { kept := kept + [all[i]]; }
        i := i + 1;
      }
      assert all[..i] == all;
      StripEnd(all, kept);
    }

    lemma StripStart()
      requires Valid()
      ensures Stripping(nodes, [], 0) && head == (if nodes == [] then null else nodes[0])
      ensures Unflagged(nodes[..0]) == []
    {
      assert nodes == [] + nodes[0..];
    }

    lemma StripEnd(all: seq<Event>, kept: seq<Event>)
      requires Stripping(all, kept, |all|)
      ensures Valid() && nodes == kept
    {
      assert nodes == kept + [];
    }

    /** Partway through strip_events: kept is what is left of the first i. */
    ghost predicate Stripping(all: seq<Event>, kept: seq<Event>, i: nat)
      reads this, nodes`next, nodes`prev
    {
      && Valid() && i <= |all| && nodes == kept + all[i..]
      && forall j :: 0 <= j < |nodes| ==> nodes[j] in all
    }

    /** One turn of strip_events. */
    method StripNext(e: Event, ghost all: seq<Event>, ghost kept: seq<Event>, ghost i: nat) returns (n: Event?)
      requires Stripping(all, kept, i) && i < |all| && e == all[i]
      modifies this, all`next, all`prev
      ensures n == if i + 1 < |all| then all[i+1] else null
      ensures Stripping(all, if e.remove then kept else kept + [e], i + 1)
    {
      hide Linked;
      ghost var k, was := |kept|, nodes;
      NextIs(k);
      n := e.next;
      if e.remove {
        Unlink(e, k);
        assert nodes == kept + all[i+1..];
        assert forall j :: 0 <= j < |nodes| ==> nodes[j] == was[if j < k then j else j + 1];
      } else {
        assert nodes == (kept + [e]) + all[i+1..];
      }
    }

    lemma HeadIs()
      requires Valid()
      ensures head == if nodes == [] then null else nodes[0]
    {
    }

    lemma NextIs(k: nat)
      requires Valid() && k < |nodes|
      ensures nodes[k].next == if k + 1 < |nodes| then nodes[k+1] else null
    {
    }
  }
}
