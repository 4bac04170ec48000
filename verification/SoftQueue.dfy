// The soft queue (spook/event.c): a bounded queue between threads, kept as two
// circular doubly linked lists of nodes (free and queued), with a pipe that
// wakes the event loop once per queued event.
module SoftQueue {
  import opened Bytes

  class SoftEvent<D> {
    var next: SoftEvent<D>
    var prev: SoftEvent<D>
    var data: D

    constructor (d: D)
      ensures data == d
    {
      next, prev, data := this, this, d;
    }
  }

  function Succ(i: int, n: int): int { if i + 1 == n then 0 else i + 1 }

  function Pred(i: int, n: int): int { if i == 0 then n - 1 else i - 1 }

  /** The nodes of list, in this order, form the ring that starts at head. */
  ghost predicate Circular<D>(head: SoftEvent?<D>, list: seq<SoftEvent<D>>)
    reads list`next, list`prev
  {
    if list == [] then head == null
    else
      && head == list[0]
      && (forall i, j :: 0 <= i < j < |list| ==> list[i] != list[j])
      && (forall i {:trigger list[i].next} :: 0 <= i < |list| ==> list[i].next == list[Succ(i, |list|)])
      && (forall i {:trigger list[i].prev} :: 0 <= i < |list| ==> list[i].prev == list[Pred(i, |list|)])
  }

  /** remove_from_list takes out the head. */
  method RemoveFromList<D>(head: SoftEvent<D>, ghost list: seq<SoftEvent<D>>) returns (rest: SoftEvent?<D>)
    requires list != [] && Circular(head, list)
    modifies list`next, list`prev
    ensures Circular(rest, list[1..])
  {
    if head.next != head {
      head.prev.next := head.next;
      head.next.prev := head.prev;
      rest := head.next;
    } else {
      rest := null;
    }
  }

  /** add_to_list puts a node in front of the head, which in a ring is the tail. */
  method AddToList<D>(se: SoftEvent<D>, head: SoftEvent?<D>, ghost list: seq<SoftEvent<D>>)
    returns (first: SoftEvent<D>)
    requires Circular(head, list) && se !in list
    modifies se`next, se`prev, list`next, list`prev
    ensures Circular(first, list + [se])
  {
    if head != null {
      se.next := head;
      se.prev := head.prev;
      se.next.prev := se;
      se.prev.next := se;
      first := head;
    } else {
      se.next := se;
      se.prev := se;
      first := se;
    }
  }

  lemma HeadOnce<D>(head: SoftEvent<D>, list: seq<SoftEvent<D>>)
    requires Circular(head, list)
    ensures list != [] && list[0] == head && head !in list[1..]
  {
  }

  class SoftQueue<D> {
    var emptyList: SoftEvent?<D>
    var seList: SoftEvent?<D>
    var pipe: nat                    // bytes in the pipe, once there is one
    var listening: bool              // fd_event is set

    ghost const length: nat
    ghost var empty: seq<SoftEvent<D>>
    ghost var queued: seq<SoftEvent<D>>
    ghost var contents: seq<D>       // what is queued, oldest first

    ghost function Nodes(): set<object>
      reads `empty, `queued
    {
      (set e | e in empty) + (set e | e in queued)
    }

    /** The two rings are well formed and disjoint, and together hold the
        nodes the queue was made with. */
    ghost predicate Valid()
      reads this, Nodes()
    {
      Rings() && Loaded()
    }

    ghost predicate Rings()
      reads `emptyList, `seList, `empty, `queued, empty`next, empty`prev, queued`next, queued`prev
    {
      && Circular(emptyList, empty) && Circular(seList, queued)
      && (forall i, j :: 0 <= i < |empty| && 0 <= j < |queued| ==> empty[i] != queued[j])
      && |empty| + |queued| == length
    }

    ghost predicate Loaded()
      reads `queued, `contents, queued`data
    {
      |contents| == |queued| && forall i :: 0 <= i < |queued| ==> queued[i].data == contents[i]
    }

    /** Queued events that no byte in the pipe stands for; negative when there
        are more bytes than events. */
    ghost function Unsignalled(): int
      reads `contents, `pipe
    {
      |contents| - pipe
    }

    /** new_soft_queue */
    constructor (length: nat, blank: D)
      ensures Valid() && this.length == length && contents == []
      ensures pipe == 0 && !listening && fresh(Nodes())
    {
      var list: SoftEvent?<D> := null;
      ghost var nodes: seq<SoftEvent<D>> := [];
      for i := 0 to length
        invariant Circular(list, nodes) && |nodes| == i && fresh(nodes)
      {
        var se := new SoftEvent(blank);
        list := AddToList(se, list, nodes);
        nodes := nodes + [se];
      }
      emptyList, seList, pipe, listening := list, null, 0, false;
      this.length := length;
      empty, queued, contents := nodes, [], [];
    }

    /** soft_queue_add fails exactly when as many events are outstanding as the
        queue has nodes. */
    method Add(d: D) returns (ok: bool)
      requires Valid()
      modifies this, Nodes()
      ensures Valid() && Nodes() == old(Nodes()) && listening == old(listening)
      ensures ok <==> |old(contents)| < length
      ensures contents == if ok then old(contents) + [d] else old(contents)
      ensures listening ==> Unsignalled() == old(Unsignalled())
      ensures !listening ==> pipe == old(pipe)
    {
      hide Rings;
      HeadOf();
      if emptyList == null { return false; }
      var se := emptyList;
      MoveToQueued(se);
      se.data := d;
      contents := contents + [d];
      if listening { pipe := pipe + 1; }
      return true;
    }

    /** Both list operations of soft_queue_add. */
    method MoveToQueued(se: SoftEvent<D>)
      requires Rings() && emptyList == se
      modifies this`emptyList, this`seList, this`empty, this`queued
      modifies empty`next, empty`prev, queued`next, queued`prev
      ensures Rings() && Nodes() == old(Nodes())
      ensures old(empty) != [] && old(empty)[0] == se && se !in old(queued)
      ensures empty == old(empty)[1..] && queued == old(queued) + [se]
    {
      hide Circular;
      HeadOnce(se, empty);
      emptyList := RemoveFromList(se, empty);
      empty := empty[1..];
      seList := AddToList(se, seList, queued);
      queued := queued + [se];
      assert old(empty) == [se] + empty;
    }

    /** Both list operations of locked_get_next_event. */
    method MoveToEmpty(se: SoftEvent<D>)
      requires Rings() && seList == se
      modifies this`emptyList, this`seList, this`empty, this`queued
      modifies empty`next, empty`prev, queued`next, queued`prev
      ensures Rings() && Nodes() == old(Nodes())
      ensures queued == old(queued)[1..] && empty == old(empty) + [se]
    {
      hide Circular;
      HeadOnce(se, queued);
      seList := RemoveFromList(se, queued);
      queued := queued[1..];
      emptyList := AddToList(se, emptyList, empty);
      empty := empty + [se];
      assert old(queued) == [se] + queued;
    }

    lemma HeadOf()
      requires Rings()
      ensures emptyList == null <==> empty == []
      ensures seList == null <==> queued == []
      ensures emptyList != null ==> emptyList == empty[0]
      ensures seList != null ==> seList == queued[0]
      ensures |empty| + |queued| == length
    {
    }

    /** locked_get_next_event */
    method LockedGetNextEvent() returns (d: Option<D>)
      requires Valid()
      modifies this, Nodes()
      ensures Valid() && Nodes() == old(Nodes()) && listening == old(listening) && pipe == old(pipe)
      ensures if old(contents) == [] then d == None && contents == []
              else d == Some(old(contents)[0]) && contents == old(contents)[1..]
    {
      hide Rings;
      HeadOf();
      if seList == null { return None; }
      var se := seList;
      d := Some(se.data);
      MoveToEmpty(se);
      contents := contents[1..];
    }

    /** add_softqueue_event's part in the queue: the first listener opens the
        pipe, and without one is not added. Events queued before that are
        never signalled. */
    method Listen(piped: bool) returns (ok: bool)
      requires Valid()
      modifies this`listening, this`pipe
      ensures Valid() && listening == ok == (old(listening) || piped)
      ensures pipe == if old(listening) then old(pipe) else 0
      ensures ok && !old(listening) ==> Unsignalled() == |contents|
    {
      if !listening {
        pipe := 0;
        if !piped { return false; }
        listening := true;
      }
      return true;
    }

    /** sq_run up to its loop: one byte, one event, if there is one. When there
        is no byte to read, the queue stops listening for good, and what is
        queued stays. */
    method Run(readable: bool) returns (d: Option<D>)
      requires Valid() && listening && (readable ==> pipe > 0)
      modifies this, Nodes()
      ensures Valid() && Nodes() == old(Nodes()) && listening == readable
      ensures pipe == if readable then old(pipe) - 1 else 0
      ensures if !readable || old(contents) == [] then d == None && contents == old(contents)
              else d == Some(old(contents)[0]) && contents == old(contents)[1..]
      // A queue whose bytes never outnumber its events never runs on nothing.
      ensures readable && old(Unsignalled()) >= 0 ==> d.Some? && Unsignalled() == old(Unsignalled())
    {
      if !readable {
        listening, pipe := false, 0;
        return None;
      }
      pipe := pipe - 1;
      d := LockedGetNextEvent();
    }

    /** get_next_event without the wait: a direct consumer. On a queue that is
        listened to it takes an event and leaves its byte behind. */
    method GetNextEvent() returns (d: Option<D>)
      requires Valid()
      modifies this, Nodes()
      ensures Valid() && Nodes() == old(Nodes()) && listening == old(listening) && pipe == old(pipe)
      ensures if old(contents) == [] then d == None && contents == []
              else d == Some(old(contents)[0]) && contents == old(contents)[1..]
      ensures Unsignalled() == old(Unsignalled()) - if d.Some? then 1 else 0
    {
      d := LockedGetNextEvent();
    }

    /** Any schedule of producers and the event loop on a queue that has been
        listened to since before its first event, and that only sq_run drains:
        byte for byte the pipe is in step with the queue, what comes out is
        what went in, in order, and sq_run never finds nothing. */
    method Schedule(steps: nat, events: seq<D>) returns (ghost added: seq<D>, ghost taken: seq<D>)
      requires Valid() && listening && contents == [] && pipe == 0
      modifies this, Nodes()
      ensures Valid() && pipe == |contents|
      ensures added == taken + contents
    {
      hide Valid, Nodes;
      added, taken := [], [];
      var n := steps;
      while n > 0
        invariant Valid() && listening && Unsignalled() == 0 && Nodes() == old(Nodes())
        invariant added == taken + contents
      {
        n := n - 1;
        var produce: bool := *;
        var pick: int := *;
        if produce && 0 <= pick < |events| {
          var ok := Add(events[pick]);
          if ok { added := added + [events[pick]]; }
        } else if pipe > 0 {
          var d := Run(true);
          taken := taken + [d.value];
        }
      }
    }
  }
}
