// The frame heap (spook/frame.c) and frame delivery (spook/stream.c): frame
// objects with reference counts, clones that hold their original, and a ring
// of slots that frames are taken from and put back into.
module FrameHeap {
  import opened Bytes
  import opened FrameBooks

  class Frame {
    ghost const id: Id
    var refCount: int
    var origin: Frame?   // of a clone: what clone_destructor drops its reference on

    constructor (ghost id: Id)
      ensures this.id == id && refCount == 0 && origin == null
    {
      this.id := id;
      refCount, origin := 0, null;
    }
  }

  class Heap {
    const slots: array<Frame?>
    var take: nat
    var put: nat
    ghost const pool: seq<Frame>   // all frames, by id
    ghost var ring: seq<Frame>     // the frames in the ring, oldest first
    ghost var books: Books

    function At(i: nat): int
      reads `take
    {
      if take + i >= slots.Length then take + i - slots.Length else take + i
    }

    /** The occupied slots are exactly the cyclic range from take to put. */
    ghost predicate Ring()
      reads `take, `put, `ring, slots
    {
      && 0 < slots.Length == |pool| && take < slots.Length && put < slots.Length
      && |ring| <= slots.Length && put == At(|ring|)
      && forall i :: 0 <= i < slots.Length ==> slots[At(i)] == if i < |ring| then ring[i] else null
    }

    ghost predicate Distinct() {
      forall i {:trigger pool[i]} :: 0 <= i < |pool| ==> pool[i].id == i
    }

    /** The ring holds the free frames; the count and the destructor of every
        live frame are what the books say. */
    ghost predicate Linked()
      reads `books, `ring, pool
    {
      && |ring| == |books.free|
      && (forall i :: 0 <= i < |ring| ==> books.free[i] < |pool| && ring[i] == pool[books.free[i]])
      && (forall f :: f in books.live ==> f < |pool| && f in books.origin)
      && forall f {:trigger pool[f]} :: f in books.live ==>
           && pool[f].refCount == Count(books, f)
           && pool[f].origin == if books.origin[f].None? || books.origin[f].value >= |pool| then null
                                else pool[books.origin[f].value]
    }

    ghost predicate Valid()
      reads `take, `put, `ring, `books, slots, pool
    {
      Ring() && Distinct() && Linked() && Inv(slots.Length, books)
    }

    ghost predicate IsFrame(f: Frame) {
      f.id < |pool| && pool[f.id] == f
    }

    /** init_frame_heap */
    constructor (count: nat)
      requires count > 0
      ensures Valid() && fresh(slots) && slots.Length == count
      ensures forall f :: f in pool ==> fresh(f)
      ensures books == Books(seq(count, i => i), {}, {}, map[], map[], map[])
    {
      var s := new Frame?[count](_ => null);
      ghost var all: seq<Frame> := [];
      for i := 0 to count
        invariant |all| == i && forall f :: f in all ==> fresh(f)
        invariant forall k :: 0 <= k < count ==> s[k] == if k < i then all[k] else null
        invariant forall k {:trigger all[k]} :: 0 <= k < i ==> all[k].id == k
      {
        var f := new Frame(i);
        s[i] := f;
        all := all + [f];
      }
      slots := s;
      take, put := 0, 0;
      pool, ring := all, all;
      books := Books(seq(count, i => i), {}, {}, map[], map[], map[]);
    }

    /** The ring's half of new_frame. */
    method TakeFromRing() returns (f: Frame?)
      requires Ring()
      modifies this`take, this`ring, slots
      ensures Ring()
      ensures if old(ring) == [] then f == null && ring == [] else f == old(ring)[0] && ring == old(ring)[1..]
    {
      assert slots[At(0)] == if |ring| > 0 then ring[0] else null;
      f := slots[take];
      if f != null {
        ghost var before := slots[..];
        slots[take] := null;
        take := if take + 1 == slots.Length then 0 else take + 1;
        ring := ring[1..];
        forall i | 0 <= i < slots.Length
          ensures slots[At(i)] == if i < |ring| then ring[i] else null
        {
          if i + 1 < slots.Length { assert before[At(i)] == old(slots[At(i + 1)]); }
        }
      }
    }

    /** The ring's half of unref_frame. The slot at put is empty whenever a
        frame is on its way back, so the branch that complains about a frame
        at frame_heap_put, and returns with the mutex held, is never taken. */
    method PutInRing(f: Frame) returns (ok: bool)
      requires Ring() && |ring| < slots.Length
      modifies this`put, this`ring, slots
      ensures ok && Ring() && ring == old(ring) + [f]
    {
      assert slots[At(|ring|)] == null;
      if slots[put] != null { return false; }
      ghost var before := slots[..];
      slots[put] := f;
      put := if put + 1 == slots.Length then 0 else put + 1;
      ring := ring + [f];
      forall i | 0 <= i < slots.Length
        ensures slots[At(i)] == if i < |ring| then ring[i] else null
      {
        assert before[At(i)] == old(slots[At(i)]);
      }
      return true;
    }

    /** new_frame: the oldest free frame, or none when the ring is empty. */
    method NewFrame() returns (f: Frame?)
      requires Valid()
      modifies this`take, this`ring, this`books, slots, pool
      ensures Valid()
      ensures f == null <==> old(books).free == []
      ensures books == if f == null then old(books) else Issue(old(books))
      ensures f != null ==> IsFrame(f) && f.id == old(books).free[0] && f.refCount == 1 && f.origin == null
      ensures forall g :: g in pool && g != f ==> g.refCount == old(g.refCount)
    {
      hide Ring, Partitioned, Owned;
      f := TakeFromRing();
      if f != null {
        IssueInv(slots.Length, books);
        IssueCounts(books);
        f.refCount, f.origin := 1, null;
        books := Issue(books);
        forall g | g in books.live ensures g < |pool| && pool[g].refCount == Count(books, g) {
          if g != f.id { assert old(pool[g].refCount) == Count(old(books), g); }
        }
      }
    }

    /** ref_frame */
    method RefFrame(f: Frame)
      requires Valid() && IsFrame(f) && f.id in books.live
      modifies this`books, f`refCount
      ensures Valid() && books == AddHandle(old(books), f.id)
      ensures f.refCount == old(f.refCount) + 1
    {
      hide Ring, Inv, Count;
      AddHandleInv(slots.Length, books, f.id);
      HandleCounts(books, f.id, Handles(books, f.id) + 1);
      f.refCount := f.refCount + 1;
      books := AddHandle(books, f.id);
      forall g | g in books.live ensures g < |pool| && pool[g].refCount == Count(books, g) {
        assert old(pool[g].refCount) == Count(old(books), g);
      }
    }

    /** clone_frame: the clone holds a reference on its original. */
    method CloneFrame(orig: Frame) returns (f: Frame?)
      requires Valid() && IsFrame(orig) && orig.id in books.live
      modifies this`take, this`ring, this`books, slots, pool
      ensures Valid()
      ensures f == null <==> old(books).free == []
      ensures books == if f == null then old(books) else Attach(Issue(old(books)), f.id, orig.id)
      ensures f != null ==> IsFrame(f) && f.id == old(books).free[0] && f.refCount == 1 && f.origin == orig
      ensures orig.refCount == old(orig.refCount) + if f == null then 0 else 1
    {
      hide Ring, Linked, Partitioned, Owned;
      if books.free != [] { IssuedUncloned(slots.Length, books); }
      f := NewFrame();
      if f != null { AttachTo(f, orig); }
    }

    method AttachTo(f: Frame, orig: Frame)
      requires Valid() && IsFrame(f) && IsFrame(orig) && f.id in books.live && orig.id in books.live && f != orig
      requires f.id in books.origin && books.origin[f.id] == None && Clones(books, f.id) == {}
      modifies this`books, f`origin, orig`refCount
      ensures Valid() && orig.id in old(books).rank && books == Attach(old(books), f.id, orig.id)
      ensures f.origin == orig && orig.refCount == old(orig.refCount) + 1
    {
      hide Ring, Inv, Count;
      ghost var b := books;
      AttachInv(slots.Length, b, f.id, orig.id);
      AttachCounts(b, f.id, orig.id);
      f.origin := orig;
      orig.refCount := orig.refCount + 1;
      books := Attach(b, f.id, orig.id);
      forall g | g in books.live ensures g < |pool| && pool[g].refCount == Count(books, g) {
        assert old(pool[g].refCount) == Count(b, g);
      }
    }

    // ---- unref_frame, in its atomic steps ------------------------------------

    /** Under the frame's own mutex. */
    method Decrement(f: Frame) returns (r: int)
      requires Valid() && IsFrame(f) && Held(books, f.id)
      modifies this`books, f`refCount
      ensures Valid() && r == f.refCount == Count(old(books), f.id) - 1 && f.origin == old(f.origin)
      ensures books == if r > 0 then DropHandle(old(books), f.id) else Release(old(books), f.id)
    {
      hide Ring, Inv, Count, Held;
      ghost var b := books;
      DecrementStep(slots.Length, b, f.id);
      assert pool[f.id].refCount == Count(b, f.id);
      f.refCount := f.refCount - 1;
      r := f.refCount;
      books := if r > 0 then DropHandle(b, f.id) else Release(b, f.id);
      forall g | g in books.live ensures g < |pool| && pool[g].refCount == Count(books, g) {
        assert old(pool[g].refCount) == Count(b, g);
      }
    }

    /** Under the heap mutex. */
    method PutFrame(f: Frame)
      requires Valid() && IsFrame(f) && f.id in books.dying
      modifies this`put, this`ring, this`books, slots
      ensures Valid() && books == PutBack(old(books), f.id)
    {
      hide Ring, Partitioned, Owned, Count;
      ghost var b := books;
      PutBackPartition(slots.Length, b, f.id);
      PutBackOwned(b, f.id);
      PutBackCounts(b, f.id);
      var ok := PutInRing(f);
      books := PutBack(b, f.id);
      forall g | g in books.live ensures g < |pool| && pool[g].refCount == Count(books, g) {
        assert old(pool[g].refCount) == Count(b, g);
      }
    }

    /** unref_frame. A clone that dies drops its reference on the original
        first; chains of clones end, so this does too. */
    method UnrefFrame(f: Frame)
      requires Valid() && IsFrame(f) && Held(books, f.id)
      modifies this`put, this`ring, this`books, slots, pool
      ensures Valid() && books == Unref(old(books), f.id)
      decreases books.rank[f.id]
    {
      hide Ring, Linked, Inv, Unref, Count, Owned, Held, Release;
      OriginOf(f);
      UnrefPlan(slots.Length, books, f.id);
      var r := Decrement(f);
      if r > 0 { return; }
      if f.origin != null {
        PinWhileDying(f);
        UnrefFrame(f.origin);
      }
      PutFrame(f);
    }

    /** A dying frame's count is set to 1 for the destructor's sake. */
    method PinWhileDying(f: Frame)
      requires Valid() && IsFrame(f) && f.id in books.dying
      modifies f`refCount
      ensures Valid() && f.refCount == 1
    {
      hide Ring, Owned;
      f.refCount := 1;
    }

    lemma UnrefPlan(n: nat, b: Books, f: Id)
      requires Inv(n, b) && Held(b, f)
      ensures f in b.rank && f in b.origin && Handles(b, f) > 0 && Count(b, f) >= 1
      ensures Count(b, f) == 1 ==> f in Release(b, f).dying && Inv(n, Release(b, f))
      ensures Count(b, f) > 1 ==> Unref(b, f) == DropHandle(b, f)
      ensures Count(b, f) == 1 && b.origin[f].None? ==>
                Unref(b, f) == PutBack(Release(b, f), f) && f in Release(b, f).dying
      ensures Count(b, f) == 1 && b.origin[f].Some? ==>
                var b', o := Release(b, f), b.origin[f].value;
                && Held(b', o) && o in b'.rank && b'.rank[o] < b.rank[f]
                && Unref(b, f) == PutBack(Unref(b', o), f) && f in Unref(b', o).dying
    {
      if Count(b, f) > 1 {
        UnrefShared(b, f);
      } else {
        var m := UnrefLast(b, f);
        ReleasePartition(n, b, f);
        if b.origin[f].Some? {
          UnrefInv(n, Release(b, f), b.origin[f].value);
        }
      }
    }

    lemma OriginOf(f: Frame)
      requires Valid() && IsFrame(f) && Held(books, f.id)
      ensures f.id in books.origin
      ensures f.origin == null <==> books.origin[f.id].None?
      ensures f.origin != null ==> books.origin[f.id] == Some(f.origin.id) && IsFrame(f.origin)
    {
      assert pool[f.id].refCount == Count(books, f.id);
    }

    // ---- Any schedule ----------------------------------------------------------

    method Do(a: Act)
      requires Valid() && KnownAct(a) && Legal(books, StepOf(a))
      modifies this`take, this`put, this`ring, this`books, slots, pool
      ensures Valid() && books == After(old(books), StepOf(a))
    {
      hide Ring, Linked, Inv, Count, Owned, Release, Held, Unref;
      match a
      case New => var f := NewFrame();
      case Ref(f) => RefFrame(f);
      case Clone(f) => var c := CloneFrame(f);
      case Drop(f) => DropOne(f);
      case Put(f) => PutFrame(f);
    }

    /** The first half of unref_frame. */
    method DropOne(f: Frame)
      requires Valid() && IsFrame(f) && Held(books, f.id)
      modifies this`books, f`refCount
      ensures Valid() && books == After(old(books), Step.Drop(f.id))
    {
      hide Ring, Linked, Inv, Count, Owned, Held, Release;
      UnrefPlan(slots.Length, books, f.id);
      var r := Decrement(f);
      if r <= 0 && f.origin != null { PinWhileDying(f); }
    }

    ghost predicate KnownAct(a: Act) {
      match a
      case New => true
      case Ref(f) => IsFrame(f)
      case Clone(f) => IsFrame(f)
      case Drop(f) => IsFrame(f)
      case Put(f) => IsFrame(f)
    }

    /** Any run of atomic steps of any threads: as long as only references that
        are there are dropped, counts, ring and books stay in order, and never
        is a frame in the way of one that comes back. */
    method Schedule(acts: seq<Act>)
      requires Valid() && (forall i :: 0 <= i < |acts| ==> KnownAct(acts[i])) && AllLegal(books, Steps(acts))
      modifies this`take, this`put, this`ring, this`books, slots, pool
      ensures Valid() && books == AfterAll(old(books), Steps(acts))
    {
      hide Valid, Legal, After, KnownAct;
      ghost var goal := AfterAll(books, Steps(acts));
      assert acts[0..] == acts;
      for i := 0 to |acts|
        invariant Valid() && AllLegal(books, Steps(acts[i..])) && AfterAll(books, Steps(acts[i..])) == goal
      {
        StepsFirst(acts, i);
        Do(acts[i]);
      }
    }

    // ---- deliver_frame_to_stream ---------------------------------------------

    /** Each waiting destination gets a reference of its own; what it does with
        it, and whatever else it does to the heap meanwhile, other deliveries
        included, is arbitrary. Then the caller's reference is dropped. */
    method DeliverToStream(f: Frame, dests: seq<Destination>)
      requires Valid() && IsFrame(f) && Deliverable(books, f.id, Runs(dests))
      requires forall i, k :: 0 <= i < |dests| && 0 <= k < |dests[i].acts| ==> KnownAct(dests[i].acts[k])
      modifies this`take, this`put, this`ring, this`books, slots, pool
      ensures Valid()
      ensures Held(Delivered(old(books), f.id, Runs(dests)), f.id)
      ensures books == Unref(Delivered(old(books), f.id, Runs(dests)), f.id)
    {
      hide Ring, Linked, Inv, Unref, Held, AllLegal, AfterAll, KnownAct, Runs, Steps, Handles, AddHandle, Deliverable;
      ghost var goal := Delivered(books, f.id, Runs(dests));
      ValidBooks();
      DeliveredInv(slots.Length, books, f.id, Runs(dests));
      assert dests[0..] == dests;
      for i := 0 to |dests|
        invariant Valid() && Deliverable(books, f.id, Runs(dests[i..]))
        invariant Delivered(books, f.id, Runs(dests[i..])) == goal
      {
        RunsStep(books, f.id, dests, i);
        if dests[i].waiting {
          RefFrame(f);
          Schedule(dests[i].acts);
        }
      }
      NoRuns(dests[|dests|..]);
      DeliveredNothing(books, f.id);
      UnrefFrame(f);
    }

    lemma ValidBooks()
      requires Valid()
      ensures Inv(slots.Length, books)
    {
    }
  }

  datatype Act = New | Ref(f: Frame) | Clone(f: Frame) | Drop(f: Frame) | Put(f: Frame)

  ghost function StepOf(a: Act): Step {
    match a
    case New => Step.New
    case Ref(f) => Step.Ref(f.id)
    case Clone(f) => Step.Clone(f.id)
    case Drop(f) => Step.Drop(f.id)
    case Put(f) => Step.Put(f.id)
  }

  ghost function Steps(acts: seq<Act>): (steps: seq<Step>)
    ensures |steps| == |acts|
    ensures forall i :: 0 <= i < |acts| ==> steps[i] == StepOf(acts[i])
  {
    if acts == [] then [] else [StepOf(acts[0])] + Steps(acts[1..])
  }

  lemma {:induction false} StepsFirst(acts: seq<Act>, i: nat)
    requires i < |acts|
    ensures Steps(acts[i..]) != [] && Steps(acts[i..])[0] == StepOf(acts[i])
    ensures Steps(acts[i..])[1..] == Steps(acts[i+1..])
  {
    assert acts[i..][1..] == acts[i+1..];
  }

  /** A destination of a stream, and what its process_frame does to the heap. */
  datatype Destination = Destination(waiting: bool, acts: seq<Act>)

  ghost function Runs(dests: seq<Destination>): seq<seq<Step>> {
    if dests == [] then []
    else (if dests[0].waiting then [Steps(dests[0].acts)] else []) + Runs(dests[1..])
  }

  lemma {:induction false} RunsFirst(dests: seq<Destination>, i: nat)
    requires i < |dests|
    ensures Runs(dests[i..]) == (if dests[i].waiting then [Steps(dests[i].acts)] else []) + Runs(dests[i+1..])
  {
    assert dests[i..][1..] == dests[i+1..];
  }

  lemma {:induction false} RunsStep(b: Books, f: Id, dests: seq<Destination>, i: nat)
    requires i < |dests| && Deliverable(b, f, Runs(dests[i..]))
    ensures f in b.live
    ensures if dests[i].waiting then
              && AllLegal(AddHandle(b, f), Steps(dests[i].acts))
              && var b' := AfterAll(AddHandle(b, f), Steps(dests[i].acts));
              Deliverable(b', f, Runs(dests[i+1..])) && Delivered(b', f, Runs(dests[i+1..])) ==
                Delivered(b, f, Runs(dests[i..]))
            else
              Deliverable(b, f, Runs(dests[i+1..])) && Delivered(b, f, Runs(dests[i+1..])) ==
                Delivered(b, f, Runs(dests[i..]))
  {
    hide Runs, AllLegal, AfterAll, Steps;
    RunsFirst(dests, i);
    var run, more := Steps(dests[i].acts), Runs(dests[i+1..]);
    assert ([run] + more)[1..] == more && [] + more == more;
  }

  lemma {:induction false} DeliveredNothing(b: Books, f: Id)
    requires Deliverable(b, f, [])
    ensures Delivered(b, f, []) == b
  {
  }

  lemma {:induction false} NoRuns(dests: seq<Destination>)
    requires dests == []
    ensures Runs(dests) == []
  {
  }
}
