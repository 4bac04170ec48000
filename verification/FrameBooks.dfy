// The bookkeeping behind the frame heap: who holds what on which frame. A
// frame is known by its number.
module FrameBooks {
  import opened Bytes

  type Id = nat

  datatype Books = Books(
    free: seq<Id>,                // in the ring, oldest first
    live: set<Id>,                // handed out and not released
    dying: set<Id>,               // count reached zero, not yet put back
    origin: map<Id, Option<Id>>,  // what a live clone is a clone of
    handles: map<Id, nat>,        // references held by users
    rank: map<Id, nat>)           // clones rank above their originals

  /** Each of the n frames is in the ring, live or dying, and only one of these. */
  ghost predicate Partitioned(n: nat, b: Books) {
    && b.live !! b.dying
    && (forall f :: f in b.live ==> f < n) && (forall f :: f in b.dying ==> f < n)
    && (forall i :: 0 <= i < |b.free| ==> b.free[i] < n && b.free[i] !in b.live && b.free[i] !in b.dying)
    && (forall i, j :: 0 <= i < j < |b.free| ==> b.free[i] != b.free[j])
    && |b.free| + |b.live| + |b.dying| == n
  }

  function Clones(b: Books, f: Id): set<Id> {
    set g | g in b.live && g in b.origin && b.origin[g] == Some(f)
  }

  /** What the reference count of a live frame has to be: the handles on it
      plus the live clones of it. */
  function Count(b: Books, f: Id): nat {
    (if f in b.handles then b.handles[f] else 0) + |Clones(b, f)|
  }

  /** A live frame is held by somebody and only live frames are held; the
      original of a live clone is live, so a clone never outlives its data;
      and clone chains end. */
  ghost predicate Owned(b: Books) {
    && (forall f :: f in b.live ==> f in b.origin && f in b.rank && Count(b, f) >= 1)
    && (forall f :: f in b.handles && b.handles[f] > 0 ==> f in b.live)
    && (forall g {:trigger b.origin[g]} :: g in b.live && g in b.origin && b.origin[g].Some? ==>
          b.origin[g].value in b.live && b.origin[g].value in b.rank && g in b.rank
          && b.rank[b.origin[g].value] < b.rank[g])
  }

  ghost predicate Inv(n: nat, b: Books) { Partitioned(n, b) && Owned(b) }

  function Handles(b: Books, f: Id): nat { if f in b.handles then b.handles[f] else 0 }

  // ---- The steps ----------------------------------------------------------

  function Issue(b: Books): Books
    requires b.free != []
  {
    var f := b.free[0];
    b.(free := b.free[1..], live := b.live + {f}, origin := b.origin[f := None],
       handles := b.handles[f := 1], rank := b.rank[f := 0])
  }

  function AddHandle(b: Books, f: Id): Books {
    b.(handles := b.handles[f := Handles(b, f) + 1])
  }

  function Attach(b: Books, f: Id, orig: Id): Books
    requires orig in b.rank
  {
    b.(origin := b.origin[f := Some(orig)], rank := b.rank[f := b.rank[orig] + 1])
  }

  function DropHandle(b: Books, f: Id): Books
    requires Handles(b, f) > 0
  {
    b.(handles := b.handles[f := Handles(b, f) - 1])
  }

  /** The last reference goes. What a clone held on its original is now held
      by the release in progress, until it gives that up in turn. */
  function Release(b: Books, f: Id): Books
    requires f in b.origin
  {
    var b' := b.(live := b.live - {f}, dying := b.dying + {f}, handles := b.handles[f := 0]);
    match b.origin[f]
    case None => b'
    case Some(o) => AddHandle(b', o)
  }

  function PutBack(b: Books, f: Id): Books {
    b.(dying := b.dying - {f}, free := b.free + [f])
  }

  // What each step does to the counts of live frames.

  lemma IssueCounts(b: Books)
    requires Owned(b) && b.free != [] && b.free[0] !in b.live
    ensures Count(Issue(b), b.free[0]) == 1
    ensures forall g :: g in b.live ==> Count(Issue(b), g) == Count(b, g)
  {
    var f, b' := b.free[0], Issue(b);
    assert Clones(b', f) == {};
    forall g | g in b.live ensures Count(b', g) == Count(b, g) {
      assert Clones(b', g) == Clones(b, g);
    }
  }

  lemma HandleCounts(b: Books, f: Id, k: nat)
    ensures var b' := b.(handles := b.handles[f := k]);
            forall g :: Count(b', g) == if g == f then Count(b, g) - Handles(b, g) + k else Count(b, g)
  {
    var b' := b.(handles := b.handles[f := k]);
    forall g: Id ensures Clones(b', g) == Clones(b, g) {}
  }

  lemma AttachCounts(b: Books, f: Id, orig: Id)
    requires f in b.live && f in b.origin && b.origin[f] == None && orig in b.rank
    ensures forall g :: Count(Attach(b, f, orig), g) == Count(b, g) + if g == orig then 1 else 0
  {
    var b' := Attach(b, f, orig);
    forall g: Id ensures Count(b', g) == Count(b, g) + if g == orig then 1 else 0 {
      assert f !in Clones(b, g);
      assert Clones(b', g) == Clones(b, g) + if g == orig then {f} else {};
    }
  }

  lemma ReleaseCounts(b: Books, f: Id)
    requires Owned(b) && f in b.live
    ensures forall g :: g in b.live && g != f ==> Count(Release(b, f), g) == Count(b, g)
  {
    var b' := Release(b, f);
    forall g | g in b.live && g != f ensures Count(b', g) == Count(b, g) {
      assert Clones(b', g) == Clones(b, g) - {f};
      assert f in Clones(b, g) <==> b.origin[f] == Some(g);
    }
  }

  lemma PutBackCounts(b: Books, f: Id)
    ensures forall g :: Count(PutBack(b, f), g) == Count(b, g)
  {
    forall g: Id ensures Clones(PutBack(b, f), g) == Clones(b, g) {}
  }

  lemma NobodysOriginal(b: Books, f: Id)
    requires Clones(b, f) == {}
    ensures forall g :: g in b.live && g in b.origin ==> b.origin[g] != Some(f)
  {
    forall g | g in b.live && g in b.origin ensures b.origin[g] != Some(f) {
      assert g !in Clones(b, f);
    }
  }

  // Every step keeps every frame in exactly one place ...

  lemma IssuePartition(n: nat, b: Books)
    requires Partitioned(n, b) && b.free != []
    ensures b.free[0] < n && b.free[0] !in b.live && Partitioned(n, Issue(b))
  {
    var b' := Issue(b);
    assert forall i :: 0 <= i < |b'.free| ==> b'.free[i] == b.free[i+1];
  }

  lemma ReleasePartition(n: nat, b: Books, f: Id)
    requires Partitioned(n, b) && f in b.live && f in b.origin
    ensures Partitioned(n, Release(b, f))
  {
  }

  lemma PutBackPartition(n: nat, b: Books, f: Id)
    requires Partitioned(n, b) && f in b.dying
    ensures |b.free| < n && Partitioned(n, PutBack(b, f))
  {
    assert |b.dying - {f}| == |b.dying| - 1;
  }

  // ... and every live frame owned.

  lemma IssueOwned(b: Books)
    requires Owned(b) && b.free != [] && b.free[0] !in b.live
    ensures Owned(Issue(b))
  {
    IssueCounts(b);
    hide Count;
  }

  lemma HandleOwned(b: Books, f: Id, k: nat)
    requires Owned(b) && f in b.live && Count(b, f) - Handles(b, f) + k >= 1
    ensures Owned(b.(handles := b.handles[f := k]))
  {
    HandleCounts(b, f, k);
    hide Count, Handles;
  }

  lemma AttachOwned(b: Books, f: Id, orig: Id)
    requires Owned(b) && f in b.live && orig in b.live && f != orig
    requires b.origin[f] == None && Clones(b, f) == {}
    ensures Owned(Attach(b, f, orig))
  {
    AttachCounts(b, f, orig);
    NobodysOriginal(b, f);
    hide Count, Clones;
  }

  lemma ReleaseOwned(b: Books, f: Id)
    requires Owned(b) && f in b.live && Count(b, f) == 1 && Handles(b, f) > 0
    ensures Owned(Release(b, f))
  {
    ReleaseCounts(b, f);
    assert Clones(b, f) == {};
    NobodysOriginal(b, f);
    hide Count, Clones;
  }

  lemma PutBackOwned(b: Books, f: Id)
    requires Owned(b)
    ensures Owned(PutBack(b, f))
  {
    PutBackCounts(b, f);
    hide Count;
  }

  // Both together.

  lemma IssueInv(n: nat, b: Books)
    requires Inv(n, b) && b.free != []
    ensures b.free[0] < n && b.free[0] !in b.live && Inv(n, Issue(b))
  {
    IssuePartition(n, b);
    IssueOwned(b);
  }

  lemma AddHandleInv(n: nat, b: Books, f: Id)
    requires Inv(n, b) && f in b.live
    ensures Inv(n, AddHandle(b, f))
  {
    hide Owned;
    HandleOwned(b, f, Handles(b, f) + 1);
  }

  lemma AttachInv(n: nat, b: Books, f: Id, orig: Id)
    requires Inv(n, b) && f in b.live && orig in b.live && f != orig
    requires f in b.origin && b.origin[f] == None && Clones(b, f) == {}
    ensures orig in b.rank && Inv(n, Attach(b, f, orig))
  {
    AttachOwned(b, f, orig);
  }

  // ---- unref_frame ----------------------------------------------------------

  /** A frame that can lose a reference. */
  ghost predicate Held(b: Books, f: Id) {
    Owned(b) && f in b.live && Handles(b, f) > 0
  }

  lemma ReleaseHeld(b: Books, f: Id)
    requires Held(b, f) && Count(b, f) == 1 && b.origin[f].Some?
    ensures var o := b.origin[f].value;
            Held(Release(b, f), o) && o != f && o in b.live && o in b.rank && b.rank[o] < b.rank[f]
  {
    ReleaseOwned(b, f);
  }

  /** What dropping a handle on f does: when the count reaches zero the frame's
      own hold on its original is dropped too, and then the frame goes back. */
  ghost function Unref(b: Books, f: Id): Books
    requires Held(b, f)
    decreases b.rank[f]
  {
    if Count(b, f) > 1 then DropHandle(b, f)
    else
      var b' := Release(b, f);
      if b.origin[f].None? then PutBack(b', f)
      else
        ReleaseHeld(b, f);
        PutBack(Unref(b', b.origin[f].value), f)
  }

  /** The frames that dropping a handle on f puts back, in order: the run of
      originals behind f that nobody else holds, the outermost clone last. */
  ghost function Released(b: Books, f: Id): seq<Id>
    requires Owned(b) && f in b.live
    decreases b.rank[f]
  {
    if Count(b, f) > 1 then []
    else if b.origin[f].None? then [f]
    else Released(b, b.origin[f].value) + [f]
  }

  lemma {:induction false} ReleasedStable(b: Books, f: Id, o: Id)
    requires Held(b, f) && Count(b, f) == 1
    requires o in b.live && b.rank[o] < b.rank[f]
    ensures var b' := Release(b, f);
            Owned(b') && o in b'.live && Released(b', o) == Released(b, o)
    decreases b.rank[o]
  {
    ReleaseOwned(b, f);
    ReleaseCounts(b, f);
    if b.origin[o].Some? { ReleasedStable(b, f, b.origin[o].value); }
  }

  lemma UnrefShared(b: Books, f: Id)
    requires Held(b, f) && Count(b, f) > 1
    ensures Unref(b, f) == DropHandle(b, f) && Owned(DropHandle(b, f))
  {
    HandleOwned(b, f, Handles(b, f) - 1);
  }

  lemma UnrefLast(b: Books, f: Id) returns (m: Books)
    requires Held(b, f) && Count(b, f) == 1
    ensures Unref(b, f) == PutBack(m, f) && Owned(Release(b, f))
    ensures if b.origin[f].None? then m == Release(b, f)
            else
              var o := b.origin[f].value;
              Held(Release(b, f), o) && o != f && o in b.rank && b.rank[o] < b.rank[f] && m == Unref(Release(b, f), o)
  {
    ReleaseOwned(b, f);
    m := Release(b, f);
    if b.origin[f].Some? {
      ReleaseHeld(b, f);
      m := Unref(m, b.origin[f].value);
    }
  }

  lemma {:induction false} UnrefInv(n: nat, b: Books, f: Id)
    requires Inv(n, b) && Held(b, f)
    ensures var r := Unref(b, f);
            Inv(n, r) && r.dying == b.dying && r.origin == b.origin && r.rank == b.rank
    decreases b.rank[f]
  {
    if Count(b, f) > 1 {
      UnrefShared(b, f);
    } else {
      var m := UnrefLast(b, f);
      ReleasePartition(n, b, f);
      hide Count, Owned, Unref;
      if b.origin[f].Some? { UnrefInv(n, Release(b, f), b.origin[f].value); }
      assert m.dying == b.dying + {f} && m.origin == b.origin && m.rank == b.rank && Inv(n, m);
      PutBackPartition(n, m, f);
      PutBackOwned(m, f);
      assert PutBack(m, f).dying == b.dying by { assert f !in b.dying; }
    }
  }

  lemma {:induction false} UnrefHandles(b: Books, f: Id)
    requires Held(b, f)
    ensures forall g :: Handles(Unref(b, f), g) == if g == f then Handles(b, f) - 1 else Handles(b, g)
    decreases b.rank[f]
  {
    if Count(b, f) > 1 {
      UnrefShared(b, f);
    } else {
      HandleIsAll(b, f);
      var m := UnrefLast(b, f);
      ReleaseHandles(b, f);
      hide Count, Owned, Unref, Release;
      if b.origin[f].Some? { UnrefHandles(Release(b, f), b.origin[f].value); }
      assert forall g :: Handles(PutBack(m, f), g) == Handles(m, g);
    }
  }

  lemma ReleaseHandles(b: Books, f: Id)
    requires f in b.origin && b.origin[f] != Some(f)
    ensures forall g :: Handles(Release(b, f), g) ==
              if g == f then 0 else Handles(b, g) + if b.origin[f] == Some(g) then 1 else 0
  {
  }

  lemma HandleIsAll(b: Books, f: Id)
    requires Held(b, f) && Count(b, f) == 1
    ensures Handles(b, f) == 1
  {
  }

  lemma {:induction false} UnrefReleases(b: Books, f: Id)
    requires Held(b, f)
    ensures Unref(b, f).free == b.free + Released(b, f)
    ensures Unref(b, f).live == b.live - (set g | g in Released(b, f))
    decreases b.rank[f]
  {
    if Count(b, f) == 1 && b.origin[f].Some? {
      var o := b.origin[f].value;
      ReleaseHeld(b, f);
      ReleasedStable(b, f, o);
      UnrefReleases(Release(b, f), o);
    }
  }

  /** The whole effect of unref_frame on the heap. */
  lemma UnrefEffect(n: nat, b: Books, f: Id)
    requires Inv(n, b) && Held(b, f)
    ensures var r := Unref(b, f);
            && Inv(n, r) && r.dying == b.dying
            && r.free == b.free + Released(b, f)
            && r.live == b.live - (set g | g in Released(b, f))
            && forall g :: Handles(r, g) == if g == f then Handles(b, f) - 1 else Handles(b, g)
  {
    UnrefInv(n, b, f);
    UnrefHandles(b, f);
    UnrefReleases(b, f);
  }

  // ---- Any schedule -----------------------------------------------------------

  lemma DecrementStep(n: nat, b: Books, f: Id)
    requires Inv(n, b) && Held(b, f)
    ensures f in b.live && f in b.origin && Handles(b, f) > 0 && Count(b, f) >= 1
    ensures var b' := if Count(b, f) > 1 then DropHandle(b, f) else Release(b, f);
            Inv(n, b') && forall g :: g in b'.live ==> Count(b', g) == Count(b, g) - if g == f then 1 else 0
  {
    HeldLive(b, f);
    if Count(b, f) > 1 { DropStep(n, b, f); } else { ReleaseStep(n, b, f); }
  }

  lemma HeldLive(b: Books, f: Id)
    requires Held(b, f)
    ensures f in b.live && f in b.origin && Handles(b, f) > 0 && Count(b, f) >= 1
  {
    hide Count;
  }

  lemma DropStep(n: nat, b: Books, f: Id)
    requires Inv(n, b) && f in b.live && Handles(b, f) > 0 && Count(b, f) > 1
    ensures Inv(n, DropHandle(b, f))
    ensures forall g :: Count(DropHandle(b, f), g) == Count(b, g) - if g == f then 1 else 0
  {
    hide Owned, Count, Partitioned;
    DropCounts(b, f);
    DropOwned(b, f);
    DropPartition(n, b, f);
  }

  lemma DropCounts(b: Books, f: Id)
    requires Handles(b, f) > 0
    ensures forall g :: Count(DropHandle(b, f), g) == Count(b, g) - if g == f then 1 else 0
  {
    hide Count;
    HandleCounts(b, f, Handles(b, f) - 1);
  }

  lemma DropOwned(b: Books, f: Id)
    requires Owned(b) && f in b.live && Handles(b, f) > 0 && Count(b, f) > 1
    ensures Owned(DropHandle(b, f))
  {
    hide Owned, Count;
    HandleOwned(b, f, Handles(b, f) - 1);
  }

  lemma DropPartition(n: nat, b: Books, f: Id)
    requires Partitioned(n, b) && Handles(b, f) > 0
    ensures Partitioned(n, DropHandle(b, f))
  {
  }

  lemma ReleaseStep(n: nat, b: Books, f: Id)
    requires Inv(n, b) && f in b.live && f in b.origin && Handles(b, f) > 0 && Count(b, f) == 1
    ensures Inv(n, Release(b, f)) && f !in Release(b, f).live
    ensures forall g :: g in Release(b, f).live ==> Count(Release(b, f), g) == Count(b, g)
  {
    ReleaseCounts(b, f);
    ReleasePartition(n, b, f);
    ReleaseOwned(b, f);
    ReleasedLive(b, f);
    hide Owned, Count, Partitioned, Release;
  }

  lemma ReleasedLive(b: Books, f: Id)
    requires f in b.origin
    ensures Release(b, f).live == b.live - {f}
  {
  }

  /** What a thread does to the heap at once: under the mutex of the heap or of
      one frame. A clone is not known to others until clone_frame returns, so
      making one is one step. Put brings back a frame that Drop left dying. */
  datatype Step = New | Ref(f: Id) | Clone(f: Id) | Drop(f: Id) | Put(f: Id)

  /** Who drops a reference has one. */
  ghost predicate Legal(b: Books, s: Step) {
    match s
    case New => true
    case Ref(f) => f in b.live
    case Clone(f) => f in b.live && f in b.rank
    case Drop(f) => Held(b, f)
    case Put(f) => f in b.dying
  }

  ghost function After(b: Books, s: Step): Books
    requires Legal(b, s)
  {
    match s
    case New => if b.free == [] then b else Issue(b)
    case Ref(f) => AddHandle(b, f)
    case Clone(f) => if b.free == [] then b else Attach(Issue(b), b.free[0], f)
    case Drop(f) => if Count(b, f) > 1 then DropHandle(b, f) else Release(b, f)
    case Put(f) => PutBack(b, f)
  }

  ghost predicate AllLegal(b: Books, steps: seq<Step>)
    decreases |steps|
  {
    steps == [] || (Legal(b, steps[0]) && AllLegal(After(b, steps[0]), steps[1..]))
  }

  ghost function AfterAll(b: Books, steps: seq<Step>): Books
    requires AllLegal(b, steps)
    decreases |steps|
  {
    if steps == [] then b else AfterAll(After(b, steps[0]), steps[1..])
  }

  lemma {:induction false} StepInv(n: nat, b: Books, s: Step)
    requires Inv(n, b) && Legal(b, s)
    ensures Inv(n, After(b, s))
  {
    match s
    case New =>
      if b.free != [] { IssueInv(n, b); }
    case Ref(f) => AddHandleInv(n, b, f);
    case Clone(f) =>
      if b.free != [] {
        IssueInv(n, b);
        IssuedUncloned(n, b);
        AttachInv(n, Issue(b), b.free[0], f);
      }
    case Drop(f) => DecrementStep(n, b, f);
    case Put(f) =>
      PutBackPartition(n, b, f);
      PutBackOwned(b, f);
  }

  lemma {:induction false} IssuedUncloned(n: nat, b: Books)
    requires Inv(n, b) && b.free != []
    ensures b.free[0] !in b.live && Clones(Issue(b), b.free[0]) == {}
  {
    IssuePartition(n, b);
    assert Clones(Issue(b), b.free[0]) == {};
  }

  /** Any legal steps of any threads, in any order, keep the books. */
  lemma {:induction false} ScheduleInv(n: nat, b: Books, steps: seq<Step>)
    requires Inv(n, b) && AllLegal(b, steps)
    ensures Inv(n, AfterAll(b, steps))
    decreases |steps|
  {
    hide Inv, Legal, After;
    if steps != [] {
      StepInv(n, b, steps[0]);
      ScheduleInv(n, After(b, steps[0]), steps[1..]);
    }
  }

  // ---- Delivery -----------------------------------------------------------------

  /** Each consumer gets a reference on f and does what it does; the one who
      delivers keeps its own. */
  ghost predicate Deliverable(b: Books, f: Id, runs: seq<seq<Step>>)
    decreases |runs|
  {
    && f in b.live && Handles(b, f) > 0
    && (runs != [] ==>
          AllLegal(AddHandle(b, f), runs[0]) && Deliverable(AfterAll(AddHandle(b, f), runs[0]), f, runs[1..]))
  }

  ghost function Delivered(b: Books, f: Id, runs: seq<seq<Step>>): Books
    requires Deliverable(b, f, runs)
    decreases |runs|
  {
    if runs == [] then b else Delivered(AfterAll(AddHandle(b, f), runs[0]), f, runs[1..])
  }

  /** Whatever a consumer does, it gives up the one reference it was given and
      ends up with none that it did not have. */
  ghost predicate Balanced(b: Books, f: Id, runs: seq<seq<Step>>)
    requires Deliverable(b, f, runs)
    decreases |runs|
  {
    runs == [] ||
    var b' := AfterAll(AddHandle(b, f), runs[0]);
    (forall g :: Handles(b', g) == Handles(b, g)) && Balanced(b', f, runs[1..])
  }

  lemma {:induction false} DeliveredInv(n: nat, b: Books, f: Id, runs: seq<seq<Step>>)
    requires Inv(n, b) && Deliverable(b, f, runs)
    ensures Inv(n, Delivered(b, f, runs)) && Held(Delivered(b, f, runs), f)
    decreases |runs|
  {
    hide Partitioned, AfterAll, AllLegal;
    if runs != [] {
      AddHandleInv(n, b, f);
      ScheduleInv(n, AddHandle(b, f), runs[0]);
      DeliveredInv(n, AfterAll(AddHandle(b, f), runs[0]), f, runs[1..]);
    }
  }

  lemma {:induction false} BalancedHandles(b: Books, f: Id, runs: seq<seq<Step>>)
    requires Deliverable(b, f, runs) && Balanced(b, f, runs)
    ensures forall g :: Handles(Delivered(b, f, runs), g) == Handles(b, g)
    decreases |runs|
  {
    hide Handles, AfterAll, AllLegal;
    if runs != [] { BalancedHandles(AfterAll(AddHandle(b, f), runs[0]), f, runs[1..]); }
  }

  /** Delivery is reference-neutral: with balanced consumers, all that is gone
      at its end is the reference of the one who delivered. */
  lemma {:induction false} NeutralDelivery(n: nat, b: Books, f: Id, runs: seq<seq<Step>>)
    requires Inv(n, b) && Deliverable(b, f, runs) && Balanced(b, f, runs)
    ensures Held(Delivered(b, f, runs), f)
    ensures forall g :: Handles(Unref(Delivered(b, f, runs), f), g) == Handles(b, g) - if g == f then 1 else 0
  {
    hide Handles, Inv, Held, Unref, Delivered, Deliverable, Balanced;
    DeliveredInv(n, b, f, runs);
    BalancedHandles(b, f, runs);
    UnrefHandles(Delivered(b, f, runs), f);
  }
}
