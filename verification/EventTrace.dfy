// What a run of the event loop does, seen from outside, and when such a run
// is safe.
module EventTrace {
  import opened EventList

  datatype Item =
    | PassStart
    | Added(e: Event)
    | Removed(e: Event)      // remove_event
    | Enabled(e: Event)      // set_event_enabled with 1
    | Disabled(e: Event)     // set_event_enabled with 0
    | Rescheduled(e: Event)  // resched_event, called from outside the loop
    | Invoked(e: Event)      // the loop calls e's callback
    | Ended                  // exit_event_loop

  /** An item that is about no event. */
  predicate Eventless(x: Item) { x.PassStart? || x.Ended? }

  /** What a callback can do to the events that were known before it. */
  ghost predicate Ordinary(t: seq<Item>, known: seq<Event>) {
    forall i :: 0 <= i < |t| ==> !t[i].PassStart? && !t[i].Invoked? && (t[i].Added? ==> t[i].e !in known)
  }

  lemma OrdinaryThen(t0: seq<Item>, t: seq<Item>, t': seq<Item>, known: seq<Event>, later: seq<Event>)
    requires t0 <= t <= t' && Ordinary(t[|t0|..], known) && Ordinary(t'[|t|..], later)
    requires |known| <= |later| && forall i :: 0 <= i < |known| ==> known[i] == later[i]
    ensures Ordinary(t'[|t0|..], known)
  {
    var a, b := t[|t0|..], t'[|t|..];
    assert t'[|t0|..] == a + b;
    assert forall e :: e in known ==> e in later;
  }

  lemma OrdinaryOf(t: seq<Item>, known: seq<Event>, nodes: seq<Event>)
    requires Ordinary(t, known) && forall e :: e in nodes ==> e in known
    ensures Ordinary(t, nodes)
  {
  }

  lemma Nothing(t: seq<Item>, known: seq<Event>)
    ensures Ordinary(t[|t|..], known)
  {
  }

  /** e was removed, and not enabled or rescheduled since. */
  predicate Quiet(t: seq<Item>, e: Event) {
    if t == [] then false
    else
      var last := t[|t| - 1];
      if last == Removed(e) then true
      else if last == Enabled(e) || last == Rescheduled(e) then false
      else Quiet(t[..|t| - 1], e)
  }

  /** e was added in the current pass. */
  predicate New(t: seq<Item>, e: Event) {
    if t == [] then false
    else
      var last := t[|t| - 1];
      if last == Added(e) then true
      else if last == PassStart then false
      else New(t[..|t| - 1], e)
  }

  /** No callback runs after its event was removed, unless the event was
      enabled or rescheduled in between, nor in the pass that added it. */
  ghost predicate Safe(t: seq<Item>) {
    forall j :: 0 <= j < |t| && t[j].Invoked? ==> !Quiet(t[..j], t[j].e) && !New(t[..j], t[j].e)
  }

  lemma Snoc(t: seq<Item>, x: Item, e: Event)
    ensures Quiet(t + [x], e) <==>
              x == Removed(e) || (Quiet(t, e) && x != Enabled(e) && x != Rescheduled(e))
    ensures New(t + [x], e) <==> x == Added(e) || (New(t, e) && x != PassStart)
  {
    assert (t + [x])[..|t|] == t;
  }

  lemma SafeSnoc(t: seq<Item>, x: Item)
    requires Safe(t) && (x.Invoked? ==> !Quiet(t, x.e) && !New(t, x.e))
    ensures Safe(t + [x])
  {
    forall j | 0 <= j < |t + [x]| && (t + [x])[j].Invoked?
      ensures !Quiet((t + [x])[..j], (t + [x])[j].e) && !New((t + [x])[..j], (t + [x])[j].e)
    {
      assert (t + [x])[..j] == t[..j];
    }
  }

  /** Safe, spelt out for one removal: between it and any later call of the
      same callback there is an enabling or a rescheduling. */
  lemma SafeMeans(t: seq<Item>, i: nat, j: nat)
    requires Safe(t) && i < j < |t| && t[i].Removed? && t[j] == Invoked(t[i].e)
    ensures exists k :: i < k < j && (t[k] == Enabled(t[i].e) || t[k] == Rescheduled(t[i].e))
  {
    var e := t[i].e;
    if forall k :: i < k < j ==> t[k] != Enabled(e) && t[k] != Rescheduled(e) {
      StaysQuiet(t, i, j);
    }
  }

  lemma {:induction false} StaysQuiet(t: seq<Item>, i: nat, j: nat)
    requires i < j <= |t| && t[i].Removed?
    requires forall k :: i < k < j ==> t[k] != Enabled(t[i].e) && t[k] != Rescheduled(t[i].e)
    ensures Quiet(t[..j], t[i].e)
  {
    assert t[..j] == t[..j-1] + [t[j-1]];
    Snoc(t[..j-1], t[j-1], t[i].e);
    if j > i + 1 { StaysQuiet(t, i, j - 1); }
  }

  lemma {:induction false} Unmentioned(t: seq<Item>, e: Event)
    requires forall i :: 0 <= i < |t| ==> Eventless(t[i]) || t[i].e != e
    ensures !Quiet(t, e) && !New(t, e)
  {
    if t != [] { Unmentioned(t[..|t| - 1], e); }
  }

  /** No callback runs once the loop has been ended, as far as since. */
  ghost predicate EndsCalls(t: seq<Item>, since: nat) {
    forall j, k :: since <= j < k < |t| && t[j] == Ended ==> !t[k].Invoked?
  }

  ghost predicate NoCalls(t: seq<Item>, since: nat) {
    forall k :: since <= k < |t| ==> !t[k].Invoked?
  }

  lemma OrdinaryOne(t: seq<Item>, x: Item, known: seq<Event>)
    requires !x.PassStart? && !x.Invoked? && (x.Added? ==> x.e !in known)
    ensures Ordinary((t + [x])[|t|..], known)
  {
    assert (t + [x])[|t|..] == [x];
  }

  lemma OrdinaryNoCalls(before: seq<Item>, t: seq<Item>, known: seq<Event>)
    requires before <= t && Ordinary(t[|before|..], known)
    ensures NoCalls(t, |before|)
  {
    forall k | |before| <= k < |t| ensures !t[k].Invoked? {
      assert t[|before|..][k - |before|] == t[k];
    }
  }

  // ---- Dispatching listeners -------------------------------------------------

  /** A turn of the loop in sq_run: the listener that was called, what its
      callback did, and whether the event loop had been ended by then. */
  datatype Turn = Turn(e: Event, ops: seq<Item>, ended: bool)

  /** What the turns did to the events, the calls left out. */
  function Done(turns: seq<Turn>): seq<Item> {
    if turns == [] then [] else Done(turns[..|turns| - 1]) + turns[|turns| - 1].ops
  }

  /** The turns as part of a run, seen from outside. */
  function Calls(turns: seq<Turn>): seq<Item> {
    if turns == [] then []
    else Calls(turns[..|turns| - 1]) + [Invoked(turns[|turns| - 1].e)] + turns[|turns| - 1].ops
  }

  /** Listeners are called from the front of the list, all of them or up to
      the one whose callback ended the loop; none when it had ended before. */
  ghost predicate InTurn(turns: seq<Turn>, nodes: seq<Event>, before: bool, after: bool) {
    && |turns| <= |nodes| && (forall i :: 0 <= i < |turns| ==> turns[i].e == nodes[i])
    && (forall i :: 0 <= i < |turns| - 1 ==> !turns[i].ended)
    && (if turns == [] then after == before else !before && turns[|turns| - 1].ended == after)
  }

  lemma {:induction false} InTurnNext(turns: seq<Turn>, nodes: seq<Event>, before: bool, turn: Turn)
    requires InTurn(turns, nodes, before, false) && |turns| < |nodes| && turn.e == nodes[|turns|]
    ensures InTurn(turns + [turn], nodes, before, turn.ended)
  {
  }

  lemma {:induction false} DoneNext(turns: seq<Turn>, turn: Turn)
    ensures Done(turns + [turn]) == Done(turns) + turn.ops
  {
    assert (turns + [turn])[..|turns|] == turns;
  }

  /** What callbacks of listeners on a list can do to that list's listeners. */
  ghost predicate Called(turns: seq<Turn>, nodes: seq<Event>) {
    forall i :: 0 <= i < |turns| ==> turns[i].e in nodes && Ordinary(turns[i].ops, nodes)
  }

  lemma {:induction false} DoneNoCalls(turns: seq<Turn>, nodes: seq<Event>)
    requires Called(turns, nodes)
    ensures NoCalls(Done(turns), 0)
  {
    if turns != [] { DoneNoCalls(turns[..|turns| - 1], nodes); }
  }

  /** e was enabled or rescheduled in t, and not removed afterwards. */
  predicate Revived(t: seq<Item>, e: Event) {
    if t == [] then false
    else
      var last := t[|t| - 1];
      if last == Enabled(e) || last == Rescheduled(e) then true
      else if last == Removed(e) then false
      else Revived(t[..|t| - 1], e)
  }

  lemma {:induction false} QuietAppend(a: seq<Item>, b: seq<Item>, e: Event)
    ensures Quiet(a + b, e) <==> Quiet(b, e) || (Quiet(a, e) && !Revived(b, e))
    decreases |b|
  {
    if b == [] {
      assert a + b == a;
    } else {
      var n := |b| - 1;
      assert a + b == (a + b[..n]) + [b[n]];
      Snoc(a + b[..n], b[n], e);
      QuietAppend(a, b[..n], e);
    }
  }

  lemma {:induction false} NewAppend(a: seq<Item>, b: seq<Item>, e: Event, known: seq<Event>)
    requires Ordinary(b, known) && e in known
    ensures New(a + b, e) == New(a, e)
    decreases |b|
  {
    if b == [] {
      assert a + b == a;
    } else {
      var n := |b| - 1;
      assert a + b == (a + b[..n]) + [b[n]];
      Snoc(a + b[..n], b[n], e);
      NewAppend(a, b[..n], e, known);
    }
  }

  lemma {:induction false} SafeSnocIff(t: seq<Item>, x: Item)
    requires x.Invoked?
    ensures Safe(t + [x]) <==> Safe(t) && !Quiet(t, x.e) && !New(t, x.e)
  {
    hide Quiet, New;
    var u := t + [x];
    assert u[|t|] == x && u[..|t|] == t;
    if Safe(u) {
      forall j | 0 <= j < |t| && t[j].Invoked? ensures !Quiet(t[..j], t[j].e) && !New(t[..j], t[j].e) {
        assert u[j] == t[j] && u[..j] == t[..j];
      }
    }
    if Safe(t) && !Quiet(t, x.e) && !New(t, x.e) { SafeSnoc(t, x); }
  }

  lemma {:induction false} SafeOrdinary(t: seq<Item>, ops: seq<Item>, known: seq<Event>)
    requires Ordinary(ops, known)
    ensures Safe(t + ops) <==> Safe(t)
    decreases |ops|
  {
    hide Quiet, New, Safe;
    if ops == [] {
      assert t + ops == t;
    } else {
      var n := |ops| - 1;
      SafeOrdinary(t, ops[..n], known);
      assert t + ops == (t + ops[..n]) + [ops[n]];
      SafeQuietly(t + ops[..n], ops[n]);
    }
  }

  lemma {:induction false} SafeQuietly(t: seq<Item>, x: Item)
    requires !x.Invoked?
    ensures Safe(t + [x]) <==> Safe(t)
  {
    hide Quiet, New;
    var u := t + [x];
    if Safe(u) {
      forall j | 0 <= j < |t| && t[j].Invoked? ensures !Quiet(t[..j], t[j].e) && !New(t[..j], t[j].e) {
        assert u[j] == t[j] && u[..j] == t[..j];
      }
    }
    if Safe(t) { SafeSnoc(t, x); }
  }

  /** The calls themselves change nothing about who is quiet or new. */
  lemma {:induction false} CallsDone(t: seq<Item>, turns: seq<Turn>, e: Event, nodes: seq<Event>)
    requires Called(turns, nodes) && e in nodes
    ensures Quiet(t + Calls(turns), e) <==> Quiet(Done(turns), e) || (Quiet(t, e) && !Revived(Done(turns), e))
    ensures New(t + Calls(turns), e) == New(t, e)
  {
    if turns == [] {
      assert t + Calls(turns) == t;
    } else {
      hide Quiet, New, Revived, Ordinary;
      var n := |turns| - 1;
      var before, last := t + Calls(turns[..n]), turns[n];
      CallsDone(t, turns[..n], e, nodes);
      Snoc(before, Invoked(last.e), e);
      assert t + Calls(turns) == (before + [Invoked(last.e)]) + last.ops;
      QuietAppend(before + [Invoked(last.e)], last.ops, e);
      NewAppend(before + [Invoked(last.e)], last.ops, e, nodes);
      QuietAppend(Done(turns[..n]), last.ops, e);
      RevivedAppend(Done(turns[..n]), last.ops, e);
    }
  }

  lemma {:induction false} RevivedAppend(a: seq<Item>, b: seq<Item>, e: Event)
    ensures Revived(a + b, e) <==> Revived(b, e) || (Revived(a, e) && !Quiet(b, e))
    decreases |b|
  {
    if b == [] {
      assert a + b == a;
    } else {
      var n := |b| - 1;
      assert a + b == (a + b[..n]) + [b[n]] && (a + b)[..|a + b| - 1] == a + b[..n];
      RevivedAppend(a, b[..n], e);
    }
  }

  /** A listener that is called at turn i although it must not be: it is new,
      or a callback of this dispatch removed it, or it had been removed before
      and no callback has revived it. */
  ghost predicate Wronged(t: seq<Item>, turns: seq<Turn>, i: nat)
    requires i < |turns|
  {
    var e, done := turns[i].e, Done(turns[..i]);
    New(t, e) || Quiet(done, e) || (Quiet(t, e) && !Revived(done, e))
  }

  lemma {:induction false} LastTurn(t: seq<Item>, turns: seq<Turn>, nodes: seq<Event>)
    requires Called(turns, nodes) && turns != []
    ensures var n := |turns| - 1;
            Safe(t + Calls(turns)) <==> Safe(t + Calls(turns[..n])) && !Wronged(t, turns, n)
  {
    hide Quiet, New, Revived, Ordinary, Safe;
    var n := |turns| - 1;
    var before, last := t + Calls(turns[..n]), turns[n];
    assert t + Calls(turns) == (before + [Invoked(last.e)]) + last.ops;
    SafeOrdinary(before + [Invoked(last.e)], last.ops, nodes);
    SafeSnocIff(before, Invoked(last.e));
    CallsDone(t, turns[..n], last.e, nodes);
  }

  lemma {:induction false} WrongedBefore(t: seq<Item>, turns: seq<Turn>, n: nat)
    requires n <= |turns|
    ensures forall i :: 0 <= i < n ==> Wronged(t, turns[..n], i) == Wronged(t, turns, i)
  {
    hide Quiet, New, Revived, Done;
    forall i | 0 <= i < n ensures Wronged(t, turns[..n], i) == Wronged(t, turns, i) {
      assert turns[..n][..i] == turns[..i];
    }
  }

  /** A dispatch of listeners is safe if and only if none of those that are
      reached is wronged. */
  lemma {:induction false} SoftDispatchSafeIff(t: seq<Item>, turns: seq<Turn>, nodes: seq<Event>)
    requires Called(turns, nodes)
    ensures Safe(t + Calls(turns)) <==> Safe(t) && forall i :: 0 <= i < |turns| ==> !Wronged(t, turns, i)
  {
    if turns == [] {
      assert t + Calls(turns) == t;
    } else {
      hide Safe, Calls, Wronged;
      var n := |turns| - 1;
      LastTurn(t, turns, nodes);
      WrongedBefore(t, turns, n);
      SoftDispatchSafeIff(t, turns[..n], nodes);
    }
  }

  /** The callbacks leave alone the listeners that lie behind them on the list:
      they remove none of them, and enable none. */
  ghost predicate HandsOff(turns: seq<Turn>) {
    forall i, j, k :: 0 <= i < j < |turns| && 0 <= k < |turns[i].ops| ==>
      turns[i].ops[k] != Removed(turns[j].e) && turns[i].ops[k] != Enabled(turns[j].e)
      && turns[i].ops[k] != Rescheduled(turns[j].e)
  }

  lemma {:induction false} Untouched(t: seq<Item>, e: Event)
    requires forall k :: 0 <= k < |t| ==> t[k] != Removed(e) && t[k] != Enabled(e) && t[k] != Rescheduled(e)
    ensures !Quiet(t, e) && !Revived(t, e)
  {
    if t != [] { Untouched(t[..|t| - 1], e); }
  }

  lemma {:induction false} DoneUntouched(turns: seq<Turn>, e: Event)
    requires forall i, k :: 0 <= i < |turns| && 0 <= k < |turns[i].ops| ==>
               turns[i].ops[k] != Removed(e) && turns[i].ops[k] != Enabled(e) && turns[i].ops[k] != Rescheduled(e)
    ensures forall k :: 0 <= k < |Done(turns)| ==>
              Done(turns)[k] != Removed(e) && Done(turns)[k] != Enabled(e) && Done(turns)[k] != Rescheduled(e)
  {
    if turns != [] { DoneUntouched(turns[..|turns| - 1], e); }
  }

  /** With such callbacks it can be told beforehand: the dispatch is safe if
      and only if no listener that is reached is quiet or new when it begins. */
  lemma {:induction false} HandsOffSafeIff(t: seq<Item>, turns: seq<Turn>, nodes: seq<Event>)
    requires Called(turns, nodes) && HandsOff(turns)
    ensures Safe(t + Calls(turns)) <==>
              Safe(t) && forall i :: 0 <= i < |turns| ==> !Quiet(t, turns[i].e) && !New(t, turns[i].e)
  {
    hide Quiet, New, Revived, Ordinary, Safe, Calls, Done;
    SoftDispatchSafeIff(t, turns, nodes);
    forall i | 0 <= i < |turns|
      ensures Wronged(t, turns, i) <==> Quiet(t, turns[i].e) || New(t, turns[i].e)
    {
      DoneUntouched(turns[..i], turns[i].e);
      Untouched(Done(turns[..i]), turns[i].e);
    }
  }

  /** Three ways to go wrong: a listener removed between two runs of the queue
      is called once more; so is one that the callback of another listener
      removes in front of its turn; and a listener is called in the pass that
      adds it. */
  lemma {:induction false} ListenersWronged(a: Event, b: Event)
    requires a != b
    ensures !Safe([Added(b), PassStart, Removed(b)] + Calls([Turn(b, [], false)]))
    ensures !Safe([Added(a), Added(b), PassStart] + Calls([Turn(a, [Removed(b)], false), Turn(b, [], false)]))
    ensures !Safe([PassStart, Added(b)] + Calls([Turn(b, [], false)]))
  {
    var one, two := [Turn(b, [], false)], [Turn(a, [Removed(b)], false), Turn(b, [], false)];
    var t1, t2, t3 := [Added(b), PassStart, Removed(b)], [Added(a), Added(b), PassStart], [PassStart, Added(b)];
    assert Called(one, [a, b]) && Called(two, [a, b]);
    assert two[..1] == [two[0]] && [two[0]][..0] == [];
    assert Done(two[..1]) == [] + [Removed(b)];
    assert Wronged(t1, one, 0) && Wronged(t2, two, 1) && Wronged(t3, one, 0);
    SoftDispatchSafeIff(t1, one, [a, b]);
    SoftDispatchSafeIff(t2, two, [a, b]);
    SoftDispatchSafeIff(t3, one, [a, b]);
  }
}
