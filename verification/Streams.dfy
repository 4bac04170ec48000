// Who wants frames from whom (spook/stream.c): sources, converters and
// filters, and the destinations that wait for their output.
module Streams {
  import opened Bytes

  const FORMAT_RAW_RGB24 := 1
  const FORMAT_RAW_UYVY := 2

  /** A stream. The output of a converter or filter has the destination that
      feeds it; a source, which has none, was last told whether to run. */
  datatype Stream = Stream(name: string, format: int, destList: seq<nat>, input: Option<nat>, running: bool)

  datatype Dest = Dest(stream: nat, waiting: bool)

  /** Streams and destinations, by the order of their creation. */
  datatype Graph = Graph(streams: seq<Stream>, dests: seq<Dest>)

  ghost predicate WellFormed(g: Graph) {
    && (forall d :: 0 <= d < |g.dests| ==>
          g.dests[d].stream < |g.streams| && d in g.streams[g.dests[d].stream].destList)
    && (forall s, i :: 0 <= s < |g.streams| && 0 <= i < |g.streams[s].destList| ==>
          g.streams[s].destList[i] < |g.dests| && g.dests[g.streams[s].destList[i]].stream == s)
    && (forall s :: 0 <= s < |g.streams| && g.streams[s].input.Some? ==>
          g.streams[s].input.value < |g.dests| && g.dests[g.streams[s].input.value].stream < s)
    && (forall s, t :: 0 <= s < t < |g.streams| && g.streams[s].input.Some? ==>
      g.streams[s].input != g.streams[t].input)
  }

  /** Somebody waits for the output of s. */
  ghost predicate Awaited(g: Graph, s: nat)
    requires WellFormed(g) && s < |g.streams|
  {
    exists i :: 0 <= i < |g.streams[s].destList| && g.dests[g.streams[s].destList[i]].waiting
  }

  /** What s was last told by those who wait for it. */
  predicate Told(g: Graph, s: nat)
    requires s < |g.streams| && (g.streams[s].input.Some? ==> g.streams[s].input.value < |g.dests|)
  {
    if g.streams[s].input.Some? then g.dests[g.streams[s].input.value].waiting else g.streams[s].running
  }

  ghost predicate Agrees(g: Graph, s: nat)
    requires WellFormed(g) && s < |g.streams|
  {
    Told(g, s) == Awaited(g, s)
  }

  ghost predicate Valid(g: Graph) {
    WellFormed(g) && forall s :: 0 <= s < |g.streams| ==> Agrees(g, s)
  }

  /** A destination at the end of a chain feeds no stream. */
  ghost predicate Leaf(g: Graph, d: nat) {
    d < |g.dests| && forall s :: 0 <= s < |g.streams| ==> g.streams[s].input != Some(d)
  }

  /** The source at the other end. */
  function SourceOf(g: Graph, d: nat): (s: nat)
    requires WellFormed(g) && d < |g.dests|
    ensures s < |g.streams| && g.streams[s].input.None?
    decreases g.dests[d].stream
  {
    var s := g.dests[d].stream;
    if g.streams[s].input.None? then s else SourceOf(g, g.streams[s].input.value)
  }

  // ---- Demand ---------------------------------------------------------------------

  lemma {:induction false} DemandUp(g: Graph, d: nat)
    requires Valid(g) && d < |g.dests| && g.dests[d].waiting
    ensures g.streams[SourceOf(g, d)].running
    decreases g.dests[d].stream
  {
    var s := g.dests[d].stream;
    var i :| 0 <= i < |g.streams[s].destList| && g.streams[s].destList[i] == d;
    assert Awaited(g, s) && Agrees(g, s);
    if g.streams[s].input.Some? { DemandUp(g, g.streams[s].input.value); }
  }

  lemma {:induction false} DemandDown(g: Graph, s: nat) returns (d: nat)
    requires Valid(g) && s < |g.streams| && Told(g, s)
    ensures Leaf(g, d) && g.dests[d].waiting
    ensures g.streams[s].input.None? ==> SourceOf(g, d) == s
    ensures g.streams[s].input.Some? ==> SourceOf(g, d) == SourceOf(g, g.streams[s].input.value)
    decreases |g.streams| - s
  {
    assert Agrees(g, s);
    var i :| 0 <= i < |g.streams[s].destList| && g.dests[g.streams[s].destList[i]].waiting;
    d := g.streams[s].destList[i];
    if !Leaf(g, d) {
      var t :| 0 <= t < |g.streams| && g.streams[t].input == Some(d);
      d := DemandDown(g, t);
    }
  }

  /** A source runs iff somebody at the end of a chain from it waits. */
  lemma SourceRunsIff(g: Graph, s: nat)
    requires Valid(g) && s < |g.streams| && g.streams[s].input.None?
    ensures g.streams[s].running <==> exists d: nat :: Leaf(g, d) && g.dests[d].waiting && SourceOf(g, d) == s
  {
    if g.streams[s].running {
      var d := DemandDown(g, s);
    }
    if d: nat :| Leaf(g, d) && g.dests[d].waiting && SourceOf(g, d) == s {
      DemandUp(g, d);
    }
  }

  // ---- Changes ----------------------------------------------------------------------

  function SetDest(g: Graph, d: nat, waiting: bool): Graph
    requires d < |g.dests|
  {
    g.(dests := g.dests[d := g.dests[d].(waiting := waiting)])
  }

  function SetSource(g: Graph, s: nat, running: bool): Graph
    requires s < |g.streams|
  {
    g.(streams := g.streams[s := g.streams[s].(running := running)])
  }

  /** The chains are as they were. */
  ghost predicate SameChains(g: Graph, g': Graph) {
    && |g'.streams| == |g.streams| && |g'.dests| == |g.dests|
    && (forall s :: 0 <= s < |g.streams| ==> g'.streams[s] == g.streams[s].(running := g'.streams[s].running))
    && (forall d :: 0 <= d < |g.dests| ==> g'.dests[d].stream == g.dests[d].stream)
  }

  /** Nothing changed at d's stream and behind it but d. */
  ghost predicate OnlyTowards(g: Graph, g': Graph, d: nat)
    requires SameChains(g, g') && d < |g.dests|
  {
    && (forall e :: 0 <= e < |g.dests| && e != d && g.dests[e].stream >= g.dests[d].stream ==>
      g'.dests[e] == g.dests[e])
    && (forall e: nat :: Leaf(g, e) && e != d ==> g'.dests[e] == g.dests[e])
  }

  /** What agreed still agrees, leaving aside what d feeds. */
  ghost predicate StillAgrees(g: Graph, g': Graph, d: nat)
    requires WellFormed(g) && WellFormed(g') && SameChains(g, g')
  {
    forall t :: 0 <= t < |g.streams| && g.streams[t].input != Some(d) && Agrees(g, t) ==> Agrees(g', t)
  }

  lemma SameChainsKeeps(g: Graph, g': Graph)
    requires WellFormed(g) && SameChains(g, g')
    ensures WellFormed(g')
  {
  }

  lemma SameChainsThen(a: Graph, b: Graph, c: Graph)
    requires SameChains(a, b) && SameChains(b, c)
    ensures SameChains(a, c)
  {
  }

  lemma AwaitedSame(g: Graph, g': Graph, s: nat)
    requires WellFormed(g) && WellFormed(g') && SameChains(g, g') && s < |g.streams|
    requires forall d :: 0 <= d < |g.dests| && g.dests[d].stream == s ==> g'.dests[d] == g.dests[d]
    ensures Awaited(g', s) == Awaited(g, s)
  {
    var list := g.streams[s].destList;
    assert forall i :: 0 <= i < |list| ==> g'.dests[list[i]] == g.dests[list[i]];
  }

  lemma SetDestChains(g: Graph, d: nat, waiting: bool)
    requires WellFormed(g) && d < |g.dests|
    ensures var g' := SetDest(g, d, waiting); SameChains(g, g') && WellFormed(g') && OnlyTowards(g, g', d)
  {
    SameChainsKeeps(g, SetDest(g, d, waiting));
  }

  /** Flipping d disturbs its own stream and what it feeds only. */
  lemma SetDestAgrees(g: Graph, d: nat, waiting: bool, t: nat)
    requires WellFormed(g) && d < |g.dests| && t < |g.streams| && Agrees(g, t)
    requires t != g.dests[d].stream && g.streams[t].input != Some(d)
    ensures WellFormed(SetDest(g, d, waiting)) && Agrees(SetDest(g, d, waiting), t)
  {
    SetDestChains(g, d, waiting);
    AwaitedSame(g, SetDest(g, d, waiting), t);
  }

  /** If its stream need not be told anything new, all is well. */
  lemma SetDestEnough(g: Graph, d: nat, waiting: bool)
    requires WellFormed(g) && d < |g.dests|
    requires var g' := SetDest(g, d, waiting); WellFormed(g') && Agrees(g', g.dests[d].stream)
    ensures var g' := SetDest(g, d, waiting); SameChains(g, g') && StillAgrees(g, g', d) && OnlyTowards(g, g', d)
  {
    SetDestChains(g, d, waiting);
    var g' := SetDest(g, d, waiting);
    forall t | 0 <= t < |g.streams| && g.streams[t].input != Some(d) && Agrees(g, t) ensures Agrees(g', t) {
      if t != g.dests[d].stream { SetDestAgrees(g, d, waiting, t); }
    }
  }

  /** Telling a source. */
  lemma SetSourceEnough(g: Graph, d: nat, waiting: bool)
    requires WellFormed(g) && d < |g.dests| && g.streams[g.dests[d].stream].input.None?
    requires var g' := SetDest(g, d, waiting); WellFormed(g') && Awaited(g', g.dests[d].stream) == waiting
    ensures var g' := SetSource(SetDest(g, d, waiting), g.dests[d].stream, waiting);
            SameChains(g, g') && WellFormed(g') && StillAgrees(g, g', d) && OnlyTowards(g, g', d)
  {
    var s := g.dests[d].stream;
    var g1 := SetDest(g, d, waiting);
    var g' := SetSource(g1, s, waiting);
    SetDestChains(g, d, waiting);
    SameChainsKeeps(g, g');
    forall t | 0 <= t < |g.streams| && g.streams[t].input != Some(d) && Agrees(g, t) ensures Agrees(g', t) {
      if t != s { SetDestAgrees(g, d, waiting, t); }
      AwaitedSame(g1, g', t);
    }
  }

  /** Telling a converter: what happened further up is all that was wanting. */
  lemma TowardsSource(g: Graph, g': Graph, d: nat, waiting: bool)
    requires WellFormed(g) && WellFormed(g') && d < |g.dests| && g.streams[g.dests[d].stream].input.Some?
    requires var g1, e := SetDest(g, d, waiting), g.streams[g.dests[d].stream].input.value;
             && WellFormed(g1) && Awaited(g1, g.dests[d].stream) == waiting
             && SameChains(g1, g') && StillAgrees(g1, g', e) && OnlyTowards(g1, g', e) && g'.dests[e].waiting == waiting
    ensures SameChains(g, g') && StillAgrees(g, g', d) && OnlyTowards(g, g', d) && g'.dests[d].waiting == waiting
  {
    var s := g.dests[d].stream;
    var e := g.streams[s].input.value;
    var g1 := SetDest(g, d, waiting);
    SetDestChains(g, d, waiting);
    SameChainsThen(g, g1, g');
    AwaitedSame(g1, g', s);
    forall t | 0 <= t < |g.streams| && g.streams[t].input != Some(d) && Agrees(g, t) ensures Agrees(g', t) {
      if t != s {
        SetDestAgrees(g, d, waiting, t);
        assert g1.streams[t].input != Some(e);
      }
    }
  }

  /** Up to a stream everything agrees. */
  ghost predicate AgreesUpTo(g: Graph, s: nat) {
    WellFormed(g) && s < |g.streams| && forall t :: 0 <= t <= s ==> Agrees(g, t)
  }

  lemma AgreesFurtherUp(g: Graph, d: nat, waiting: bool)
    requires WellFormed(g) && d < |g.dests| && AgreesUpTo(g, g.dests[d].stream)
             && g.streams[g.dests[d].stream].input.Some?
    ensures var g1, e := SetDest(g, d, waiting), g.streams[g.dests[d].stream].input.value;
            WellFormed(g1) && AgreesUpTo(g1, g1.dests[e].stream)
  {
    var s := g.dests[d].stream;
    var g1, e := SetDest(g, d, waiting), g.streams[s].input.value;
    SetDestChains(g, d, waiting);
    forall t | 0 <= t <= g1.dests[e].stream ensures Agrees(g1, t) {
      assert Agrees(g, t);
      SetDestAgrees(g, d, waiting, t);
    }
  }

  /** Who else waits for the output of d's stream. */
  lemma AwaitedIs(g: Graph, d: nat, any: bool)
    requires WellFormed(g) && d < |g.dests|
    requires var list := g.streams[g.dests[d].stream].destList;
             any == exists i :: 0 <= i < |list| && g.dests[list[i]].waiting
    ensures Awaited(g, g.dests[d].stream) == any
  {
  }

  lemma AwaitedNow(g: Graph, d: nat)
    requires WellFormed(g) && d < |g.dests| && g.dests[d].waiting
    ensures Awaited(g, g.dests[d].stream)
  {
    var list := g.streams[g.dests[d].stream].destList;
    var i :| 0 <= i < |list| && list[i] == d;
  }

  datatype Step =
    | Source(name: string, format: int)
    | Connect(name: string, formats: seq<int>)
    | Filter(base: nat, format: int)
    | Wait(d: nat, waiting: bool)

  predicate Suits(s: Stream, name: string, formats: seq<int>) {
    s.name == name && (formats == [] || s.format in formats)
  }

  /** The stream will do, converted if need be. */
  predicate Serves(s: Stream, name: string, formats: seq<int>) {
    Suits(s, name, formats)
    || (s.name == name && s.format == FORMAT_RAW_UYVY && (formats == [] || FORMAT_RAW_RGB24 in formats))
  }

  /** The first stream of the list that will do as it is. */
  ghost predicate FirstSuits(g: Graph, list: seq<nat>, i: nat, name: string, formats: seq<int>)
    requires forall k :: 0 <= k < |list| ==> list[k] < |g.streams|
  {
    i < |list| && Suits(g.streams[list[i]], name, formats)
    && forall k :: 0 <= k < i ==> !Suits(g.streams[list[k]], name, formats)
  }

  /** The first to be converted, when none will do as it is. */
  ghost predicate FirstServes(g: Graph, list: seq<nat>, i: nat, name: string, formats: seq<int>)
    requires forall k :: 0 <= k < |list| ==> list[k] < |g.streams|
  {
    i < |list| && Serves(g.streams[list[i]], name, formats)
    && (forall k :: 0 <= k < i ==> !Serves(g.streams[list[k]], name, formats))
    && forall k :: 0 <= k < |list| ==> !Suits(g.streams[list[k]], name, formats)
  }

  lemma FirstOnly(g: Graph, list: seq<nat>, i: nat, name: string, formats: seq<int>)
    requires (forall k :: 0 <= k < |list| ==> list[k] < |g.streams|) && i < |list|
    requires Suits(g.streams[list[i]], name, formats)
    requires forall k :: 0 <= k < i ==> !Suits(g.streams[list[k]], name, formats)
    ensures forall j: nat :: FirstSuits(g, list, j, name, formats) ==> j == i
    ensures forall j: nat :: !FirstServes(g, list, j, name, formats)
  {
    hide Suits;
  }

  lemma FirstConverted(g: Graph, list: seq<nat>, i: nat, name: string, formats: seq<int>)
    requires (forall k :: 0 <= k < |list| ==> list[k] < |g.streams|) && i <= |list|
    requires forall k :: 0 <= k < |list| ==> !Suits(g.streams[list[k]], name, formats)
    requires forall k :: 0 <= k < i ==> !Serves(g.streams[list[k]], name, formats)
    requires i == |list| || Serves(g.streams[list[i]], name, formats)
    ensures forall j: nat :: FirstServes(g, list, j, name, formats) ==> j == i && i < |list|
    ensures forall j: nat :: !FirstSuits(g, list, j, name, formats)
  {
    hide Suits, Serves;
  }

  /** Base is the i-th stream of the list, for the first time. */
  predicate Behind(list: seq<nat>, i: nat, base: nat) {
    i < |list| && list[i] == base && base !in list[..i]
  }

  function WithDest(g: Graph, s: nat): Graph
    requires s < |g.streams|
  {
    Graph(g.streams[s := g.streams[s].(destList := [|g.dests|] + g.streams[s].destList)], g.dests + [Dest(s, false)])
  }

  function Converting(g: Graph, base: nat, format: int): Graph
    requires base < |g.streams|
  {
    var g' := WithDest(g, base);
    g'.(streams := g'.streams + [Stream(g.streams[base].name, format, [], Some(|g.dests|), false)])
  }

  lemma MoreStreams(g: Graph, s: Stream)
    requires Valid(g) && s.destList == [] && s.input.None? && !s.running
    ensures Valid(g.(streams := g.streams + [s]))
  {
    var g' := g.(streams := g.streams + [s]);
    assert WellFormed(g');
    forall t | 0 <= t < |g'.streams| ensures Agrees(g', t) {
      if t < |g.streams| { assert Agrees(g, t); SameDests(g, g', t); }
    }
  }

  lemma SameDests(g: Graph, g': Graph, t: nat)
    requires WellFormed(g) && WellFormed(g') && t < |g.streams| && t < |g'.streams|
    requires g'.streams[t] == g.streams[t] && g.dests <= g'.dests
    ensures Agrees(g', t) == Agrees(g, t)
  {
    var list := g.streams[t].destList;
    assert forall i :: 0 <= i < |list| ==> g'.dests[list[i]] == g.dests[list[i]];
  }

  lemma WithDestFits(g: Graph, s: nat)
    requires WellFormed(g) && s < |g.streams|
    ensures WellFormed(WithDest(g, s))
  {
    var g' := WithDest(g, s);
    forall d | 0 <= d < |g'.dests| ensures g'.dests[d].stream < |g'.streams|
      && d in g'.streams[g'.dests[d].stream].destList {
      WithDestListed(g, s, d);
    }
    forall t, i | 0 <= t < |g'.streams| && 0 <= i < |g'.streams[t].destList|
      ensures g'.streams[t].destList[i] < |g'.dests| && g'.dests[g'.streams[t].destList[i]].stream == t
    {
      if t == s && i > 0 { assert g'.streams[t].destList[i] == g.streams[t].destList[i - 1]; }
    }
  }

  lemma WithDestListed(g: Graph, s: nat, d: nat)
    requires WellFormed(g) && s < |g.streams| && d <= |g.dests|
    ensures var g' := WithDest(g, s); g'.dests[d].stream < |g'.streams| && d in g'.streams[g'.dests[d].stream].destList
  {
    var list := g.streams[s].destList;
    if d == |g.dests| {
      assert ([d] + list)[0] == d;
    } else if g.dests[d].stream == s {
      var i :| 0 <= i < |list| && list[i] == d;
      assert ([|g.dests|] + list)[i + 1] == d;
    }
  }

  lemma MoreDests(g: Graph, s: nat)
    requires Valid(g) && s < |g.streams|
    ensures Valid(WithDest(g, s)) && Leaf(WithDest(g, s), |g.dests|)
    ensures forall e: nat :: Leaf(g, e) ==> Leaf(WithDest(g, s), e)
  {
    var g', n := WithDest(g, s), |g.dests|;
    WithDestFits(g, s);
    forall t | 0 <= t < |g'.streams| ensures Agrees(g', t) {
      assert Agrees(g, t);
      NotAwaitedMore(g, s, t);
    }
  }

  lemma NotAwaitedMore(g: Graph, s: nat, t: nat)
    requires WellFormed(g) && s < |g.streams| && t < |g.streams| && WellFormed(WithDest(g, s))
    ensures Awaited(WithDest(g, s), t) == Awaited(g, t) && Told(WithDest(g, s), t) == Told(g, t)
  {
    hide WellFormed, Told;
    SameInputs(g, s, t);
    ListsOf(g, s, t);
    StillWaits(g.dests, g.streams[t].destList, s);
    hide WithDest;
  }

  predicate SomeWaits(dests: seq<Dest>, list: seq<nat>) {
    exists i :: 0 <= i < |list| && list[i] < |dests| && dests[list[i]].waiting
  }

  /** A new destination does not wait. */
  lemma StillWaits(dests: seq<Dest>, list: seq<nat>, s: nat)
    requires forall i :: 0 <= i < |list| ==> list[i] < |dests|
    ensures SomeWaits(dests + [Dest(s, false)], list) == SomeWaits(dests, list)
    ensures SomeWaits(dests + [Dest(s, false)], [|dests|] + list) == SomeWaits(dests, list)
  {
    var list', dests' := [|dests|] + list, dests + [Dest(s, false)];
    if SomeWaits(dests, list) {
      var i :| 0 <= i < |list| && list[i] < |dests| && dests[list[i]].waiting;
      assert dests'[list[i]].waiting && list'[i + 1] == list[i];
    }
    if SomeWaits(dests', list') {
      var i :| 0 <= i < |list'| && list'[i] < |dests'| && dests'[list'[i]].waiting;
      assert i > 0 && dests[list[i - 1]].waiting;
    }
  }

  lemma SameInputs(g: Graph, s: nat, t: nat)
    requires WellFormed(g) && s < |g.streams| && t < |g.streams|
    ensures g.streams[t].input.Some? ==> g.streams[t].input.value < |g.dests|
    ensures Told(WithDest(g, s), t) == Told(g, t)
  {
  }

  lemma ListsOf(g: Graph, s: nat, t: nat)
    requires WellFormed(g) && s < |g.streams| && t < |g.streams|
    ensures WithDest(g, s).streams[t].destList == (if t == s then [|g.dests|] else []) + g.streams[t].destList
    ensures forall i :: 0 <= i < |g.streams[t].destList| ==> g.streams[t].destList[i] < |g.dests|
    ensures WellFormed(WithDest(g, s)) ==>
      Awaited(WithDest(g, s), t) == SomeWaits(WithDest(g, s).dests, WithDest(g, s).streams[t].destList)
    ensures Awaited(g, t) == SomeWaits(g.dests, g.streams[t].destList)
  {
  }

  lemma MoreConverters(g: Graph, name: string, format: int, d: nat)
    requires Valid(g) && Leaf(g, d) && !g.dests[d].waiting
    ensures Valid(g.(streams := g.streams + [Stream(name, format, [], Some(d), false)]))
  {
    var g' := g.(streams := g.streams + [Stream(name, format, [], Some(d), false)]);
    assert WellFormed(g');
    forall t | 0 <= t < |g'.streams| ensures Agrees(g', t) {
      if t < |g.streams| { assert Agrees(g, t); SameDests(g, g', t); }
    }
  }

  lemma ConvertingLeaves(g: Graph, base: nat, format: int)
    requires base < |g.streams|
    ensures forall e: nat :: Leaf(g, e) ==> Leaf(Converting(g, base, format), e)
  {
  }

  lemma LeafAgrees(g: Graph, d: nat)
    requires Valid(g) && Leaf(g, d)
    ensures AgreesUpTo(g, g.dests[d].stream)
  {
  }

  lemma LeafSettles(g: Graph, g': Graph, d: nat)
    requires Valid(g) && Leaf(g, d) && WellFormed(g') && SameChains(g, g') && StillAgrees(g, g', d)
    ensures Valid(g') && Leaf(g', d)
  {
  }

  lemma IsLeaf(g: Graph, d: nat)
    requires d < |g.dests| && forall t :: 0 <= t < |g.streams| ==> g.streams[t].input != Some(d)
    ensures Leaf(g, d)
  {
  }

  class Registry {
    var g: Graph
    var streamList: seq<nat>   // stream_list

    ghost predicate Lists()
      reads this
    {
      && Valid(g)
      && (forall i :: 0 <= i < |streamList| ==> streamList[i] < |g.streams|)
    }

    constructor ()
      ensures Lists() && g == Graph([], []) && streamList == []
    {
      g, streamList := Graph([], []), [];
    }

    /** set_waiting, and set_running with it. */
    method SetWaiting(d: nat, waiting: bool)
      requires WellFormed(g) && d < |g.dests| && AgreesUpTo(g, g.dests[d].stream)
      modifies this`g
      ensures WellFormed(g) && SameChains(old(g), g) && g.dests[d].waiting == waiting
      ensures StillAgrees(old(g), g, d) && OnlyTowards(old(g), g, d)
      decreases g.dests[d].stream
    {
      hide WellFormed, Agrees, Awaited, SameChains, StillAgrees, OnlyTowards, AgreesUpTo, Leaf;
      var s := g.dests[d].stream;
      StreamIn(g, d);
      if g.dests[d].waiting == waiting {
        Nothing(g, d);
        return;
      }
      SetDestChains(g, d, waiting);
      ghost var was := g;
      g := SetDest(g, d, waiting);
      if waiting {
        AwaitedNow(g, d);
      } else {
        var any := AnyWaiting(s);
        AwaitedIs(g, d, any);
        if any {
          WasTold(was, d);
          SetDestEnough(was, d, waiting);
          return;
        }
      }
      if g.streams[s].input.None? {
        SetSourceEnough(was, d, waiting);
        g := SetSource(g, s, waiting);
      } else {
        AgreesFurtherUp(was, d, waiting);
        InputIn(was, d);
        SetWaiting(g.streams[s].input.value, waiting);
        TowardsSource(was, g, d, waiting);
      }
    }

    /** See if anybody else is listening. */
    method AnyWaiting(s: nat) returns (any: bool)
      requires WellFormed(g) && s < |g.streams|
      ensures var list := g.streams[s].destList;
              && (forall i :: 0 <= i < |list| ==> list[i] < |g.dests|)
              && any == exists i :: 0 <= i < |list| && g.dests[list[i]].waiting
    {
      var list := g.streams[s].destList;
      any := false;
      for i := 0 to |list|
        invariant any == exists k :: 0 <= k < i && g.dests[list[k]].waiting
      {
        any := any || g.dests[list[i]].waiting;
      }
    }

    /** A listener starts or stops waiting. */
    method Listen(d: nat, waiting: bool)
      requires Lists() && Leaf(g, d)
      modifies this`g
      ensures Lists() && SameChains(old(g), g) && Leaf(g, d) && g.dests[d].waiting == waiting
      ensures forall e: nat :: Leaf(old(g), e) && e != d ==> e < |g.dests| && g.dests[e] == old(g).dests[e]
    {
      hide WellFormed, Agrees, Awaited;
      LeafAgrees(g, d);
      SetWaiting(d, waiting);
      LeafSettles(old(g), g, d);
    }

    /** new_stream: a source. */
    method NewStream(name: string, format: int) returns (s: nat)
      requires Lists()
      modifies this
      ensures Lists() && s == |old(g).streams| && streamList == [s] + old(streamList)
      ensures g == old(g).(streams := old(g).streams + [Stream(name, format, [], None, false)])
    {
      hide Valid;
      MoreStreams(g, Stream(name, format, [], None, false));
      s := |g.streams|;
      g := g.(streams := g.streams + [Stream(name, format, [], None, false)]);
      streamList := [s] + streamList;
    }

    /** new_dest */
    method NewDest(s: nat) returns (d: nat)
      requires Lists() && s < |g.streams|
      modifies this`g
      ensures Lists() && d == |old(g).dests| && g == WithDest(old(g), s)
      ensures Leaf(g, d) && forall e: nat :: Leaf(old(g), e) ==> Leaf(g, e)
    {
      hide Valid, WellFormed;
      MoreDests(g, s);
      d := |g.dests|;
      g := WithDest(g, s);
    }

    /** new_convert_stream: a stream that gets its frames from another. */
    method NewConvertStream(base: nat, format: int) returns (s: nat)
      requires Lists() && base < |g.streams|
      modifies this
      ensures Lists() && s == |old(g).streams| && g == Converting(old(g), base, format)
      ensures base in old(streamList) ==>
        exists i | Behind(old(streamList), i, base) :: streamList ==
          old(streamList)[..i + 1] + [s] + old(streamList)[i + 1..]
    {
      hide Valid, WellFormed, Leaf;
      var name := g.streams[base].name;
      var d := NewDest(base);
      MoreConverters(g, name, format, d);
      s := |g.streams|;
      g := g.(streams := g.streams + [Stream(name, format, [], Some(d), false)]);
      var i := 0;
      while i < |streamList| && streamList[i] != base
        invariant 0 <= i <= |streamList| && base !in streamList[..i]
      {
        i := i + 1;
      }
      assert i < |streamList| ==> Behind(streamList, i, base);
      var at := if i < |streamList| then i + 1 else i;
      streamList := streamList[..at] + [s] + streamList[at..];
    }

    /** format_match */
    method FormatMatch(format: int, formats: seq<int>) returns (yes: bool)
      ensures yes <==> formats == [] || format in formats
    {
      if |formats| == 0 { return true; }
      for i := 0 to |formats|
        invariant format !in formats[..i]
      {
        if format == formats[i] { return true; }
      }
      return false;
    }

    /** connect_to_stream: a stream of that name in a format that will do, or
        else a converter from one whose format can be converted. */
    method ConnectToStream(name: string, formats: seq<int>) returns (dest: Option<nat>)
      requires Lists()
      modifies this
      ensures Lists() && (forall e: nat :: Leaf(old(g), e) && (dest.None? || e < |old(g).dests|) ==> Leaf(g, e))
      ensures dest.Some? <==> exists i ::
                0 <= i < |old(streamList)| && Serves(old(g).streams[old(streamList)[i]], name, formats)
      ensures dest.None? ==> g == old(g)
      ensures dest.Some? ==>
        && Leaf(g, dest.value) && !g.dests[dest.value].waiting
        && g.dests[dest.value].stream < |g.streams|
        && var s := g.streams[g.dests[dest.value].stream];
           s.name == name && (formats == [] || s.format in formats)
      ensures forall i: nat | FirstSuits(old(g), old(streamList), i, name, formats) ::
        dest == Some(|old(g).dests|) && g == WithDest(old(g), old(streamList)[i]) && streamList == old(streamList)
      ensures forall i: nat | FirstServes(old(g), old(streamList), i, name, formats) ::
        dest == Some(|old(g).dests| + 1)
        && g == WithDest(Converting(old(g), old(streamList)[i], FORMAT_RAW_RGB24), |old(g).streams|)
    {
      hide Valid, WellFormed, Leaf, FirstSuits, FirstServes;
      var i := 0;
      while i < |streamList|
        invariant 0 <= i <= |streamList| && Lists() && g == old(g) && streamList == old(streamList)
        invariant forall k :: 0 <= k < i ==> !Suits(g.streams[streamList[k]], name, formats)
      {
        if g.streams[streamList[i]].name == name {
          var yes := FormatMatch(g.streams[streamList[i]].format, formats);
          if yes {
            FirstOnly(g, streamList, i, name, formats);
            var d := NewDest(streamList[i]);
            return Some(d);
          }
        }
        i := i + 1;
      }
      i := 0;
      while i < |streamList|
        invariant 0 <= i <= |streamList| && Lists() && g == old(g) && streamList == old(streamList)
        invariant forall k :: 0 <= k < i ==> !Serves(g.streams[streamList[k]], name, formats)
        invariant forall k :: 0 <= k < |streamList| ==> !Suits(g.streams[streamList[k]], name, formats)
      {
        if g.streams[streamList[i]].name == name && g.streams[streamList[i]].format == FORMAT_RAW_UYVY {
          var yes := FormatMatch(FORMAT_RAW_RGB24, formats);
          if yes {
            FirstConverted(g, streamList, i, name, formats);
            ConvertingLeaves(g, streamList[i], FORMAT_RAW_RGB24);
            var s := NewConvertStream(streamList[i], FORMAT_RAW_RGB24);
            var d := NewDest(s);
            return Some(d);
          }
        }
        i := i + 1;
      }
      FirstConverted(g, streamList, i, name, formats);
      return None;
    }

    /** Whatever is connected, and whoever waits or stops waiting, in whatever
        order: every source was last told to run iff somebody at the end of a
        chain from it waits. */
    method Run(steps: seq<Step>)
      requires Lists()
      modifies this
      ensures Lists()
      ensures forall s: nat :: s < |g.streams| && g.streams[s].input.None? ==>
        (g.streams[s].running <==> exists d: nat :: Leaf(g, d) && g.dests[d].waiting && SourceOf(g, d) == s)
    {
      for i := 0 to |steps|
        invariant Lists()
      {
        Do(steps[i]);
      }
      forall s: nat | s < |g.streams| && g.streams[s].input.None?
        ensures g.streams[s].running <==> exists d: nat :: Leaf(g, d) && g.dests[d].waiting && SourceOf(g, d) == s
      {
        SourceRunsIff(g, s);
      }
    }

    method Do(step: Step)
      requires Lists()
      modifies this
      ensures Lists()
    {
      hide Valid, WellFormed, Leaf;
      match step {
        case Source(name, format) => var s := NewStream(name, format);
        case Connect(name, formats) => var d := ConnectToStream(name, formats);
        case Filter(base, format) => if base < |g.streams| { var s := NewConvertStream(base, format); }
        case Wait(d, waiting) =>
          var isLeaf := d < |g.dests|;
          for s := 0 to |g.streams|
            invariant isLeaf <==> d < |g.dests| && forall t :: 0 <= t < s ==> g.streams[t].input != Some(d)
          {
            isLeaf := isLeaf && g.streams[s].input != Some(d);
          }
          if isLeaf {
            IsLeaf(g, d);
            Listen(d, waiting);
          }
      }
    }
  }

  lemma StreamIn(g: Graph, d: nat)
    requires WellFormed(g) && d < |g.dests|
    ensures g.dests[d].stream < |g.streams|
  {
  }

  lemma InputIn(g: Graph, d: nat)
    requires WellFormed(g) && d < |g.dests| && g.streams[g.dests[d].stream].input.Some?
    ensures var e := g.streams[g.dests[d].stream].input.value; e < |g.dests| && g.dests[e].stream < g.dests[d].stream
  {
  }

  lemma Nothing(g: Graph, d: nat)
    requires WellFormed(g) && d < |g.dests|
    ensures SameChains(g, g) && StillAgrees(g, g, d) && OnlyTowards(g, g, d)
  {
  }

  /** Of several listeners one left: the stream has been told that it is awaited. */
  lemma WasTold(g: Graph, d: nat)
    requires WellFormed(g) && d < |g.dests| && g.dests[d].waiting && AgreesUpTo(g, g.dests[d].stream)
    requires WellFormed(SetDest(g, d, false)) && Awaited(SetDest(g, d, false), g.dests[d].stream)
    ensures Agrees(SetDest(g, d, false), g.dests[d].stream)
  {
    AwaitedNow(g, d);
    var s := g.dests[d].stream;
    assert Agrees(g, s);
    if g.streams[s].input.Some? { InputIn(g, d); }
  }
}
