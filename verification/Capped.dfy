/** A reachable store whose export fails although its first event fits the page. */
module Capped {
  import opened Base
  import opened Sorting
  import opened Weights
  import opened Graph
  import opened Tables
  import opened Bundles
  import opened Runs
  import opened Projections
  import opened Paging
  import opened Export
  import opened Invocations
  import opened Samples

  const LINKS := 40
  const MEGABYTE := 1000000
  const PAGE_LIMIT := 2000000

  /** The genesis, and above it a chain of notes of one megabyte each. */
  function ChainEvent(id: EventId): Event {
    if id <= 1 then ROOT else Child(id, id - 1, "note", 999000, MEGABYTE)
  }

  function Chain(n: nat): seq<Event> {
    if n == 0 then [] else Chain(n - 1) + [ChainEvent(n + 1)]
  }

  ghost predicate Chained(ev: map<EventId, Event>, n: nat) {
    forall id :: (id in ev <==> 1 <= id <= n + 1) && (id in ev ==> ev[id] == ChainEvent(id))
  }

  lemma {:induction false} ChainGrows(n: nat)
    ensures Growable(Chain(n)) && Chained(SampleEvents(Chain(n)), n)
  {
    hide Ascending;
    if n > 0 {
      ChainGrows(n - 1);
      var es := Chain(n);
      assert es[..|es| - 1] == Chain(n - 1) && es[|es| - 1] == ChainEvent(n + 1);
      assert |GENESIS_KIND| != |"note"|;
      assert ChainEvent(n + 1).body.kind != GENESIS_KIND;
    }
  }

  /** A parent-first order of a chain counts it off. */
  lemma {:induction false} ChainOrder(ev: map<EventId, Event>, n: nat, s: seq<EventId>, k: nat)
    requires Chained(ev, n) && Topo(Links(ev), s) && k <= |s|
    ensures forall j :: 0 <= j < k ==> s[j] == j + 1
    decreases k
  {
    hide Ascending;
    if k > 0 {
      ChainOrder(ev, n, s, k - 1);
      var id := s[k - 1];
      assert id in ev;
      if id > 1 {
        assert id - 1 in Links(ev)[id];
        assert id - 1 in s[..k - 1];
      }
      if k > 1 {
        var v := if id < k then id else 1;
        assert s[v - 1] == v;
      }
    }
  }

  ghost predicate Counts(order: seq<EventId>, n: nat) {
    |order| == n && Distinct(order) && forall j :: 0 <= j < n ==> order[j] == j + 1
  }

  lemma ChainWalk(ev: map<EventId, Event>, n: nat) returns (order: seq<EventId>)
    requires Chained(ev, n) && Closed(Links(ev)) && !Cyclic(Links(ev))
    ensures PostOrder(Links(ev), [], [n + 1], []) == Ordered(order) && Counts(order, n + 1)
    ensures Anc(Links(ev), {n + 1}) == Elems(order)
  {
    hide Anc, Ascending, Cyclic, Closed, CyclicFrom, PostOrder;
    var g := Links(ev);
    assert n + 1 in g;
    assert Elems<EventId>([n + 1]) == {n + 1};
    PostOrderTotal(g, [n + 1]);
    PostOrderExact(g, [n + 1]);
    PostOrderSound(g, [], [n + 1], []);
    order := PostOrder(g, [], [n + 1], []).order;
    ChainOrder(ev, n, order, |order|);
    assert n + 1 in [n + 1];
    var k :| 0 <= k < |order| && order[k] == n + 1;
    ChainEnds(ev, n, order);
  }

  lemma ChainEnds(ev: map<EventId, Event>, n: nat, s: seq<EventId>)
    requires Chained(ev, n) && Topo(Links(ev), s) && forall j :: 0 <= j < |s| ==> s[j] == j + 1
    ensures |s| <= n + 1
  {
    hide Ascending;
    if s != [] {
      assert s[|s| - 1] in Links(ev);
    }
  }

  lemma ChainPlan(t: Tables, ev: map<EventId, Event>, n: nat) returns (order: seq<EventId>)
    requires Sample(t, ev) && Chained(ev, n)
    ensures Plan(t, 0, [n + 1]) == Ordered(order) && Counts(order, n + 1)
    ensures Anc(ContextGraph(t, 0), {n + 1}) == Elems(order)
  {
    SampleReads(t, ev);
    hide *;
    order := ChainWalk(ev, n);
    PlanIs(t, 0, [n + 1], Links(ev));
  }

  lemma PlanIs(t: Tables, c: ContextId, heads: seq<EventId>, g: Graph)
    requires ContextGraph(t, c) == g
    ensures Plan(t, c, heads) == PostOrder(g, [], heads, [])
  {
  }

  lemma {:induction false} ChainBytes(events: seq<Event>, k: nat)
    requires 1 <= k <= |events| && forall i :: 0 <= i < |events| ==> events[i] == ChainEvent(i + 1)
    ensures EventBytes(events[..k]) == 300 + (k - 1) * MEGABYTE
    decreases k
  {
    hide Ascending;
    assert events[..k][..k - 1] == events[..k - 1];
    if k > 1 { ChainBytes(events, k - 1); } else { assert EventBytes([]) == 0 && events[..0] == []; }
  }

  lemma ChainPageBytes(events: seq<Event>, k: nat)
    requires 1 <= k <= |events| && forall i :: 0 <= i < |events| ==> events[i] == ChainEvent(i + 1)
    ensures PageBytes(events, k) == EMPTY_BUNDLE_BYTES + 300 + (k - 1) * MEGABYTE + (k - 1)
  {
    hide Ascending, EventBytes;
    ChainBytes(events, k);
    assert RefBytes([]) == 0;
  }

  lemma {:induction false} ChainWeight(w: map<EventId, nat>, order: seq<EventId>, k: nat)
    requires k <= |order| && forall j :: 0 <= j < |order| ==> order[j] == j + 1
    requires forall id :: id in w ==> w[id] <= MEGABYTE
    ensures SeqWeight(w, order[..k]) <= k * MEGABYTE
    decreases k
  {
    if k > 0 {
      assert order[..k][..k - 1] == order[..k - 1];
      ChainWeight(w, order, k - 1);
    }
  }

  lemma ChainFits(t: Tables, ev: map<EventId, Event>, order: seq<EventId>)
    requires Sample(t, ev) && Chained(ev, LINKS) && Plan(t, 0, [LINKS + 1]) == Ordered(order) && Counts(order, LINKS + 1)
    requires Anc(ContextGraph(t, 0), {LINKS + 1}) == Elems(order)
    ensures Projectable(t, 0, [LINKS + 1])
  {
    SampleReads(t, ev);
    var w := WireSizes(t, 0);
    ChainSizes(ev, w);
    hide *;
    OrderWeight(w, order);
    FitsFrom(t, order);
  }

  lemma OrderWeight(w: map<EventId, nat>, order: seq<EventId>)
    requires Counts(order, LINKS + 1) && forall id :: id in w ==> w[id] <= MEGABYTE
    ensures Weight(w, Elems(order)) <= (LINKS + 1) * MEGABYTE && |Elems(order)| == LINKS + 1
  {
    hide Weight, SeqWeight;
    DistinctSize(order);
    ChainWeight(w, order, |order|);
    assert order[..|order|] == order;
    SeqWeightIsWeight(w, order);
  }

  lemma FitsFrom(t: Tables, order: seq<EventId>)
    requires Plan(t, 0, [LINKS + 1]).Ordered? && Anc(ContextGraph(t, 0), {LINKS + 1}) == Elems(order)
    requires Weight(WireSizes(t, 0), Elems(order)) <= (LINKS + 1) * MEGABYTE && |Elems(order)| == LINKS + 1
    ensures Projectable(t, 0, [LINKS + 1])
  {
    hide Plan, Anc, ContextGraph, WireSizes, Weight;
    assert Elems<EventId>([LINKS + 1]) == {LINKS + 1};
  }

  lemma ChainSizes(ev: map<EventId, Event>, w: map<EventId, nat>)
    requires Chained(ev, LINKS) && w == map id | id in ev :: ev[id].body.wireBytes
    ensures forall id :: id in w ==> w[id] <= MEGABYTE
  {
    hide Ascending;
    forall id | id in w ensures w[id] <= MEGABYTE { assert ev[id] == ChainEvent(id); }
  }

  lemma ChainNotPageable(t: Tables, ev: map<EventId, Event>, d: seq<EventId>)
    requires Sample(t, ev) && Chained(ev, LINKS) && Counts(d, LINKS + 1)
    ensures !Pageable(t, d, MAX_BUNDLE_EVENTS, PAGE_LIMIT)
  {
    hide Sample, Inv, LoadVerified, Ascending, PageBytes, Searchable, ContextGraph, WireSizes;
    SampleReads(t, ev);
    forall events: seq<Event> | Loaded(t, events) && Ids(events) == d
      ensures !SizedRest(t, d, MAX_BUNDLE_EVENTS, PAGE_LIMIT, events)
    {
      assert |events| == |Ids(events)|;
      forall i | 0 <= i < |events| ensures events[i] == ChainEvent(i + 1) {
        assert Ids(events)[i] == events[i].id;
        assert ev[i + 1] == ChainEvent(i + 1);
      }
      ChainPageBytes(events, 1 + LINKS / 2);
      FirstTryDefeats(events, LINKS + 1, PAGE_LIMIT);
    }
  }

  /** After a run that creates a context and chains forty megabyte notes, exporting the last one to a
      client that knows nothing fails: the request is valid, its ancestry projects, and the first event
      fits the page, but the search stops at the hard cap instead of narrowing. */
  lemma CapRefusesExport()
    ensures var t := Run(EMPTY, SampleOps(Chain(LINKS)));
      && Inv(t) && ActiveContext(t, 0).Ok? && Projectable(t, 0, [LINKS + 1])
      && Difference(t, 0, [LINKS + 1], []) != [] && Difference(t, 0, [LINKS + 1], [])[0] == 1
      && LoadVerified(t, 1) == Ok(ROOT) && BundleBytes(Page(0, [ROOT])) <= PAGE_LIMIT
      && !Exportable(t, 0, [LINKS + 1], [], 0, MAX_BUNDLE_EVENTS, PAGE_LIMIT)
  {
    var es := Chain(LINKS);
    ChainGrows(LINKS);
    SampleIs(es);
    hide *;
    CapRefuses(Run(EMPTY, SampleOps(es)), SampleEvents(es));
  }

  lemma CapRefuses(t: Tables, ev: map<EventId, Event>)
    requires Sample(t, ev) && Chained(ev, LINKS)
    ensures Inv(t) && ActiveContext(t, 0).Ok? && Projectable(t, 0, [LINKS + 1])
    ensures Difference(t, 0, [LINKS + 1], []) != [] && Difference(t, 0, [LINKS + 1], [])[0] == 1
    ensures LoadVerified(t, 1) == Ok(ROOT) && BundleBytes(Page(0, [ROOT])) <= PAGE_LIMIT
    ensures !Exportable(t, 0, [LINKS + 1], [], 0, MAX_BUNDLE_EVENTS, PAGE_LIMIT)
  {
    hide Run, Inv, LoadVerified, Pageable, Projectable, Plan, BundleBytes, ContextGraph, WireSizes, Ascending, Anc,
         KnownContext, Parsed,
      Closed, Cyclic, Links, Difference;
    var order := ChainPlan(t, ev, LINKS);
    ChainFits(t, ev, order);
    NothingKnown(t, 0);
    DifferenceIs(t, 0, [LINKS + 1], []);
    WithoutNothing(order);
    ChainNotPageable(t, ev, order);
    SortOfAscending([LINKS + 1]);
    SortOfAscending([]);
    assert order[0..] == order;
    RootFits();
    RootLoads(t, ev);
  }

  lemma RootLoads(t: Tables, ev: map<EventId, Event>)
    requires Sample(t, ev) && Chained(ev, LINKS)
    ensures LoadVerified(t, 1) == Ok(ROOT)
  {
    SampleReads(t, ev);
    hide LoadVerified, Ascending;
    assert ev[1] == ChainEvent(1);
  }

  lemma {:induction false} WithoutNothing(order: seq<EventId>)
    ensures Without(order, {}) == order
  {
    if order != [] {
      WithoutNothing(order[..|order| - 1]);
    }
  }

  lemma RootFits()
    ensures BundleBytes(Page(0, [ROOT])) <= PAGE_LIMIT
  {
    assert [ROOT][..0] == [] && EventBytes([]) == 0 && RefBytes([]) == 0;
  }
}
