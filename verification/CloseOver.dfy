/** Pure closure over explicit nodes: reachable set, dangling edges, cycle flag and bound. */
module CloseOver {
  import opened Base
  import opened Sorting
  import opened Graph
  import opened Walker
  import opened Projections
  import opened Lineages

  datatype DanglingEdge = DanglingEdge(child: EventId, parent: EventId)
  datatype ClosureReport = ClosureReport(closed: seq<EventId>, dangling: seq<DanglingEdge>, cycle: bool, exceeded: bool)

  // ---------------------------------------------------------------- canonical edge lists

  predicate EdgeBefore(a: DanglingEdge, b: DanglingEdge) {
    a.child < b.child || (a.child == b.child && a.parent < b.parent)
  }

  predicate EdgesAscend(s: seq<DanglingEdge>) {
    forall i, j :: 0 <= i < j < |s| ==> EdgeBefore(s[i], s[j])
  }

  function InsertEdge(s: seq<DanglingEdge>, x: DanglingEdge): (r: seq<DanglingEdge>)
    requires EdgesAscend(s)
    ensures EdgesAscend(r) && forall y :: y in r <==> y == x || y in s
  {
    if s == [] then [x]
    else if EdgeBefore(s[|s| - 1], x) then s + [x]
    else if s[|s| - 1] == x then s
    else
      var t := InsertEdge(s[..|s| - 1], x);
      assert forall y :: y in s <==> y in s[..|s| - 1] || y == s[|s| - 1];
      assert forall i :: 0 <= i < |t| ==> t[i] in t;
      t + [s[|s| - 1]]
  }

  function SortEdges(xs: seq<DanglingEdge>): (r: seq<DanglingEdge>)
    ensures EdgesAscend(r) && Elems(r) == Elems(xs)
  {
    if xs == [] then []
    else
      assert forall y :: y in xs <==> y in xs[..|xs| - 1] || y == xs[|xs| - 1];
      var t := SortEdges(xs[..|xs| - 1]);
      assert forall y :: y in t <==> y in Elems(t);
      InsertEdge(t, xs[|xs| - 1])
  }

  lemma {:induction false} EdgesUnique(a: seq<DanglingEdge>, b: seq<DanglingEdge>)
    requires EdgesAscend(a) && EdgesAscend(b) && Elems(a) == Elems(b)
    ensures a == b
    decreases |a|
  {
    DistinctSize(a);
    DistinctSize(b);
    if a != [] {
      assert a[0] in Elems(b) && b[0] in Elems(a);
      assert a[0] == b[0];
      forall x ensures x in Elems(a[1..]) <==> x in Elems(b[1..]) {
        assert a == [a[0]] + a[1..] && b == [b[0]] + b[1..];
        assert x in Elems(a) <==> x in Elems(b);
      }
      EdgesUnique(a[1..], b[1..]);
    }
  }

  // ---------------------------------------------------------------- the node table

  /** Parents are normalized; of several nodes with one id the last is kept. */
  function ById(nodes: seq<EventNode>): map<EventId, seq<EventId>> {
    if nodes == [] then map[]
    else
      var n := nodes[|nodes| - 1];
      ById(nodes[..|nodes| - 1])[n.event := SortDedup(n.parents)]
  }

  function PresentParents(byId: map<EventId, seq<EventId>>, parents: seq<EventId>): seq<EventId> {
    if parents == [] then []
    else (if parents[0] in byId then [parents[0]] else []) + PresentParents(byId, parents[1..])
  }

  /** The subgraph of present nodes. */
  function Live(byId: map<EventId, seq<EventId>>): Graph {
    map id | id in byId :: PresentParents(byId, byId[id])
  }

  function DanglingOf(byId: map<EventId, seq<EventId>>, ids: set<EventId>): set<DanglingEdge> {
    set c, p | c in ids && c in byId && p in byId[c] && p !in byId :: DanglingEdge(c, p)
  }

  lemma {:induction false} PresentParentsAre(byId: map<EventId, seq<EventId>>, parents: seq<EventId>)
    ensures forall p :: p in PresentParents(byId, parents) <==> p in parents && p in byId
  {
    if parents != [] {
      PresentParentsAre(byId, parents[1..]);
      assert parents == [parents[0]] + parents[1..];
    }
  }

  lemma LiveEdges(byId: map<EventId, seq<EventId>>)
    ensures forall a, b :: Edge(Live(byId), a, b) <==> a in byId && b in byId[a] && b in byId
    ensures Closed(Live(byId)) && Live(byId).Keys == byId.Keys
  {
    hide PresentParents;
    forall a | a in byId ensures forall b :: b in PresentParents(byId, byId[a]) <==> b in byId[a] && b in byId {
      PresentParentsAre(byId, byId[a]);
    }
  }

  lemma {:induction false} ByIdKeys(nodes: seq<EventNode>)
    ensures ById(nodes).Keys == Elems(NodeIds(nodes))
  {
    if nodes != [] {
      ByIdKeys(nodes[..|nodes| - 1]);
      assert NodeIds(nodes) == NodeIds(nodes[..|nodes| - 1]) + [nodes[|nodes| - 1].event];
    }
  }

  lemma {:induction false} ByIdOf(nodes: seq<EventNode>, i: nat)
    requires Distinct(NodeIds(nodes)) && i < |nodes|
    ensures nodes[i].event in ById(nodes) && ById(nodes)[nodes[i].event] == SortDedup(nodes[i].parents)
  {
    var k := |nodes| - 1;
    if i < k {
      var init := nodes[..k];
      forall a, b | 0 <= a < b < k ensures NodeIds(init)[a] != NodeIds(init)[b] {
        assert NodeIds(nodes)[a] != NodeIds(nodes)[b];
      }
      ByIdOf(init, i);
      assert NodeIds(nodes)[i] != NodeIds(nodes)[k];
    }
  }

  // ---------------------------------------------------------------- the walk

  /** What a report says about the node table. */
  ghost predicate Closes(byId: map<EventId, seq<EventId>>, limits: ClosureLimits, r: ClosureReport) {
    && Ascending(r.closed) && EdgesAscend(r.dangling) && Elems(r.closed) <= byId.Keys
    && (r.exceeded <==> |byId| > limits.maxEvents)
    && (r.exceeded ==> |Elems(r.closed)| == limits.maxEvents && (r.cycle ==> Cyclic(Live(byId))))
    && (!r.exceeded ==>
          && Elems(r.closed) == byId.Keys
          && Elems(r.dangling) == DanglingOf(byId, byId.Keys)
          && (r.cycle <==> Cyclic(Live(byId))))
  }

  /** Every coloured node is closed once, with its absent parents. */
  ghost predicate Tallied(byId: map<EventId, seq<EventId>>, state: map<EventId, nat>, closed: seq<EventId>,
                          dangling: seq<DanglingEdge>)
  {
    && Distinct(closed) && Elems(closed) == state.Keys && |closed| == |state|
    && state.Keys <= byId.Keys
    && (forall k :: k in state ==> state[k] == IN_PROGRESS || state[k] == FINISHED)
    && Elems(dangling) == DanglingOf(byId, state.Keys)
  }

  /** Only coloured nodes are left to be finished, and every other node still waits on the stack. */
  ghost predicate Waits(byId: map<EventId, seq<EventId>>, stack: seq<Frame>, seen: set<EventId>) {
    && (forall f :: f in stack ==> f.id in byId && (f.Exit? ==> f.id in seen))
    && (forall k :: k in byId && k !in seen ==> exists f :: f in stack && f.Enter? && f.id == k)
  }

  ghost predicate Swept(byId: map<EventId, seq<EventId>>, stack: seq<Frame>, state: map<EventId, nat>, closed: seq<EventId>,
                        dangling: seq<DanglingEdge>)
  {
    Tallied(byId, state, closed, dangling) && Waits(byId, stack, state.Keys)
  }

  lemma {:induction false} PushHolds(base: seq<Frame>, ids: seq<EventId>, child: Option<EventId>)
    ensures forall f :: f in PushEnters(base, ids, child) <==> f in base || (f.Enter? && f.child == child && f.id in ids)
  {
    if ids != [] {
      PushHolds(base, ids[1..], child);
      assert ids == [ids[0]] + ids[1..];
    }
  }

  lemma SweepStart(byId: map<EventId, seq<EventId>>, starts: seq<EventId>)
    requires Elems(starts) == byId.Keys
    ensures Swept(byId, PushEnters([], starts, None), map[], [], [])
  {
    PushHolds([], starts, None);
    forall k | k in byId ensures Enter(k, None) in PushEnters([], starts, None) {
      assert k in Elems(starts);
    }
    assert DanglingOf(byId, {}) == {};
  }

  lemma SweepPop(byId: map<EventId, seq<EventId>>, stack: seq<Frame>, state: map<EventId, nat>, closed: seq<EventId>,
                 dangling: seq<DanglingEdge>)
    requires Swept(byId, stack, state, closed, dangling) && stack != [] && (stack[|stack| - 1].Enter? ==> stack[|stack| - 1].id in state)
    ensures Swept(byId, stack[..|stack| - 1], state, closed, dangling)
  {
    var rest := stack[..|stack| - 1];
    assert stack == rest + [stack[|stack| - 1]];
  }

  lemma SweepExit(byId: map<EventId, seq<EventId>>, stack: seq<Frame>, state: map<EventId, nat>, closed: seq<EventId>,
                  dangling: seq<DanglingEdge>, id: EventId)
    requires Swept(byId, stack, state, closed, dangling) && id in state
    ensures Swept(byId, stack, state[id := FINISHED], closed, dangling)
    ensures state[id := FINISHED].Keys == state.Keys
  {
    SameKeys(state, id, FINISHED);
  }

  lemma TallyOne(byId: map<EventId, seq<EventId>>, state: map<EventId, nat>, closed: seq<EventId>, dangling: seq<DanglingEdge>,
                 id: EventId, more: seq<DanglingEdge>)
    requires Tallied(byId, state, closed, dangling) && id in byId && id !in state
    requires Elems(more) == Elems(dangling) + DanglingOf(byId, {id})
    ensures Tallied(byId, state[id := IN_PROGRESS], closed + [id], more)
  {
    MapGrows(state, id, IN_PROGRESS);
    var now := state[id := IN_PROGRESS];
    assert DanglingOf(byId, now.Keys) == DanglingOf(byId, state.Keys) + DanglingOf(byId, {id});
    forall i | 0 <= i < |closed| ensures closed[i] != id { assert closed[i] in Elems(closed); }
  }

  lemma WaitPush(byId: map<EventId, seq<EventId>>, stack: seq<Frame>, seen: set<EventId>)
    requires Waits(byId, stack, seen) && stack != [] && stack[|stack| - 1].id in byId
    ensures var id := stack[|stack| - 1].id;
      Waits(byId, PushEnters(stack[..|stack| - 1] + [Exit(id)], PresentParents(byId, byId[id]), Some(id)), seen + {id})
  {
    hide PresentParents, PushEnters;
    var f := stack[|stack| - 1];
    var id := f.id;
    var rest := stack[..|stack| - 1];
    assert stack == rest + [f];
    PresentParentsAre(byId, byId[id]);
    PushHolds(rest + [Exit(id)], PresentParents(byId, byId[id]), Some(id));
    var pushed := PushEnters(rest + [Exit(id)], PresentParents(byId, byId[id]), Some(id));
    forall k | k in byId && k !in seen + {id} ensures exists g :: g in pushed && g.Enter? && g.id == k {
      var g :| g in stack && g.Enter? && g.id == k;
      assert g in rest;
    }
  }

  lemma SweepEnter(byId: map<EventId, seq<EventId>>, stack: seq<Frame>, state: map<EventId, nat>, closed: seq<EventId>,
                   dangling: seq<DanglingEdge>, more: seq<DanglingEdge>)
    requires Swept(byId, stack, state, closed, dangling) && stack != [] && stack[|stack| - 1].Enter?
    requires stack[|stack| - 1].id !in state && stack[|stack| - 1].id in byId
    requires Elems(more) == Elems(dangling) + DanglingOf(byId, {stack[|stack| - 1].id})
    ensures var id := stack[|stack| - 1].id;
      && Swept(byId, PushEnters(stack[..|stack| - 1] + [Exit(id)], PresentParents(byId, byId[id]), Some(id)),
               state[id := IN_PROGRESS], closed + [id], more)
      && byId.Keys - state[id := IN_PROGRESS].Keys < byId.Keys - state.Keys
  {
    hide PresentParents, PushEnters, Tallied, Waits, DanglingOf;
    var id := stack[|stack| - 1].id;
    TallyOne(byId, state, closed, dangling, id, more);
    WaitPush(byId, stack, state.Keys);
    MapGrows(state, id, IN_PROGRESS);
    assert id in byId.Keys - state.Keys;
  }

  lemma PushStep(byId: map<EventId, seq<EventId>>, base: seq<Frame>, parents: seq<EventId>, i: nat, child: Option<EventId>)
    requires i < |parents|
    ensures PushEnters(base, PresentParents(byId, parents[i..]), child)
         == PushEnters(base, PresentParents(byId, parents[i + 1..]), child) + if parents[i] in byId then [Enter(parents[i], child)] else []
  {
    assert parents[i..][0] == parents[i] && parents[i..][1..] == parents[i + 1..];
    var rest := PresentParents(byId, parents[i + 1..]);
    assert ([parents[i]] + rest)[1..] == rest && [] + rest == rest;
  }

  /** Pushes the present parents, in canonical order from the top, and records the absent ones. */
  method PushParents(byId: map<EventId, seq<EventId>>, base: seq<Frame>, id: EventId, dangling: seq<DanglingEdge>)
    returns (stack: seq<Frame>, more: seq<DanglingEdge>)
    requires id in byId
    ensures stack == PushEnters(base, PresentParents(byId, byId[id]), Some(id))
    ensures Elems(more) == Elems(dangling) + DanglingOf(byId, {id})
  {
    hide PresentParents, PushEnters, AbsentAmong;
    var parents := byId[id];
    stack, more := base, dangling;
    PushNothing(byId, base, id, parents);
    var i := |parents|;
    while i > 0
      invariant 0 <= i <= |parents|
      invariant stack == PushEnters(base, PresentParents(byId, parents[i..]), Some(id))
      invariant Elems(more) == Elems(dangling) + AbsentAmong(byId, id, parents[i..])
    {
      i := i - 1;
      var parent := parents[i];
      PushStep(byId, base, parents, i, Some(id));
      AbsentStep(byId, id, parents, i);
      if parent in byId {
        stack := stack + [Enter(parent, Some(id))];
      } else {
        assert Elems(more + [DanglingEdge(id, parent)]) == Elems(more) + {DanglingEdge(id, parent)};
        more := more + [DanglingEdge(id, parent)];
      }
    }
    assert parents[0..] == parents;
    AbsentAll(byId, id);
  }

  function AbsentAmong(byId: map<EventId, seq<EventId>>, id: EventId, parents: seq<EventId>): set<DanglingEdge> {
    set p | p in parents && p !in byId :: DanglingEdge(id, p)
  }

  lemma PushNothing(byId: map<EventId, seq<EventId>>, base: seq<Frame>, id: EventId, parents: seq<EventId>)
    ensures PushEnters(base, PresentParents(byId, parents[|parents|..]), Some(id)) == base
    ensures AbsentAmong(byId, id, parents[|parents|..]) == {}
  {
  }

  lemma AbsentStep(byId: map<EventId, seq<EventId>>, id: EventId, parents: seq<EventId>, i: nat)
    requires i < |parents|
    ensures AbsentAmong(byId, id, parents[i..])
         == AbsentAmong(byId, id, parents[i + 1..]) + if parents[i] in byId then {} else {DanglingEdge(id, parents[i])}
  {
    assert parents[i..] == [parents[i]] + parents[i + 1..];
  }

  lemma AbsentAll(byId: map<EventId, seq<EventId>>, id: EventId)
    requires id in byId
    ensures AbsentAmong(byId, id, byId[id]) == DanglingOf(byId, {id})
  {
  }

  lemma CycleIsReal(g: Graph, heads: seq<EventId>, stack: seq<Frame>, state: map<EventId, nat>, done: seq<EventId>)
    requires Walking(g, heads, stack, state, done) && stack != [] && stack[|stack| - 1].Enter?
    requires stack[|stack| - 1].id in state && state[stack[|stack| - 1].id] == IN_PROGRESS
    ensures Cyclic(g)
  {
    hide Walking, PostOrder;
    Stuck(g, heads, stack, state, done);
    PostOrderCycle(g, Elems(heads), [], heads, []);
  }

  lemma WalkedAcyclic(g: Graph, heads: seq<EventId>, state: map<EventId, nat>, done: seq<EventId>)
    requires Walking(g, heads, [], state, done) && Elems(heads) == g.Keys
    ensures !Cyclic(g)
  {
    hide PostOrder, Cyclic, CyclicFrom;
    PostOrderExact(g, heads);
    CycleReached(g, Elems(heads));
  }

  lemma CycleReached(g: Graph, heads: set<EventId>)
    requires heads == g.Keys
    ensures Cyclic(g) ==> CyclicFrom(g, heads)
  {
    if Cyclic(g) {
      var p :| IsCycle(g, p);
      assert Edge(g, p[0], p[1]);
      ReachSelf(g, p[0]);
      assert ReachFrom(g, heads, p[0]);
    }
  }

  // ---------------------------------------------------------------- the walk as a function of the table

  /** What a walk has found when it ends or is cut off. */
  datatype Outcome = Outcome(seen: set<EventId>, cycle: bool, exceeded: bool)

  ghost predicate OnTable(byId: map<EventId, seq<EventId>>, stack: seq<Frame>) {
    forall f :: f in stack ==> f.id in byId
  }

  lemma PushedOnTable(byId: map<EventId, seq<EventId>>, rest: seq<Frame>, id: EventId)
    requires OnTable(byId, rest) && id in byId
    ensures OnTable(byId, PushEnters(rest + [Exit(id)], PresentParents(byId, byId[id]), Some(id)))
  {
    hide PresentParents, PushEnters;
    PresentParentsAre(byId, byId[id]);
    PushHolds(rest + [Exit(id)], PresentParents(byId, byId[id]), Some(id));
  }

  lemma PoppedOnTable(byId: map<EventId, seq<EventId>>, stack: seq<Frame>)
    requires OnTable(byId, stack) && stack != []
    ensures OnTable(byId, stack[..|stack| - 1]) && stack[|stack| - 1].id in byId
  {
  }

  /** Colouring a node of the table leaves fewer uncoloured, finishing one no more. */
  lemma Uncoloured(byId: map<EventId, seq<EventId>>, state: map<EventId, nat>, id: EventId, colour: nat)
    requires id in byId
    ensures |byId.Keys - state[id := colour].Keys| <= |byId.Keys - state.Keys|
    ensures id !in state ==> |byId.Keys - state[id := colour].Keys| < |byId.Keys - state.Keys|
  {
    var before, now := byId.Keys - state.Keys, byId.Keys - state[id := colour].Keys;
    assert now == before - {id};
  }

  ghost function Sweep(byId: map<EventId, seq<EventId>>, bound: nat, stack: seq<Frame>, state: map<EventId, nat>,
                       cycle: bool): Outcome
    requires OnTable(byId, stack)
    decreases |byId.Keys - state.Keys|, |stack|
  {
    if stack == [] then Outcome(state.Keys, cycle, false)
    else
      PoppedOnTable(byId, stack);
      var frame := stack[|stack| - 1];
      var id := frame.id;
      var rest := stack[..|stack| - 1];
      Uncoloured(byId, state, id, FINISHED);
      Uncoloured(byId, state, id, IN_PROGRESS);
      if frame.Exit? then Sweep(byId, bound, rest, state[id := FINISHED], cycle)
      else if id in state then Sweep(byId, bound, rest, state, cycle || state[id] == IN_PROGRESS)
      else if |state| >= bound then Outcome(state.Keys, cycle, true)
      else
        PushedOnTable(byId, rest, id);
        Sweep(byId, bound, PushEnters(rest + [Exit(id)], PresentParents(byId, byId[id]), Some(id)), state[id := IN_PROGRESS], cycle)
  }

  /** The identifiers in canonical order. */
  ghost function Sorted(ids: set<EventId>): (r: seq<EventId>)
    ensures Ascending(r) && Elems(r) == ids
  {
    if ids == {} then []
    else
      var x :| x in ids;
      InsertElems(Sorted(ids - {x}), x);
      Insert(Sorted(ids - {x}), x)
  }

  lemma InsertElems(s: seq<EventId>, x: EventId)
    requires Ascending(s)
    ensures Elems(Insert(s, x)) == Elems(s) + {x}
  {
    hide Ascending, Insert;
  }

  lemma StartsOnTable(byId: map<EventId, seq<EventId>>, starts: seq<EventId>)
    requires Elems(starts) == byId.Keys
    ensures OnTable(byId, PushEnters([], starts, None))
  {
    hide PushEnters;
    PushHolds([], starts, None);
    forall f | f in PushEnters([], starts, None) ensures f.id in byId {
      assert f.id in Elems(starts);
    }
  }

  ghost function SweepAll(byId: map<EventId, seq<EventId>>, bound: nat): Outcome {
    StartsOnTable(byId, Sorted(byId.Keys));
    Sweep(byId, bound, PushEnters([], Sorted(byId.Keys), None), map[], false)
  }

  /** The report lists what the walk over the table has seen, in canonical order, with its absent parents. */
  ghost predicate Reports(byId: map<EventId, seq<EventId>>, limits: ClosureLimits, r: ClosureReport) {
    var o := SweepAll(byId, limits.maxEvents);
    && Ascending(r.closed) && Elems(r.closed) == o.seen
    && EdgesAscend(r.dangling) && Elems(r.dangling) == DanglingOf(byId, o.seen)
    && r.cycle == o.cycle && r.exceeded == o.exceeded
  }

  /** Going on from here ends where the whole walk ends. */
  ghost predicate SweptSoFar(byId: map<EventId, seq<EventId>>, bound: nat, stack: seq<Frame>, state: map<EventId, nat>,
                             cycle: bool)
  {
    OnTable(byId, stack) && Sweep(byId, bound, stack, state, cycle) == SweepAll(byId, bound)
  }

  lemma SweepBegins(byId: map<EventId, seq<EventId>>, starts: seq<EventId>, bound: nat)
    requires Ascending(starts) && Elems(starts) == byId.Keys
    ensures SweptSoFar(byId, bound, PushEnters([], starts, None), map[], false)
  {
    hide Sweep, PushEnters, Sorted;
    StartsOnTable(byId, starts);
    AscendingUnique(starts, Sorted(byId.Keys));
  }

  lemma SweepSteps(byId: map<EventId, seq<EventId>>, bound: nat, stack: seq<Frame>, state: map<EventId, nat>, cycle: bool)
    requires SweptSoFar(byId, bound, stack, state, cycle) && stack != []
    ensures var frame := stack[|stack| - 1]; var id := frame.id; var rest := stack[..|stack| - 1];
      && id in byId
      && (frame.Exit? ==> SweptSoFar(byId, bound, rest, state[id := FINISHED], cycle))
      && (frame.Enter? && id in state ==> SweptSoFar(byId, bound, rest, state, cycle || state[id] == IN_PROGRESS))
      && (frame.Enter? && id !in state && |state| >= bound ==> SweepAll(byId, bound) == Outcome(state.Keys, cycle, true))
      && (frame.Enter? && id !in state && |state| < bound ==>
            SweptSoFar(byId, bound, PushEnters(rest + [Exit(id)], PresentParents(byId, byId[id]), Some(id)), state[id := IN_PROGRESS], cycle))
  {
    hide SweepAll, PushEnters, PresentParents;
    PoppedOnTable(byId, stack);
    PushedOnTable(byId, stack[..|stack| - 1], stack[|stack| - 1].id);
  }

  /** The report of a walk that ran out of frames or was cut off at the bound. */
  lemma SweepReports(byId: map<EventId, seq<EventId>>, limits: ClosureLimits, stack: seq<Frame>, state: map<EventId, nat>,
                     cycle: bool, closed: seq<EventId>, dangling: seq<DanglingEdge>)
    requires Tallied(byId, state, closed, dangling) && SweptSoFar(byId, limits.maxEvents, stack, state, cycle)
    requires stack != [] ==> stack[|stack| - 1].Enter? && stack[|stack| - 1].id !in state && |closed| >= limits.maxEvents
    ensures Reports(byId, limits, ClosureReport(SortDedup(closed), SortEdges(dangling), cycle, stack != []))
  {
    hide SweepAll, PushEnters, PresentParents, Ascending;
    if stack != [] { SweepSteps(byId, limits.maxEvents, stack, state, cycle); }
  }

  method CloseOverNodes(nodes: seq<EventNode>, limits: ClosureLimits) returns (r: ClosureReport)
    ensures Closes(ById(nodes), limits, r)
    ensures Reports(ById(nodes), limits, r)
  {
    hide Walking, Swept, Cyclic, Closes, Live, PresentParents, PushEnters, ById, Ascending, Sweep, SweepAll, Reports, OnTable;
    var byId: map<EventId, seq<EventId>> := map[];
    assert byId == ById(nodes[..0]) by { ByIdNone(nodes); }
    for i := 0 to |nodes|
      invariant byId == ById(nodes[..i])
    {
      ByIdNext(nodes, i);
      byId := byId[nodes[i].event := SortDedup(nodes[i].parents)];
    }
    assert nodes[..|nodes|] == nodes;
    ghost var g := Live(byId);
    LiveEdges(byId);
    var starts := SortedKeys(byId.Keys);
    var state: map<EventId, nat> := map[];
    var closed: seq<EventId> := [];
    var dangling: seq<DanglingEdge> := [];
    var stack := PushEnters([], starts, None);
    var cycle, exceeded := false, false;
    ghost var done: seq<EventId> := [];
    Start(g, starts);
    SweepStart(byId, starts);
    SweepBegins(byId, starts, limits.maxEvents);
    while stack != []
      invariant Swept(byId, stack, state, closed, dangling)
      invariant SweptSoFar(byId, limits.maxEvents, stack, state, cycle)
      invariant if cycle then Cyclic(g) else Walking(g, starts, stack, state, done)
      invariant !exceeded && |closed| <= limits.maxEvents
      decreases byId.Keys - state.Keys, |stack|
    {
      var frame := stack[|stack| - 1];
      var id := frame.id;
      SweepSteps(byId, limits.maxEvents, stack, state, cycle);
      if frame.Exit? {
        if !cycle { Leave(g, starts, stack, state, done); }
        ExitColoured(byId, stack, state, closed, dangling);
        SweepPop(byId, stack, state, closed, dangling);
        SweepExit(byId, stack[..|stack| - 1], state, closed, dangling, id);
        state := state[id := FINISHED];
        if !cycle { done := done + [id]; }
        stack := stack[..|stack| - 1];
      } else if id in state {
        if !cycle && state[id] == FINISHED { Skip(g, starts, stack, state, done); }
        if !cycle && state[id] == IN_PROGRESS { CycleIsReal(g, starts, stack, state, done); }
        Coloured(byId, stack, state, closed, dangling, id);
        SweepPop(byId, stack, state, closed, dangling);
        if state[id] == IN_PROGRESS {
          cycle := true;
        }
        stack := stack[..|stack| - 1];
      } else {
        TallySize(byId, stack, state, closed, dangling);
        if |closed| >= limits.maxEvents {
          Exceeded(byId, stack, state, closed, dangling, limits, cycle);
          SweepReports(byId, limits, stack, state, cycle, closed, dangling);
          exceeded := true;
          break;
        }
        assert id in byId by { OnStack(byId, stack, state, closed, dangling); }
        var pushed, more := PushParents(byId, stack[..|stack| - 1] + [Exit(id)], id, dangling);
        SweepEnter(byId, stack, state, closed, dangling, more);
        if !cycle {
          assert g[id] == PresentParents(byId, byId[id]) by { LiveIs(byId, id); }
          Descend(g, starts, stack, state, done);
        }
        state := state[id := IN_PROGRESS];
        closed := closed + [id];
        stack, dangling := pushed, more;
      }
    }
    if !exceeded {
      TallySize(byId, stack, state, closed, dangling);
      if !cycle { WalkedAcyclic(g, starts, state, done); }
      SweptAll(byId, state, closed, dangling, limits, cycle);
      SweepReports(byId, limits, stack, state, cycle, closed, dangling);
    }
    r := ClosureReport(SortDedup(closed), SortEdges(dangling), cycle, exceeded);
  }

  lemma ByIdNone(nodes: seq<EventNode>)
    ensures ById(nodes[..0]) == map[]
  {
  }

  lemma ByIdNext(nodes: seq<EventNode>, i: nat)
    requires i < |nodes|
    ensures ById(nodes[..i + 1]) == ById(nodes[..i])[nodes[i].event := SortDedup(nodes[i].parents)]
  {
    assert nodes[..i + 1][..i] == nodes[..i];
  }

  lemma LiveIs(byId: map<EventId, seq<EventId>>, id: EventId)
    requires id in byId
    ensures Live(byId)[id] == PresentParents(byId, byId[id])
  {
  }

  lemma ExitColoured(byId: map<EventId, seq<EventId>>, stack: seq<Frame>, state: map<EventId, nat>, closed: seq<EventId>,
                     dangling: seq<DanglingEdge>)
    requires Swept(byId, stack, state, closed, dangling) && stack != [] && stack[|stack| - 1].Exit?
    ensures stack[|stack| - 1].id in state
  {
    assert stack[|stack| - 1] in stack;
  }

  lemma TallySize(byId: map<EventId, seq<EventId>>, stack: seq<Frame>, state: map<EventId, nat>, closed: seq<EventId>,
                  dangling: seq<DanglingEdge>)
    requires Swept(byId, stack, state, closed, dangling)
    ensures Tallied(byId, state, closed, dangling) && |closed| == |state|
  {
  }

  lemma OnStack(byId: map<EventId, seq<EventId>>, stack: seq<Frame>, state: map<EventId, nat>, closed: seq<EventId>,
                dangling: seq<DanglingEdge>)
    requires Swept(byId, stack, state, closed, dangling) && stack != []
    ensures stack[|stack| - 1].id in byId
  {
    assert stack[|stack| - 1] in stack;
  }

  lemma Coloured(byId: map<EventId, seq<EventId>>, stack: seq<Frame>, state: map<EventId, nat>, closed: seq<EventId>,
                 dangling: seq<DanglingEdge>, id: EventId)
    requires Swept(byId, stack, state, closed, dangling) && id in state
    ensures state[id] == IN_PROGRESS || state[id] == FINISHED
  {
  }

  lemma Exceeded(byId: map<EventId, seq<EventId>>, stack: seq<Frame>, state: map<EventId, nat>, closed: seq<EventId>,
                 dangling: seq<DanglingEdge>, limits: ClosureLimits, cycle: bool)
    requires Swept(byId, stack, state, closed, dangling) && stack != [] && stack[|stack| - 1].id !in state
    requires |closed| == limits.maxEvents && (cycle ==> Cyclic(Live(byId)))
    ensures Closes(byId, limits, ClosureReport(SortDedup(closed), SortEdges(dangling), cycle, true))
  {
    hide Cyclic, Live, Ascending;
    OnStack(byId, stack, state, closed, dangling);
    assert |state.Keys| == |state| && |byId.Keys| == |byId|;
    assert state.Keys + {stack[|stack| - 1].id} <= byId.Keys;
    SubsetSize(state.Keys + {stack[|stack| - 1].id}, byId.Keys);
  }

  lemma SweptAll(byId: map<EventId, seq<EventId>>, state: map<EventId, nat>, closed: seq<EventId>, dangling: seq<DanglingEdge>,
                 limits: ClosureLimits, cycle: bool)
    requires Swept(byId, [], state, closed, dangling) && |closed| <= limits.maxEvents && (cycle <==> Cyclic(Live(byId)))
    ensures Closes(byId, limits, ClosureReport(SortDedup(closed), SortEdges(dangling), cycle, false))
  {
    hide Cyclic, Live, Ascending;
    assert |state.Keys| == |state| && |byId.Keys| == |byId|;
    assert state.Keys == byId.Keys;
  }

  // ---------------------------------------------------------------- what the report depends on

  /** A report, also a truncated one, is determined by the node table and the bound. */
  lemma ReportUnique(byId: map<EventId, seq<EventId>>, limits: ClosureLimits, a: ClosureReport, b: ClosureReport)
    requires Reports(byId, limits, a) && Reports(byId, limits, b)
    ensures a == b
  {
    hide SweepAll, DanglingOf;
    AscendingUnique(a.closed, b.closed);
    EdgesUnique(a.dangling, b.dangling);
  }

  predicate SameNode(n: EventNode, m: EventNode) {
    n.event == m.event && Elems(n.parents) == Elems(m.parents)
  }

  /** The same nodes in any order, each with its parents in any order. */
  predicate Permuted(a: seq<EventNode>, b: seq<EventNode>) {
    && Distinct(NodeIds(a)) && Distinct(NodeIds(b)) && |a| == |b|
    && forall n :: n in a ==> exists m :: m in b && SameNode(n, m)
  }

  lemma ByIdEntry(nodes: seq<EventNode>, n: EventNode)
    requires Distinct(NodeIds(nodes)) && n in nodes
    ensures n.event in ById(nodes) && ById(nodes)[n.event] == SortDedup(n.parents)
  {
    var i :| 0 <= i < |nodes| && nodes[i] == n;
    ByIdOf(nodes, i);
  }

  lemma ByIdMember(nodes: seq<EventNode>, x: EventId) returns (n: EventNode)
    requires x in ById(nodes)
    ensures n in nodes && n.event == x
  {
    ByIdKeys(nodes);
    assert x in Elems(NodeIds(nodes));
    var i :| 0 <= i < |NodeIds(nodes)| && NodeIds(nodes)[i] == x;
    n := nodes[i];
  }

  lemma ByIdSize(nodes: seq<EventNode>)
    requires Distinct(NodeIds(nodes))
    ensures |ById(nodes).Keys| == |nodes|
  {
    ByIdKeys(nodes);
    DistinctSize(NodeIds(nodes));
  }

  lemma SameEntry(a: seq<EventNode>, b: seq<EventNode>, x: EventId)
    requires Permuted(a, b) && x in ById(a)
    ensures x in ById(b) && ById(a)[x] == ById(b)[x]
  {
    hide ById, Ascending, NodeIds;
    var n := ByIdMember(a, x);
    ByIdEntry(a, n);
    var m :| m in b && SameNode(n, m);
    ByIdEntry(b, m);
    AscendingUnique(SortDedup(n.parents), SortDedup(m.parents));
  }

  /** The order of the nodes and of their parent lists does not matter. */
  lemma TableIgnoresOrder(a: seq<EventNode>, b: seq<EventNode>)
    requires Permuted(a, b)
    ensures ById(a) == ById(b)
  {
    hide ById, Ascending, NodeIds;
    ByIdSize(a);
    ByIdSize(b);
    forall x | x in ById(a) ensures x in ById(b) && ById(a)[x] == ById(b)[x] {
      SameEntry(a, b, x);
    }
    SameSizeSubset(ById(a).Keys, ById(b).Keys);
  }

  lemma SameSizeSubset(a: set<EventId>, b: set<EventId>)
    requires a <= b && |a| == |b|
    ensures a == b
  {
    assert b == a + (b - a);
    assert |b - a| == 0;
  }

  /** Permuting nodes and parents permutes nothing in the report, whether or not it is truncated. */
  lemma ReportIgnoresOrder(a: seq<EventNode>, b: seq<EventNode>, limits: ClosureLimits, ra: ClosureReport, rb: ClosureReport)
    requires Permuted(a, b) && Reports(ById(a), limits, ra) && Reports(ById(b), limits, rb)
    ensures ra == rb
  {
    hide *;
    TableIgnoresOrder(a, b);
    ReportUnique(ById(a), limits, ra, rb);
  }

  // ---------------------------------------------------------------- several nodes with one id

  /** No later node has this one's id. */
  predicate IsLast(nodes: seq<EventNode>, i: nat)
    requires i < |nodes|
  {
    forall j :: i < j < |nodes| ==> nodes[j].event != nodes[i].event
  }

  lemma {:induction false} ByIdIsLast(nodes: seq<EventNode>, i: nat)
    requires i < |nodes| && IsLast(nodes, i)
    ensures nodes[i].event in ById(nodes) && ById(nodes)[nodes[i].event] == SortDedup(nodes[i].parents)
  {
    var k := |nodes| - 1;
    if i < k {
      var init := nodes[..k];
      assert IsLast(init, i);
      ByIdIsLast(init, i);
      assert nodes[k].event != nodes[i].event;
    }
  }

  lemma {:induction false} LastOf(nodes: seq<EventNode>, i: nat) returns (l: nat)
    requires i < |nodes|
    ensures i <= l < |nodes| && nodes[l].event == nodes[i].event && IsLast(nodes, l)
    decreases |nodes| - i
  {
    if IsLast(nodes, i) {
      l := i;
    } else {
      var j :| i < j < |nodes| && nodes[j].event == nodes[i].event;
      l := LastOf(nodes, j);
    }
  }

  /** Every absent parent of every supplied node is reported as a dangling edge. */
  predicate AllReported(nodes: seq<EventNode>, r: ClosureReport) {
    forall i, p :: 0 <= i < |nodes| && p in nodes[i].parents && p !in NodeIds(nodes) ==> DanglingEdge(nodes[i].event, p) in r.dangling
  }

  /** The last node of each id has every absent parent of the earlier ones. */
  predicate LastHasAll(nodes: seq<EventNode>) {
    forall i, l, p ::
      (0 <= i <= l < |nodes| && nodes[l].event == nodes[i].event && IsLast(nodes, l) && p in nodes[i].parents && p !in NodeIds(nodes)) ==>
      p in nodes[l].parents
  }

  lemma ReportedIs(nodes: seq<EventNode>, limits: ClosureLimits, r: ClosureReport, l: nat, p: EventId)
    requires Closes(ById(nodes), limits, r) && |Elems(NodeIds(nodes))| <= limits.maxEvents
    requires l < |nodes| && IsLast(nodes, l) && p !in NodeIds(nodes)
    ensures DanglingEdge(nodes[l].event, p) in r.dangling <==> p in nodes[l].parents
  {
    hide Cyclic, Live, ById, Ascending, IsLast, NodeIds;
    var byId := ById(nodes);
    ByIdKeys(nodes);
    ByIdIsLast(nodes, l);
    assert |byId| == |byId.Keys|;
    var e := DanglingEdge(nodes[l].event, p);
    assert e in r.dangling <==> e in Elems(r.dangling);
    assert p in SortDedup(nodes[l].parents) <==> p in nodes[l].parents by {
      assert p in SortDedup(nodes[l].parents) <==> p in Elems(SortDedup(nodes[l].parents));
    }
    assert p !in byId by { assert p in NodeIds(nodes) <==> p in Elems(NodeIds(nodes)); }
  }

  /** Within the bound every absent parent is reported exactly when, of several nodes with one id, the last
      one has all of them. */
  lemma DanglingReportedWhen(nodes: seq<EventNode>, limits: ClosureLimits, r: ClosureReport)
    requires Closes(ById(nodes), limits, r) && |Elems(NodeIds(nodes))| <= limits.maxEvents
    ensures AllReported(nodes, r) <==> LastHasAll(nodes)
  {
    hide Closes, ById, Ascending, IsLast, NodeIds;
    if LastHasAll(nodes) {
      forall i, p | 0 <= i < |nodes| && p in nodes[i].parents && p !in NodeIds(nodes)
        ensures DanglingEdge(nodes[i].event, p) in r.dangling
      {
        var l := LastOf(nodes, i);
        ReportedIs(nodes, limits, r, l, p);
      }
    }
    if AllReported(nodes, r) {
      forall i, l, p | 0 <= i <= l < |nodes| && nodes[l].event == nodes[i].event && IsLast(nodes, l)
        && p in nodes[i].parents && p !in NodeIds(nodes)
        ensures p in nodes[l].parents
      {
        ReportedIs(nodes, limits, r, l, p);
      }
    }
  }

  /** Of two nodes with one id only the last one's parents are seen: the first's absent parent is
      never reported. */
  lemma DuplicateHidesDangling(limits: ClosureLimits, r: ClosureReport)
    requires limits.Checked() && Closes(ById([EventNode(1, [2]), EventNode(1, [])]), limits, r)
    ensures r.closed == [1] && r.dangling == [] && !r.cycle && !r.exceeded
  {
    var nodes := [EventNode(1, [2]), EventNode(1, [])];
    assert nodes[..1] == [EventNode(1, [2])] && nodes[..1][..0] == [];
    var byId := ById(nodes);
    assert SortDedup([]) == [] && ById([]) == map[];
    assert ById(nodes[..1]) == map[1 := SortDedup([2])];
    assert byId == map[1 := []];
    assert |byId| == 1;
    AscendingUnique(r.closed, [1]);
    assert DanglingOf(byId, byId.Keys) == {};
    EdgesUnique(r.dangling, []);
    LiveEdges(byId);
    NoEdgesNoCycle(Live(byId));
  }

  lemma NoEdgesNoCycle(g: Graph)
    requires forall a, b :: !Edge(g, a, b)
    ensures !Cyclic(g)
  {
    forall p ensures !IsCycle(g, p) {
      if |p| >= 2 { assert !Edge(g, p[0], p[1]); }
    }
  }

  /** Fails on the first structural violation: a cycle, then the bound, then a dangling edge. */
  method CloseCheck(nodes: seq<EventNode>, limits: ClosureLimits) returns (r: Result<ClosureReport, LineageError>)
    ensures var byId := ById(nodes);
      && (|byId| <= limits.maxEvents ==> (r.Ok? <==> !Cyclic(Live(byId)) && DanglingOf(byId, byId.Keys) == {}))
      && (|byId| > limits.maxEvents ==> r == Err(TooLarge) || (r == Err(CycleFound) && Cyclic(Live(byId))))
      && (r.Ok? ==> Closes(byId, limits, r.value) && Elems(r.value.closed) == byId.Keys)
      && (r == Err(CycleFound) ==> Cyclic(Live(byId)))
      && (r.Err? && r.error.DanglingParent? ==> !Cyclic(Live(byId)) && DanglingEdge(r.error.child, r.error.parent) in DanglingOf(byId, byId.Keys))
  {
    hide Cyclic, Live, ById, Ascending;
    var report := CloseOverNodes(nodes, limits);
    if report.cycle {
      return Err(CycleFound);
    }
    if report.exceeded {
      return Err(TooLarge);
    }
    if report.dangling != [] {
      assert report.dangling[0] in Elems(report.dangling);
      return Err(DanglingParent(report.dangling[0].child, report.dangling[0].parent));
    }
    r := Ok(report);
  }
}
