/** Deterministic parent-first ancestry projection by an explicit-stack walk. */
module Projections {
  import opened Base
  import opened Sorting
  import opened Weights
  import opened Graph
  import opened Walker
  import opened Tables
  import opened Bundles

  const MAX_PROJECTION_EVENTS := 100000
  const MAX_PROJECTION_WIRE_BYTES := 64 * 1024 * 1024
  const MAX_PROJECTION_HEADS := 256

  datatype ProjectionLimits = ProjectionLimits(maxEvents: nat, maxWireBytes: nat)

  const DEFAULT_LIMITS := ProjectionLimits(MAX_PROJECTION_EVENTS, MAX_PROJECTION_WIRE_BYTES)

  predicate ValidLimits(limits: ProjectionLimits) {
    && 0 < limits.maxEvents <= MAX_PROJECTION_EVENTS
    && 0 < limits.maxWireBytes <= MAX_PROJECTION_WIRE_BYTES
  }

  /** An event of the context that loads and re-validates. */
  predicate Loads(t: Tables, c: ContextId, id: EventId) {
    LoadVerified(t, id).Ok? && LoadVerified(t, id).value.body.context == c
  }

  function ContextGraph(t: Tables, c: ContextId): Graph {
    map id | id in t.events && Loads(t, c, id) :: LoadVerified(t, id).value.body.parents
  }

  function WireSizes(t: Tables, c: ContextId): map<EventId, nat> {
    map id | id in t.events && Loads(t, c, id) :: LoadVerified(t, id).value.body.wireBytes
  }

  ghost predicate Fits(t: Tables, c: ContextId, heads: set<EventId>, limits: ProjectionLimits) {
    var anc := Anc(ContextGraph(t, c), heads);
    |anc| <= limits.maxEvents && Weight(WireSizes(t, c), anc) <= limits.maxWireBytes
  }

  ghost function Plan(t: Tables, c: ContextId, heads: seq<EventId>): Walk {
    PostOrder(ContextGraph(t, c), [], heads, [])
  }

  /** The projected events are the loaded forms of the ordered ids. */
  predicate Loaded(t: Tables, events: seq<Event>) {
    forall i :: 0 <= i < |events| ==> LoadVerified(t, events[i].id) == Ok(events[i])
  }

  /** What the loop has accounted for: every coloured event once, by number and by bytes. */
  ghost predicate Accounted(t: Tables, c: ContextId, stack: seq<Frame>, state: map<EventId, nat>, loaded: map<EventId, Event>,
                            ordered: seq<Event>, wireBytes: nat)
  {
    && Loaded(t, ordered)
    && (forall id :: id in loaded <==> id in Exits(stack))
    && (forall id :: id in loaded ==> LoadVerified(t, id) == Ok(loaded[id]) && loaded[id].id == id)
    && |loaded| + |ordered| == |state|
    && wireBytes == Weight(WireSizes(t, c), state.Keys)
  }

  lemma AccountEnter(t: Tables, c: ContextId, stack: seq<Frame>, state: map<EventId, nat>, loaded: map<EventId, Event>,
                     ordered: seq<Event>, wireBytes: nat, e: Event)
    requires Accounted(t, c, stack, state, loaded, ordered, wireBytes)
    requires stack != [] && stack[|stack| - 1].Enter? && stack[|stack| - 1].id == e.id
    requires e.id !in state && e.id !in loaded && Loads(t, c, e.id) && LoadVerified(t, e.id) == Ok(e)
    ensures Accounted(t, c, PushEnters(stack[..|stack| - 1] + [Exit(e.id)], e.body.parents, Some(e.id)),
                      state[e.id := IN_PROGRESS], loaded[e.id := e], ordered, wireBytes + e.body.wireBytes)
    ensures wireBytes + e.body.wireBytes == Weight(WireSizes(t, c), state.Keys + {e.id}) && |state.Keys + {e.id}| == |state| + 1
  {
    hide LoadVerified, PushEnters, Exits, Weight;
    ExitsAfterEnter(stack, e.body.parents, Some(e.id));
    assert e.id in t.events by { LoadedIsStored(t, e.id); }
    MapGrows(state, e.id, IN_PROGRESS);
    MapGrows(loaded, e.id, e);
    assert |state.Keys| == |state|;
    WeightAdd(WireSizes(t, c), state.Keys, e.id);
    assert Size(WireSizes(t, c), e.id) == e.body.wireBytes;
  }

  lemma MapGrows<V>(m: map<EventId, V>, k: EventId, v: V)
    requires k !in m
    ensures m[k := v].Keys == m.Keys + {k} && |m[k := v]| == |m| + 1
  {
    assert |m[k := v]| == |m[k := v].Keys| && |m| == |m.Keys|;
  }

  lemma ExitsAfterEnter(stack: seq<Frame>, ids: seq<EventId>, child: Option<EventId>)
    requires stack != [] && stack[|stack| - 1].Enter?
    ensures var id := stack[|stack| - 1].id;
      Exits(PushEnters(stack[..|stack| - 1] + [Exit(id)], ids, child)) == Exits(stack) + [id]
  {
    var rest := stack[..|stack| - 1];
    var base := rest + [Exit(stack[|stack| - 1].id)];
    ResumePush(map[], base, ids, child, []);
    assert base[..|base| - 1] == rest;
  }

  lemma ExitsAfterExit(stack: seq<Frame>)
    requires stack != [] && stack[|stack| - 1].Exit? && Distinct(Exits(stack))
    ensures Exits(stack) == Exits(stack[..|stack| - 1]) + [stack[|stack| - 1].id]
    ensures stack[|stack| - 1].id !in Exits(stack[..|stack| - 1])
  {
    var id := stack[|stack| - 1].id;
    var rest := Exits(stack[..|stack| - 1]);
    assert Exits(stack) == rest + [id];
    forall k | 0 <= k < |rest| ensures rest[k] != id {
      assert Exits(stack)[k] == rest[k] && Exits(stack)[|rest|] == id;
    }
  }

  lemma LoadedIsStored(t: Tables, id: EventId)
    requires LoadVerified(t, id).Ok?
    ensures id in t.events && LoadVerified(t, id).value.id == id
  {
  }

  lemma AccountExit(t: Tables, c: ContextId, stack: seq<Frame>, state: map<EventId, nat>, loaded: map<EventId, Event>,
                    ordered: seq<Event>, wireBytes: nat, id: EventId)
    requires Accounted(t, c, stack, state, loaded, ordered, wireBytes)
    requires stack != [] && stack[|stack| - 1] == Exit(id) && Distinct(Exits(stack)) && id in state
    ensures id in loaded
    ensures Accounted(t, c, stack[..|stack| - 1], state[id := FINISHED], loaded - {id}, ordered + [loaded[id]], wireBytes)
  {
    hide LoadVerified, PushEnters, Exits, Weight, WireSizes, Ascending;
    ExitsAfterExit(stack);
    assert id in Exits(stack);
    SameKeys(state, id, FINISHED);
    MapShrinks(loaded, id);
  }

  lemma SameKeys<V>(m: map<EventId, V>, k: EventId, v: V)
    requires k in m
    ensures m[k := v].Keys == m.Keys && |m[k := v]| == |m|
  {
    assert |m[k := v]| == |m[k := v].Keys| && |m| == |m.Keys|;
  }

  lemma MapShrinks<V>(m: map<EventId, V>, k: EventId)
    requires k in m
    ensures (m - {k}).Keys == m.Keys - {k} && |m - {k}| == |m| - 1
  {
    assert |m - {k}| == |(m - {k}).Keys| && |m| == |m.Keys|;
  }

  lemma IdsAppend(events: seq<Event>, e: Event)
    ensures Ids(events + [e]) == Ids(events) + [e.id]
  {
  }

  /** A projection succeeds exactly when the ancestry is complete, acyclic and within the limits, and
      then yields the recursive post-order, each ancestor once, with its exact byte total.  A reported
      cycle is real, and a reported missing parent is absent and needed. */
  ghost predicate Projected(t: Tables, c: ContextId, heads: seq<EventId>, limits: ProjectionLimits,
                            r: Result<(seq<Event>, nat), StoreError>)
  {
    var g := ContextGraph(t, c);
    && (r.Ok? <==> ValidLimits(limits) && 0 < |heads| <= MAX_BUNDLE_EVENTS && Plan(t, c, heads).Ordered?
                   && Fits(t, c, Elems(heads), limits))
    && (r.Ok? ==> Plan(t, c, heads) == Ordered(Ids(r.value.0)) && Loaded(t, r.value.0)
                  && r.value.1 == Weight(WireSizes(t, c), Anc(g, Elems(heads))))
    && (r == Err(ProjectionCycle) ==> CyclicFrom(g, Elems(heads)))
    && (r.Err? && r.error.ParentMissing? ==> r.error.id !in t.events && ReachFrom(g, Elems(heads), r.error.id))
  }

  method ProjectOn(t: Tables, c: ContextId, heads: seq<EventId>, limits: ProjectionLimits)
    returns (r: Result<(seq<Event>, nat), StoreError>)
    ensures Projected(t, c, heads, limits, r)
    ensures r.Err? ==> r.error != BundleOrder
  {
    hide LoadVerified, Walking, Accounted, Projected, ContextGraph, Loads, PushEnters, Ids, ValidLimits, Ascending;
    if !ValidLimits(limits) || heads == [] || |heads| > MAX_BUNDLE_EVENTS {
      BadRequest(t, c, heads, limits);
      return Err(ProjectionLimitExceeded);
    }
    ghost var g := ContextGraph(t, c);
    var state: map<EventId, nat> := map[];
    var loaded: map<EventId, Event> := map[];
    var stack := PushEnters([], heads, None);
    var wireBytes: nat := 0;
    var ordered: seq<Event> := [];
    ProjectStart(t, c, heads);
    while stack != []
      invariant Walking(g, heads, stack, state, Ids(ordered))
      invariant Accounted(t, c, stack, state, loaded, ordered, wireBytes)
      invariant |state| <= limits.maxEvents && wireBytes <= limits.maxWireBytes
      decreases g.Keys - state.Keys, |stack|
    {
      var frame := stack[|stack| - 1];
      var id := frame.id;
      if frame.Enter? {
        if id in state && state[id] == FINISHED {
          Skip(g, heads, stack, state, Ids(ordered));
          AccountSkip(t, c, stack, state, loaded, ordered, wireBytes);
          stack := stack[..|stack| - 1];
        } else if id in state && state[id] == IN_PROGRESS {
          ProjectStuck(t, c, heads, limits, stack, state, ordered);
          return Err(ProjectionCycle);
        } else {
          Colours(g, heads, stack, state, Ids(ordered), id);
          var event := LoadVerified(t, id);
          ProjectStuck(t, c, heads, limits, stack, state, ordered);
          LoadErrors(t, id);
          if event.Err? {
            return Err(event.error);
          }
          if event.value.body.context != c {
            return Err(ParentContextMismatch(id));
          }
          EnterStep(t, c, heads, limits, stack, state, loaded, ordered, wireBytes, event.value);
          if |loaded| + |ordered| + 1 > limits.maxEvents || wireBytes + event.value.body.wireBytes > limits.maxWireBytes {
            return Err(ProjectionLimitExceeded);
          }
          wireBytes := wireBytes + event.value.body.wireBytes;
          state := state[id := IN_PROGRESS];
          loaded := loaded[id := event.value];
          stack := PushEnters(stack[..|stack| - 1] + [Exit(id)], event.value.body.parents, Some(id));
        }
      } else {
        ExitStep(t, c, heads, stack, state, loaded, ordered, wireBytes);
        state := state[id := FINISHED];
        ordered := ordered + [loaded[id]];
        loaded := loaded - {id};
        stack := stack[..|stack| - 1];
      }
    }
    Finish(t, c, heads, limits, state, loaded, ordered, wireBytes);
    r := Ok((ordered, wireBytes));
  }

  lemma LoadErrors(t: Tables, id: EventId)
    ensures LoadVerified(t, id).Err? ==> LoadVerified(t, id).error == ParentMissing(id) || LoadVerified(t, id).error == CorruptStorage
  {
  }

  lemma BadRequest(t: Tables, c: ContextId, heads: seq<EventId>, limits: ProjectionLimits)
    requires !ValidLimits(limits) || heads == [] || |heads| > MAX_BUNDLE_EVENTS
    ensures Projected(t, c, heads, limits, Err(ProjectionLimitExceeded))
  {
  }

  lemma ProjectStart(t: Tables, c: ContextId, heads: seq<EventId>)
    ensures Walking(ContextGraph(t, c), heads, PushEnters([], heads, None), map[], Ids([]))
    ensures Accounted(t, c, PushEnters([], heads, None), map[], map[], [], 0)
  {
    assert Ids([]) == [];
    Start(ContextGraph(t, c), heads);
    ResumePush(map[], [], heads, None, []);
  }

  /** A revisit of an event in progress is a real cycle; an event outside the graph blocks the walk. */
  lemma ProjectStuck(t: Tables, c: ContextId, heads: seq<EventId>, limits: ProjectionLimits, stack: seq<Frame>,
                     state: map<EventId, nat>, ordered: seq<Event>)
    requires stack != [] && stack[|stack| - 1].Enter? && Walking(ContextGraph(t, c), heads, stack, state, Ids(ordered))
    ensures var id := stack[|stack| - 1].id; var e := LoadVerified(t, id);
      && (id in state && state[id] == IN_PROGRESS ==> Projected(t, c, heads, limits, Err(ProjectionCycle)))
      && (id !in state && e.Err? ==> Projected(t, c, heads, limits, Err(e.error)))
      && (id !in state && e.Ok? && e.value.body.context != c ==> Projected(t, c, heads, limits, Err(ParentContextMismatch(id))))
  {
    hide Walking, LoadVerified, CyclicFrom, ReachFrom, PostOrder, Fits, Loaded, WireSizes, Anc;
    var g := ContextGraph(t, c);
    var id := stack[|stack| - 1].id;
    Stuck(g, heads, stack, state, Ids(ordered));
    PostOrderCycle(g, Elems(heads), [], heads, []);
    PostOrderMissing(g, [], heads, []);
    if LoadVerified(t, id).Err? { MissingUnstored(t, c, id); }
  }

  lemma EnterStep(t: Tables, c: ContextId, heads: seq<EventId>, limits: ProjectionLimits, stack: seq<Frame>,
                  state: map<EventId, nat>, loaded: map<EventId, Event>, ordered: seq<Event>, wireBytes: nat, e: Event)
    requires stack != [] && stack[|stack| - 1].Enter? && Walking(ContextGraph(t, c), heads, stack, state, Ids(ordered))
    requires Accounted(t, c, stack, state, loaded, ordered, wireBytes)
    requires stack[|stack| - 1].id !in state && LoadVerified(t, stack[|stack| - 1].id) == Ok(e) && e.body.context == c
    ensures var id := stack[|stack| - 1].id; var rest := PushEnters(stack[..|stack| - 1] + [Exit(id)], e.body.parents, Some(id));
      && ContextGraph(t, c).Keys - state[id := IN_PROGRESS].Keys < ContextGraph(t, c).Keys - state.Keys
      && |state[id := IN_PROGRESS]| == |loaded| + |ordered| + 1
      && (|loaded| + |ordered| + 1 > limits.maxEvents || wireBytes + e.body.wireBytes > limits.maxWireBytes ==>
            Projected(t, c, heads, limits, Err(ProjectionLimitExceeded)))
      && Walking(ContextGraph(t, c), heads, rest, state[id := IN_PROGRESS], Ids(ordered))
      && Accounted(t, c, rest, state[id := IN_PROGRESS], loaded[id := e], ordered, wireBytes + e.body.wireBytes)
  {
    hide LoadVerified, Weight, Walking, Accounted, PushEnters, Fits, Plan, Loaded, Anc, CyclicFrom, ReachFrom, Ascending;
    var id := stack[|stack| - 1].id;
    var g := ContextGraph(t, c);
    LoadedIsStored(t, id);
    assert id in g && g[id] == e.body.parents;
    NotLoaded(t, c, g, heads, stack, state, loaded, ordered, wireBytes);
    AccountEnter(t, c, stack, state, loaded, ordered, wireBytes, e);
    AccountCount(t, c, stack, state, loaded, ordered, wireBytes, id);
    Descend(g, heads, stack, state, Ids(ordered));
    Overflow(t, c, heads, limits, stack, state, ordered);
    MapGrows(state, id, IN_PROGRESS);
    assert id in g.Keys - state.Keys && id !in g.Keys - state[id := IN_PROGRESS].Keys;
  }

  lemma ExitStep(t: Tables, c: ContextId, heads: seq<EventId>, stack: seq<Frame>, state: map<EventId, nat>,
                 loaded: map<EventId, Event>, ordered: seq<Event>, wireBytes: nat)
    requires stack != [] && stack[|stack| - 1].Exit? && Walking(ContextGraph(t, c), heads, stack, state, Ids(ordered))
    requires Accounted(t, c, stack, state, loaded, ordered, wireBytes)
    ensures var id := stack[|stack| - 1].id;
      && id in loaded && id in state && |state[id := FINISHED]| == |state|
      && ContextGraph(t, c).Keys - state[id := FINISHED].Keys == ContextGraph(t, c).Keys - state.Keys
      && Walking(ContextGraph(t, c), heads, stack[..|stack| - 1], state[id := FINISHED], Ids(ordered + [loaded[id]]))
      && Accounted(t, c, stack[..|stack| - 1], state[id := FINISHED], loaded - {id}, ordered + [loaded[id]], wireBytes)
  {
    hide LoadVerified, Weight, Walking, Accounted, Loads;
    var id := stack[|stack| - 1].id;
    var g := ContextGraph(t, c);
    Leave(g, heads, stack, state, Ids(ordered));
    WalkingDistinct(g, heads, stack, state, Ids(ordered));
    AccountExit(t, c, stack, state, loaded, ordered, wireBytes, id);
    AccountIds(t, c, stack, state, loaded, ordered, wireBytes, id);
    IdsAppend(ordered, loaded[id]);
    assert state[id := FINISHED].Keys == state.Keys;
    assert |state[id := FINISHED]| == |state[id := FINISHED].Keys| && |state| == |state.Keys|;
  }

  lemma AccountSkip(t: Tables, c: ContextId, stack: seq<Frame>, state: map<EventId, nat>, loaded: map<EventId, Event>,
                    ordered: seq<Event>, wireBytes: nat)
    requires Accounted(t, c, stack, state, loaded, ordered, wireBytes) && stack != [] && stack[|stack| - 1].Enter?
    ensures Accounted(t, c, stack[..|stack| - 1], state, loaded, ordered, wireBytes)
  {
  }

  lemma Colours(g: Graph, heads: seq<EventId>, stack: seq<Frame>, state: map<EventId, nat>, done: seq<EventId>, id: EventId)
    requires Walking(g, heads, stack, state, done)
    ensures id in state ==> state[id] == IN_PROGRESS || state[id] == FINISHED
  {
  }

  lemma WalkingDistinct(g: Graph, heads: seq<EventId>, stack: seq<Frame>, state: map<EventId, nat>, done: seq<EventId>)
    requires Walking(g, heads, stack, state, done)
    ensures Distinct(Exits(stack)) && Distinct(done)
  {
  }

  lemma MissingUnstored(t: Tables, c: ContextId, id: EventId)
    requires LoadVerified(t, id).Err?
    ensures !Loads(t, c, id)
    ensures LoadVerified(t, id).error == if id in t.events then CorruptStorage else ParentMissing(id)
  {
  }

  lemma NotLoaded(t: Tables, c: ContextId, g: Graph, heads: seq<EventId>, stack: seq<Frame>, state: map<EventId, nat>,
                  loaded: map<EventId, Event>, ordered: seq<Event>, wireBytes: nat)
    requires Walking(g, heads, stack, state, Ids(ordered)) && Accounted(t, c, stack, state, loaded, ordered, wireBytes)
    ensures forall id :: id !in state ==> id !in loaded
  {
  }

  lemma AccountCount(t: Tables, c: ContextId, stack: seq<Frame>, state: map<EventId, nat>, loaded: map<EventId, Event>,
                     ordered: seq<Event>, wireBytes: nat, id: EventId)
    requires Accounted(t, c, stack, state, loaded, ordered, wireBytes) && id !in state
    ensures |state.Keys + {id}| == |loaded| + |ordered| + 1
  {
    assert |state.Keys| == |state|;
  }

  lemma AccountIds(t: Tables, c: ContextId, stack: seq<Frame>, state: map<EventId, nat>, loaded: map<EventId, Event>,
                   ordered: seq<Event>, wireBytes: nat, id: EventId)
    requires Accounted(t, c, stack, state, loaded, ordered, wireBytes) && id in loaded
    ensures loaded[id].id == id
  {
  }

  /** A bound hit on the way is one the whole ancestry breaks. */
  lemma Overflow(t: Tables, c: ContextId, heads: seq<EventId>, limits: ProjectionLimits, stack: seq<Frame>,
                 state: map<EventId, nat>, ordered: seq<Event>)
    requires stack != [] && Walking(ContextGraph(t, c), heads, stack, state, Ids(ordered))
    ensures var s := state.Keys + {stack[|stack| - 1].id};
      (|s| > limits.maxEvents || Weight(WireSizes(t, c), s) > limits.maxWireBytes) && Plan(t, c, heads).Ordered? ==>
        !Fits(t, c, Elems(heads), limits)
  {
    hide Walking, LoadVerified;
    var g := ContextGraph(t, c);
    if Plan(t, c, heads).Ordered? {
      SeenWithinResult(g, heads, stack, state, Ids(ordered));
      var s := state.Keys + {stack[|stack| - 1].id};
      WeightMonotone(WireSizes(t, c), s, Anc(g, Elems(heads)));
      SubsetSize(s, Anc(g, Elems(heads)));
    }
  }

  lemma {:induction false} SubsetSize<T>(a: set<T>, b: set<T>)
    requires a <= b
    ensures |a| <= |b|
  {
    assert b == a + (b - a);
  }

  lemma Finish(t: Tables, c: ContextId, heads: seq<EventId>, limits: ProjectionLimits, state: map<EventId, nat>,
               loaded: map<EventId, Event>, ordered: seq<Event>, wireBytes: nat)
    requires Walking(ContextGraph(t, c), heads, [], state, Ids(ordered))
    requires Accounted(t, c, [], state, loaded, ordered, wireBytes)
    requires |state| <= limits.maxEvents && wireBytes <= limits.maxWireBytes
    requires ValidLimits(limits) && 0 < |heads| <= MAX_BUNDLE_EVENTS
    ensures Projected(t, c, heads, limits, Ok((ordered, wireBytes)))
  {
    hide LoadVerified, Ascending;
    PostOrderExact(ContextGraph(t, c), heads);
    assert state.Keys == Elems(Ids(ordered));
    assert |state| == |state.Keys|;
  }

  // ---------------------------------------------------------------- projections of sound stores

  lemma SoundGraph(t: Tables, c: ContextId)
    requires Inv(t)
    ensures forall id :: id in ContextGraph(t, c) <==> Targets(Parsed(t.events), c, id)
    ensures forall id :: id in ContextGraph(t, c) ==> ContextGraph(t, c)[id] == Parsed(t.events)[id].body.parents
    ensures Closed(ContextGraph(t, c)) && !Cyclic(ContextGraph(t, c))
  {
    hide Inv, LoadVerified, Cyclic;
    var g := ContextGraph(t, c);
    var ev := Parsed(t.events);
    forall id | id in t.events ensures id in ev && LoadVerified(t, id) == Ok(ev[id]) {
      InvLoads(t, id);
    }
    SoundGraphLinks(t, c);
    forall a, b | Edge(g, a, b) ensures b in g {
      InParents(t, a, b);
    }
  }

  lemma InParents(t: Tables, a: EventId, b: EventId)
    requires Inv(t) && a in Parsed(t.events) && b in Parsed(t.events)[a].body.parents
    ensures Targets(Parsed(t.events), Parsed(t.events)[a].body.context, b)
  {
    hide RefsOk, Cyclic, AuthorsOk, GenesisOk, ContextsOk, RowsOk, EdgesOk, RefKeys, CoreKeys, Links, Parsed;
    assert ParentsOf(Parsed(t.events), Parsed(t.events)[a]);
  }

  lemma InvLinks(t: Tables)
    requires Inv(t)
    ensures !Cyclic(Links(Parsed(t.events)))
  {
    hide RefsOk, Cyclic, AuthorsOk, GenesisOk, ContextsOk, RowsOk, EdgesOk, RefKeys, CoreKeys, Links, Parsed;
  }

  /** A context's graph is part of the whole one, so its paths are the whole graph's. */
  lemma SoundGraphLinks(t: Tables, c: ContextId)
    requires Inv(t)
    requires forall id :: id in t.events ==> id in Parsed(t.events) && LoadVerified(t, id) == Ok(Parsed(t.events)[id])
    ensures !Cyclic(ContextGraph(t, c))
  {
    hide Inv, LoadVerified;
    InvLinks(t);
    var g := ContextGraph(t, c);
    var h := Links(Parsed(t.events));
    forall a, b | Edge(g, a, b) ensures Edge(h, a, b) {
    }
    SubgraphCycles(g, h);
  }

  /** In a sound store every walk from heads of the context completes. */
  lemma SoundPlan(t: Tables, c: ContextId, heads: seq<EventId>)
    requires Inv(t) && forall h :: h in heads ==> Targets(Parsed(t.events), c, h)
    ensures Plan(t, c, heads).Ordered?
    ensures !CyclicFrom(ContextGraph(t, c), Elems(heads))
  {
    hide Inv, ContextGraph, Parsed;
    SoundGraph(t, c);
    PostOrderTotal(ContextGraph(t, c), heads);
    PostOrderExact(ContextGraph(t, c), heads);
  }

  /** Two stores whose shared events have the same bodies project the same heads to the same sequence. */
  lemma SameHeadsSameProjection(t: Tables, u: Tables, c: ContextId, heads: seq<EventId>)
    requires Plan(t, c, heads).Ordered? && Plan(u, c, heads).Ordered?
    requires forall id :: Loads(t, c, id) && Loads(u, c, id) ==> LoadVerified(t, id).value.body == LoadVerified(u, id).value.body
    ensures Plan(t, c, heads) == Plan(u, c, heads)
  {
    hide LoadVerified;
    var g := ContextGraph(t, c);
    var h := ContextGraph(u, c);
    forall x | x in g && x in h ensures g[x] == h[x] {
      assert Loads(t, c, x) && Loads(u, c, x);
    }
    PostOrderAgree(g, h, [], heads, []);
  }
}
