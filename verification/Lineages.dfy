/** Strict read-only ancestry walks of the handoff layer, shared by closure and delta. */
module Lineages {
  import opened Base
  import opened Sorting
  import opened Weights
  import opened Graph
  import opened Walker
  import opened Tables
  import opened Projections

  const MAX_CLOSURE_EVENTS := 100000
  const MAX_CLOSURE_BYTES := 64 * 1024 * 1024

  datatype ClosureLimits = ClosureLimits(maxEvents: nat, maxExportedBytes: nat) {
    predicate Checked() {
      0 < maxEvents <= MAX_CLOSURE_EVENTS && 0 < maxExportedBytes <= MAX_CLOSURE_BYTES
    }
  }

  datatype LineageError =
    | UnverifiableSource(event: EventId)
    | DanglingParent(child: EventId, parent: EventId)
    | WrongContext(event: EventId)
    | CycleFound
    | TooLarge
    | UnknownRecipientHead(head: EventId)
    | ContextMismatch
    | InvalidState
    | StoreFailed(error: StoreError)

  datatype EventNode = EventNode(event: EventId, parents: seq<EventId>)

  /** A stored event, re-parsed and re-validated. */
  function ReadEvent(t: Tables, id: EventId): Result<Option<Event>, StoreError> {
    if id !in t.events then Ok(None)
    else
      var e := FromWire(t.events[id].wire);
      if e.Some? && ValidateStored(t, e.value) then Ok(e) else Err(CorruptStorage)
  }

  predicate Reads(t: Tables, c: ContextId, id: EventId) {
    var e := ReadEvent(t, id);
    e.Ok? && e.value.Some? && e.value.value.body.context == c
  }

  function ReadGraph(t: Tables, c: ContextId): Graph {
    map id | id in t.events && Reads(t, c, id) :: ReadEvent(t, id).value.value.body.parents
  }

  function Payloads(t: Tables, c: ContextId): map<EventId, nat> {
    map id | id in t.events && Reads(t, c, id) :: ReadEvent(t, id).value.value.body.payloadBytes
  }

  ghost function Lineage(t: Tables, c: ContextId, heads: seq<EventId>): Walk {
    PostOrder(ReadGraph(t, c), [], heads, [])
  }

  ghost predicate Within(t: Tables, c: ContextId, ids: set<EventId>, limits: ClosureLimits) {
    |ids| <= limits.maxEvents && Weight(Payloads(t, c), ids) <= limits.maxExportedBytes
  }

  function NodeIds(nodes: seq<EventNode>): seq<EventId> {
    seq(|nodes|, i requires 0 <= i < |nodes| => nodes[i].event)
  }

  /** Every visited event once, with its parents and its share of the byte total. */
  ghost predicate Counted(g: Graph, w: map<EventId, nat>, state: map<EventId, nat>, nodes: seq<EventNode>, totalBytes: nat) {
    && Distinct(NodeIds(nodes)) && Elems(NodeIds(nodes)) == state.Keys && |nodes| == |state|
    && (forall i :: 0 <= i < |nodes| ==> nodes[i].event in g && nodes[i].parents == g[nodes[i].event])
    && totalBytes == Weight(w, state.Keys)
  }

  /** Pushed frames are starts, or parents of the child they name. */
  ghost predicate Framed(g: Graph, starts: seq<EventId>, stack: seq<Frame>) {
    forall f :: f in stack && f.Enter? ==> if f.child.Some? then Edge(g, f.child.value, f.id) else f.id in starts
  }

  lemma {:induction false} PushFramed(g: Graph, starts: seq<EventId>, base: seq<Frame>, ids: seq<EventId>, child: Option<EventId>)
    requires Framed(g, starts, base)
    requires forall x :: x in ids ==> if child.Some? then Edge(g, child.value, x) else x in starts
    ensures Framed(g, starts, PushEnters(base, ids, child))
  {
    if ids != [] {
      assert ids[0] in ids;
      assert forall x :: x in ids[1..] ==> x in ids;
      PushFramed(g, starts, base, ids[1..], child);
    }
  }

  lemma DescendFramed(g: Graph, starts: seq<EventId>, stack: seq<Frame>)
    requires Framed(g, starts, stack) && stack != [] && stack[|stack| - 1].id in g
    ensures var id := stack[|stack| - 1].id;
      Framed(g, starts, PushEnters(stack[..|stack| - 1] + [Exit(id)], g[id], Some(id)))
  {
    var id := stack[|stack| - 1].id;
    PushFramed(g, starts, stack[..|stack| - 1] + [Exit(id)], g[id], Some(id));
  }

  lemma IdsOneMore(nodes: seq<EventNode>, n: EventNode, seen: set<EventId>)
    requires Distinct(NodeIds(nodes)) && Elems(NodeIds(nodes)) == seen && n.event !in seen
    ensures Distinct(NodeIds(nodes + [n])) && Elems(NodeIds(nodes + [n])) == seen + {n.event}
  {
    assert NodeIds(nodes + [n]) == NodeIds(nodes) + [n.event];
    forall i | 0 <= i < |nodes| ensures NodeIds(nodes)[i] != n.event {
      assert NodeIds(nodes)[i] in Elems(NodeIds(nodes));
    }
  }

  lemma CountOne(g: Graph, w: map<EventId, nat>, state: map<EventId, nat>, nodes: seq<EventNode>, totalBytes: nat, id: EventId)
    requires Counted(g, w, state, nodes, totalBytes) && id !in state && id in g && id in w
    ensures Counted(g, w, state[id := IN_PROGRESS], nodes + [EventNode(id, g[id])], totalBytes + w[id])
    ensures |state.Keys + {id}| == |nodes| + 1 && Weight(w, state.Keys + {id}) == totalBytes + w[id]
  {
    hide Weight;
    var now := nodes + [EventNode(id, g[id])];
    IdsOneMore(nodes, EventNode(id, g[id]), state.Keys);
    hide NodeIds;
    MapGrows(state, id, IN_PROGRESS);
    assert |state.Keys| == |state|;
    WeightAdd(w, state.Keys, id);
  }

  /** What a walk from the starts answers: all ancestors, or a failure that is really there. */
  ghost predicate Walked(t: Tables, c: ContextId, starts: seq<EventId>, limits: ClosureLimits,
                         r: Result<(seq<EventNode>, nat), LineageError>)
  {
    var g := ReadGraph(t, c);
    var anc := Anc(g, Elems(starts));
    && (r.Ok? <==> Lineage(t, c, starts).Ordered? && Within(t, c, anc, limits))
    && (r.Ok? ==>
          && Distinct(NodeIds(r.value.0)) && Elems(NodeIds(r.value.0)) == anc
          && (forall i :: 0 <= i < |r.value.0| ==> r.value.0[i].event in g && r.value.0[i].parents == g[r.value.0[i].event])
          && r.value.1 == Weight(Payloads(t, c), anc))
    && (r.Err? ==>
          match r.error
          case CycleFound => CyclicFrom(g, Elems(starts))
          case DanglingParent(child, parent) => Edge(g, child, parent) && parent !in t.events && ReachFrom(g, Elems(starts), parent)
          case UnverifiableSource(id) => id in starts && id !in t.events
          case WrongContext(id) => ReachFrom(g, Elems(starts), id) && ReadEvent(t, id).Ok? && !Reads(t, c, id)
          case StoreFailed(e) => e == CorruptStorage
          case TooLarge => true
          case _ => false)
  }

  method WalkAncestry(t: Tables, c: ContextId, starts: seq<EventId>, limits: ClosureLimits)
    returns (r: Result<(seq<EventNode>, nat), LineageError>)
    ensures Walked(t, c, starts, limits, r)
  {
    hide Walking, Walked, ReadGraph, Payloads, PushEnters, Counted, Framed, ReadEvent, Weight, Ascending;
    ghost var g := ReadGraph(t, c);
    ghost var done: seq<EventId> := [];
    var state: map<EventId, nat> := map[];
    var nodes: seq<EventNode> := [];
    var stack := PushEnters([], starts, None);
    var totalBytes: nat := 0;
    WalkStart(t, c, starts);
    while stack != []
      invariant Walking(g, starts, stack, state, done)
      invariant Counted(g, Payloads(t, c), state, nodes, totalBytes) && Framed(g, starts, stack)
      invariant |nodes| <= limits.maxEvents && totalBytes <= limits.maxExportedBytes
      decreases g.Keys - state.Keys, |stack|
    {
      var frame := stack[|stack| - 1];
      var id := frame.id;
      FramedRest(g, starts, stack);
      if frame.Exit? {
        LeaveStep(g, Payloads(t, c), starts, stack, state, done, nodes, totalBytes);
        state := state[id := FINISHED];
        done := done + [id];
        stack := stack[..|stack| - 1];
      } else if id in state && state[id] == FINISHED {
        Skip(g, starts, stack, state, done);
        stack := stack[..|stack| - 1];
      } else if id in state && state[id] == IN_PROGRESS {
        WalkStuck(t, c, starts, limits, stack, state, done);
        return Err(CycleFound);
      } else {
        Colours(g, starts, stack, state, done, id);
        WalkOverflow(t, c, starts, limits, stack, state, done, nodes, totalBytes);
        WalkStuck(t, c, starts, limits, stack, state, done);
        if |nodes| >= limits.maxEvents {
          return Err(TooLarge);
        }
        var event := ReadEvent(t, id);
        if event.Err? {
          return Err(StoreFailed(event.error));
        }
        if event.value.None? {
          return Err(if frame.child.Some? then DanglingParent(frame.child.value, id) else UnverifiableSource(id));
        }
        var body := event.value.value.body;
        if body.context != c {
          return Err(WrongContext(id));
        }
        assert id in g && g[id] == body.parents && id in Payloads(t, c) && Payloads(t, c)[id] == body.payloadBytes by { ReadIs(t, c, id); }
        if totalBytes + body.payloadBytes > limits.maxExportedBytes {
          return Err(TooLarge);
        }
        EnterStep(g, Payloads(t, c), starts, stack, state, done, nodes, totalBytes);
        totalBytes := totalBytes + body.payloadBytes;
        state := state[id := IN_PROGRESS];
        nodes := nodes + [EventNode(id, body.parents)];
        stack := PushEnters(stack[..|stack| - 1] + [Exit(id)], body.parents, Some(id));
      }
    }
    WalkFinish(t, c, starts, limits, state, done, nodes, totalBytes);
    r := Ok((nodes, totalBytes));
  }

  lemma WalkStart(t: Tables, c: ContextId, starts: seq<EventId>)
    ensures var g := ReadGraph(t, c); var stack := PushEnters([], starts, None);
      && Walking(g, starts, stack, map[], [])
      && Counted(g, Payloads(t, c), map[], [], 0) && Framed(g, starts, stack)
  {
    hide ReadEvent, Reads;
    var g := ReadGraph(t, c);
    Start(g, starts);
    PushFramed(g, starts, [], starts, None);
    assert NodeIds([]) == [];
  }

  lemma FramedRest(g: Graph, starts: seq<EventId>, stack: seq<Frame>)
    requires Framed(g, starts, stack) && stack != []
    ensures Framed(g, starts, stack[..|stack| - 1])
    ensures var f := stack[|stack| - 1]; f.Enter? ==> if f.child.Some? then Edge(g, f.child.value, f.id) else f.id in starts
  {
  }

  lemma ReadIs(t: Tables, c: ContextId, id: EventId)
    requires Reads(t, c, id)
    ensures id in ReadGraph(t, c) && ReadGraph(t, c)[id] == ReadEvent(t, id).value.value.body.parents
    ensures id in Payloads(t, c) && Payloads(t, c)[id] == ReadEvent(t, id).value.value.body.payloadBytes
  {
  }

  lemma LeaveStep(g: Graph, w: map<EventId, nat>, starts: seq<EventId>, stack: seq<Frame>, state: map<EventId, nat>,
                  done: seq<EventId>, nodes: seq<EventNode>, totalBytes: nat)
    requires Walking(g, starts, stack, state, done) && Counted(g, w, state, nodes, totalBytes)
    requires stack != [] && stack[|stack| - 1].Exit?
    ensures var id := stack[|stack| - 1].id;
      && Walking(g, starts, stack[..|stack| - 1], state[id := FINISHED], done + [id])
      && Counted(g, w, state[id := FINISHED], nodes, totalBytes)
      && state[id := FINISHED].Keys == state.Keys
  {
    hide Walking, Weight;
    var id := stack[|stack| - 1].id;
    Leave(g, starts, stack, state, done);
    SameKeys(state, id, FINISHED);
  }

  lemma EnterStep(g: Graph, w: map<EventId, nat>, starts: seq<EventId>, stack: seq<Frame>, state: map<EventId, nat>,
                  done: seq<EventId>, nodes: seq<EventNode>, totalBytes: nat)
    requires Walking(g, starts, stack, state, done) && Counted(g, w, state, nodes, totalBytes) && Framed(g, starts, stack)
    requires stack != [] && stack[|stack| - 1].Enter?
    requires stack[|stack| - 1].id !in state && stack[|stack| - 1].id in g && stack[|stack| - 1].id in w
    ensures var id := stack[|stack| - 1].id; var rest := PushEnters(stack[..|stack| - 1] + [Exit(id)], g[id], Some(id));
      && Walking(g, starts, rest, state[id := IN_PROGRESS], done)
      && Counted(g, w, state[id := IN_PROGRESS], nodes + [EventNode(id, g[id])], totalBytes + w[id])
      && Framed(g, starts, rest)
      && g.Keys - state[id := IN_PROGRESS].Keys < g.Keys - state.Keys
  {
    hide Walking, Counted, Framed, Weight, PushEnters;
    var id := stack[|stack| - 1].id;
    Descend(g, starts, stack, state, done);
    DescendFramed(g, starts, stack);
    CountOne(g, w, state, nodes, totalBytes, id);
    assert id in g.Keys - state.Keys && id !in g.Keys - state[id := IN_PROGRESS].Keys;
  }

  /** What stops the walk at the frame on top is what the recursion reports. */
  lemma WalkStuck(t: Tables, c: ContextId, starts: seq<EventId>, limits: ClosureLimits, stack: seq<Frame>,
                  state: map<EventId, nat>, done: seq<EventId>)
    requires stack != [] && stack[|stack| - 1].Enter?
    requires Walking(ReadGraph(t, c), starts, stack, state, done) && Framed(ReadGraph(t, c), starts, stack)
    ensures var f := stack[|stack| - 1]; var e := ReadEvent(t, f.id);
      && (f.id in state && state[f.id] == IN_PROGRESS ==> Walked(t, c, starts, limits, Err(CycleFound)))
      && (f.id !in state && e.Err? ==> Walked(t, c, starts, limits, Err(StoreFailed(e.error))))
      && (f.id !in state && e.Ok? && e.value.None? ==>
            Walked(t, c, starts, limits, Err(if f.child.Some? then DanglingParent(f.child.value, f.id) else UnverifiableSource(f.id))))
      && (f.id !in state && e.Ok? && e.value.Some? && e.value.value.body.context != c ==> Walked(t, c, starts, limits, Err(WrongContext(f.id))))
  {
    hide Walking, CyclicFrom, ReachFrom, PostOrder, Within, Anc, ValidateStored, Ascending, Payloads;
    var g := ReadGraph(t, c);
    var f := stack[|stack| - 1];
    Stuck(g, starts, stack, state, done);
    PostOrderCycle(g, Elems(starts), [], starts, []);
    PostOrderMissing(g, [], starts, []);
    assert f in stack;
  }

  /** A bound hit on the way is one the whole ancestry breaks. */
  lemma WalkOverflow(t: Tables, c: ContextId, starts: seq<EventId>, limits: ClosureLimits, stack: seq<Frame>,
                     state: map<EventId, nat>, done: seq<EventId>, nodes: seq<EventNode>, totalBytes: nat)
    requires stack != [] && stack[|stack| - 1].Enter? && stack[|stack| - 1].id !in state
    requires Walking(ReadGraph(t, c), starts, stack, state, done) && Counted(ReadGraph(t, c), Payloads(t, c), state, nodes, totalBytes)
    ensures |nodes| >= limits.maxEvents ==> Walked(t, c, starts, limits, Err(TooLarge))
    ensures var id := stack[|stack| - 1].id;
      Reads(t, c, id) && totalBytes + ReadEvent(t, id).value.value.body.payloadBytes > limits.maxExportedBytes ==>
        Walked(t, c, starts, limits, Err(TooLarge))
  {
    hide Walking, CyclicFrom, ReachFrom, PostOrder, Anc, ReadEvent, Weight, ReadGraph, Payloads, Counted, Ascending;
    var g := ReadGraph(t, c);
    var w := Payloads(t, c);
    var id := stack[|stack| - 1].id;
    if Lineage(t, c, starts).Ordered? {
      SeenWithinResult(g, starts, stack, state, done);
      var s := state.Keys + {id};
      WeightMonotone(w, s, Anc(g, Elems(starts)));
      SubsetSize(s, Anc(g, Elems(starts)));
      CountedSize(g, w, state, nodes, totalBytes, id);
      if Reads(t, c, id) {
        ReadIs(t, c, id);
        CountOne(g, w, state, nodes, totalBytes, id);
      }
    }
  }

  lemma CountedSize(g: Graph, w: map<EventId, nat>, state: map<EventId, nat>, nodes: seq<EventNode>, totalBytes: nat, id: EventId)
    requires Counted(g, w, state, nodes, totalBytes) && id !in state
    ensures |state.Keys + {id}| == |nodes| + 1
  {
    assert |state.Keys| == |state|;
  }

  lemma WalkFinish(t: Tables, c: ContextId, starts: seq<EventId>, limits: ClosureLimits, state: map<EventId, nat>,
                   done: seq<EventId>, nodes: seq<EventNode>, totalBytes: nat)
    requires Walking(ReadGraph(t, c), starts, [], state, done) && Counted(ReadGraph(t, c), Payloads(t, c), state, nodes, totalBytes)
    requires |nodes| <= limits.maxEvents && totalBytes <= limits.maxExportedBytes
    ensures Walked(t, c, starts, limits, Ok((nodes, totalBytes)))
  {
    hide ReadEvent, Weight, ReadGraph, Payloads, Ascending;
    PostOrderExact(ReadGraph(t, c), starts);
    assert state.Keys == Elems(done);
    assert |state| == |state.Keys|;
  }

  // ---------------------------------------------------------------- sound stores

  /** On a sound store these reads see the same context graph as projection, so every walk from heads
      of the context completes. */
  lemma SoundLineage(t: Tables, c: ContextId, heads: seq<EventId>)
    requires Inv(t)
    ensures ReadGraph(t, c) == ContextGraph(t, c)
    ensures forall id :: id in ReadGraph(t, c) <==> Targets(Parsed(t.events), c, id)
    ensures forall id :: id in ReadGraph(t, c) ==> ReadGraph(t, c)[id] == Parsed(t.events)[id].body.parents
    ensures Closed(ReadGraph(t, c)) && !Cyclic(ReadGraph(t, c))
    ensures (forall h :: h in heads ==> Targets(Parsed(t.events), c, h)) ==> Lineage(t, c, heads).Ordered?
  {
    hide Inv, Parsed, Closed, Cyclic, PostOrder, LoadVerified, ReadEvent;
    SoundGraph(t, c);
    var ev := Parsed(t.events);
    forall id | id in t.events
      ensures id in ev && ReadEvent(t, id) == Ok(Some(ev[id])) && LoadVerified(t, id) == Ok(ev[id])
    {
      InvLoads(t, id);
      InvReads(t, id);
    }
    assert ReadGraph(t, c) == ContextGraph(t, c);
    if forall h :: h in heads ==> Targets(Parsed(t.events), c, h) {
      PostOrderTotal(ReadGraph(t, c), heads);
    }
  }

  lemma InvReads(t: Tables, id: EventId)
    requires LoadVerified(t, id).Ok?
    ensures ReadEvent(t, id) == Ok(Some(LoadVerified(t, id).value))
  {
  }
}
