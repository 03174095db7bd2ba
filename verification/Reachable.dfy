/** What every store reachable from the empty one answers. */
module Reachable {
  import opened Base
  import opened Sorting
  import opened Graph
  import opened Names
  import opened Tables
  import opened Bundles
  import opened Runs
  import opened Projections
  import opened RawRows
  import opened Cycles
  import opened Verify

  /** After any run the verifier's verdict depends only on whether every ref's ancestry fits the
      projection limits. */
  lemma ReachableVerifies(ops: seq<Op>, raw: RawStore, limits: ProjectionLimits)
    requires Represents(raw, Run(EMPTY, ops))
    ensures Sound(raw, limits) <==> RefsFit(Run(EMPTY, ops), limits)
  {
    hide *;
    ReachableIsSound(ops);
    SoundStoreVerifies(raw, Run(EMPTY, ops), limits);
  }

  /** After any run a projection of stored heads never meets a cycle or a missing parent: it succeeds
      exactly when the request is valid and the ancestry fits. */
  lemma ReachableProjects(ops: seq<Op>, c: ContextId, heads: seq<EventId>, limits: ProjectionLimits,
                          r: Result<(seq<Event>, nat), StoreError>)
    requires Projected(Run(EMPTY, ops), c, heads, limits, r)
    requires forall h :: h in heads ==> Targets(Parsed(Run(EMPTY, ops).events), c, h)
    ensures r != Err(ProjectionCycle) && !(r.Err? && r.error.ParentMissing?)
    ensures r.Ok? <==> ValidLimits(limits) && 0 < |heads| <= MAX_BUNDLE_EVENTS && Fits(Run(EMPTY, ops), c, Elems(heads), limits)
    ensures !Cyclic(Links(Parsed(Run(EMPTY, ops).events)))
  {
    hide Inv, Targets, Parsed, Fits, Plan, ContextGraph, Loaded, Cyclic, CyclicFrom, Closed, Run;
    var t := Run(EMPTY, ops);
    ReachableIsSound(ops);
    SoundPlan(t, c, heads);
    SoundGraph(t, c);
    if r.Err? && r.error.ParentMissing? {
      HeadsInGraph(t, c, heads);
      ReachPresent(ContextGraph(t, c), Elems(heads), r.error.id);
      GraphStored(t, c, r.error.id);
    }
  }

  lemma HeadsInGraph(t: Tables, c: ContextId, heads: seq<EventId>)
    requires forall h :: h in heads ==> Targets(Parsed(t.events), c, h)
    requires forall id :: id in ContextGraph(t, c) <==> Targets(Parsed(t.events), c, id)
    ensures Elems(heads) <= ContextGraph(t, c).Keys
  {
  }

  lemma GraphStored(t: Tables, c: ContextId, id: EventId)
    requires id in ContextGraph(t, c)
    ensures id in t.events
  {
  }
}
