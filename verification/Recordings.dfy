/** Which outcome a recorded invocation has, and when. */
module Recordings {
  import opened Base
  import opened Sorting
  import opened Weights
  import opened Graph
  import opened Names
  import opened Tables
  import opened Transitions
  import opened Bundles
  import opened Runs
  import opened Branches
  import opened Projections
  import opened Transfer
  import opened Provider
  import opened Commits

  /** The expected head projects within the default limits. */
  ghost predicate HeadFits(t: Tables, inv: Invocation) {
    Targets(Parsed(t.events), inv.context, inv.expected) && Fits(t, inv.context, {inv.expected}, DEFAULT_LIMITS)
  }

  /** The request can be committed at its turn: signed by an authorized author, not forged, and for a
      branch that is at the expected head, or at the request already. */
  ghost predicate Committable(t: Tables, inv: Invocation) {
    var current := Lookup(t.localRefs, (inv.context, inv.branch));
    && (inv.context, inv.request.body.author) in t.authors && Unforged(t, inv.request)
    && (current == Some(inv.expected) || current == Some(inv.request.id))
  }

  lemma ProjectableWhen(t: Tables, inv: Invocation)
    requires Inv(t)
    ensures Projectable(t, inv.context, inv.expected) <==> HeadFits(t, inv)
  {
    hide Inv, Parsed, Fits, Closed, Cyclic, Anc;
    SoundGraph(t, inv.context);
    if Targets(Parsed(t.events), inv.context, inv.expected) {
      SoundPlan(t, inv.context, [inv.expected]);
    }
    if Plan(t, inv.context, [inv.expected]).Ordered? {
      HeadInPlan(t, inv.context, inv.expected);
    }
  }

  lemma HeadInPlan(t: Tables, c: ContextId, head: EventId)
    requires Plan(t, c, [head]).Ordered?
    ensures head in ContextGraph(t, c)
  {
    hide ContextGraph;
    PostOrderExact(ContextGraph(t, c), [head]);
    AncHeads(ContextGraph(t, c), {head});
    assert Elems([head]) == {head};
    ReachSelf(ContextGraph(t, c), head);
    assert ReachFrom(ContextGraph(t, c), {head}, head);
  }

  lemma RequestChild(inv: Invocation)
    requires Signed(inv)
    ensures Childlike(inv.request) && (inv.result.Some? ==> Childlike(inv.result.value))
  {
    assert |REQUEST_KIND| != |GENESIS_KIND| && |RESPONSE_KIND| != |GENESIS_KIND| && |ERROR_KIND| != |GENESIS_KIND|;
  }

  /** A request above a stored head is admitted with its move exactly when it is committable. */
  lemma RequestWhen(t: Tables, inv: Invocation)
    requires Inv(t) && Signed(inv) && Targets(Parsed(t.events), inv.context, inv.expected)
    ensures var r := AdmitSpec(t, inv.request, RequestMove(inv));
      && (r.Ok? <==> Committable(t, inv))
      && (r.Ok? ==> Moved(t, r.value.0, inv.request, inv.branch))
  {
    hide Inv, AdmitSpec, Parsed, Gained, ValidName, Unforged, Targets;
    RequestChild(inv);
    SwapWhen(t, inv.request, inv.branch, inv.expected);
  }

  /** Refused means exactly that the expected head does not project, or that the request is not committable
      when its turn comes, after whatever others have written. */
  lemma RefusedWhen(t: Tables, inv: Invocation, w: Writers)
    requires Inv(t) && Signed(inv)
    ensures Record(t, inv, w).1 == Refused <==> !(HeadFits(t, inv) && Committable(Run(t, w.beforeRequest), inv))
  {
    hide Inv, AdmitSpec, Parsed, Run, Targets, Projectable, HeadFits, Committable, Grows, Moved, ValidName;
    var before := Run(t, w.beforeRequest);
    ProjectableWhen(t, inv);
    RunInv(t, w.beforeRequest);
    RunGrows(t, w.beforeRequest);
    if HeadFits(t, inv) {
      FitsTargets(t, inv);
      TargetGrows(t, before, inv.context, inv.expected);
      RequestWhen(before, inv);
    }
  }

  lemma FitsTargets(t: Tables, inv: Invocation)
    requires HeadFits(t, inv)
    ensures Targets(Parsed(t.events), inv.context, inv.expected)
  {
  }

  /** The store right after the request's commit. */
  ghost function AfterRequest(t: Tables, inv: Invocation, w: Writers): Tables {
    var before := Run(t, w.beforeRequest);
    var requested := AdmitSpec(before, inv.request, RequestMove(inv));
    if requested.Ok? then requested.value.0 else before
  }

  /** The store when the result's turn comes. */
  ghost function BeforeResult(t: Tables, inv: Invocation, w: Writers): Tables {
    Run(AfterRequest(t, inv, w), w.beforeResult)
  }

  /** The commit moves the branch to the request and changes nothing else. */
  lemma RequestMoves(t: Tables, inv: Invocation, w: Writers)
    requires Inv(t) && Signed(inv) && Record(t, inv, w).1 != Refused
    ensures Moved(Run(t, w.beforeRequest), AfterRequest(t, inv, w), inv.request, inv.branch)
    ensures AdmitSpec(Run(t, w.beforeRequest), inv.request, RequestMove(inv)).Ok? && Projectable(t, inv.context, inv.expected)
  {
    hide Inv, AdmitSpec, Parsed, Run, Targets, Projectable, HeadFits, Grows, Moved, ValidName, Committable;
    var before := Run(t, w.beforeRequest);
    RefusedWhen(t, inv, w);
    ProjectableWhen(t, inv);
    RunInv(t, w.beforeRequest);
    RunGrows(t, w.beforeRequest);
    FitsTargets(t, inv);
    TargetGrows(t, before, inv.context, inv.expected);
    RequestWhen(before, inv);
  }

  /** An invocation that is not refused is rejected when there is no result, recorded when the branch is
      still at the request (or at the result already), and otherwise a conflict that reports the head the
      result met.  Recording moves the branch to the result; a conflict moves nothing. */
  lemma OutcomeDecided(t: Tables, inv: Invocation, w: Writers)
    requires Inv(t) && Signed(inv)
    requires AllDescending(w.beforeRequest) && AllDescending(w.beforeResult) && AllDescending(w.beforeFallback)
    requires inv.result.Some? ==> Unforged(Record(t, inv, w).0, inv.result.value)
    requires Record(t, inv, w).1 != Refused
    ensures var (u, r) := Record(t, inv, w); var v := BeforeResult(t, inv, w);
      var current := Lookup(v.localRefs, (inv.context, inv.branch));
      match inv.result
      case None => r == Rejected && u == v
      case Some(e) =>
        if current == Some(inv.request.id) || current == Some(e.id)
        then r == Recorded(e.id) && Moved(v, u, e, inv.branch)
        else r == Conflict(e.id, current) && Gained(Run(v, w.beforeFallback), u, e) && u.localRefs == Run(v, w.beforeFallback).localRefs
  {
    hide Inv, AdmitSpec, Parsed, Run, Targets, Projectable, Grows, Gained, Moved, ValidName, Requested, Unforged, AllDescending, Answer, Above, Holds;
    RequestMoves(t, inv, w);
    var before := Run(t, w.beforeRequest);
    RunInv(t, w.beforeRequest);
    RequestCommitted(before, inv);
    RequestedKept(AfterRequest(t, inv, w), inv, w.beforeResult);
    if inv.result.Some? {
      AnswerDecided(BeforeResult(t, inv, w), inv, inv.result.value, w);
    }
  }

  lemma AnswerDecided(v: Tables, inv: Invocation, e: Event, w: Writers)
    requires Signed(inv) && inv.result == Some(e) && Requested(v, inv) && AllDescending(w.beforeFallback)
    requires Unforged(Answer(v, inv, e, w).0, e)
    ensures var (u, r) := Answer(v, inv, e, w); var current := Lookup(v.localRefs, (inv.context, inv.branch));
      if current == Some(inv.request.id) || current == Some(e.id)
      then r == Recorded(e.id) && Moved(v, u, e, inv.branch)
      else r == Conflict(e.id, current) && Gained(Run(v, w.beforeFallback), u, e) && u.localRefs == Run(v, w.beforeFallback).localRefs
  {
    hide Inv, AdmitSpec, Parsed, Run, Targets, Grows, Gained, Moved, ValidName, Unforged, AllDescending, Above, Holds;
    NeverForged(v, inv, e, w);
    RequestChild(inv);
    ResultReady(v, inv, e);
    SwapWhen(v, e, inv.branch, inv.request.id);
    var x := Run(v, w.beforeFallback);
    RequestedKept(v, inv, w.beforeFallback);
    if AdmitSpec(v, e, ResultMove(inv, e)).Err? {
      ResultReady(x, inv, e);
      ChildAdmitsWhen(x, e);
    }
  }

  lemma ResultReady(v: Tables, inv: Invocation, e: Event)
    requires Signed(inv) && inv.result == Some(e) && Requested(v, inv) && Unforged(v, e)
    ensures Ready(v, e) && Inv(v)
  {
    hide Inv, Parsed, Targets, Above, Holds, Unforged;
  }

  /** Alone on a healthy branch an invocation is recorded: the branch is at the result, above the request,
      above the expected head, and nothing else is new. */
  lemma UndisturbedRecords(t: Tables, inv: Invocation)
    requires Inv(t) && Signed(inv) && inv.result.Some? && HeadFits(t, inv)
    requires Committable(t, inv) && Lookup(t.localRefs, (inv.context, inv.branch)) == Some(inv.expected)
    requires Unforged(Record(t, inv, Writers([], [], [])).0, inv.result.value)
    ensures var (u, r) := Record(t, inv, Writers([], [], [])); var e := inv.result.value;
      && r == Recorded(e.id) && Inv(u) && Holds(u, [inv.request]) && Holds(u, [e])
      && u.events.Keys == t.events.Keys + {inv.request.id, e.id}
      && u.localRefs == t.localRefs[(inv.context, inv.branch) := e.id]
      && u.contexts == t.contexts && u.authors == t.authors && u.remoteRefs == t.remoteRefs
      && Above(u, e.id, inv.request.id) && Above(u, e.id, inv.expected)
  {
    hide Inv, AdmitSpec, Parsed, Targets, Projectable, HeadFits, Committable, Record, ValidName, Unforged, Above, Holds, Grows;
    var w := Writers([], [], []);
    var e := inv.result.value;
    RefusedWhen(t, inv, w);
    RequestMoves(t, inv, w);
    var v := AfterRequest(t, inv, w);
    OutcomeDecided(t, inv, w);
    var u := Record(t, inv, w).0;
    GrowsKeeps(v, u, inv.request);
    assert inv.request.id in e.body.parents && inv.expected in inv.request.body.parents;
    ParentsUnder(v, u, e);
    ParentsUnder(t, v, inv.request);
    AboveGrows(v, u, inv.request.id, inv.expected);
    AboveTrans(u, e.id, inv.request.id, inv.expected);
  }
}
