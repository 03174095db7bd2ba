/** Recording one provider invocation while other writers act between its commits. */
module Provider {
  import opened Base
  import opened Sorting
  import opened Graph
  import opened Names
  import opened Tables
  import opened Transitions
  import opened Bundles
  import opened Runs
  import opened Branches
  import opened Projections
  import opened Transfer
  import opened Store

  const REQUEST_KIND := "agent.request"
  const RESPONSE_KIND := "agent.response"
  const ERROR_KIND := "agent.error"

  /** `result` is the event signed from the provider's outcome; none when the outcome is rejected. */
  datatype Invocation = Invocation(context: ContextId, branch: Name, expected: EventId, request: Event, result: Option<Event>)

  /** Transactions of other writers before each of the invocation's own. */
  datatype Writers = Writers(beforeRequest: seq<Op>, beforeResult: seq<Op>, beforeFallback: seq<Op>)

  datatype Outcome =
    | Refused
    | Rejected
    | Recorded(result: EventId)
    | Conflict(result: EventId, current: Option<EventId>)
    | Lost(error: StoreError)

  predicate ResultKind(kind: string) {
    kind == RESPONSE_KIND || kind == ERROR_KIND
  }

  /** How the identity signs both events. */
  predicate Signed(inv: Invocation) {
    && inv.request.body.context == inv.context
    && inv.request.body.parents == [inv.expected]
    && inv.request.body.kind == REQUEST_KIND
    && (inv.result.Some? ==> var e := inv.result.value;
          && e.body.context == inv.context
          && e.body.parents == [inv.request.id]
          && ResultKind(e.body.kind)
          && e.body.author == inv.request.body.author)
  }

  function RequestMove(inv: Invocation): RefMutation {
    CompareAndSwap(inv.context, inv.branch, Head(inv.expected), inv.request.id)
  }

  function ResultMove(inv: Invocation, e: Event): RefMutation {
    CompareAndSwap(inv.context, inv.branch, Head(inv.request.id), e.id)
  }

  ghost predicate Projectable(t: Tables, c: ContextId, head: EventId) {
    Plan(t, c, [head]).Ordered? && Fits(t, c, {head}, DEFAULT_LIMITS)
  }

  /** Result commit, or the fallback without a ref move when the branch has moved. */
  ghost function Answer(t: Tables, inv: Invocation, e: Event, w: Writers): (Tables, Outcome) {
    var moved := AdmitSpec(t, e, ResultMove(inv, e));
    if moved.Ok? then (moved.value.0, Recorded(e.id))
    else if !moved.error.StaleHead? then (t, Lost(moved.error))
    else
      var u := Run(t, w.beforeFallback);
      var kept := AdmitSpec(u, e, NoMove);
      if kept.Ok? then (kept.value.0, Conflict(e.id, moved.error.current)) else (u, Lost(kept.error))
  }

  ghost function Record(t: Tables, inv: Invocation, w: Writers): (Tables, Outcome) {
    if !Projectable(t, inv.context, inv.expected) then (t, Refused)
    else
      var before := Run(t, w.beforeRequest);
      var requested := AdmitSpec(before, inv.request, RequestMove(inv));
      if requested.Err? then (before, Refused)
      else
        var u := Run(requested.value.0, w.beforeResult);
        if inv.result.None? then (u, Rejected) else Answer(u, inv, inv.result.value, w)
  }

  /** Other writers act on the live store whenever no transaction of the invocation is open. */
  method RecordInvocation(db: Database, inv: Invocation, w: Writers) returns (r: Outcome)
    modifies db
    ensures (db.Snap(), r) == Record(old(db.Snap()), inv, w)
  {
    hide AdmitSpec, Inv, Step, Run, Plan, Fits, ValidName;
    var projection := ProjectOn(db.Snap(), inv.context, [inv.expected], DEFAULT_LIMITS);
    assert projection.Ok? <==> Projectable(db.Snap(), inv.context, inv.expected) by {
      assert Elems([inv.expected]) == {inv.expected};
    }
    if projection.Err? {
      return Refused;
    }
    db.ApplyAll(w.beforeRequest);
    var requested := Commit(db, inv.request, RequestMove(inv));
    if requested.Err? {
      return Refused;
    }
    db.ApplyAll(w.beforeResult);
    if inv.result.None? {
      return Rejected;
    }
    var e := inv.result.value;
    var moved := Commit(db, e, ResultMove(inv, e));
    if moved.Ok? {
      return Recorded(e.id);
    }
    if !moved.error.StaleHead? {
      return Lost(moved.error);
    }
    db.ApplyAll(w.beforeFallback);
    var kept := Commit(db, e, NoMove);
    r := if kept.Ok? then Conflict(e.id, moved.error.current) else Lost(kept.error);
  }

  method Commit(db: Database, e: Event, m: RefMutation) returns (r: Result<AdmissionStatus, StoreError>)
    modifies db
    ensures var s := AdmitSpec(old(db.Snap()), e, m);
      if s.Ok? then r == Ok(s.value.1) && db.Snap() == s.value.0 else r == Err(s.error) && db.Snap() == old(db.Snap())
  {
    hide AdmitSpec, Inv, ValidName;
    ghost var t := db.Snap();
    r := db.Admit(e, m);
    StepIsAdmission(t, AdmitOp(e, m));
  }

  // ---------------------------------------------------------------- the result is never lost

  /** No other envelope claims the event's identifier. */
  predicate Unforged(t: Tables, e: Event) {
    e.id in t.events ==> t.events[e.id].wire == ToWire(e)
  }

  /** An authorized event with one stored parent always admits when it moves no ref. */
  lemma ChildAdmits(t: Tables, e: Event, parent: EventId)
    requires Inv(t) && e.body.parents == [parent] && Targets(Parsed(t.events), e.body.context, parent)
    requires (e.body.context, e.body.author) in t.authors && e.body.kind != GENESIS_KIND && Unforged(t, e)
    ensures AdmitSpec(t, e, NoMove).Ok?
    ensures e.id in t.events ==> AdmitSpec(t, e, NoMove).value.0 == t
  {
    hide Inv, Parsed, Targets, CheckParents, ValidateStored, EdgeRows, GenesisTaken, KnownContext, ValidName;
    var c := e.body.context;
    TargetChecked(t, c, parent);
    KnownRow(t, c);
    if t.contexts[c].state == PENDING { PendingHoldsNothing(t, c, parent); }
    ParentsChecked(t, c, e.body.parents);
    if e.id in t.events {
      assert Holds(t, [e]);
      PresentReimports(t, c, t.contexts[c], e);
    }
  }

  /** With a compare-and-swap the same event fails only for a branch that is elsewhere. */
  lemma SwapDecided(t: Tables, e: Event, name: Name, h: EventId)
    requires AdmitSpec(t, e, NoMove).Ok?
    ensures var r := AdmitSpec(t, e, CompareAndSwap(e.body.context, name, Head(h), e.id));
      var current := Lookup(t.localRefs, (e.body.context, name));
      && (r.Ok? <==> current == Some(h) || current == Some(e.id))
      && (r.Err? ==> r.error == StaleHead(current))
      && (r.Ok? ==> Lookup(r.value.0.localRefs, (e.body.context, name)) == Some(e.id))
  {
    hide CheckEvent, ValidateStored, EdgeRows, ValidName, KnownContext;
  }

  lemma SwapLands(t: Tables, e: Event, m: RefMutation)
    requires m.CompareAndSwap? && AdmitSpec(t, e, m).Ok?
    ensures AdmitSpec(t, e, NoMove).Ok?
    ensures Lookup(AdmitSpec(t, e, m).value.0.localRefs, (m.context, m.name)) == Some(e.id)
    ensures (e.body.context, e.body.author) in t.authors && AdmitSpec(t, e, m).value.0.authors == t.authors
  {
    hide ValidateStored, EdgeRows, ValidName, KnownContext, CheckParents;
  }

  /** The request is on its branch, and so is its expected head. */
  lemma RequestLands(t: Tables, inv: Invocation)
    requires Inv(t) && Signed(inv) && AdmitSpec(t, inv.request, RequestMove(inv)).Ok?
    ensures var u := AdmitSpec(t, inv.request, RequestMove(inv)).value.0; var k := (inv.context, inv.branch);
      && Inv(u) && Holds(u, [inv.request]) && Lookup(u.localRefs, k) == Some(inv.request.id)
      && Above(u, inv.request.id, inv.expected) && (inv.context, inv.request.body.author) in u.authors
      && Targets(Parsed(u.events), inv.context, inv.request.id)
  {
    hide Inv, AdmitSpec, Holds, Above, ValidName;
    var m := RequestMove(inv);
    AdmitInv(t, inv.request, m);
    AdmitStores(t, inv.request, m);
    SwapLands(t, inv.request, m);
    assert inv.expected in inv.request.body.parents;
    ParentBelow(AdmitSpec(t, inv.request, m).value.0, inv.request, inv.expected);
  }

  lemma TargetGrows(t: Tables, u: Tables, c: ContextId, id: EventId)
    requires Grows(t, u) && Targets(Parsed(t.events), c, id)
    ensures Targets(Parsed(u.events), c, id)
  {
  }

  lemma GrowsKeeps(t: Tables, u: Tables, e: Event)
    requires Grows(t, u)
    ensures t.authors <= u.authors
    ensures Holds(t, [e]) ==> Holds(u, [e])
    ensures Unforged(u, e) ==> Unforged(t, e)
  {
    if Holds(t, [e]) {
      assert [e][0] == e;
    }
  }

  /** What a committed request leaves true for good, whatever others write. */
  ghost predicate Requested(t: Tables, inv: Invocation) {
    var k := (inv.context, inv.branch);
    && Inv(t) && Holds(t, [inv.request]) && Targets(Parsed(t.events), inv.context, inv.request.id)
    && (inv.context, inv.request.body.author) in t.authors
    && k in t.localRefs && Above(t, t.localRefs[k], inv.request.id)
    && Above(t, inv.request.id, inv.expected)
  }

  lemma RequestedKept(t: Tables, inv: Invocation, ops: seq<Op>)
    requires Requested(t, inv) && AllDescending(ops)
    ensures Requested(Run(t, ops), inv) && Grows(t, Run(t, ops))
  {
    hide Inv, Run, Above, Holds, Parsed, Targets, Grows, AllDescending, ValidName;
    var u := Run(t, ops);
    var k := (inv.context, inv.branch);
    RunInv(t, ops);
    RunGrows(t, ops);
    GrowsKeeps(t, u, inv.request);
    TargetGrows(t, u, inv.context, inv.request.id);
    BranchHistoryKept(t, ops, k);
    AboveGrows(t, u, t.localRefs[k], inv.request.id);
    AboveTrans(u, u.localRefs[k], t.localRefs[k], inv.request.id);
    AboveGrows(t, u, inv.request.id, inv.expected);
  }

  /** The result, once stored, sits directly above its request. */
  ghost predicate Answered(t: Tables, inv: Invocation, e: Event) {
    Inv(t) && Holds(t, [e]) && Above(t, e.id, inv.request.id) && e.id != inv.request.id
  }

  lemma AnsweredBy(t: Tables, inv: Invocation, e: Event, m: RefMutation)
    requires Inv(t) && e.body.parents == [inv.request.id] && AdmitSpec(t, e, m).Ok?
    ensures Answered(AdmitSpec(t, e, m).value.0, inv, e)
  {
    hide Inv, AdmitSpec, Holds, Above, ValidName;
    var u := AdmitSpec(t, e, m).value.0;
    AdmitInv(t, e, m);
    AdmitStores(t, e, m);
    assert inv.request.id in e.body.parents;
    ParentBelow(u, e, inv.request.id);
    NotOwnParent(u, e);
  }

  /** The branch holds the result at its head, or had moved to a proper descendant of the request
      before the result was stored without moving any ref. */
  ghost predicate Settled(t: Tables, u: Tables, inv: Invocation, e: Event, r: Outcome) {
    var k := (inv.context, inv.branch);
    && Answered(u, inv, e)
    && match r
       case Recorded(id) => id == e.id && Lookup(u.localRefs, k) == Some(e.id)
       case Conflict(id, current) =>
         && id == e.id && current.Some? && current == Lookup(t.localRefs, k)
         && current.value != inv.request.id && Above(u, current.value, inv.request.id)
         && k in u.localRefs && Above(u, u.localRefs[k], current.value)
       case _ => false
  }

  /** Rows only grow, so an identifier nobody forged by the end was never forged before. */
  lemma NeverForged(t: Tables, inv: Invocation, e: Event, w: Writers)
    requires Requested(t, inv) && AllDescending(w.beforeFallback) && Unforged(Answer(t, inv, e, w).0, e)
    ensures Unforged(t, e)
    ensures var moved := AdmitSpec(t, e, ResultMove(inv, e));
      moved.Err? && moved.error.StaleHead? ==> Unforged(Run(t, w.beforeFallback), e)
  {
    hide Inv, AdmitSpec, Holds, Above, Parsed, Targets, Run, Grows, AllDescending, Unforged, ValidName;
    var v := Run(t, w.beforeFallback);
    RequestedKept(t, inv, w.beforeFallback);
    AdmitGrows(t, e, ResultMove(inv, e));
    AdmitGrows(v, e, NoMove);
    var u := Answer(t, inv, e, w).0;
    if Grows(t, u) { GrowsKeeps(t, u, e); }
    if Grows(v, u) { GrowsKeeps(v, u, e); }
    GrowsKeeps(t, v, e);
  }

  lemma AnswerSettles(t: Tables, inv: Invocation, e: Event, w: Writers)
    requires Signed(inv) && inv.result == Some(e) && Requested(t, inv) && AllDescending(w.beforeFallback)
    requires Unforged(Answer(t, inv, e, w).0, e)
    ensures var (u, r) := Answer(t, inv, e, w); Settled(t, u, inv, e, r)
  {
    hide Inv, AdmitSpec, Holds, Above, Parsed, Targets, Run, Grows, AllDescending, Answered, Unforged, ValidName;
    NeverForged(t, inv, e, w);
    ChildAdmits(t, e, inv.request.id);
    SwapDecided(t, e, inv.branch, inv.request.id);
    if AdmitSpec(t, e, ResultMove(inv, e)).Ok? {
      AnsweredBy(t, inv, e, ResultMove(inv, e));
    } else {
      FallbackSettles(t, inv, e, w);
    }
  }

  lemma FallbackSettles(t: Tables, inv: Invocation, e: Event, w: Writers)
    requires Signed(inv) && inv.result == Some(e) && Requested(t, inv) && AllDescending(w.beforeFallback)
    requires Unforged(Run(t, w.beforeFallback), e)
    requires AdmitSpec(t, e, ResultMove(inv, e)) == Err(StaleHead(Lookup(t.localRefs, (inv.context, inv.branch))))
    requires Lookup(t.localRefs, (inv.context, inv.branch)) != Some(inv.request.id)
    ensures var (u, r) := Answer(t, inv, e, w); Settled(t, u, inv, e, r)
  {
    hide Inv, AdmitSpec, Holds, Above, Parsed, Targets, Run, Grows, AllDescending, Answered, Unforged, ValidName;
    var k := (inv.context, inv.branch);
    var h := t.localRefs[k];
    var v := Run(t, w.beforeFallback);
    RequestedKept(t, inv, w.beforeFallback);
    BranchHistoryKept(t, w.beforeFallback, k);
    ChildAdmits(v, e, inv.request.id);
    AnsweredBy(v, inv, e, NoMove);
    var u := AdmitSpec(v, e, NoMove).value.0;
    AdmitGrows(v, e, NoMove);
    NoMoveKeepsLocal(v, e);
    AboveGrows(v, u, v.localRefs[k], h);
    GrowsTrans(t, v, u);
    AboveGrows(t, u, h, inv.request.id);
  }

  /** Whatever other writers do, a committed request stays on its branch and a signed result is
      stored above it: at the branch head, or beside a branch that has moved on. */
  lemma InvocationSettles(t: Tables, inv: Invocation, w: Writers)
    requires Inv(t) && Signed(inv)
    requires AllDescending(w.beforeRequest) && AllDescending(w.beforeResult) && AllDescending(w.beforeFallback)
    requires inv.result.Some? ==> Unforged(Record(t, inv, w).0, inv.result.value)
    ensures var (u, r) := Record(t, inv, w);
      match r
      case Refused => u == t || u == Run(t, w.beforeRequest)
      case Rejected => inv.result.None? && Requested(u, inv)
      case Lost(_) => false
      case _ => inv.result.Some? && exists v :: Requested(v, inv) && Settled(v, u, inv, inv.result.value, r)
  {
    hide Inv, AdmitSpec, Settled, Answer, Requested, Run, AllDescending, Projectable, Unforged, ValidName;
    var before := Run(t, w.beforeRequest);
    RunInv(t, w.beforeRequest);
    var requested := AdmitSpec(before, inv.request, RequestMove(inv));
    if Projectable(t, inv.context, inv.expected) && requested.Ok? {
      RequestCommitted(before, inv);
      RequestedKept(requested.value.0, inv, w.beforeResult);
      var v := Run(requested.value.0, w.beforeResult);
      if inv.result.Some? {
        AnswerSettles(v, inv, inv.result.value, w);
        NotLost(v, Answer(v, inv, inv.result.value, w).0, inv, inv.result.value, Answer(v, inv, inv.result.value, w).1);
      }
    }
  }

  lemma NotLost(t: Tables, u: Tables, inv: Invocation, e: Event, r: Outcome)
    requires Settled(t, u, inv, e, r)
    ensures r.Recorded? || r.Conflict?
  {
    hide Answered, Above;
  }

  lemma RequestCommitted(t: Tables, inv: Invocation)
    requires Inv(t) && Signed(inv) && AdmitSpec(t, inv.request, RequestMove(inv)).Ok?
    ensures Requested(AdmitSpec(t, inv.request, RequestMove(inv)).value.0, inv)
  {
    hide Inv, AdmitSpec, Holds, Above, Parsed, Targets, ValidName;
    RequestLands(t, inv);
    var u := AdmitSpec(t, inv.request, RequestMove(inv)).value.0;
    HeadAboveItself(u, inv.request.id);
  }
}
