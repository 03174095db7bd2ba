/** Runs: every interleaving of transactions, what all of them keep, and who wins a branch. */
module Runs {
  import opened Base
  import opened Sorting
  import opened Graph
  import opened Names
  import opened Tables
  import opened Transitions
  import opened Bundles
  import opened Namespaces

  /** One attempted transaction.  Append, merge and the provider writes are admissions. */
  datatype Op =
    | ProvisionOp(provision: ContextProvision, pendingOnly: bool)
    | CreateContextOp(genesis: Event, branch: Name)
    | AuthorizeOp(context: ContextId, author: AuthorId)
    | AdmitOp(event: Event, mutation: RefMutation)
    | CreateBranchOp(context: ContextId, branch: Name, head: EventId)
    | ImportOp(peer: Name, bundle: Bundle)
    | SetRemoteOp(peer: Name, context: ContextId, branch: Name, head: EventId)
    | ReplaceRemoteOp(peer: Name, context: ContextId, refs: seq<AdvertisedRef>)

  ghost function First<A, B>(r: Result<(A, B), StoreError>): Result<A, StoreError> {
    match r
    case Ok(p) => Ok(p.0)
    case Err(e) => Err(e)
  }

  ghost function Attempt(t: Tables, op: Op): Result<Tables, StoreError> {
    match op
    case ProvisionOp(p, pendingOnly) => ProvisionSpec(t, p, pendingOnly)
    case CreateContextOp(e, b) => if IsGenesis(e.id, e) then CreateContextSpec(t, e, b) else Err(GenesisMismatch)
    case AuthorizeOp(c, a) => First(AuthorizeSpec(t, c, a))
    case AdmitOp(e, m) => First(AdmitSpec(t, e, m))
    case CreateBranchOp(c, b, h) => CreateBranchSpec(t, c, b, h)
    case ImportOp(peer, b) => if WellFormed(b) then First(ImportSpec(t, peer, b)) else Err(BundleMalformed)
    case SetRemoteOp(peer, c, b, h) => SetRemoteSpec(t, peer, c, b, h)
    case ReplaceRemoteOp(peer, c, refs) => First(ReplaceSpec(t, peer, c, refs))
  }

  /** A failed transaction leaves the tables as they were. */
  ghost function Step(t: Tables, op: Op): Tables {
    var r := Attempt(t, op);
    if r.Ok? then r.value else t
  }

  ghost function Run(t: Tables, ops: seq<Op>): Tables
    decreases |ops|
  {
    if ops == [] then t else Run(Step(t, ops[0]), ops[1..])
  }

  lemma StepInv(t: Tables, op: Op)
    requires Inv(t)
    ensures Inv(Step(t, op))
  {
    hide Inv, ProvisionSpec, CreateContextSpec, AdmitSpec, CreateBranchSpec, ImportSpec, SetRemoteSpec, ReplaceSpec,
         WellFormed, ValidName;
    match op
    case ProvisionOp(p, pendingOnly) => ProvisionInv(t, p, pendingOnly);
    case CreateContextOp(e, b) => if IsGenesis(e.id, e) { CreateContextInv(t, e, b); }
    case AuthorizeOp(c, a) => if c in t.contexts { MoreAuthorsInv(t, c, a); }
    case AdmitOp(e, m) => AdmitInv(t, e, m);
    case CreateBranchOp(c, b, h) => RefStepsInv(t, b, c, b, h);
    case ImportOp(peer, b) => if WellFormed(b) { ImportIsAdmissions(t, peer, b); }
    case SetRemoteOp(peer, c, b, h) => RefStepsInv(t, peer, c, b, h);
    case ReplaceRemoteOp(peer, c, refs) => if ReplaceSpec(t, peer, c, refs).Ok? { ReplaceInv(t, peer, c, refs); }
  }

  lemma {:induction false} RunInv(t: Tables, ops: seq<Op>)
    requires Inv(t)
    ensures Inv(Run(t, ops))
    decreases |ops|
  {
    hide Inv, Step;
    if ops != [] {
      StepInv(t, ops[0]);
      RunInv(Step(t, ops[0]), ops[1..]);
    }
  }

  /** Every store reachable from the empty one is sound; in particular its parent graph is acyclic
      and parent-closed. */
  lemma ReachableIsSound(ops: seq<Op>)
    ensures var t := Run(EMPTY, ops);
      Inv(t) && !Cyclic(Links(Parsed(t.events))) && Closed(Links(Parsed(t.events)))
  {
    assert Inv(EMPTY) by {
      var g := Links(Parsed(EMPTY.events));
      forall p ensures !IsCycle(g, p) {
        if |p| >= 2 { assert !Edge(g, p[0], p[1]); }
      }
    }
    RunInv(EMPTY, ops);
    InvGraph(Run(EMPTY, ops));
  }

  // ---------------------------------------------------------------- append-only tables

  /** What the update and delete triggers allow: rows only appear, and a context only activates. */
  ghost predicate Grows(t: Tables, u: Tables) {
    && (forall id :: id in t.events ==> id in u.events && u.events[id] == t.events[id])
    && (forall k :: k in t.edges ==> k in u.edges && u.edges[k] == t.edges[k])
    && t.authors <= u.authors
    && (forall c :: c in t.contexts ==>
          && c in u.contexts
          && u.contexts[c].expected == t.contexts[c].expected
          && (t.contexts[c].state != PENDING ==> u.contexts[c] == t.contexts[c]))
  }

  lemma GrowsTrans(t: Tables, u: Tables, v: Tables)
    requires Grows(t, u) && Grows(u, v)
    ensures Grows(t, v)
  {
  }

  lemma InsertGrows(t: Tables, e: Event)
    requires Inv(t) && e.id !in t.events
    ensures Grows(t, InsertEvent(t, e))
  {
    hide RefsOk, Cyclic, AuthorsOk, GenesisOk, ContextsOk, RowsOk, EdgesOk, ParentsOk, RefKeys, Links, Parsed;
    forall k | k in t.edges ensures k !in EdgeRows(e) {
      assert k.0 in t.events;
    }
  }

  lemma ActivateGrows(t: Tables, c: ContextId, id: EventId)
    requires c in t.contexts ==> t.contexts[c].state == PENDING
    ensures Grows(t, Activate(t, c, id))
  {
  }

  lemma AdmitGrows(t: Tables, e: Event, m: RefMutation)
    requires Inv(t)
    ensures var r := AdmitSpec(t, e, m); r.Ok? ==> Grows(t, r.value.0) && r.value.0.remoteRefs == t.remoteRefs
  {
    hide Inv, Grows, CheckEvent, ValidateStored, EdgeRows, ValidName;
    var r := AdmitSpec(t, e, m);
    if r.Ok? {
      var c := e.body.context;
      KnownStored(t, c);
      var stored := StoreEvent(t, e).value;
      assert Grows(t, stored) by {
        if e.id !in t.events { InsertGrows(t, e); } else { GrowsSelf(t); }
      }
      var active := if t.contexts[c].state == PENDING then Activate(stored, c, e.id) else stored;
      assert Grows(t, active) by {
        if t.contexts[c].state == PENDING { ActivateGrows(stored, c, e.id); GrowsTrans(t, stored, active); }
      }
      assert r.value.0 == active.(localRefs := r.value.0.localRefs);
      RefsDoNotMatter(t, active, r.value.0);
    }
  }

  lemma GrowsSelf(t: Tables)
    ensures Grows(t, t)
  {
  }

  lemma RefsDoNotMatter(t: Tables, u: Tables, v: Tables)
    requires Grows(t, u) && v == u.(localRefs := v.localRefs, remoteRefs := v.remoteRefs)
    ensures Grows(t, v)
  {
  }

  lemma {:induction false} AdmitAllGrows(t: Tables, events: seq<Event>)
    requires Inv(t)
    ensures var r := AdmitAll(t, events); r.Ok? ==> Grows(t, r.value) && r.value.localRefs == t.localRefs && Inv(r.value)
    decreases |events|
  {
    hide Inv, Grows, AdmitSpec;
    if events == [] {
      GrowsSelf(t);
    } else {
      var a := AdmitSpec(t, events[0], NoMove);
      if a.Ok? && AdmitAll(t, events).Ok? {
        AdmitInv(t, events[0], NoMove);
        AdmitGrows(t, events[0], NoMove);
        NoMoveKeepsLocal(t, events[0]);
        AdmitAllGrows(a.value.0, events[1..]);
        GrowsTrans(t, a.value.0, AdmitAll(t, events).value);
      }
    }
  }

  lemma NoMoveKeepsLocal(t: Tables, e: Event)
    requires AdmitSpec(t, e, NoMove).Ok?
    ensures AdmitSpec(t, e, NoMove).value.0.localRefs == t.localRefs
  {
    hide CheckEvent, ValidateStored, EdgeRows;
  }

  /** Import inserts events and moves refs of the named peer and context only. */
  lemma ImportGrows(t: Tables, peer: Name, b: Bundle)
    requires Inv(t) && WellFormed(b)
    ensures var r := ImportSpec(t, peer, b);
      r.Ok? ==> Grows(t, r.value.0) && r.value.0.localRefs == t.localRefs && Inv(r.value.0)
                && (b.refs == [] ==> r.value.0.remoteRefs == t.remoteRefs)
  {
    hide Inv, Grows, KnownContext, AdmitAll, Targets, Parsed, ImportSpec, ValidName;
    ImportIsAdmissions(t, peer, b);
    if ImportSpec(t, peer, b).Ok? {
      AdmitAllGrows(t, b.events);
      AdmitAllStores(t, b.events);
      RefsDoNotMatter(t, AdmitAll(t, b.events).value, ImportSpec(t, peer, b).value.0);
    }
  }

  lemma ProvisionGrows(t: Tables, p: ContextProvision)
    requires p.context !in t.contexts
    ensures Grows(t, Provisioned(t, p))
  {
  }

  lemma StepGrows(t: Tables, op: Op)
    requires Inv(t)
    ensures Grows(t, Step(t, op))
  {
    hide Inv, Grows, AdmitSpec, ImportSpec, ReplaceSpec, WellFormed, Provisioned, InsertEvent, CheckTarget, ValidName;
    GrowsSelf(t);
    if Attempt(t, op).Ok? {
      match op
      case ProvisionOp(p, _) => if p.context !in t.contexts { ProvisionGrows(t, p); }
      case CreateContextOp(e, b) =>
        var p := ContextProvision(e.body.context, e.id, [e.body.author]);
        ProvisionGrows(t, p);
        var u := Provisioned(t, p);
        assert p.context in u.contexts && u.contexts[p.context].state == PENDING && u.events == t.events by { ProvisionedRow(t, p); }
        ProvisionedInv(t, p);
        InsertGrows(u, e);
        var v := InsertEvent(u, e);
        assert v.contexts == u.contexts by { InsertKeepsContexts(u, e); }
        ActivateGrows(v, p.context, e.id);
        GrowsTrans(t, u, v);
        GrowsTrans(t, v, Activate(v, p.context, e.id));
        RefsDoNotMatter(t, Activate(v, p.context, e.id), Step(t, op));
      case AuthorizeOp(c, a) => AuthorizeGrows(t, c, a);
      case AdmitOp(e, m) => AdmitGrows(t, e, m);
      case CreateBranchOp(_, _, _) => RefsDoNotMatter(t, t, Step(t, op));
      case ImportOp(peer, b) => ImportGrows(t, peer, b);
      case SetRemoteOp(_, _, _, _) => RefsDoNotMatter(t, t, Step(t, op));
      case ReplaceRemoteOp(peer, c, refs) =>
        ReplaceSetsNamespace(t, peer, c, refs);
        RefsDoNotMatter(t, t, Step(t, op));
    }
  }

  lemma ProvisionedRow(t: Tables, p: ContextProvision)
    ensures var u := Provisioned(t, p); p.context in u.contexts && u.contexts[p.context].state == PENDING && u.events == t.events
  {
  }

  lemma InsertKeepsContexts(t: Tables, e: Event)
    ensures InsertEvent(t, e).contexts == t.contexts
  {
  }

  lemma AuthorizeGrows(t: Tables, c: ContextId, a: AuthorId)
    ensures Grows(t, t.(authors := t.authors + {(c, a)}))
  {
  }

  /** No run updates or deletes an event, edge, author or activated context. */
  lemma {:induction false} RunGrows(t: Tables, ops: seq<Op>)
    requires Inv(t)
    ensures Grows(t, Run(t, ops))
    decreases |ops|
  {
    hide Inv, Grows, Step;
    if ops == [] {
      GrowsSelf(t);
    } else {
      StepGrows(t, ops[0]);
      StepInv(t, ops[0]);
      RunGrows(Step(t, ops[0]), ops[1..]);
      GrowsTrans(t, Step(t, ops[0]), Run(t, ops));
    }
  }
}
