/** Whose requests the pending query lists: what its documentation promises, and when the promise holds. */
module Recovery {
  import opened Base
  import opened Sorting
  import opened Weights
  import opened Graph
  import opened Names
  import opened Tables
  import opened Transitions
  import opened Bundles
  import opened Namespaces
  import opened Runs
  import opened Branches
  import opened Projections
  import opened Provider
  import opened Invocations
  import opened Samples

  // ---------------------------------------------------------------- every request has a branch

  /** Each request lies on some local branch of its context. */
  ghost predicate Homed(t: Tables) {
    var ev := Parsed(t.events);
    forall id :: id in ev && ev[id].body.kind == REQUEST_KIND ==> OnSomeBranch(t, ev[id].body.context, id)
  }

  ghost predicate OnSomeBranch(t: Tables, c: ContextId, id: EventId) {
    exists k :: k in t.localRefs && k.0 == c && Above(t, t.localRefs[k], id)
  }

  /** Requests enter the store as recorded invocations do: by an admission that moves a branch. */
  predicate Records(op: Op) {
    && (op.AdmitOp? && op.event.body.kind == REQUEST_KIND ==> op.mutation.CompareAndSwap?)
    && (op.ImportOp? ==> forall i :: 0 <= i < |op.bundle.events| ==> op.bundle.events[i].body.kind != REQUEST_KIND)
  }

  predicate AllRecord(ops: seq<Op>) {
    forall i :: 0 <= i < |ops| ==> Records(ops[i])
  }

  lemma {:induction false} AdmitAllAdds(t: Tables, events: seq<Event>, id: EventId)
    requires AdmitAll(t, events).Ok? && id in Parsed(AdmitAll(t, events).value.events) && id !in Parsed(t.events)
    ensures exists i :: 0 <= i < |events| && events[i] == Parsed(AdmitAll(t, events).value.events)[id]
    decreases |events|
  {
    hide AdmitSpec, Parsed, Ascending;
    if events != [] {
      var u := AdmitSpec(t, events[0], NoMove).value.0;
      EventsAfterAdmit(t, events[0], NoMove);
      var last := AdmitAll(t, events).value;
      if id in Parsed(u.events) {
        AdmitAllStores(u, events[1..]);
        ParsedKept(u, last, id);
      } else {
        AdmitAllAdds(u, events[1..], id);
        var i :| 0 <= i < |events[1..]| && events[1..][i] == Parsed(last.events)[id];
        assert events[i + 1] == Parsed(last.events)[id];
      }
    }
  }

  lemma ParsedKept(t: Tables, u: Tables, id: EventId)
    requires forall x :: x in t.events ==> x in u.events && u.events[x] == t.events[x]
    requires id in Parsed(t.events)
    ensures id in Parsed(u.events) && Parsed(u.events)[id] == Parsed(t.events)[id]
  {
  }

  /** A new event of one transaction is the one it admits or creates, or comes in its bundle. */
  ghost predicate Brings(op: Op, e: Event) {
    || (op.AdmitOp? && op.event == e)
    || (op.CreateContextOp? && op.genesis == e)
    || (op.ImportOp? && exists i :: 0 <= i < |op.bundle.events| && op.bundle.events[i] == e)
  }

  lemma ImportBrings(t: Tables, peer: Name, b: Bundle, id: EventId)
    requires Inv(t) && WellFormed(b) && ImportSpec(t, peer, b).Ok?
    requires id in Parsed(ImportSpec(t, peer, b).value.0.events) && id !in Parsed(t.events)
    ensures Brings(ImportOp(peer, b), Parsed(ImportSpec(t, peer, b).value.0.events)[id])
  {
    hide Inv, WellFormed, ImportSpec, AdmitAll, Parsed, KnownContext, PeerRefs, Targets, ValidName;
    ImportIsAdmissions(t, peer, b);
    AdmitAllAdds(t, b.events, id);
  }

  lemma CreateBrings(t: Tables, e: Event, name: Name, id: EventId)
    requires IsGenesis(e.id, e) && CreateContextSpec(t, e, name).Ok?
    requires id in Parsed(CreateContextSpec(t, e, name).value.events) && id !in Parsed(t.events)
    ensures Parsed(CreateContextSpec(t, e, name).value.events)[id] == e
  {
    hide Ascending, ValidName, EdgeRows;
    ParsedInsert(t, e);
  }

  lemma StepBrings(t: Tables, op: Op, id: EventId)
    requires Inv(t) && id in Parsed(Step(t, op).events) && id !in Parsed(t.events)
    ensures Attempt(t, op).Ok? && Brings(op, Parsed(Step(t, op).events)[id])
  {
    hide Inv, AdmitSpec, ImportSpec, ReplaceSpec, CreateContextSpec, WellFormed, Parsed, CheckTarget, ValidName, Ascending;
    match op
    case ProvisionOp(_, _) =>
    case CreateContextOp(e, b) => CreateBrings(t, e, b, id);
    case AuthorizeOp(_, _) =>
    case AdmitOp(e, m) => EventsAfterAdmit(t, e, m);
    case CreateBranchOp(_, _, _) =>
    case ImportOp(peer, b) => ImportBrings(t, peer, b, id);
    case SetRemoteOp(_, _, _, _) =>
    case ReplaceRemoteOp(peer, c, refs) => ReplaceSetsNamespace(t, peer, c, refs);
  }

  /** One such transaction keeps every request on a branch. */
  lemma HomedStep(t: Tables, op: Op)
    requires Inv(t) && Homed(t) && Descending(op) && Records(op)
    ensures Homed(Step(t, op))
  {
    var u := Step(t, op);
    forall id | id in Parsed(u.events) && Parsed(u.events)[id].body.kind == REQUEST_KIND
      ensures OnSomeBranch(u, Parsed(u.events)[id].body.context, id)
    {
      hide *;
      if id in Parsed(t.events) {
        OldRequest(t, op, id);
      } else {
        NewRequest(t, op, id);
      }
    }
  }

  lemma OldRequest(t: Tables, op: Op, id: EventId)
    requires Inv(t) && Homed(t) && Descending(op) && id in Parsed(t.events) && id in Parsed(Step(t, op).events)
    requires Parsed(Step(t, op).events)[id].body.kind == REQUEST_KIND
    ensures OnSomeBranch(Step(t, op), Parsed(Step(t, op).events)[id].body.context, id)
  {
    hide Inv, Step, Above, Parsed, Descending, Grows;
    var u := Step(t, op);
    StepGrows(t, op);
    GrowsParsed(t, u, id);
    assert OnSomeBranch(t, Parsed(t.events)[id].body.context, id);
    var k :| k in t.localRefs && k.0 == Parsed(t.events)[id].body.context && Above(t, t.localRefs[k], id);
    StepAdvances(t, op, k);
    AboveGrows(t, u, t.localRefs[k], id);
    AboveTrans(u, u.localRefs[k], t.localRefs[k], id);
  }

  lemma GrowsParsed(t: Tables, u: Tables, id: EventId)
    requires Grows(t, u) && id in Parsed(t.events)
    ensures id in Parsed(u.events) && Parsed(u.events)[id] == Parsed(t.events)[id]
  {
  }

  lemma NewRequest(t: Tables, op: Op, id: EventId)
    requires Inv(t) && Records(op) && id !in Parsed(t.events) && id in Parsed(Step(t, op).events)
    requires Parsed(Step(t, op).events)[id].body.kind == REQUEST_KIND
    ensures OnSomeBranch(Step(t, op), Parsed(Step(t, op).events)[id].body.context, id)
  {
    hide Inv, Step, Above, Parsed, AdmitSpec, ImportSpec, WellFormed, CreateContextSpec, ReplaceSpec, ValidName, Ascending;
    var u := Step(t, op);
    StepBrings(t, op, id);
    StepInv(t, op);
    ParsedNamed(u, id);
    NotAGenesis();
    assert op.AdmitOp?;
    StepIsAdmission(t, op);
    AttemptedAdmission(t, op);
    SwapLands(t, op.event, op.mutation);
    SwapContext(t, op.event, op.mutation);
    HeadAboveItself(u, id);
  }

  lemma NotAGenesis()
    ensures REQUEST_KIND != GENESIS_KIND
  {
    assert |REQUEST_KIND| != |GENESIS_KIND|;
  }

  lemma AttemptedAdmission(t: Tables, op: Op)
    requires op.AdmitOp? && Attempt(t, op).Ok?
    ensures AdmitSpec(t, op.event, op.mutation).Ok?
  {
    hide AdmitSpec;
  }

  lemma SwapContext(t: Tables, e: Event, m: RefMutation)
    requires m.CompareAndSwap? && AdmitSpec(t, e, m).Ok?
    ensures m.context == e.body.context && m.newHead == e.id
  {
    hide CheckEvent, ValidateStored, EdgeRows, ValidName, KnownContext;
  }

  lemma ParsedNamed(t: Tables, id: EventId)
    requires Inv(t) && id in Parsed(t.events)
    ensures Parsed(t.events)[id].id == id
  {
    hide Inv, LoadVerified, AuthoritativeContext;
    InvLoads(t, id);
  }

  lemma {:induction false} HomedRun(t: Tables, ops: seq<Op>)
    requires Inv(t) && Homed(t) && AllDescending(ops) && AllRecord(ops)
    ensures Homed(Run(t, ops)) && Inv(Run(t, ops))
    decreases |ops|
  {
    hide Inv, Homed, Step, Descending, Records;
    if ops != [] {
      assert Descending(ops[0]) && Records(ops[0]);
      HomedStep(t, ops[0]);
      StepInv(t, ops[0]);
      assert AllDescending(ops[1..]) && AllRecord(ops[1..]) by {
        forall i | 0 <= i < |ops[1..]| ensures Descending(ops[1..][i]) && Records(ops[1..][i]) { assert ops[1..][i] == ops[i + 1]; }
      }
      HomedRun(Step(t, ops[0]), ops[1..]);
    }
  }

  // ---------------------------------------------------------------- when the promise holds

  /** What lies below a head of the context is in the ancestry its projection walks. */
  lemma AboveInAncestry(t: Tables, c: ContextId, h: EventId, id: EventId)
    requires Inv(t) && Targets(Parsed(t.events), c, h) && Above(t, h, id)
    ensures id in Anc(ContextGraph(t, c), {h})
  {
    hide Inv, Anc, ContextGraph, Closed, Cyclic, Parsed, Targets;
    SoundGraph(t, c);
    var g := ContextGraph(t, c);
    var links := Links(Parsed(t.events));
    var s := Anc(g, {h});
    AncHeads(g, {h});
    AncestorsKnown(g, {h});
    forall a, q | a in s && Edge(links, a, q) ensures q in s {
      LinksIs(t, a);
      assert Edge(g, a, q);
      AncClosed(g, {h}, a, q);
    }
    ReachWithin(links, s, h, id);
  }

  lemma AncestorsKnown(g: Graph, heads: set<EventId>)
    ensures Anc(g, heads) <= g.Keys
  {
  }

  lemma LinksIs(t: Tables, a: EventId)
    ensures a in Links(Parsed(t.events)) ==> a in Parsed(t.events) && Links(Parsed(t.events))[a] == Parsed(t.events)[a].body.parents
  {
  }

  /** Requests of the context on the named branch that have no result. */
  ghost function Unanswered(t: Tables, c: ContextId, branch: Name): set<EventId> {
    Pending(Parsed(t.events), c) * BranchAncestry(t, c, branch)
  }

  lemma BranchNamed(t: Tables, k: LocalKey)
    requires Inv(t) && k in t.localRefs
    ensures ValidName(k.1) && Targets(Parsed(t.events), k.0, t.localRefs[k])
  {
    hide CoreInv, Parsed, ValidName;
  }

  /** A request on some branch is in the ancestry of one that can be named. */
  lemma BranchHolds(t: Tables, c: ContextId, id: EventId) returns (branch: Name)
    requires Inv(t) && OnSomeBranch(t, c, id)
    ensures (c, branch) in t.localRefs && id in BranchAncestry(t, c, branch)
  {
    hide Inv, Parsed, Above, Anc, ContextGraph, ValidName, Targets;
    var k :| k in t.localRefs && k.0 == c && Above(t, t.localRefs[k], id);
    BranchNamed(t, k);
    AboveInAncestry(t, c, t.localRefs[k], id);
    branch := k.1;
  }

  /** What a projection of a branch walks lies on that branch. */
  lemma AncestryOnBranch(t: Tables, c: ContextId, branch: Name, id: EventId)
    requires Inv(t) && id in BranchAncestry(t, c, branch)
    ensures OnSomeBranch(t, c, id)
  {
    hide Inv, ContextGraph, Parsed, ValidName, Closed, Cyclic, Targets;
    SoundGraph(t, c);
    var g := ContextGraph(t, c);
    var h := t.localRefs[(c, branch)];
    var p :| IsPath(g, h, p, id);
    forall x | x in g ensures x in Links(Parsed(t.events)) && Links(Parsed(t.events))[x] == g[x] {
      TargetParsed(t, c, x);
    }
    PathGrows(g, Links(Parsed(t.events)), h, p, id);
    assert Above(t, h, id);
  }

  lemma TargetParsed(t: Tables, c: ContextId, id: EventId)
    requires Targets(Parsed(t.events), c, id)
    ensures id in Parsed(t.events)
  {
  }

  /** No other branch of the context holds an unanswered request off the projected branch. */
  ghost predicate BranchesAgree(t: Tables, u: Tables, c: ContextId, branch: Name) {
    forall other: Name :: (c, other) in u.localRefs ==> Unanswered(u, c, other) <= BranchAncestry(t, c, branch)
  }

  /** No unanswered request off the projected branch lies on no branch at all, as an imported one may. */
  ghost predicate NoneStray(t: Tables, u: Tables, c: ContextId, branch: Name) {
    forall id :: id in Pending(Parsed(u.events), c) ==> id in BranchAncestry(t, c, branch) || OnSomeBranch(u, c, id)
  }

  /** Over any two sound snapshots the answer of the pending query stays on the named branch, as documented,
      exactly when no other branch holds an unanswered request off it and none off it is on no branch. */
  lemma PendingOnBranchWhen(t: Tables, u: Tables, c: ContextId, branch: Name, r: Result<seq<Event>, StoreError>)
    requires Inv(t) && Inv(u) && PendingAnswer(t, u, c, branch, r) && r.Ok?
    ensures Elems(Ids(r.value)) <= BranchAncestry(t, c, branch) <==> BranchesAgree(t, u, c, branch) && NoneStray(t, u, c, branch)
  {
    hide Inv, Parsed, Pending, BranchAncestry, OnSomeBranch, ValidName, Ascending, QueryFits;
    assert Elems(Ids(r.value)) == Pending(Parsed(u.events), c);
    if BranchesAgree(t, u, c, branch) && NoneStray(t, u, c, branch) {
      forall id | id in Pending(Parsed(u.events), c) ensures id in BranchAncestry(t, c, branch) {
        if OnSomeBranch(u, c, id) {
          var other := BranchHolds(u, c, id);
          assert id in Unanswered(u, c, other);
        }
      }
    }
  }

  /** A branch that has every branch head of the context in its ancestry keeps the promise exactly when every
      unanswered request is on some branch. */
  lemma MergedBranchKeepsPromise(t: Tables, c: ContextId, branch: Name, r: Result<seq<Event>, StoreError>)
    requires Inv(t) && PendingAnswer(t, t, c, branch, r) && r.Ok?
    requires forall k :: k in t.localRefs && k.0 == c ==> t.localRefs[k] in BranchAncestry(t, c, branch)
    ensures Elems(Ids(r.value)) <= BranchAncestry(t, c, branch) <==>
      forall id :: id in Pending(Parsed(t.events), c) ==> OnSomeBranch(t, c, id)
  {
    hide Inv, Parsed, Pending, Anc, ContextGraph, OnSomeBranch, ValidName, Ascending, PendingAnswer;
    PendingOnBranchWhen(t, t, c, branch, r);
    forall other: Name | (c, other) in t.localRefs ensures Unanswered(t, c, other) <= BranchAncestry(t, c, branch) {
      AncestryNests(ContextGraph(t, c), t.localRefs[(c, other)], Lookup(t.localRefs, (c, branch)));
    }
    forall id | id in BranchAncestry(t, c, branch) ensures OnSomeBranch(t, c, id) {
      AncestryOnBranch(t, c, branch, id);
    }
  }

  lemma AncestryNests(g: Graph, h: EventId, top: Option<EventId>)
    requires top.Some? && h in Anc(g, {top.value})
    ensures Anc(g, {h}) <= Anc(g, {top.value})
  {
    AncMonotone(g, {h}, {top.value});
  }

  /** After a run in which requests enter by admissions that move a branch nothing strays, and the answer
      stays on the named branch exactly when the branches agree. */
  lemma RecordedRequestsAgree(ops: seq<Op>, c: ContextId, branch: Name, r: Result<seq<Event>, StoreError>)
    requires AllDescending(ops) && AllRecord(ops)
    requires PendingAnswer(Run(EMPTY, ops), Run(EMPTY, ops), c, branch, r) && r.Ok?
    ensures var t := Run(EMPTY, ops);
      && NoneStray(t, t, c, branch)
      && (Elems(Ids(r.value)) <= BranchAncestry(t, c, branch) <==> BranchesAgree(t, t, c, branch))
  {
    hide Inv, Run, Parsed, OnSomeBranch, BranchAncestry, BranchesAgree, ValidName, PendingAnswer, AllRecord, AllDescending,
         Linked;
    var t := Run(EMPTY, ops);
    EmptyHomed();
    HomedRun(EMPTY, ops);
    PendingOnBranchWhen(t, t, c, branch, r);
  }

  lemma EmptyHomed()
    ensures Inv(EMPTY) && Homed(EMPTY)
  {
    hide Inv;
    ReachableIsSound([]);
    assert Run(EMPTY, []) == EMPTY;
  }

  // ---------------------------------------------------------------- an answer off the branch

  const ASKED: Event := SignedBody(2, Body(0, [1], REQUEST_KIND, 7, 0, 2, 300), 0)

  /** A context with its genesis, and a request on another branch. */
  const ELSEWHERE: seq<Op> := [
    CreateContextOp(ROOT, "main"),
    CreateBranchOp(0, "side", 1),
    AdmitOp(ASKED, CompareAndSwap(0, "side", Head(1), 2))]

  lemma Forked()
    ensures Step(Branched(false), CreateBranchOp(0, "side", 1)) == Branched(true)
  {
    assert (0, "side") !in Branched(false).localRefs;
  }

  lemma Asked()
    ensures var t := Step(Branched(true), AdmitOp(ASKED, CompareAndSwap(0, "side", Head(1), 2)));
      && t == InsertEvent(Branched(true), ASKED).(localRefs := map[(0, "main") := 1, (0, "side") := 2])
  {
    var t := Branched(true);
    assert t.contexts[0] == ContextRow(1, Some(1), ACTIVE);
    assert (0, 7) in t.authors;
    assert AuthoritativeContext(t, 1) == Ok(Some(0));
    assert ASKED.body.parents[1..] == [];
    assert CheckParents(t, 0, ASKED.body.parents) == Ok(()) by { assert CheckParents(t, 0, []) == Ok(()); }
    assert CheckEvent(t, 0, 1, ACTIVE, ASKED) == Ok(());
    assert Lookup(t.localRefs, (0, "side")) == Some(1);
  }

  lemma ElsewhereIs()
    ensures Run(EMPTY, ELSEWHERE) == InsertEvent(Branched(true), ASKED).(localRefs := map[(0, "main") := 1, (0, "side") := 2])
  {
    hide Inv, Step, InsertEvent, Branched;
    Created();
    Forked();
    Asked();
    RunOfThree(EMPTY, ELSEWHERE);
  }

  lemma RunOfThree(t: Tables, ops: seq<Op>)
    requires |ops| == 3
    ensures Run(t, ops) == Step(Step(Step(t, ops[0]), ops[1]), ops[2])
  {
    hide Step;
    var a := Step(t, ops[0]);
    var b := Step(a, ops[1]);
    var c := Step(b, ops[2]);
    assert Run(t, ops) == Run(a, ops[1..]);
    assert ops[1..][1..] == ops[2..] && Run(a, ops[1..]) == Run(b, ops[2..]);
    assert ops[2..][1..] == [] && Run(b, ops[2..]) == Run(c, []);
  }

  function TwoEvents(): map<EventId, Event> {
    map[1 := ROOT, 2 := ASKED]
  }

  lemma TwoParse(t: Tables)
    requires t.events == InsertEvent(Branched(true), ASKED).events
    ensures Parsed(t.events) == TwoEvents()
  {
    hide EdgeRows, ValidName;
    ParsedInsert(Branched(true), ASKED);
    var ev := Parsed(Branched(true).events);
    assert ev.Keys == {1} && ev[1] == ROOT;
  }

  lemma StillActive(t: Tables)
    requires t.contexts == InsertEvent(Branched(true), ASKED).contexts && t.authors == InsertEvent(Branched(true), ASKED).authors
    ensures (0, 7) in t.authors && KnownContext(t, 0).Ok? && KnownContext(t, 0).value.state == ACTIVE
  {
    hide EdgeRows, ValidName;
  }

  lemma ElsewhereSample()
    ensures var t := Run(EMPTY, ELSEWHERE);
      Sample(t, TwoEvents()) && Lookup(t.localRefs, (0, "main")) == Some(1)
  {
    hide Inv, Step, Run, InsertEvent, Parsed, KnownContext, Branched;
    ReachableIsSound(ELSEWHERE);
    ElsewhereIs();
    TwoParse(Run(EMPTY, ELSEWHERE));
    StillActive(Run(EMPTY, ELSEWHERE));
  }

  lemma TwoLinks()
    ensures Links(TwoEvents()) == map[1 := [], 2 := [1]]
    ensures (map id | id in TwoEvents() :: TwoEvents()[id].body.wireBytes) == map[1 := 300, 2 := 300]
    ensures OfKind(TwoEvents(), 0, true) == {2} && OfKind(TwoEvents(), 0, false) == {} && Pending(TwoEvents(), 0) == {2}
  {
    assert |REQUEST_KIND| != |GENESIS_KIND| && |RESPONSE_KIND| != |GENESIS_KIND| && |ERROR_KIND| != |GENESIS_KIND|;
    assert REQUEST_KIND[8] != RESPONSE_KIND[8] && |REQUEST_KIND| != |ERROR_KIND|;
  }

  lemma MainOnly(g: Graph, w: map<EventId, nat>)
    requires g == map[1 := [], 2 := [1]] && w == map[1 := 300, 2 := 300]
    ensures Anc(g, {1}) == {1} && Weight(w, {1}) == 300
  {
    ReachSelf(g, 1);
    assert ReachFrom(g, {1}, 1);
    forall x | ReachFrom(g, {1}, x) ensures x == 1 {
      ReachWithin(g, {1}, 1, x);
    }
    WeightNone(w);
    WeightAdd(w, {}, 1);
    assert {} + {1} == {1};
  }

  /** The pending query promises requests on the branch ancestry, but on this reachable store its answer for
      the main branch is the request that only the other branch holds. */
  lemma PendingIgnoresBranch(r: Result<seq<Event>, StoreError>)
    requires PendingAnswer(Run(EMPTY, ELSEWHERE), Run(EMPTY, ELSEWHERE), 0, "main", r)
    ensures r.Ok? && Elems(Ids(r.value)) == {2} && BranchAncestry(Run(EMPTY, ELSEWHERE), 0, "main") == {1}
  {
    hide *;
    ElsewhereSample();
    TwoAnswers(Run(EMPTY, ELSEWHERE), r);
  }

  /** Over a store of these two events whose main branch is at the genesis. */
  lemma TwoAnswers(t: Tables, r: Result<seq<Event>, StoreError>)
    requires Sample(t, TwoEvents()) && Lookup(t.localRefs, (0, "main")) == Some(1) && PendingAnswer(t, t, 0, "main", r)
    ensures r.Ok? && Elems(Ids(r.value)) == {2} && BranchAncestry(t, 0, "main") == {1}
  {
    hide *;
    SampleReads(t, TwoEvents());
    SampleSound(t, TwoEvents());
    SampleParses(t, TwoEvents());
    TwoLinks();
    MainOnly(ContextGraph(t, 0), WireSizes(t, 0));
    MainAnswers(t, r);
  }

  lemma MainAnswers(t: Tables, r: Result<seq<Event>, StoreError>)
    requires PendingAnswer(t, t, 0, "main", r) && Inv(t) && Lookup(t.localRefs, (0, "main")) == Some(1)
    requires OfKind(Parsed(t.events), 0, true) == {2} && OfKind(Parsed(t.events), 0, false) == {} && Pending(Parsed(t.events), 0) == {2}
    requires Anc(ContextGraph(t, 0), {1}) == {1} && Weight(WireSizes(t, 0), {1}) == 300
    ensures r.Ok? && Elems(Ids(r.value)) == {2} && BranchAncestry(t, 0, "main") == {1}
  {
    hide Inv, Parsed, ContextGraph, WireSizes, Anc, Weight, Pending, OfKind, Ascending, Ids;
    assert |{1}| == 1 && |{2}| == 1;
    assert OfKind(Parsed(t.events), 0, true) + OfKind(Parsed(t.events), 0, false) == {2};
  }

  lemma SampleParses(t: Tables, ev: map<EventId, Event>)
    requires Sample(t, ev)
    ensures Parsed(t.events) == ev
  {
  }
  // ---------------------------------------------------------------- a request on no branch

  function Pulled(name: Name): Bundle {
    Bundle(0, [ASKED], [AdvertisedRef(name, 2)])
  }

  /** A context with its genesis, and a page of a peer's branch that carries a request. */
  const IMPORTED: seq<Op> := SampleOps([]) + [ImportOp("peer", Pulled("side"))]

  lemma TwoIs()
    ensures TwoEvents() == map[1 := ROOT][2 := ASKED]
  {
  }

  lemma ChildAdmitted(t: Tables)
    requires Sample(t, map[1 := ROOT])
    ensures AdmitSpec(t, ASKED, NoMove).Ok? && Step(t, AdmitOp(ASKED, NoMove)) == AdmitSpec(t, ASKED, NoMove).value.0
  {
    hide Inv, AdmitSpec, Parsed, KnownContext, ValidName, Ascending;
    NotAGenesis();
    InvGraph(t);
    ChildAdmits(t, ASKED, 1);
    StepIsAdmission(t, AdmitOp(ASKED, NoMove));
  }

  lemma OneAdmission(t: Tables)
    requires AdmitSpec(t, ASKED, NoMove).Ok?
    ensures AdmitAll(t, [ASKED]) == Ok(AdmitSpec(t, ASKED, NoMove).value.0)
  {
    hide AdmitSpec;
    assert [ASKED][1..] == [];
  }

  lemma PulledTargets(v: Tables, name: Name)
    requires Sample(v, TwoEvents())
    ensures WellFormed(Pulled(name)) && Targets(Parsed(v.events), 0, Pulled(name).refs[0].head)
  {
    hide Inv, Parsed, KnownContext, ValidName;
    assert Ids(Pulled(name).events) == [2];
  }

  lemma AdmitKeepsBranches(t: Tables, e: Event)
    requires AdmitSpec(t, e, NoMove).Ok?
    ensures AdmitSpec(t, e, NoMove).value.0.localRefs == t.localRefs
  {
    hide CheckEvent, ValidateStored, EdgeRows, ValidName, KnownContext;
  }

  lemma ImportStep(t: Tables, peer: Name, name: Name)
    requires WellFormed(Pulled(name)) && ImportSpec(t, peer, Pulled(name)).Ok?
    ensures Step(t, ImportOp(peer, Pulled(name))) == ImportSpec(t, peer, Pulled(name)).value.0
  {
    hide ImportSpec, WellFormed, ValidName;
  }

  lemma RefsApart(v: Tables, refs: map<RemoteKey, EventId>)
    requires Sample(v, TwoEvents()) && Inv(v.(remoteRefs := refs))
    ensures Sample(v.(remoteRefs := refs), TwoEvents())
  {
    hide Inv;
  }

  /** Importing one admissible event with a ref to it. */
  lemma PullOne(t: Tables, peer: Name, name: Name)
    requires Sample(t, map[1 := ROOT])
    ensures var u := Step(t, ImportOp(peer, Pulled(name))); Sample(u, TwoEvents()) && u.localRefs == t.localRefs
  {
    hide *;
    RootSound(t);
    PulledAdmits(t);
    PulledImports(t, AdmitSpec(t, ASKED, NoMove).value.0, peer, name);
  }

  lemma RootSound(t: Tables)
    requires Sample(t, map[1 := ROOT])
    ensures Inv(t) && KnownContext(t, 0).Ok?
  {
  }

  lemma PulledAdmits(t: Tables)
    requires Sample(t, map[1 := ROOT])
    ensures AdmitSpec(t, ASKED, NoMove).Ok?
    ensures var v := AdmitSpec(t, ASKED, NoMove).value.0;
      Sample(v, TwoEvents()) && v.localRefs == t.localRefs && AdmitAll(t, [ASKED]) == Ok(v)
  {
    hide Inv, AdmitSpec, Parsed, KnownContext, Ascending, TwoEvents, Step, ValidName;
    NotAGenesis();
    AddChild(t, map[1 := ROOT], ASKED);
    TwoIs();
    ChildAdmitted(t);
    OneAdmission(t);
    AdmitKeepsBranches(t, ASKED);
  }

  lemma PulledImports(t: Tables, v: Tables, peer: Name, name: Name)
    requires Inv(t) && KnownContext(t, 0).Ok? && Sample(v, TwoEvents()) && AdmitAll(t, [ASKED]) == Ok(v)
    ensures var u := Step(t, ImportOp(peer, Pulled(name))); Sample(u, TwoEvents()) && u.localRefs == v.localRefs
  {
    hide Inv, Sample, ImportSpec, AdmitAll, KnownContext, WellFormed, PeerRefs, Targets, TwoEvents, Step, Parsed, ValidName;
    PulledTargets(v, name);
    ImportIsAdmissions(t, peer, Pulled(name));
    ImportStep(t, peer, name);
    RefsApart(v, PeerRefs(v.remoteRefs, peer, 0, Pulled(name).refs));
  }

  /** On this replica, reached without any other branch, no branch holds an unanswered request off the main
      branch; still the answer for it is the imported request, which is on no branch. */
  lemma ImportedRequestStrays(r: Result<seq<Event>, StoreError>)
    requires PendingAnswer(Run(EMPTY, IMPORTED), Run(EMPTY, IMPORTED), 0, "main", r)
    ensures r.Ok? && Elems(Ids(r.value)) == {2} && BranchAncestry(Run(EMPTY, IMPORTED), 0, "main") == {1}
    ensures var t := Run(EMPTY, IMPORTED); BranchesAgree(t, t, 0, "main") && !OnSomeBranch(t, 0, 2)
  {
    hide *;
    var t := Run(EMPTY, IMPORTED);
    ImportedIs();
    TwoAnswers(t, r);
    SampleSound(t, TwoEvents());
    MainAgrees(t);
    OnlyMain(t);
  }

  lemma ImportedIs()
    ensures var t := Run(EMPTY, IMPORTED);
      Sample(t, TwoEvents()) && t.localRefs == map[(0, "main") := 1] && Lookup(t.localRefs, (0, "main")) == Some(1)
  {
    hide Inv, Step, Sample;
    RunSnoc(EMPTY, SampleOps([]), ImportOp("peer", Pulled("side")));
    RunSnoc(EMPTY, [], CreateContextOp(ROOT, "main"));
    assert [] + [CreateContextOp(ROOT, "main")] == SampleOps([]);
    SampleBegins();
    Created();
    PullOne(Run(EMPTY, SampleOps([])), "peer", "side");
  }

  lemma MainAgrees(t: Tables)
    requires t.localRefs == map[(0, "main") := 1]
    ensures BranchesAgree(t, t, 0, "main")
  {
    hide BranchAncestry, Pending, ValidName;
  }

  lemma OnlyMain(t: Tables)
    requires Inv(t) && t.localRefs == map[(0, "main") := 1] && BranchAncestry(t, 0, "main") == {1}
    ensures !OnSomeBranch(t, 0, 2)
  {
    hide Inv, BranchAncestry, OnSomeBranch, ValidName;
    if OnSomeBranch(t, 0, 2) {
      var other := BranchHolds(t, 0, 2);
    }
  }
}
