/** Local branches under every interleaving of writers: nothing on a branch is ever lost. */
module Branches {
  import opened Base
  import opened Sorting
  import opened Graph
  import opened Names
  import opened Tables
  import opened Transitions
  import opened Bundles
  import opened Namespaces
  import opened Runs

  /** How append, merge and the provider sign their events: the expected head is a parent. */
  predicate Descending(op: Op) {
    op.AdmitOp? && op.mutation.CompareAndSwap? && op.mutation.expected.Head? ==>
      op.mutation.expected.id in op.event.body.parents
  }

  /** Append and merge only ever submit such admissions. */
  lemma AppendAndMergeDescend(t: Tables, e: Event, name: Name, expected: EventId, parents: seq<EventId>)
    ensures e.body.parents == [expected] ==> Descending(AdmitOp(e, CompareAndSwap(e.body.context, name, Head(expected), e.id)))
    ensures e.body.kind == MERGE_KIND && e.body.parents == SortDedup(parents) && MergeSpec(t, e, name, expected, parents).Ok? ==>
      Descending(AdmitOp(e, CompareAndSwap(e.body.context, name, Head(expected), e.id)))
  {
    hide AdmitSpec, ValidName;
    assert expected in parents <==> expected in Elems(parents);
    assert expected in SortDedup(parents) <==> expected in Elems(SortDedup(parents));
  }

  predicate AllDescending(ops: seq<Op>) {
    forall i :: 0 <= i < |ops| ==> Descending(ops[i])
  }

  /** A compare-and-swap on `k` that expected `h` and moved the branch. */
  predicate Swaps(op: Op, k: LocalKey, h: EventId) {
    && op.AdmitOp? && op.mutation.CompareAndSwap?
    && op.mutation.context == k.0 && op.mutation.name == k.1
    && op.mutation.expected == Head(h)
  }

  ghost predicate Wins(t: Tables, op: Op, k: LocalKey, h: EventId) {
    && Swaps(op, k, h)
    && var r := AdmitSpec(t, op.event, op.mutation);
      r.Ok? && r.value.1 != AlreadyApplied
  }

  /** The only way an existing branch changes in one transaction is a winning compare-and-swap whose
      expectation was the current head. */
  lemma StepMovesOnlyBySwap(t: Tables, op: Op, k: LocalKey)
    requires Inv(t) && k in t.localRefs
    ensures var u := Step(t, op);
      && k in u.localRefs
      && if Wins(t, op, k, t.localRefs[k]) then u.localRefs[k] == op.event.id && op.event.id in u.events
         else u.localRefs[k] == t.localRefs[k]
  {
    hide Inv, AdmitSpec, ImportSpec, ReplaceSpec, WellFormed, InsertEvent, CheckTarget, ValidName;
    if Attempt(t, op).Ok? {
      match op
      case ProvisionOp(_, _) =>
      case CreateContextOp(e, b) => FreshContextRefs(t, e, b, k);
      case AuthorizeOp(_, _) =>
      case AdmitOp(e, m) => AdmitMoves(t, e, m, k);
      case CreateBranchOp(_, _, _) =>
      case ImportOp(peer, b) => ImportGrows(t, peer, b);
      case SetRemoteOp(_, _, _, _) =>
      case ReplaceRemoteOp(peer, c, refs) => ReplaceSetsNamespace(t, peer, c, refs);
    }
  }

  lemma FreshContextRefs(t: Tables, e: Event, b: Name, k: LocalKey)
    requires Inv(t) && IsGenesis(e.id, e) && CreateContextSpec(t, e, b).Ok? && k in t.localRefs
    ensures var u := CreateContextSpec(t, e, b).value; k in u.localRefs && u.localRefs[k] == t.localRefs[k]
  {
    hide CoreInv, RefsOk, ValidName, EdgeRows;
    assert k.0 in t.contexts;
  }

  lemma AdmitMoves(t: Tables, e: Event, m: RefMutation, k: LocalKey)
    requires AdmitSpec(t, e, m).Ok? && k in t.localRefs
    ensures var (u, status) := AdmitSpec(t, e, m).value;
      && k in u.localRefs && e.id in u.events
      && (status == AlreadyApplied ==> u.localRefs == t.localRefs)
      && if Swaps(AdmitOp(e, m), k, t.localRefs[k]) && status != AlreadyApplied then u.localRefs[k] == e.id
         else u.localRefs[k] == t.localRefs[k]
  {
    hide CheckEvent, ValidateStored, EdgeRows, ValidName, KnownContext;
  }

  lemma StoredEvent(t: Tables, e: Event)
    requires Inv(t) && Holds(t, [e])
    ensures e.id in Parsed(t.events) && Parsed(t.events)[e.id] == e
  {
    hide Inv;
    assert [e][0] == e;
    StoredIsParsed(t.events, e);
  }

  ghost predicate Above(t: Tables, a: EventId, b: EventId) {
    Reach(Links(Parsed(t.events)), a, b)
  }

  lemma {:induction false} PathGrows(g: Graph, h: Graph, a: EventId, p: seq<EventId>, b: EventId)
    requires IsPath(g, a, p, b) && forall x :: x in g ==> x in h && h[x] == g[x]
    ensures IsPath(h, a, p, b)
  {
    forall i, j | 0 <= i && j == i + 1 && j < |p| ensures Edge(h, p[i], p[j]) {
      assert Edge(g, p[i], p[j]);
    }
  }

  lemma LinksGrow(t: Tables, u: Tables)
    requires Grows(t, u)
    ensures var g, h := Links(Parsed(t.events)), Links(Parsed(u.events)); forall x :: x in g ==> x in h && h[x] == g[x]
  {
  }

  lemma AboveGrows(t: Tables, u: Tables, a: EventId, b: EventId)
    requires Grows(t, u) && Above(t, a, b)
    ensures Above(u, a, b)
  {
    hide Grows, Links, Parsed;
    LinksGrow(t, u);
    var p :| IsPath(Links(Parsed(t.events)), a, p, b);
    PathGrows(Links(Parsed(t.events)), Links(Parsed(u.events)), a, p, b);
  }

  lemma AboveTrans(t: Tables, a: EventId, b: EventId, c: EventId)
    requires Above(t, a, b) && Above(t, b, c)
    ensures Above(t, a, c)
  {
    ReachTrans(Links(Parsed(t.events)), a, b, c);
  }

  lemma ParentBelow(t: Tables, e: Event, h: EventId)
    requires Inv(t) && Holds(t, [e]) && h in e.body.parents
    ensures Above(t, e.id, h)
  {
    hide Inv;
    StoredEvent(t, e);
    ReachEdge(Links(Parsed(t.events)), e.id, h);
  }

  /** One step keeps the old head in the branch's ancestry; a win makes it a proper ancestor. */
  lemma StepAdvances(t: Tables, op: Op, k: LocalKey)
    requires Inv(t) && k in t.localRefs && Descending(op)
    ensures var u := Step(t, op); k in u.localRefs && Above(u, u.localRefs[k], t.localRefs[k])
    ensures Wins(t, op, k, t.localRefs[k]) ==> Step(t, op).localRefs[k] != t.localRefs[k]
  {
    hide Inv, Step, Above, ValidName;
    var u := Step(t, op);
    var h := t.localRefs[k];
    StepInv(t, op);
    StepMovesOnlyBySwap(t, op, k);
    if Wins(t, op, k, h) {
      WinStores(t, op, k, h);
      ParentBelow(u, op.event, h);
      NotOwnParent(u, op.event);
    } else {
      HeadAboveItself(u, h);
    }
  }

  lemma HeadAboveItself(t: Tables, h: EventId)
    ensures Above(t, h, h)
  {
    ReachSelf(Links(Parsed(t.events)), h);
  }

  lemma WinStores(t: Tables, op: Op, k: LocalKey, h: EventId)
    requires Wins(t, op, k, h)
    ensures Holds(Step(t, op), [op.event])
  {
    hide AdmitSpec;
    AdmitStores(t, op.event, op.mutation);
  }

  lemma NotOwnParent(t: Tables, e: Event)
    requires Inv(t) && Holds(t, [e])
    ensures e.id !in e.body.parents
  {
    StoredEventAcyclic(t, e);
    if e.id in e.body.parents {
      var g := Links(Parsed(t.events));
      assert Edge(g, e.id, e.id);
      assert IsCycle(g, [e.id, e.id]);
    }
  }

  lemma StoredEventAcyclic(t: Tables, e: Event)
    requires Inv(t) && Holds(t, [e])
    ensures !Cyclic(Links(Parsed(t.events))) && e.id in Parsed(t.events) && Parsed(t.events)[e.id] == e
  {
    hide RefsOk, Cyclic, AuthorsOk, GenesisOk, ContextsOk, RowsOk, EdgesOk, ParentsOk, RefKeys, CoreKeys, Links, Parsed, Holds;
    StoredEvent(t, e);
  }

  /** Over any run of such writers, interleaved with any other transactions, every earlier head stays
      an ancestor of the branch. */
  lemma {:induction false} BranchHistoryKept(t: Tables, ops: seq<Op>, k: LocalKey)
    requires Inv(t) && k in t.localRefs && AllDescending(ops)
    ensures var u := Run(t, ops); k in u.localRefs && Above(u, u.localRefs[k], t.localRefs[k])
    decreases |ops|
  {
    hide Inv, Step, Above, Grows, Descending;
    if ops == [] {
      HeadAboveItself(t, t.localRefs[k]);
    } else {
      assert Descending(ops[0]);
      var v := Step(t, ops[0]);
      StepAdvances(t, ops[0], k);
      StepInv(t, ops[0]);
      assert AllDescending(ops[1..]) by {
        forall i | 0 <= i < |ops[1..]| ensures Descending(ops[1..][i]) { assert Descending(ops[i + 1]); }
      }
      BranchHistoryKept(v, ops[1..], k);
      RunGrows(v, ops[1..]);
      AboveGrows(v, Run(t, ops), v.localRefs[k], t.localRefs[k]);
      AboveTrans(Run(t, ops), Run(t, ops).localRefs[k], v.localRefs[k], t.localRefs[k]);
    }
  }

  ghost function WinCount(t: Tables, ops: seq<Op>, k: LocalKey, h: EventId): nat
    decreases |ops|
  {
    if ops == [] then 0
    else (if Wins(t, ops[0], k, h) then 1 else 0) + WinCount(Step(t, ops[0]), ops[1..], k, h)
  }

  /** The branch has moved past `h`. */
  ghost predicate Past(t: Tables, k: LocalKey, h: EventId) {
    k in t.localRefs && t.localRefs[k] != h && Above(t, t.localRefs[k], h)
  }

  lemma StaysPast(t: Tables, op: Op, k: LocalKey, h: EventId)
    requires Inv(t) && Descending(op) && Past(t, k, h)
    ensures Past(Step(t, op), k, h) && !Wins(t, op, k, h)
  {
    hide Inv, Step, Above, Grows;
    var u := Step(t, op);
    StepInv(t, op);
    StepAdvances(t, op, k);
    StepGrows(t, op);
    AboveGrows(t, u, t.localRefs[k], h);
    AboveTrans(u, u.localRefs[k], t.localRefs[k], h);
    if u.localRefs[k] == h {
      SoundAntisymmetric(u, h, t.localRefs[k]);
    }
    StaleLoses(t, op, k, h);
  }

  lemma SoundAntisymmetric(t: Tables, a: EventId, b: EventId)
    requires Inv(t) && Above(t, a, b) && Above(t, b, a)
    ensures a == b
  {
    InvAcyclic(t);
    AcyclicAntisymmetric(Links(Parsed(t.events)), a, b);
  }

  lemma InvAcyclic(t: Tables)
    requires Inv(t)
    ensures !Cyclic(Links(Parsed(t.events)))
  {
    hide RefsOk, Cyclic, AuthorsOk, GenesisOk, ContextsOk, RowsOk, EdgesOk, ParentsOk, RefKeys, CoreKeys, Links, Parsed;
  }

  /** A writer whose expectation is not the current head does not win. */
  lemma StaleLoses(t: Tables, op: Op, k: LocalKey, h: EventId)
    requires Lookup(t.localRefs, k) != Some(h)
    ensures !Wins(t, op, k, h)
  {
    hide CheckEvent, ValidateStored, EdgeRows, ValidName, KnownContext;
  }

  lemma {:induction false} PastNeverWins(t: Tables, ops: seq<Op>, k: LocalKey, h: EventId)
    requires Inv(t) && AllDescending(ops) && Past(t, k, h)
    ensures WinCount(t, ops, k, h) == 0 && Past(Run(t, ops), k, h)
    decreases |ops|
  {
    hide Inv, Step, Wins, Past, Descending;
    if ops != [] {
      assert Descending(ops[0]);
      StaysPast(t, ops[0], k, h);
      StepInv(t, ops[0]);
      assert AllDescending(ops[1..]) by {
        forall i | 0 <= i < |ops[1..]| ensures Descending(ops[1..][i]) { assert Descending(ops[i + 1]); }
      }
      PastNeverWins(Step(t, ops[0]), ops[1..], k, h);
    }
  }

  /** In any run, among all writers that expected the same head of the same branch at most one wins. */
  lemma {:induction false} AtMostOneWinner(t: Tables, ops: seq<Op>, k: LocalKey, h: EventId)
    requires Inv(t) && AllDescending(ops)
    ensures WinCount(t, ops, k, h) <= 1
    decreases |ops|
  {
    hide Inv, Step, Wins, Past, Descending;
    if ops != [] {
      assert Descending(ops[0]);
      var u := Step(t, ops[0]);
      StepInv(t, ops[0]);
      assert AllDescending(ops[1..]) by {
        forall i | 0 <= i < |ops[1..]| ensures Descending(ops[1..][i]) { assert Descending(ops[i + 1]); }
      }
      if Wins(t, ops[0], k, h) {
        WinMovesPast(t, ops[0], k, h);
        PastNeverWins(u, ops[1..], k, h);
      } else {
        AtMostOneWinner(u, ops[1..], k, h);
      }
    }
  }

  lemma WinMovesPast(t: Tables, op: Op, k: LocalKey, h: EventId)
    requires Inv(t) && Descending(op) && Wins(t, op, k, h)
    ensures Past(Step(t, op), k, h)
  {
    hide Inv, Step, Above;
    if Lookup(t.localRefs, k) != Some(h) { StaleLoses(t, op, k, h); }
    StepAdvances(t, op, k);
  }

  // ---------------------------------------------------------------- who wins

  /** A swap that would be admitted whatever the branch holds: it moves its own context's branch to its own
      event, and the event alone is admitted. */
  ghost predicate Admissible(t: Tables, op: Op, k: LocalKey, h: EventId) {
    && Swaps(op, k, h) && op.event.body.context == k.0 && op.mutation.newHead == op.event.id
    && AdmitSpec(t, op.event, NoMove).Ok?
  }

  /** The writer whose turn it is wins exactly when it is admissible. */
  lemma CurrentWins(t: Tables, op: Op, k: LocalKey, h: EventId)
    requires Inv(t) && Descending(op) && Lookup(t.localRefs, k) == Some(h)
    ensures Wins(t, op, k, h) <==> Admissible(t, op, k, h)
  {
    hide Inv, AdmitSpec;
    if Swaps(op, k, h) {
      MoveDecides(t, op, k, h);
      if AdmitSpec(t, op.event, NoMove).Ok? && op.event.id == h {
        var u := AdmitSpec(t, op.event, NoMove).value.0;
        AdmitInv(t, op.event, NoMove);
        AdmitStores(t, op.event, NoMove);
        NotOwnParent(u, op.event);
      }
    }
  }

  lemma MoveDecides(t: Tables, op: Op, k: LocalKey, h: EventId)
    requires Swaps(op, k, h) && Lookup(t.localRefs, k) == Some(h)
    ensures Wins(t, op, k, h) ==> Admissible(t, op, k, h)
    ensures Admissible(t, op, k, h) && op.event.id != h ==> Wins(t, op, k, h)
  {
    hide CheckEvent, ValidateStored, EdgeRows, ValidName, KnownContext;
  }

  ghost predicate AdmissibleAt(t: Tables, ops: seq<Op>, i: nat, k: LocalKey, h: EventId)
    requires i < |ops|
  {
    Admissible(Run(t, ops[..i]), ops[i], k, h)
  }

  lemma RunFirst(t: Tables, ops: seq<Op>, i: nat)
    requires 0 < i <= |ops|
    ensures Run(t, ops[..i]) == Run(Step(t, ops[0]), ops[1..][..i - 1])
  {
    hide Step;
    assert ops[..i][1..] == ops[1..][..i - 1];
  }

  lemma AllRest(ops: seq<Op>)
    requires AllDescending(ops) && ops != []
    ensures Descending(ops[0]) && AllDescending(ops[1..])
  {
    hide Descending;
    assert Descending(ops[0]);
    forall i | 0 <= i < |ops[1..]| ensures Descending(ops[1..][i]) { assert Descending(ops[i + 1]); }
  }

  lemma AllPrefix(ops: seq<Op>, i: nat)
    requires AllDescending(ops) && i <= |ops|
    ensures AllDescending(ops[..i])
  {
    hide Descending;
    forall j | 0 <= j < i ensures Descending(ops[..i][j]) { assert Descending(ops[j]); }
  }

  /** While nobody has won the branch stays where it was; the winner is the first admissible writer. */
  lemma {:induction false} FirstWriterWins(t: Tables, ops: seq<Op>, i: nat, k: LocalKey, h: EventId)
    requires Inv(t) && AllDescending(ops) && Lookup(t.localRefs, k) == Some(h) && i < |ops|
    ensures Wins(Run(t, ops[..i]), ops[i], k, h) <==>
      AdmissibleAt(t, ops, i, k, h) && forall j :: 0 <= j < i ==> !AdmissibleAt(t, ops, j, k, h)
    decreases |ops|
  {
    hide Inv, Step, Wins, Past, Descending, Admissible, AllDescending;
    AllRest(ops);
    assert ops[..0] == [];
    CurrentWins(t, ops[0], k, h);
    assert AdmissibleAt(t, ops, 0, k, h) <==> Wins(t, ops[0], k, h);
    if i > 0 {
      var v := Step(t, ops[0]);
      StepInv(t, ops[0]);
      RunFirst(t, ops, i);
      if Wins(t, ops[0], k, h) {
        WinMovesPast(t, ops[0], k, h);
        AllPrefix(ops[1..], i - 1);
        PastNeverWins(v, ops[1..][..i - 1], k, h);
        PastMisses(Run(v, ops[1..][..i - 1]), k, h);
        StaleLoses(Run(v, ops[1..][..i - 1]), ops[i], k, h);
      } else {
        StepMovesOnlyBySwap(t, ops[0], k);
        FirstWriterWins(v, ops[1..], i - 1, k, h);
        forall j | 0 < j <= i ensures AdmissibleAt(t, ops, j, k, h) <==> AdmissibleAt(v, ops[1..], j - 1, k, h) {
          RunFirst(t, ops, j);
        }
        assert (forall j :: 0 <= j < i ==> !AdmissibleAt(t, ops, j, k, h)) <==>
               (forall j :: 0 <= j < i - 1 ==> !AdmissibleAt(v, ops[1..], j, k, h)) by {
          forall j | 0 <= j < i - 1 ensures AdmissibleAt(v, ops[1..], j, k, h) <==> AdmissibleAt(t, ops, j + 1, k, h) {}
        }
      }
    }
  }

  /** Among writers that expect the current head exactly one wins as soon as one is admissible, whatever
      else runs between them. */
  lemma {:induction false} ExactlyOneWinner(t: Tables, ops: seq<Op>, k: LocalKey, h: EventId)
    requires Inv(t) && AllDescending(ops) && Lookup(t.localRefs, k) == Some(h)
    ensures WinCount(t, ops, k, h) == if exists i :: 0 <= i < |ops| && AdmissibleAt(t, ops, i, k, h) then 1 else 0
    decreases |ops|
  {
    hide Inv, Step, Wins, Past, Descending, Admissible, AllDescending;
    if ops != [] {
      AllRest(ops);
      assert ops[..0] == [];
      CurrentWins(t, ops[0], k, h);
      assert AdmissibleAt(t, ops, 0, k, h) <==> Wins(t, ops[0], k, h);
      var v := Step(t, ops[0]);
      StepInv(t, ops[0]);
      if Wins(t, ops[0], k, h) {
        WinMovesPast(t, ops[0], k, h);
        PastNeverWins(v, ops[1..], k, h);
      } else {
        StepMovesOnlyBySwap(t, ops[0], k);
        ExactlyOneWinner(v, ops[1..], k, h);
        forall j | 0 < j < |ops| ensures AdmissibleAt(t, ops, j, k, h) <==> AdmissibleAt(v, ops[1..], j - 1, k, h) {
          RunFirst(t, ops, j);
        }
        forall j | 0 <= j < |ops| - 1 ensures AdmissibleAt(v, ops[1..], j, k, h) <==> AdmissibleAt(t, ops, j + 1, k, h) {}
      }
    }
  }

  lemma LateSwap(t: Tables, late: Op, k: LocalKey, h: EventId)
    requires Inv(t) && Past(t, k, h) && Swaps(late, k, h)
    ensures Step(t, late) == t
    ensures var r := AdmitSpec(t, late.event, late.mutation);
      r.Ok? ==> r.value == (t, AlreadyApplied) && Lookup(t.localRefs, k) == Some(late.event.id)
  {
    hide Inv, AdmitSpec, Past, Wins, Step;
    PastMisses(t, k, h);
    StaleLoses(t, late, k, h);
    NotWon(t, late, k, h);
    StepIsAdmission(t, late);
    if AdmitSpec(t, late.event, late.mutation).Ok? {
      AppliedIsNoOp(t, late.event, late.mutation);
    }
  }

  /** Once a writer has won against `h`, a later writer that still expects `h` changes nothing: it
      fails, or finds its own event already the head. */
  lemma LoserLeavesNothing(t: Tables, won: Op, ops: seq<Op>, late: Op, k: LocalKey, h: EventId)
    requires Inv(t) && Descending(won) && Wins(t, won, k, h) && AllDescending(ops) && Swaps(late, k, h)
    ensures Step(Run(Step(t, won), ops), late) == Run(Step(t, won), ops)
    ensures var u := Run(Step(t, won), ops);
      var r := AdmitSpec(u, late.event, late.mutation);
      r.Ok? ==> r.value == (u, AlreadyApplied) && Lookup(u.localRefs, k) == Some(late.event.id)
  {
    hide *;
    var v := Step(t, won);
    StepInv(t, won);
    WinMovesPast(t, won, k, h);
    PastNeverWins(v, ops, k, h);
    RunInv(v, ops);
    LateSwap(Run(v, ops), late, k, h);
  }

  lemma StepIsAdmission(t: Tables, op: Op)
    requires op.AdmitOp?
    ensures var r := AdmitSpec(t, op.event, op.mutation); Step(t, op) == if r.Ok? then r.value.0 else t
  {
    hide AdmitSpec;
  }

  lemma PastMisses(t: Tables, k: LocalKey, h: EventId)
    requires Past(t, k, h)
    ensures k in t.localRefs && Lookup(t.localRefs, k) != Some(h)
  {
  }

  lemma NotWon(t: Tables, op: Op, k: LocalKey, h: EventId)
    requires Swaps(op, k, h) && !Wins(t, op, k, h)
    ensures var r := AdmitSpec(t, op.event, op.mutation); r.Ok? ==> r.value.1 == AlreadyApplied
  {
    hide AdmitSpec;
  }

  lemma AppliedIsNoOp(t: Tables, e: Event, m: RefMutation)
    requires Inv(t) && AdmitSpec(t, e, m).Ok? && AdmitSpec(t, e, m).value.1 == AlreadyApplied
    ensures m.CompareAndSwap? && AdmitSpec(t, e, m).value.0 == t && Lookup(t.localRefs, (m.context, m.name)) == Some(e.id)
  {
    hide Inv, CheckEvent, ValidateStored, EdgeRows, ValidName;
    var c := e.body.context;
    var row := KnownContext(t, c).value;
    StoreEventInv(t, row, e);
    assert m.CompareAndSwap? && m.newHead == e.id;
    HeadStored(t, (m.context, m.name));
  }

  lemma HeadStored(t: Tables, k: LocalKey)
    requires Inv(t)
    ensures k in t.localRefs ==> t.localRefs[k] in t.events
  {
    hide CoreInv, RefsOk;
  }
}
