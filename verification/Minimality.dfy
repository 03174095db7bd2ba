/** Sufficiency and removal-minimality claims, and what one-element removal decides. */
module Minimality {
  import opened Base
  import opened Sorting
  import opened Weights
  import opened Graph
  import opened Tables
  import opened Projections
  import opened Lineages
  import opened CloseOver
  import opened Closures
  import opened Deltas
  import opened Handoffs

  datatype CaseResult = CaseResult(noticed: seq<EventId>, hidden: seq<EventId>, completed: bool)

  // A kind no event carries, so the checks measure the selection alone.
  const NO_ADD_POLICY: CriticalPolicy := ["ob10.no-critical-kind"]

  function Missing(h: Handoff, critical: seq<EventId>, listed: bool): seq<EventId> {
    if critical == [] then []
    else
      var x := critical[|critical| - 1];
      Missing(h, critical[..|critical| - 1], listed) + if x !in Carried(h) && (x in Omitted(h)) == listed then [x] else []
  }

  /** The simulated recipient completes exactly when every critical event is carried; a missing one is
      noticed when it is listed as omitted and hidden otherwise. */
  method Simulate(h: Handoff, critical: seq<EventId>) returns (r: CaseResult)
    requires Canonical(h.delta)
    ensures r.completed <==> Elems(critical) <= Carried(h)
    ensures r.noticed == Missing(h, critical, true) && r.hidden == Missing(h, critical, false)
  {
    hide RefIds, Ascending, Omitted;
    var events := RefIds(h.delta.references);
    var noticed: seq<EventId>, hidden: seq<EventId>, completed := [], [], true;
    for i := 0 to |critical|
      invariant noticed == Missing(h, critical[..i], true) && hidden == Missing(h, critical[..i], false)
      invariant completed <==> Elems(critical[..i]) <= Carried(h)
    {
      var event := critical[i];
      assert critical[..i + 1][..i] == critical[..i] && critical[..i + 1] == critical[..i] + [event];
      ElemsAppend(critical[..i], event);
      var carried := BinarySearch(events, event);
      MemberElems(events, event);
      if !carried {
        completed := false;
        if event in Omitted(h) { noticed := noticed + [event]; } else { hidden := hidden + [event]; }
      }
    }
    assert critical[..|critical|] == critical;
    r := CaseResult(noticed, hidden, completed);
  }

  lemma {:induction false} NothingMissing(h: Handoff, critical: seq<EventId>, listed: bool)
    requires Elems(critical) <= Carried(h)
    ensures Missing(h, critical, listed) == []
  {
    hide Carried, Omitted;
    if critical != [] {
      var init := critical[..|critical| - 1];
      assert critical == init + [critical[|critical| - 1]];
      ElemsAppend(init, critical[|critical| - 1]);
      NothingMissing(h, init, listed);
    }
  }

  /** The report of missing events is exactly the critical events that are not carried, each as often and in
      the order it was asked for, split by whether it is listed as omitted. */
  lemma {:induction false} MissingIs(h: Handoff, critical: seq<EventId>, listed: bool, x: EventId)
    ensures multiset(Missing(h, critical, listed))[x] ==
      if x !in Carried(h) && (x in Omitted(h)) == listed then multiset(critical)[x] else 0
  {
    hide Carried, Omitted;
    if critical != [] {
      var init, last := critical[..|critical| - 1], critical[|critical| - 1];
      assert critical == init + [last];
      MissingIs(h, init, listed, x);
    }
  }

  lemma {:induction false} MissingInOrder(h: Handoff, a: seq<EventId>, b: seq<EventId>, listed: bool)
    ensures Missing(h, a + b, listed) == Missing(h, a, listed) + Missing(h, b, listed)
  {
    hide Carried, Omitted;
    if b == [] {
      assert a + b == a;
    } else {
      var k := |b| - 1;
      assert (a + b)[..|a + b| - 1] == a + b[..k];
      MissingInOrder(h, a, b[..k], listed);
    }
  }

  // ---------------------------------------------------------------- the claims

  /** Every critical event lies above the genesis within the selection's ancestry. */
  ghost predicate Sufficient(t: Tables, c: ContextId, genesis: EventId, critical: seq<EventId>, selected: set<EventId>) {
    Elems(critical) <= Anc(ReadGraph(t, c), selected) - Anc(ReadGraph(t, c), {genesis})
  }

  /** A larger selection of a sufficient one is sufficient. */
  lemma SufficiencyMonotone(t: Tables, c: ContextId, genesis: EventId, critical: seq<EventId>, a: set<EventId>, b: set<EventId>)
    requires a <= b && Sufficient(t, c, genesis, critical, a)
    ensures Sufficient(t, c, genesis, critical, b)
  {
    hide Anc, ReadGraph;
    assert a + b == b;
    AncUnion(ReadGraph(t, c), a, b);
  }

  /** The recipient at the genesis and the delta for it both fit. */
  ghost predicate Checkable(t: Tables, c: ContextId, genesis: EventId, closed: ClosedSelection, limits: ClosureLimits) {
    var known := Anc(ReadGraph(t, c), {genesis});
    && limits.Checked() && Reads(t, c, genesis) && Lineage(t, c, [genesis]).Ordered? && Within(t, c, known, limits)
    && closed.context == c && |Elems(RefIds(closed.references)) - known| <= MAX_DELTA_EVENTS
    && TotalBytes(Kept(closed.references, known)) <= MAX_DELTA_BYTES
  }

  method CheckSufficiency(t: Tables, c: ContextId, genesis: EventId, critical: seq<EventId>, closed: ClosedSelection,
                          limits: ClosureLimits)
    returns (r: Result<bool, LineageError>)
    requires Inv(t) && Ascending(RefIds(closed.references))
    ensures r.Ok? <==> Checkable(t, c, genesis, closed, limits)
    ensures r.Ok? ==> (r.value <==> Elems(critical) <= Elems(RefIds(closed.references)) - Anc(ReadGraph(t, c), {genesis}))
  {
    hide Within, Reads, Inv, RefIds, Ascending, ReadGraph, Anc, Weight, Kept, TotalBytes, Missing, ReadEvent;
    var recipient := AtHead(t, c, genesis, limits);
    if recipient.Err? {
      return Err(recipient.error);
    }
    var delta := ComputeDelta(t, closed, recipient.value);
    if delta.Err? {
      return Err(delta.error);
    }
    DeltaShape(t, closed, recipient.value, delta.value);
    var handoff := FromDelta(delta.value);
    GenesisKnown(t, c, genesis, recipient.value);
    if handoff.Err? {
      return Err(InvalidState);
    }
    var result := Simulate(handoff.value, critical);
    if result.completed { NothingMissing(handoff.value, critical, false); }
    r := Ok(result.completed && result.hidden == []);
  }

  lemma GenesisKnown(t: Tables, c: ContextId, genesis: EventId, recipient: RecipientState)
    requires KnownAt(t, c, genesis, recipient) && Reads(t, c, genesis)
    ensures genesis in recipient.closure
  {
    hide Reads, Anc, Ascending, Weight;
    ReadsInGraph(t, c, genesis);
    AncHeads(ReadGraph(t, c), {genesis});
    MemberElems(recipient.closure, genesis);
  }

  /** The claim measures the selection's ancestry: nothing else is ever added to it. */
  lemma ReducedCloses(t: Tables, c: ContextId, reduced: seq<EventId>, limits: ClosureLimits, s: ClosedSelection)
    requires Inv(t) && Selection(t, c, reduced, reduced, NO_ADD_POLICY, limits, s)
    ensures Ascending(RefIds(s.references)) && Elems(RefIds(s.references)) == Anc(ReadGraph(t, c), Elems(reduced))
  {
    hide Inv, RefIds, Ascending, ReadGraph, Anc, Selection, Reads;
    SelectionIs(t, c, reduced, reduced, NO_ADD_POLICY, limits, s);
    var g := ReadGraph(t, c);
    AncHeads(g, Elems(reduced));
    forall id | id in reduced && Critical(t, c, NO_ADD_POLICY, id) ensures id in Anc(g, Elems(reduced)) {
      ReadsInGraph(t, c, id);
      assert id in Elems(reduced);
    }
    assert ClosureIds(t, c, reduced, reduced, NO_ADD_POLICY) == Anc(g, Elems(reduced));
  }

  lemma ReadsInGraph(t: Tables, c: ContextId, id: EventId)
    requires Reads(t, c, id)
    ensures id in ReadGraph(t, c)
  {
  }

  function Except(s: seq<EventId>, x: EventId): seq<EventId> {
    if s == [] then [] else Except(s[..|s| - 1], x) + if s[|s| - 1] == x then [] else [s[|s| - 1]]
  }

  lemma {:induction false} ExceptIs(s: seq<EventId>, x: EventId)
    ensures Elems(Except(s, x)) == Elems(s) - {x}
  {
    if s != [] {
      var init := s[..|s| - 1];
      ExceptIs(init, x);
      assert s == init + [s[|s| - 1]];
      ElemsAppend(init, s[|s| - 1]);
      ElemsAppend(Except(init, x), s[|s| - 1]);
      assert Except(init, x) + [] == Except(init, x);
    }
  }

  ghost predicate Minimal(t: Tables, c: ContextId, genesis: EventId, critical: seq<EventId>, selected: set<EventId>) {
    forall s :: s < selected ==> !Sufficient(t, c, genesis, critical, s)
  }

  /** Removing single events decides it: every proper subset lies inside some one-event removal. */
  lemma OneRemovalDecides(t: Tables, c: ContextId, genesis: EventId, critical: seq<EventId>, selected: set<EventId>)
    ensures Minimal(t, c, genesis, critical, selected) <==>
      forall x :: x in selected ==> !Sufficient(t, c, genesis, critical, selected - {x})
  {
    hide Sufficient;
    if forall x :: x in selected ==> !Sufficient(t, c, genesis, critical, selected - {x}) {
      forall s | s < selected ensures !Sufficient(t, c, genesis, critical, s) {
        var x :| x in selected && x !in s;
        if Sufficient(t, c, genesis, critical, s) {
          SufficiencyMonotone(t, c, genesis, critical, s, selected - {x});
        }
      }
    }
    if Minimal(t, c, genesis, critical, selected) {
      forall x | x in selected ensures !Sufficient(t, c, genesis, critical, selected - {x}) {
        assert selected - {x} < selected;
      }
    }
  }

  // ---------------------------------------------------------------- when the claim can be made

  /** What closing a reduced selection and comparing it with the genesis history need: everything reads,
      and both ancestries fit the limits. */
  ghost predicate Evaluable(t: Tables, c: ContextId, genesis: EventId, rest: set<EventId>, limits: ClosureLimits) {
    var g := ReadGraph(t, c);
    && limits.Checked() && |rest| <= MAX_CLOSURE_CANDIDATES
    && Reads(t, c, genesis) && (forall id :: id in rest ==> Reads(t, c, id))
    && Within(t, c, Anc(g, rest), limits) && Within(t, c, Anc(g, {genesis}), limits)
  }

  /** None of the first removals is sufficient, so the check gets past them. */
  ghost predicate NoneSufficient(t: Tables, c: ContextId, genesis: EventId, critical: seq<EventId>, selected: seq<EventId>,
                                 n: nat)
    requires n <= |selected|
  {
    forall k :: 0 <= k < n ==> !Sufficient(t, c, genesis, critical, Elems(selected) - {selected[k]})
  }

  lemma ReadsIsTarget(t: Tables, c: ContextId, id: EventId)
    requires Inv(t)
    ensures Reads(t, c, id) <==> Targets(Parsed(t.events), c, id)
  {
    hide Inv, Parsed, Targets, ReadEvent, Closed, Cyclic;
    SoundLineage(t, c, []);
    if Reads(t, c, id) {
      ReadsInGraph(t, c, id);
    }
  }

  /** The closing step answers exactly when the selection reads and its ancestry fits. */
  lemma ReducedAnswers(t: Tables, c: ContextId, reduced: seq<EventId>, limits: ClosureLimits,
                       r: Result<ClosedSelection, LineageError>)
    requires Inv(t) && SelectionCloses(t, c, reduced, reduced, NO_ADD_POLICY, limits, r)
    ensures r.Ok? <==>
      && limits.Checked() && |Elems(reduced)| <= MAX_CLOSURE_CANDIDATES && (forall id :: id in Elems(reduced) ==> Reads(t, c, id))
      && Within(t, c, Anc(ReadGraph(t, c), Elems(reduced)), limits)
  {
    hide Inv, Selection, Anc, ReadGraph, Parsed, Targets, Within, Reads, Lineage, Ascending;
    forall id ensures id in reduced <==> id in Elems(reduced) {
      MemberElems(reduced, id);
    }
    if forall id :: id in reduced ==> Reads(t, c, id) {
      forall id | id in reduced ensures Targets(Parsed(t.events), c, id) {
        ReadsIsTarget(t, c, id);
      }
      SoundSelectionCloses(t, c, reduced, reduced, NO_ADD_POLICY, limits, r);
    }
  }

  /** An ancestry within closure limits never exceeds the bounds of a delta. */
  lemma ReducedFits(t: Tables, c: ContextId, reduced: seq<EventId>, limits: ClosureLimits, s: ClosedSelection,
                    known: set<EventId>)
    requires Inv(t) && limits.Checked() && Selection(t, c, reduced, reduced, NO_ADD_POLICY, limits, s)
    ensures s.context == c
    ensures |Elems(RefIds(s.references)) - known| <= MAX_DELTA_EVENTS && TotalBytes(Kept(s.references, known)) <= MAX_DELTA_BYTES
  {
    hide Inv, RefIds, Ascending, ReadGraph, Anc, Reads, Weight, TotalBytes, Kept, Payloads, Critical, Added, ClosureIds,
         Referenced, Extra;
    var anc := Anc(ReadGraph(t, c), Elems(reduced));
    ReducedCloses(t, c, reduced, limits, s);
    SubsetSize(anc - known, anc);
    LimitsKeptWhen(t, c, reduced, reduced, NO_ADD_POLICY, limits, s);
    forall id | id in reduced && Critical(t, c, NO_ADD_POLICY, id) ensures id in anc {
      CriticalReads(t, c, id);
      ReadsInGraph(t, c, id);
      AncHeads(ReadGraph(t, c), Elems(reduced));
      MemberElems(reduced, id);
    }
    assert Extra(t, c, reduced, reduced, NO_ADD_POLICY) == {};
    WeightNone(Payloads(t, c));
    KeptBytes(s.references, known);
  }

  lemma CriticalReads(t: Tables, c: ContextId, id: EventId)
    requires Critical(t, c, NO_ADD_POLICY, id)
    ensures Reads(t, c, id)
  {
  }

  lemma GenesisOrdered(t: Tables, c: ContextId, genesis: EventId)
    requires Inv(t) && Reads(t, c, genesis)
    ensures Lineage(t, c, [genesis]).Ordered?
  {
    hide Inv, Parsed, Targets, Reads, Lineage, Closed, Cyclic, ReadGraph;
    ReadsIsTarget(t, c, genesis);
    SoundLineage(t, c, [genesis]);
  }

  lemma ReducedIs(t: Tables, c: ContextId, genesis: EventId, critical: seq<EventId>, reduced: seq<EventId>, limits: ClosureLimits,
                  rest: Result<ClosedSelection, LineageError>)
    requires Inv(t) && rest.Ok? && SelectionCloses(t, c, reduced, reduced, NO_ADD_POLICY, limits, rest)
    ensures Ascending(RefIds(rest.value.references))
    ensures (Elems(critical) <= Elems(RefIds(rest.value.references)) - Anc(ReadGraph(t, c), {genesis}))
            <==> Sufficient(t, c, genesis, critical, Elems(reduced))
  {
    hide Inv, RefIds, Ascending, ReadGraph, Anc, Selection, Reads, Closable;
    ReducedCloses(t, c, reduced, limits, rest.value);
  }

  /** One removal's outcome, in terms of what it reads. */
  lemma EvaluableWhen(t: Tables, c: ContextId, genesis: EventId, reduced: seq<EventId>, limits: ClosureLimits,
                      rest: Result<ClosedSelection, LineageError>)
    requires Inv(t) && SelectionCloses(t, c, reduced, reduced, NO_ADD_POLICY, limits, rest)
    ensures Evaluable(t, c, genesis, Elems(reduced), limits) <==> rest.Ok? && Checkable(t, c, genesis, rest.value, limits)
  {
    hide Inv, Selection, Anc, ReadGraph, Within, Reads, Closable, Lineage, RefIds, Kept, TotalBytes;
    ReducedAnswers(t, c, reduced, limits, rest);
    if rest.Ok? {
      ReducedFits(t, c, reduced, limits, rest.value, Anc(ReadGraph(t, c), {genesis}));
      if Reads(t, c, genesis) {
        GenesisOrdered(t, c, genesis);
      }
    }
  }

  /** The claim is minimality: no proper subset is sufficient.  It is made exactly when every removal up to
      and including the first sufficient one can be evaluated. */
  method CheckMinimality(t: Tables, c: ContextId, genesis: EventId, critical: seq<EventId>, closed: ClosedSelection,
                         limits: ClosureLimits)
    returns (r: Result<bool, LineageError>)
    requires Inv(t)
    ensures r.Ok? <==> forall k :: 0 <= k < |closed.selected| && NoneSufficient(t, c, genesis, critical, closed.selected, k) ==>
                         Evaluable(t, c, genesis, Elems(closed.selected) - {closed.selected[k]}, limits)
    ensures r.Ok? ==> (r.value <==> Minimal(t, c, genesis, critical, Elems(closed.selected)))
  {
    hide Inv, RefIds, Ascending, ReadGraph, Anc, Selection, Minimal, Reads, Closable, Checkable, Evaluable, SelectionCloses,
         Sufficient;
    var selected := closed.selected;
    OneRemovalDecides(t, c, genesis, critical, Elems(selected));
    for i := 0 to |selected|
      invariant NoneSufficient(t, c, genesis, critical, selected, i)
      invariant forall k :: 0 <= k < i ==> Evaluable(t, c, genesis, Elems(selected) - {selected[k]}, limits)
    {
      var reduced := Except(selected, selected[i]);
      ExceptIs(selected, selected[i]);
      var rest := CloseSelection(t, c, reduced, reduced, NO_ADD_POLICY, limits);
      EvaluableWhen(t, c, genesis, reduced, limits, rest);
      if rest.Err? {
        return Err(rest.error);
      }
      ReducedIs(t, c, genesis, critical, reduced, limits, rest);
      var claim := CheckSufficiency(t, c, genesis, critical, rest.value, limits);
      if claim.Err? {
        return Err(claim.error);
      }
      if claim.value {
        assert selected[i] in Elems(selected);
        return Ok(false);
      }
    }
    r := Ok(true);
  }
}
