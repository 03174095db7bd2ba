/** What a recipient at a known head still lacks of a closed selection. */
module Deltas {
  import opened Base
  import opened Sorting
  import opened Weights
  import opened Graph
  import opened Tables
  import opened Projections
  import opened Lineages
  import opened CloseOver
  import opened Closures

  const MAX_DELTA_EVENTS := 100000
  const MAX_DELTA_BYTES := 64 * 1024 * 1024

  /** A known history; without a head the recipient starts cold. */
  datatype RecipientState = RecipientState(context: ContextId, head: Option<EventId>, closure: seq<EventId>, totalBytes: nat)

  datatype Delta = Delta(context: ContextId, recipientHead: Option<EventId>, recipientClosure: seq<EventId>,
                         selectedKnown: seq<EventId>, references: seq<SourceReference>, totalBytes: nat, limits: ClosureLimits)

  function ColdStart(c: ContextId): RecipientState {
    RecipientState(c, None, [], 0)
  }

  // ---------------------------------------------------------------- the recipient

  ghost predicate KnownAt(t: Tables, c: ContextId, head: EventId, s: RecipientState) {
    var anc := Anc(ReadGraph(t, c), {head});
    && s.context == c && s.head == Some(head)
    && Ascending(s.closure) && Elems(s.closure) == anc
    && s.totalBytes == Weight(Payloads(t, c), anc)
  }

  /** The history known at a head is its whole verified ancestry. */
  method AtHead(t: Tables, c: ContextId, head: EventId, limits: ClosureLimits) returns (r: Result<RecipientState, LineageError>)
    ensures r.Ok? <==> limits.Checked() && Reads(t, c, head) && Lineage(t, c, [head]).Ordered?
                       && Within(t, c, Anc(ReadGraph(t, c), {head}), limits)
    ensures r.Ok? ==> KnownAt(t, c, head, r.value)
    ensures r.Err? && r.error.UnknownRecipientHead? ==> r.error.head == head && head !in t.events
  {
    hide ReadGraph, Walked, Anc, Ascending, Weight, ValidateStored;
    if !limits.Checked() {
      return Err(TooLarge);
    }
    var event := ReadEvent(t, head);
    if event.Err? {
      return Err(StoreFailed(event.error));
    }
    if event.value.None? {
      return Err(UnknownRecipientHead(head));
    }
    if event.value.value.body.context != c {
      return Err(WrongContext(head));
    }
    var walked := WalkAncestry(t, c, [head], limits);
    assert Elems([head]) == {head};
    HeadWalked(t, c, head, limits, walked);
    if walked.Err? {
      return Err(walked.error);
    }
    var closure := SortDedup(NodeIds(walked.value.0));
    r := Ok(RecipientState(c, Some(head), closure, walked.value.1));
  }

  lemma HeadWalked(t: Tables, c: ContextId, head: EventId, limits: ClosureLimits, r: Result<(seq<EventNode>, nat), LineageError>)
    requires Walked(t, c, [head], limits, r) && Reads(t, c, head)
    ensures var anc := Anc(ReadGraph(t, c), {head});
      && (r.Ok? <==> Lineage(t, c, [head]).Ordered? && Within(t, c, anc, limits))
      && (r.Ok? ==> Elems(NodeIds(r.value.0)) == anc && r.value.1 == Weight(Payloads(t, c), anc))
      && (r.Err? ==> !r.error.UnknownRecipientHead?)
  {
    hide ReadGraph, Anc, Ascending, Weight, CyclicFrom, ReadEvent;
    assert Elems([head]) == {head};
  }

  /** A stated closure is accepted when it holds the stated head. */
  method FromClosure(c: ContextId, head: Option<EventId>, closure: seq<EventId>, totalBytes: nat)
    returns (r: Result<RecipientState, LineageError>)
    ensures r.Ok? <==> |Elems(closure)| <= MAX_DELTA_EVENTS && (head.Some? ==> head.value in closure)
    ensures r.Ok? ==> r.value == RecipientState(c, head, SortDedup(closure), totalBytes)
  {
    var sorted := SortDedup(closure);
    AscendingDistinct(sorted);
    DistinctSize(sorted);
    SameMembers(sorted, closure);
    if |sorted| > MAX_DELTA_EVENTS {
      return Err(TooLarge);
    }
    if head.Some? {
      var found := BinarySearch(sorted, head.value);
      if !found {
        return Err(InvalidState);
      }
    }
    r := Ok(RecipientState(c, head, sorted, totalBytes));
  }

  // ---------------------------------------------------------------- the partition

  /** Splits the selection into what lies outside the closure and what lies inside. */
  method DeltaOver(selected: seq<EventId>, closure: seq<EventId>) returns (delta: seq<EventId>, known: seq<EventId>)
    ensures Ascending(delta) && Elems(delta) == Elems(selected) - Elems(closure)
    ensures Ascending(known) && Elems(known) == Elems(selected) * Elems(closure)
  {
    var selectedIds := SortDedup(selected);
    var closureIds := SortDedup(closure);
    delta, known := [], [];
    for i := 0 to |selectedIds|
      invariant Ascending(delta) && Elems(delta) == Elems(selectedIds[..i]) - Elems(closure)
      invariant Ascending(known) && Elems(known) == Elems(selectedIds[..i]) * Elems(closure)
    {
      var id := selectedIds[i];
      assert selectedIds[..i + 1] == selectedIds[..i] + [id];
      PrefixBelow(selectedIds, i, delta);
      PrefixBelow(selectedIds, i, known);
      var found := BinarySearch(closureIds, id);
      assert found <==> id in Elems(closure) by { MemberElems(closureIds, id); }
      ElemsAppend(selectedIds[..i], id);
      if found {
        ElemsAppend(known, id);
        known := known + [id];
      } else {
        ElemsAppend(delta, id);
        delta := delta + [id];
      }
    }
    assert selectedIds[..|selectedIds|] == selectedIds;
  }

  lemma ElemsAppend(s: seq<EventId>, x: EventId)
    ensures Elems(s + [x]) == Elems(s) + {x}
  {
  }

  /** What came earlier in an ascending sequence is smaller. */
  lemma PrefixBelow(s: seq<EventId>, i: nat, part: seq<EventId>)
    requires Ascending(s) && i < |s| && Ascending(part) && Elems(part) <= Elems(s[..i])
    ensures Ascending(part + [s[i]])
  {
    forall k | 0 <= k < |part| ensures part[k] < s[i] {
      assert part[k] in Elems(part);
      assert part[k] in s[..i];
    }
  }

  function Kept(refs: seq<SourceReference>, closure: set<EventId>): seq<SourceReference> {
    if refs == [] then []
    else
      var x := refs[|refs| - 1];
      Kept(refs[..|refs| - 1], closure) + if x.event in closure then [] else [x]
  }

  lemma RefIdsAppend(refs: seq<SourceReference>, x: SourceReference)
    ensures RefIds(refs + [x]) == RefIds(refs) + [x.event]
  {
  }

  lemma RefIdsNil()
    ensures RefIds([]) == []
  {
  }

  lemma RefIdsSplit(refs: seq<SourceReference>)
    requires refs != []
    ensures RefIds(refs) == RefIds(refs[..|refs| - 1]) + [refs[|refs| - 1].event]
  {
    assert refs == refs[..|refs| - 1] + [refs[|refs| - 1]];
    RefIdsAppend(refs[..|refs| - 1], refs[|refs| - 1]);
  }

  lemma {:induction false} KeptIs(refs: seq<SourceReference>, closure: set<EventId>)
    ensures Elems(RefIds(Kept(refs, closure))) == Elems(RefIds(refs)) - closure
    ensures Ascending(RefIds(refs)) ==> Ascending(RefIds(Kept(refs, closure)))
    ensures forall x :: x in Kept(refs, closure) <==> x in refs && x.event !in closure
  {
    hide RefIds;
    if refs == [] {
      RefIdsNil();
    } else {
      var init := refs[..|refs| - 1];
      var x := refs[|refs| - 1];
      KeptIs(init, closure);
      RefIdsSplit(refs);
      ElemsAppend(RefIds(init), x.event);
      assert Kept(init, closure) + [] == Kept(init, closure);
      RefIdsAppend(Kept(init, closure), x);
      ElemsAppend(RefIds(Kept(init, closure)), x.event);
      if Ascending(RefIds(refs)) {
        var all := RefIds(refs);
        var n := |RefIds(init)|;
        assert all[..n] == RefIds(init) && all[n] == x.event;
        PrefixBelow(all, n, RefIds(Kept(init, closure)));
      }
    }
  }

  lemma {:induction false} KeptTwice(refs: seq<SourceReference>, a: set<EventId>, b: set<EventId>)
    requires a <= b
    ensures Kept(Kept(refs, a), b) == Kept(refs, b)
  {
    if refs != [] {
      var init := refs[..|refs| - 1];
      var x := refs[|refs| - 1];
      KeptTwice(init, a, b);
      var k := Kept(init, a);
      assert (k + [x])[..|k|] == k && k + [] == k;
    }
  }

  lemma {:induction false} KeptBytes(refs: seq<SourceReference>, closure: set<EventId>)
    ensures TotalBytes(Kept(refs, closure)) <= TotalBytes(refs)
  {
    if refs != [] {
      var init := refs[..|refs| - 1];
      var x := refs[|refs| - 1];
      KeptBytes(init, closure);
      var k := Kept(init, closure);
      assert (k + [x])[..|k|] == k && k + [] == k;
    }
  }

  lemma {:induction false} KeptNothing(refs: seq<SourceReference>)
    ensures Kept(refs, {}) == refs
  {
    if refs != [] { KeptNothing(refs[..|refs| - 1]); }
  }

  // ---------------------------------------------------------------- the delta record

  /** The recipient's head is checked against the store, never assumed. */
  predicate HeadKnown(t: Tables, c: ContextId, head: Option<EventId>) {
    head.Some? ==> Reads(t, c, head.value)
  }

  ghost predicate Computed(t: Tables, s: ClosedSelection, recipient: RecipientState, r: Result<Delta, LineageError>) {
    var closure := Elems(recipient.closure);
    var kept := Kept(s.references, closure);
    && (r.Ok? <==> recipient.context == s.context && HeadKnown(t, s.context, recipient.head)
                   && |Elems(RefIds(s.references)) - closure| <= MAX_DELTA_EVENTS && TotalBytes(kept) <= MAX_DELTA_BYTES)
    && (r.Ok? ==>
          && r.value.context == s.context && r.value.recipientHead == recipient.head && r.value.recipientClosure == recipient.closure
          && Ascending(r.value.selectedKnown) && Elems(r.value.selectedKnown) == Elems(RefIds(s.references)) * closure
          && r.value.references == kept && r.value.totalBytes == TotalBytes(kept) && r.value.limits == s.limits)
  }

  method ComputeDelta(t: Tables, s: ClosedSelection, recipient: RecipientState) returns (r: Result<Delta, LineageError>)
    ensures Computed(t, s, recipient, r)
  {
    hide Ascending, Kept, RefIds, ValidateStored, TotalBytes;
    if recipient.context != s.context {
      return Err(ContextMismatch);
    }
    if recipient.head.Some? {
      var event := ReadEvent(t, recipient.head.value);
      if event.Err? {
        return Err(StoreFailed(event.error));
      }
      if event.value.None? {
        return Err(UnknownRecipientHead(recipient.head.value));
      }
      if event.value.value.body.context != s.context {
        return Err(WrongContext(recipient.head.value));
      }
    }
    var selectedIds := RefIds(s.references);
    var delta, known := DeltaOver(selectedIds, recipient.closure);
    AscendingDistinct(delta);
    DistinctSize(delta);
    if |delta| > MAX_DELTA_EVENTS {
      return Err(TooLarge);
    }
    var references, totalBytes := KeepReferences(s.references, delta, Elems(recipient.closure));
    if totalBytes > MAX_DELTA_BYTES {
      return Err(TooLarge);
    }
    r := Ok(Delta(s.context, recipient.head, recipient.closure, known, references, totalBytes, s.limits));
  }

  method KeepReferences(refs: seq<SourceReference>, delta: seq<EventId>, ghost closure: set<EventId>)
    returns (kept: seq<SourceReference>, totalBytes: nat)
    requires Ascending(delta) && Elems(delta) == Elems(RefIds(refs)) - closure
    ensures kept == Kept(refs, closure) && totalBytes == TotalBytes(kept)
  {
    hide Ascending, RefIds;
    kept, totalBytes := [], 0;
    for i := 0 to |refs|
      invariant kept == Kept(refs[..i], closure) && totalBytes == TotalBytes(kept)
    {
      var x := refs[i];
      assert refs[..i + 1][..i] == refs[..i];
      var wanted := BinarySearch(delta, x.event);
      assert wanted <==> x.event !in closure by {
        MemberElems(delta, x.event);
        RefIdMember(refs, i);
      }
      if wanted {
        assert (kept + [x])[..|kept|] == kept;
        totalBytes := totalBytes + x.payloadBytes;
        kept := kept + [x];
      }
    }
    assert refs[..|refs|] == refs;
  }

  lemma RefIdMember(refs: seq<SourceReference>, i: nat)
    requires i < |refs|
    ensures refs[i].event in Elems(RefIds(refs))
  {
    assert RefIds(refs)[i] == refs[i].event;
  }

  // ---------------------------------------------------------------- what a delta is

  /** Delta and known partition the selection, in canonical order. */
  lemma DeltaPartitions(t: Tables, s: ClosedSelection, recipient: RecipientState, d: Delta)
    requires Computed(t, s, recipient, Ok(d)) && Ascending(RefIds(s.references))
    ensures Ascending(RefIds(d.references))
    ensures Elems(RefIds(d.references)) + Elems(d.selectedKnown) == Elems(RefIds(s.references))
    ensures Elems(RefIds(d.references)) !! Elems(d.selectedKnown)
    ensures Elems(RefIds(d.references)) !! Elems(recipient.closure)
  {
    hide Ascending, RefIds, Kept;
    KeptIs(s.references, Elems(recipient.closure));
  }

  /** When nothing critical was added, delta and known history together hold every parent. */
  lemma DeltaCompletesHistory(t: Tables, c: ContextId, selected: seq<EventId>, candidates: seq<EventId>, policy: CriticalPolicy,
                              limits: ClosureLimits, s: ClosedSelection, head: EventId, recipient: RecipientState, d: Delta)
    requires Inv(t) && Selection(t, c, selected, candidates, policy, limits, s)
    requires forall id :: id in candidates && Critical(t, c, policy, id) ==> id in Anc(ReadGraph(t, c), Elems(selected))
    requires KnownAt(t, c, head, recipient) && Computed(t, s, recipient, Ok(d))
    ensures var g := ReadGraph(t, c); var held := Elems(RefIds(d.references)) + Elems(recipient.closure);
      && Elems(RefIds(d.references)) == Anc(g, Elems(selected)) - Anc(g, {head})
      && held == Anc(g, Elems(selected) + {head})
      && ParentClosed(g, held)
  {
    hide Inv, Selection, Ascending, RefIds, Kept, Anc, ReadGraph, Critical, Weight, Closed, Cyclic, Parsed, Targets, TotalBytes;
    var g := ReadGraph(t, c);
    AncestryOnly(t, c, selected, candidates, policy, limits, s);
    KeptIs(s.references, Elems(recipient.closure));
    SoundLineage(t, c, []);
    AncUnion(g, Elems(selected), {head});
    AncestryParentClosed(g, Elems(selected) + {head});
  }

  /** A recipient that has advanced to a descendant gets exactly the old delta minus its new history. */
  lemma AdvancingShrinksDelta(t: Tables, s: ClosedSelection, head: EventId, later: EventId, old': RecipientState,
                              now: RecipientState, d: Delta, r: Result<Delta, LineageError>)
    requires KnownAt(t, s.context, head, old') && KnownAt(t, s.context, later, now) && Reach(ReadGraph(t, s.context), later, head)
    requires Reads(t, s.context, later)
    requires Computed(t, s, old', Ok(d)) && Computed(t, s, now, r)
    ensures Elems(old'.closure) <= Elems(now.closure)
    ensures r.Ok? && r.value.references == Kept(d.references, Elems(now.closure))
  {
    hide Ascending, RefIds, Kept, Anc, ReadGraph, ReadEvent, Weight, TotalBytes, Reach;
    var g := ReadGraph(t, s.context);
    AncMonotone(g, {head}, {later});
    var a, b := Elems(old'.closure), Elems(now.closure);
    KeptTwice(s.references, a, b);
    KeptBytes(d.references, b);
    var ids := Elems(RefIds(s.references));
    assert ids - b <= ids - a;
    SubsetSize(ids - b, ids - a);
  }
}
