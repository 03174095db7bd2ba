/** Closing a selection over parent edges and covering critical events. */
module Closures {
  import opened Base
  import opened Sorting
  import opened Weights
  import opened Graph
  import opened Names
  import opened Tables
  import opened Transitions
  import opened Runs
  import opened Projections
  import opened Lineages
  import opened CloseOver
  import opened Invocations
  import opened Samples

  const MAX_CLOSURE_CANDIDATES := 65536

  datatype SourceReference = SourceReference(event: EventId, context: ContextId, kind: string, author: AuthorId, payloadBytes: nat)

  datatype ClosedSelection = ClosedSelection(context: ContextId, references: seq<SourceReference>, selected: seq<EventId>,
                                             addedCritical: seq<EventId>, totalBytes: nat, limits: ClosureLimits)

  // Kinds flagged as critical or risky.
  type CriticalPolicy = seq<string>

  function SourceOf(e: Event): SourceReference {
    SourceReference(e.id, e.body.context, e.body.kind, e.body.author, e.body.payloadBytes)
  }

  function RefIds(refs: seq<SourceReference>): seq<EventId> {
    seq(|refs|, i requires 0 <= i < |refs| => refs[i].event)
  }

  function TotalBytes(refs: seq<SourceReference>): nat {
    if refs == [] then 0 else TotalBytes(refs[..|refs| - 1]) + refs[|refs| - 1].payloadBytes
  }

  function Source(t: Tables, c: ContextId, id: EventId): SourceReference
    requires Reads(t, c, id)
  {
    SourceOf(ReadEvent(t, id).value.value)
  }

  function References(t: Tables, c: ContextId, ids: seq<EventId>): seq<SourceReference>
    requires forall id :: id in ids ==> Reads(t, c, id)
  {
    seq(|ids|, i requires 0 <= i < |ids| && Reads(t, c, ids[i]) => Source(t, c, ids[i]))
  }

  predicate Critical(t: Tables, c: ContextId, policy: CriticalPolicy, id: EventId) {
    Reads(t, c, id) && ReadEvent(t, id).value.value.body.kind in policy
  }

  /** The ancestors of the selection and every critical candidate. */
  ghost function ClosureIds(t: Tables, c: ContextId, selected: seq<EventId>, candidates: seq<EventId>,
                            policy: CriticalPolicy): set<EventId>
  {
    Anc(ReadGraph(t, c), Elems(selected)) + set id | id in candidates && Critical(t, c, policy, id)
  }

  /** The first pass loads the whole ancestry within the limits. */
  ghost predicate Closable(t: Tables, c: ContextId, selected: seq<EventId>, limits: ClosureLimits) {
    Lineage(t, c, SortDedup(selected)).Ordered? && Within(t, c, Anc(ReadGraph(t, c), Elems(selected)), limits)
  }

  ghost predicate SelectionCloses(t: Tables, c: ContextId, selected: seq<EventId>, candidates: seq<EventId>,
                                  policy: CriticalPolicy,
                         limits: ClosureLimits, r: Result<ClosedSelection, LineageError>)
  {
    && (r.Ok? <==> limits.Checked() && |Elems(candidates)| <= MAX_CLOSURE_CANDIDATES && Closable(t, c, selected, limits)
                   && forall id :: id in candidates ==> Reads(t, c, id))
    && (r.Ok? ==> Selection(t, c, selected, candidates, policy, limits, r.value))
  }

  /** References are exactly the closure in canonical order.  The report of additions holds every critical
      candidate beyond the ancestry and only critical candidates. */
  ghost predicate Selection(t: Tables, c: ContextId, selected: seq<EventId>, candidates: seq<EventId>, policy: CriticalPolicy,
                            limits: ClosureLimits, s: ClosedSelection)
  {
    var anc := Anc(ReadGraph(t, c), Elems(selected));
    var all := ClosureIds(t, c, selected, candidates, policy);
    && s.context == c && s.limits == limits && s.selected == SortDedup(selected)
    && Ascending(s.addedCritical) && Elems(s.addedCritical) <= all
    && all - anc <= Elems(s.addedCritical)
    && (forall id :: id in s.addedCritical ==> id in candidates && Critical(t, c, policy, id))
    && (forall closed: seq<EventId> :: Ascending(closed) && Elems(closed) == anc ==>
          s.addedCritical == SortDedup(Added(t, c, policy, closed, SortDedup(candidates))))
    && s.totalBytes == TotalBytes(s.references)
    && Within(t, c, anc, limits)
    && (forall id :: id in all ==> Reads(t, c, id))
    && exists ids: seq<EventId> :: Ascending(ids) && Elems(ids) == all && Referenced(t, c, ids, s.references)
  }

  ghost predicate Referenced(t: Tables, c: ContextId, ids: seq<EventId>, refs: seq<SourceReference>) {
    (forall id :: id in ids ==> Reads(t, c, id)) && refs == References(t, c, ids)
  }

  /** Halving between two positions; what it answers out of order is only what the halving does. */
  function Search(s: seq<nat>, x: nat, low: nat, high: nat): bool
    requires low <= high <= |s|
    decreases high - low
  {
    if low == high then false
    else
      var mid := (low + high) / 2;
      if s[mid] == x then true
      else if s[mid] < x then Search(s, x, mid + 1, high)
      else Search(s, x, low, mid)
  }

  lemma SearchDecides(s: seq<nat>, x: nat)
    ensures Search(s, x, 0, |s|) ==> x in s
    ensures Ascending(s) ==> (Search(s, x, 0, |s|) <==> x in s)
  {
    hide Ascending, Search;
    SearchFinds(s, x, 0, |s|);
    assert s[0..|s|] == s;
  }

  lemma {:induction false} SearchFinds(s: seq<nat>, x: nat, low: nat, high: nat)
    requires low <= high <= |s|
    ensures Search(s, x, low, high) ==> x in s[low..high]
    ensures Ascending(s) && x in s[low..high] ==> Search(s, x, low, high)
    decreases high - low
  {
    if low < high {
      var mid := (low + high) / 2;
      assert s[low..high] == s[low..mid] + [s[mid]] + s[mid + 1..high];
      if s[mid] < x {
        SearchFinds(s, x, mid + 1, high);
        assert Ascending(s) ==> x !in s[low..mid];
      } else if s[mid] != x {
        SearchFinds(s, x, low, mid);
        assert Ascending(s) ==> x !in s[mid + 1..high];
      }
    }
  }

  /** A hit is a member, and in ascending order a member is hit. */
  method BinarySearch(s: seq<nat>, x: nat) returns (found: bool)
    ensures found == Search(s, x, 0, |s|)
    ensures found ==> x in s
    ensures Ascending(s) && x in s ==> found
  {
    hide Ascending;
    SearchDecides(s, x);
    var low, high := 0, |s|;
    while low < high
      invariant 0 <= low <= high <= |s|
      invariant Search(s, x, 0, |s|) == Search(s, x, low, high)
    {
      var mid := (low + high) / 2;
      if s[mid] == x {
        return true;
      }
      if s[mid] < x {
        low := mid + 1;
      } else {
        high := mid;
      }
    }
    found := false;
  }

  /** The second pass never rejects what the first one loaded. */
  lemma SecondPassAccepts(t: Tables, c: ContextId, starts: seq<EventId>, limits: ClosureLimits, nodes: seq<EventNode>,
                          total: nat, report: ClosureReport)
    requires Walked(t, c, starts, limits, Ok((nodes, total))) && Closes(ById(nodes), limits, report)
    ensures !report.cycle && !report.exceeded && report.dangling == []
    ensures Ascending(report.closed) && Elems(report.closed) == Anc(ReadGraph(t, c), Elems(starts))
  {
    hide ReadGraph, Anc, CyclicFrom, Live, Cyclic, Ascending, Weight, ById, DanglingOf;
    var g := ReadGraph(t, c);
    var byId := ById(nodes);
    ByIdKeys(nodes);
    PostOrderExact(g, starts);
    assert |byId| == |byId.Keys|;
    LoadedTable(g, Elems(starts), nodes);
    AncestryHasNoGaps(g, Elems(starts), byId);
    EdgesUnique(report.dangling, []);
  }

  lemma LoadedTable(g: Graph, heads: set<EventId>, nodes: seq<EventNode>)
    requires Distinct(NodeIds(nodes)) && Elems(NodeIds(nodes)) == Anc(g, heads)
    requires forall i :: 0 <= i < |nodes| ==> nodes[i].event in g && nodes[i].parents == g[nodes[i].event]
    ensures ById(nodes).Keys == Anc(g, heads)
    ensures forall x :: x in ById(nodes) ==> x in g && Elems(ById(nodes)[x]) == Elems(g[x])
  {
    hide ById, Anc, Ascending;
    ByIdKeys(nodes);
    forall x | x in ById(nodes) ensures x in g && Elems(ById(nodes)[x]) == Elems(g[x]) {
      var n := ByIdMember(nodes, x);
      ByIdEntry(nodes, n);
    }
  }

  lemma AncestryHasNoGaps(g: Graph, heads: set<EventId>, byId: map<EventId, seq<EventId>>)
    requires byId.Keys == Anc(g, heads) && forall x :: x in byId ==> x in g && Elems(byId[x]) == Elems(g[x])
    requires !CyclicFrom(g, heads) && forall x :: ReachFrom(g, heads, x) ==> x in g
    ensures DanglingOf(byId, byId.Keys) == {} && !Cyclic(Live(byId))
  {
    hide Live;
    LiveEdges(byId);
    forall a, b | a in byId && b in byId[a] ensures b in byId && Edge(g, a, b) {
      assert b in Elems(byId[a]);
      assert b in Elems(g[a]);
      ParentReached(g, heads, a, b);
    }
    forall p ensures !IsCycle(Live(byId), p) {
      if IsCycle(Live(byId), p) {
        LiveCycle(g, heads, byId, p);
      }
    }
  }

  lemma ParentReached(g: Graph, heads: set<EventId>, a: EventId, b: EventId)
    requires ReachFrom(g, heads, a) && Edge(g, a, b)
    ensures ReachFrom(g, heads, b)
  {
    var h :| h in heads && Reach(g, h, a);
    ReachEdge(g, a, b);
    ReachTrans(g, h, a, b);
  }

  lemma LiveCycle(g: Graph, heads: set<EventId>, byId: map<EventId, seq<EventId>>, p: seq<EventId>)
    requires IsCycle(Live(byId), p) && byId.Keys == Anc(g, heads)
    requires forall a, b :: Edge(Live(byId), a, b) ==> a in byId && Edge(g, a, b)
    ensures CyclicFrom(g, heads)
  {
    hide Live, Reach;
    assert Edge(Live(byId), p[0], p[1]);
    forall i, j | 0 <= i && j == i + 1 && j < |p| ensures Edge(g, p[i], p[j]) {
      assert Edge(Live(byId), p[i], p[j]);
    }
    assert IsCycle(g, p);
  }

  // ---------------------------------------------------------------- critical coverage

  /** The candidates examined so far: all readable, and every critical one beyond the closure added. */
  ghost predicate Covered(t: Tables, c: ContextId, policy: CriticalPolicy, anc: set<EventId>, seen: seq<EventId>,
                          added: seq<EventId>)
  {
    && (forall id :: id in seen ==> Reads(t, c, id))
    && (forall id :: id in added ==> id in seen && Critical(t, c, policy, id))
    && (forall id :: id in seen && Critical(t, c, policy, id) && id !in anc ==> id in added)
  }

  /** Candidates in order; each critical one that is not found in the vector so far is pushed onto it. */
  function Added(t: Tables, c: ContextId, policy: CriticalPolicy, closed: seq<EventId>, candidates: seq<EventId>): seq<EventId> {
    if candidates == [] then []
    else
      var before := Added(t, c, policy, closed, candidates[..|candidates| - 1]);
      var id := candidates[|candidates| - 1];
      if !Search(closed + before, id, 0, |closed + before|) && Critical(t, c, policy, id) then before + [id] else before
  }

  method CoverCritical(t: Tables, c: ContextId, candidates: seq<EventId>, policy: CriticalPolicy, closed: seq<EventId>)
    returns (r: Result<seq<EventId>, LineageError>)
    requires Ascending(closed) && forall id :: id in closed ==> Reads(t, c, id)
    ensures r.Ok? <==> forall id :: id in candidates ==> Reads(t, c, id)
    ensures r.Ok? ==> Covered(t, c, policy, Elems(closed), candidates, r.value)
    ensures r.Ok? ==> r.value == Added(t, c, policy, closed, candidates)
  {
    hide ReadEvent, Ascending, Search;
    var closedIds := closed;
    var added: seq<EventId> := [];
    for i := 0 to |candidates|
      invariant closedIds == closed + added
      invariant Covered(t, c, policy, Elems(closed), candidates[..i], added)
      invariant added == Added(t, c, policy, closed, candidates[..i])
    {
      var id := candidates[i];
      assert candidates[..i + 1][..i] == candidates[..i];
      assert candidates[..i + 1] == candidates[..i] + [id];
      assert id in candidates;
      var found := BinarySearch(closedIds, id);
      if !found {
        var event := ReadEvent(t, id);
        if event.Err? {
          return Err(StoreFailed(event.error));
        }
        if event.value.None? {
          return Err(UnverifiableSource(id));
        }
        if event.value.value.body.context != c {
          return Err(WrongContext(id));
        }
        if event.value.value.body.kind in policy {
          closedIds := closedIds + [id];
          added := added + [id];
        }
      }
    }
    assert candidates[..|candidates|] == candidates;
    r := Ok(added);
  }

  /** Loads and closes the ancestry, covers critical candidates, and lists the references in canonical order. */
  method CloseSelection(t: Tables, c: ContextId, selected: seq<EventId>, candidates: seq<EventId>, policy: CriticalPolicy,
                        limits: ClosureLimits)
    returns (r: Result<ClosedSelection, LineageError>)
    ensures SelectionCloses(t, c, selected, candidates, policy, limits, r)
  {
    hide ReadEvent, ReadGraph, Walked, Closes, ById, Covered, Ascending, Anc, Selection, Weight, Live, Cyclic, Added, Search;
    if !limits.Checked() {
      return Err(TooLarge);
    }
    var selectedIds := SortDedup(selected);
    var candidateIds := SortDedup(candidates);
    AscendingDistinct(candidateIds);
    DistinctSize(candidateIds);
    if |candidateIds| > MAX_CLOSURE_CANDIDATES {
      return Err(TooLarge);
    }
    var walked := WalkAncestry(t, c, selectedIds, limits);
    WalkDecides(t, c, selected, limits, walked);
    if walked.Err? {
      return Err(walked.error);
    }
    var nodes := walked.value.0;
    var report := CloseOverNodes(nodes, limits);
    SecondPassAccepts(t, c, selectedIds, limits, nodes, walked.value.1, report);
    AncestryReads(t, c, selectedIds, report.closed);
    var covered := CoverCritical(t, c, candidateIds, policy, report.closed);
    assert (forall id :: id in candidateIds ==> Reads(t, c, id)) <==> (forall id :: id in candidates ==> Reads(t, c, id)) by {
      SameMembers(candidateIds, candidates);
    }
    if covered.Err? {
      return Err(covered.error);
    }
    var addedCritical := SortDedup(covered.value);
    var closedIds := SortDedup(report.closed + covered.value);
    Cover(t, c, selected, candidates, policy, report.closed, candidateIds, covered.value);
    forall closed: seq<EventId> | Ascending(closed) && Elems(closed) == Elems(report.closed) ensures closed == report.closed {
      AscendingUnique(closed, report.closed);
    }
    var references, totalBytes := Collect(t, c, closedIds);
    r := Ok(ClosedSelection(c, references, selectedIds, addedCritical, totalBytes, limits));
    Assembled(t, c, selected, candidates, policy, limits, closedIds, r.value);
  }

  lemma AscendingDistinct(s: seq<nat>)
    requires Ascending(s)
    ensures Distinct(s)
  {
  }

  lemma SameMembers(a: seq<nat>, b: seq<nat>)
    requires Elems(a) == Elems(b)
    ensures forall x :: x in a <==> x in b
  {
    forall x ensures x in a <==> x in b {
      MemberElems(a, x);
      MemberElems(b, x);
    }
  }

  lemma WalkDecides(t: Tables, c: ContextId, selected: seq<EventId>, limits: ClosureLimits,
                    r: Result<(seq<EventNode>, nat), LineageError>)
    requires Walked(t, c, SortDedup(selected), limits, r)
    ensures r.Ok? <==> Closable(t, c, selected, limits)
  {
    hide ReadGraph, Anc, Ascending, Weight, CyclicFrom;
  }

  lemma AncestryReads(t: Tables, c: ContextId, starts: seq<EventId>, closed: seq<EventId>)
    requires Elems(closed) == Anc(ReadGraph(t, c), Elems(starts))
    ensures forall id :: id in closed ==> Reads(t, c, id)
  {
    hide ReadEvent;
    forall id | id in closed ensures Reads(t, c, id) {
      assert id in Elems(closed);
    }
  }

  lemma Cover(t: Tables, c: ContextId, selected: seq<EventId>, candidates: seq<EventId>, policy: CriticalPolicy,
              closed: seq<EventId>, candidateIds: seq<EventId>, added: seq<EventId>)
    requires Elems(closed) == Anc(ReadGraph(t, c), Elems(selected)) && Elems(candidateIds) == Elems(candidates)
    requires Covered(t, c, policy, Elems(closed), candidateIds, added) && forall id :: id in closed ==> Reads(t, c, id)
    ensures var all := ClosureIds(t, c, selected, candidates, policy);
      && Elems(SortDedup(closed + added)) == all
      && (forall id :: id in all ==> Reads(t, c, id))
      && Elems(SortDedup(added)) <= all && all - Elems(closed) <= Elems(SortDedup(added))
      && (forall id :: id in SortDedup(added) ==> id in candidates && Critical(t, c, policy, id))
  {
    hide ReadGraph, Anc, ReadEvent, Ascending;
    SameMembers(candidateIds, candidates);
    SameMembers(SortDedup(added), added);
    var all := ClosureIds(t, c, selected, candidates, policy);
    forall id ensures id in Elems(closed + added) <==> id in all {
      assert id in closed + added <==> id in closed || id in added;
      MemberElems(closed, id);
    }
  }

  method Collect(t: Tables, c: ContextId, ids: seq<EventId>) returns (refs: seq<SourceReference>, totalBytes: nat)
    requires forall id :: id in ids ==> Reads(t, c, id)
    ensures Referenced(t, c, ids, refs) && totalBytes == TotalBytes(refs)
  {
    hide ReadEvent, Ascending;
    refs, totalBytes := [], 0;
    for i := 0 to |ids|
      invariant |refs| == i && forall k :: 0 <= k < i ==> ids[k] in ids && refs[k] == Source(t, c, ids[k])
      invariant totalBytes == TotalBytes(refs)
    {
      assert ids[i] in ids;
      var source := Source(t, c, ids[i]);
      assert (refs + [source])[..i] == refs;
      totalBytes := totalBytes + source.payloadBytes;
      refs := refs + [source];
    }
  }

  lemma Assembled(t: Tables, c: ContextId, selected: seq<EventId>, candidates: seq<EventId>, policy: CriticalPolicy,
                  limits: ClosureLimits, ids: seq<EventId>, s: ClosedSelection)
    requires var anc := Anc(ReadGraph(t, c), Elems(selected)); var all := ClosureIds(t, c, selected, candidates, policy);
      && s.context == c && s.limits == limits && s.selected == SortDedup(selected)
      && Ascending(s.addedCritical) && Elems(s.addedCritical) <= all
      && all - anc <= Elems(s.addedCritical)
      && (forall id :: id in s.addedCritical ==> id in candidates && Critical(t, c, policy, id))
      && (forall closed: seq<EventId> :: Ascending(closed) && Elems(closed) == anc ==>
            s.addedCritical == SortDedup(Added(t, c, policy, closed, SortDedup(candidates))))
      && s.totalBytes == TotalBytes(s.references)
      && Within(t, c, anc, limits)
      && (forall id :: id in all ==> Reads(t, c, id))
      && Ascending(ids) && Elems(ids) == all && Referenced(t, c, ids, s.references)
    ensures Selection(t, c, selected, candidates, policy, limits, s)
  {
    hide ReadGraph, Anc, ReadEvent, Ascending, ClosureIds, Critical, Referenced, Added, Within;
  }

  // ---------------------------------------------------------------- what a closed selection is

  /** In a sound store a reference names the row it was read from. */
  lemma ReferencesName(t: Tables, c: ContextId, ids: seq<EventId>, refs: seq<SourceReference>)
    requires Inv(t) && Referenced(t, c, ids, refs)
    ensures RefIds(refs) == ids
  {
    hide Inv, ReadEvent, LoadVerified, Parsed, Ascending;
    forall i | 0 <= i < |ids| ensures RefIds(refs)[i] == ids[i] {
      assert ids[i] in ids;
      ReadsStored(t, c, ids[i]);
      InvLoads(t, ids[i]);
      InvReads(t, ids[i]);
    }
  }

  lemma ReadsStored(t: Tables, c: ContextId, id: EventId)
    requires Reads(t, c, id)
    ensures id in t.events
  {
  }

  lemma SelectionIs(t: Tables, c: ContextId, selected: seq<EventId>, candidates: seq<EventId>, policy: CriticalPolicy,
                    limits: ClosureLimits, s: ClosedSelection)
    requires Inv(t) && Selection(t, c, selected, candidates, policy, limits, s)
    ensures Ascending(RefIds(s.references)) && Elems(RefIds(s.references)) == ClosureIds(t, c, selected, candidates, policy)
  {
    hide Inv, Referenced, Ascending, ClosureIds, Critical, Reads;
    var all := ClosureIds(t, c, selected, candidates, policy);
    var ids: seq<EventId> :| Ascending(ids) && Elems(ids) == all && Referenced(t, c, ids, s.references);
    ReferencesName(t, c, ids, s.references);
  }

  ghost predicate ParentClosed(g: Graph, s: set<EventId>) {
    forall a, p :: a in s && Edge(g, a, p) ==> p in s
  }

  /** Without critical additions the references are exactly the ancestors, with every parent. */
  lemma AncestryOnly(t: Tables, c: ContextId, selected: seq<EventId>, candidates: seq<EventId>, policy: CriticalPolicy,
                     limits: ClosureLimits, s: ClosedSelection)
    requires Inv(t) && Selection(t, c, selected, candidates, policy, limits, s)
    requires forall id :: id in candidates && Critical(t, c, policy, id) ==> id in Anc(ReadGraph(t, c), Elems(selected))
    ensures Ascending(RefIds(s.references)) && Elems(RefIds(s.references)) == Anc(ReadGraph(t, c), Elems(selected))
    ensures ParentClosed(ReadGraph(t, c), Elems(RefIds(s.references)))
  {
    hide Inv, Selection, Ascending, Critical, Anc, ReadGraph, Parsed, Targets, Cyclic, Closed;
    var g := ReadGraph(t, c);
    SelectionIs(t, c, selected, candidates, policy, limits, s);
    SoundLineage(t, c, []);
    assert ClosureIds(t, c, selected, candidates, policy) == Anc(g, Elems(selected));
    AncestryParentClosed(g, Elems(selected));
  }

  lemma AncestryParentClosed(g: Graph, heads: set<EventId>)
    requires Closed(g)
    ensures ParentClosed(g, Anc(g, heads))
  {
    hide Anc;
    forall a, p | a in Anc(g, heads) && Edge(g, a, p) ensures p in Anc(g, heads) {
      AncClosed(g, heads, a, p);
    }
  }

  /** With additions it stays parent-closed exactly when every added event's parents are covered too. */
  lemma CriticalParentsNeeded(t: Tables, c: ContextId, selected: seq<EventId>, candidates: seq<EventId>, policy: CriticalPolicy)
    requires Inv(t)
    ensures var all := ClosureIds(t, c, selected, candidates, policy); var g := ReadGraph(t, c);
      ParentClosed(g, all) <==> forall a, p :: a in candidates && Critical(t, c, policy, a) && Edge(g, a, p) ==> p in all
  {
    hide Inv, Critical, Anc, ReadGraph, Parsed, Targets, Cyclic, Closed;
    SoundLineage(t, c, []);
    AncestryParentClosed(ReadGraph(t, c), Elems(selected));
  }

  /** On a sound store a valid request over stored events fails only for its limits. */
  lemma SoundSelectionCloses(t: Tables, c: ContextId, selected: seq<EventId>, candidates: seq<EventId>,
                             policy: CriticalPolicy, limits: ClosureLimits, r: Result<ClosedSelection, LineageError>)
    requires Inv(t) && SelectionCloses(t, c, selected, candidates, policy, limits, r)
    requires forall id :: id in selected || id in candidates ==> Targets(Parsed(t.events), c, id)
    ensures r.Ok? <==> limits.Checked() && |Elems(candidates)| <= MAX_CLOSURE_CANDIDATES
                       && Within(t, c, Anc(ReadGraph(t, c), Elems(selected)), limits)
  {
    hide Inv, Selection, Anc, Parsed, Targets, Cyclic, Closed, Within, Ascending;
    SameMembers(SortDedup(selected), selected);
    SoundLineage(t, c, SortDedup(selected));
  }

  // ---------------------------------------------------------------- what critical events cost

  ghost function Extra(t: Tables, c: ContextId, selected: seq<EventId>, candidates: seq<EventId>,
                       policy: CriticalPolicy): set<EventId>
  {
    ClosureIds(t, c, selected, candidates, policy) - Anc(ReadGraph(t, c), Elems(selected))
  }

  lemma {:induction false} TotalIsWeight(w: map<EventId, nat>, ids: seq<EventId>, refs: seq<SourceReference>)
    requires |refs| == |ids| && forall i :: 0 <= i < |ids| ==> ids[i] in w && refs[i].payloadBytes == w[ids[i]]
    ensures TotalBytes(refs) == SeqWeight(w, ids)
  {
    if ids != [] {
      TotalIsWeight(w, ids[..|ids| - 1], refs[..|refs| - 1]);
    }
  }

  lemma ReferencedSizes(t: Tables, c: ContextId, ids: seq<EventId>, refs: seq<SourceReference>)
    requires Referenced(t, c, ids, refs) && Ascending(ids)
    ensures |refs| == |Elems(ids)| && TotalBytes(refs) == Weight(Payloads(t, c), Elems(ids))
  {
    hide ReadEvent, Ascending, Weight, TotalBytes;
    AscendingDistinct(ids);
    DistinctSize(ids);
    forall i | 0 <= i < |ids| ensures ids[i] in Payloads(t, c) && refs[i].payloadBytes == Payloads(t, c)[ids[i]] {
      assert ids[i] in ids;
      ReadIs(t, c, ids[i]);
    }
    TotalIsWeight(Payloads(t, c), ids, refs);
    SeqWeightIsWeight(Payloads(t, c), ids);
  }

  /** A closed selection respects its event limit exactly when the critical candidates beyond the
      ancestry fit the room the ancestry leaves, and its byte limit likewise. */
  lemma LimitsKeptWhen(t: Tables, c: ContextId, selected: seq<EventId>, candidates: seq<EventId>, policy: CriticalPolicy,
                       limits: ClosureLimits, s: ClosedSelection)
    requires Selection(t, c, selected, candidates, policy, limits, s)
    ensures var anc := Anc(ReadGraph(t, c), Elems(selected)); var extra := Extra(t, c, selected, candidates, policy); var w := Payloads(t, c);
      && (|s.references| <= limits.maxEvents <==> |extra| <= limits.maxEvents - |anc|)
      && (s.totalBytes <= limits.maxExportedBytes <==> Weight(w, extra) <= limits.maxExportedBytes - Weight(w, anc))
      && extra == set id | id in candidates && Critical(t, c, policy, id) && id !in anc
  {
    hide ReadEvent, Ascending, Weight, TotalBytes, Referenced, ReadGraph, Anc, Critical, Added, Payloads;
    var anc := Anc(ReadGraph(t, c), Elems(selected));
    var extra := Extra(t, c, selected, candidates, policy);
    var all := ClosureIds(t, c, selected, candidates, policy);
    var ids: seq<EventId> :| Ascending(ids) && Elems(ids) == all && Referenced(t, c, ids, s.references);
    ReferencedSizes(t, c, ids, s.references);
    assert all == anc + extra && |all| == |anc| + |extra|;
    WeightUnion(Payloads(t, c), anc, extra);
  }

  // ---------------------------------------------------------------- when the report of additions is exact

  /** While every pushed event comes after the closure the vector stays in order and nothing is
      missed. */
  lemma {:induction false} AddedInOrder(t: Tables, c: ContextId, policy: CriticalPolicy, closed: seq<EventId>,
                                        candidates: seq<EventId>)
    requires Ascending(closed) && Ascending(candidates)
    requires forall id, x :: id in candidates && Critical(t, c, policy, id) && id !in closed && x in closed ==> x < id
    ensures var added := Added(t, c, policy, closed, candidates);
      && Ascending(closed + added)
      && forall id :: id in added <==> id in candidates && Critical(t, c, policy, id) && id !in closed
  {
    hide Critical, Search;
    if candidates != [] {
      var k := |candidates| - 1;
      var init := candidates[..k];
      assert candidates == init + [candidates[k]];
      AddedInOrder(t, c, policy, closed, init);
      var before := Added(t, c, policy, closed, init);
      SearchDecides(closed + before, candidates[k]);
      forall id | id in before ensures id < candidates[k] {
        assert id in init;
      }
      AppendInOrder(closed, before, candidates[k]);
    }
  }

  lemma AppendInOrder(closed: seq<EventId>, before: seq<EventId>, id: EventId)
    requires Ascending(closed + before) && forall x :: x in before ==> x < id
    ensures (forall x :: x in closed ==> x < id) ==> Ascending(closed + (before + [id]))
  {
    var s := closed + before;
    assert closed + (before + [id]) == s + [id];
    if forall x :: x in closed ==> x < id {
      forall i | 0 <= i < |s| ensures s[i] < id {
        assert s[i] in closed || s[i] in before;
      }
    }
  }

  /** What a selection says about its report of additions. */
  ghost predicate Reported(t: Tables, c: ContextId, anc: set<EventId>, candidates: seq<EventId>, policy: CriticalPolicy,
                           added: seq<EventId>)
  {
    forall closed: seq<EventId> :: Ascending(closed) && Elems(closed) == anc ==>
      added == SortDedup(Added(t, c, policy, closed, SortDedup(candidates)))
  }

  lemma SelectionReports(t: Tables, c: ContextId, selected: seq<EventId>, candidates: seq<EventId>, policy: CriticalPolicy,
                         limits: ClosureLimits, s: ClosedSelection)
    requires Selection(t, c, selected, candidates, policy, limits, s)
    ensures Reported(t, c, Anc(ReadGraph(t, c), Elems(selected)), candidates, policy, s.addedCritical)
    ensures s.limits == limits
    ensures Extra(t, c, selected, candidates, policy) <= Elems(s.addedCritical)
    ensures forall id :: id in s.addedCritical ==> id in candidates && Critical(t, c, policy, id)
  {
    hide ClosureIds, Ascending, ReadGraph, Added, Referenced, Critical, Anc, Within, TotalBytes;
  }

  lemma ReportedInOrder(t: Tables, c: ContextId, anc: set<EventId>, candidates: seq<EventId>, policy: CriticalPolicy,
                        added: seq<EventId>)
    requires Reported(t, c, anc, candidates, policy, added)
    requires forall id, x :: id in candidates && Critical(t, c, policy, id) && id !in anc && x in anc ==> x < id
    ensures forall id :: id in added ==> id !in anc
  {
    hide Ascending, Critical, Added;
    var closed := Listing(anc);
    var ids := SortDedup(candidates);
    SameMembers(ids, candidates);
    forall x ensures x in closed <==> x in anc { MemberElems(closed, x); }
    AddedInOrder(t, c, policy, closed, ids);
    SameMembers(SortDedup(Added(t, c, policy, closed, ids)), Added(t, c, policy, closed, ids));
  }

  /** The report is exactly the critical candidates beyond the ancestry when no critical candidate lies in
      the ancestry, and also when all those beyond it come after it in canonical order. */
  lemma AdditionsExact(t: Tables, c: ContextId, selected: seq<EventId>, candidates: seq<EventId>, policy: CriticalPolicy,
                       limits: ClosureLimits, s: ClosedSelection)
    requires Selection(t, c, selected, candidates, policy, limits, s)
    requires var anc := Anc(ReadGraph(t, c), Elems(selected));
      || (forall id :: id in candidates && Critical(t, c, policy, id) ==> id !in anc)
      || (forall id, x :: id in candidates && Critical(t, c, policy, id) && id !in anc && x in anc ==> x < id)
    ensures Elems(s.addedCritical) == Extra(t, c, selected, candidates, policy)
  {
    hide Selection, Reported, Ascending, ReadGraph, Anc, Critical;
    var anc := Anc(ReadGraph(t, c), Elems(selected));
    SelectionReports(t, c, selected, candidates, policy, limits, s);
    if forall id, x :: id in candidates && Critical(t, c, policy, id) && id !in anc && x in anc ==> x < id {
      ReportedInOrder(t, c, anc, candidates, policy, s.addedCritical);
    }
  }

  lemma {:induction false} Listing(s: set<nat>) returns (r: seq<nat>)
    ensures Ascending(r) && Elems(r) == s
    decreases |s|
  {
    if s == {} {
      r := [];
    } else {
      var x :| x in s;
      var rest := Listing(s - {x});
      r := Insert(rest, x);
      assert forall y :: y in r <==> y == x || y in Elems(rest);
      assert s == (s - {x}) + {x};
    }
  }

  // ---------------------------------------------------------------- instances on reachable stores

  const ABOVE: seq<Event> := [Child(2, 1, "risk", 2, 300)]
  const BELOW: seq<Event> := [Child(0, 1, "risk", 2, 300)]
  const TIGHT := ClosureLimits(1, 1000)

  /** A store of the genesis and one risky child, whose identifier is the given one. */
  lemma PairReads(es: seq<Event>, id: EventId) returns (t: Tables)
    requires es == [Child(id, 1, "risk", 2, 300)] && id != 1
    ensures t == Run(EMPTY, SampleOps(es)) && Inv(t)
    ensures ReadGraph(t, 0) == map[1 := [], id := [1]] && Payloads(t, 0) == map[1 := 2, id := 2]
    ensures forall x :: Reads(t, 0, x) <==> x == 1 || x == id
    ensures forall x :: x == 1 || x == id ==> Targets(Parsed(t.events), 0, x)
    ensures Critical(t, 0, ["risk"], id) && !Critical(t, 0, ["risk"], 1)
    ensures Critical(t, 0, ["risk", GENESIS_KIND], id) && Critical(t, 0, ["risk", GENESIS_KIND], 1)
  {
    hide Inv, Run, Parsed, LoadVerified, Targets, Closed, Cyclic, ReadEvent, KnownContext, WireSizes, ContextGraph;
    t := Run(EMPTY, SampleOps(es));
    PairGrows(es, id);
    SampleIs(es);
    var ev := map[1 := ROOT, id := es[0]];
    SampleReads(t, ev);
    PairLinks(ev, id);
    assert ReadEvent(t, 1) == Ok(Some(ev[1])) && ReadEvent(t, id) == Ok(Some(ev[id]));
    assert "risk" in ["risk"] && "risk" in ["risk", GENESIS_KIND] && GENESIS_KIND in ["risk", GENESIS_KIND];
    assert GENESIS_KIND != "risk" by { assert |GENESIS_KIND| != |"risk"|; }
  }

  lemma PairGrows(es: seq<Event>, id: EventId)
    requires es == [Child(id, 1, "risk", 2, 300)] && id != 1
    ensures Growable(es) && SampleEvents(es) == map[1 := ROOT, id := es[0]]
  {
    assert es[..|es| - 1] == [] && Growable([]) && SampleEvents([]) == map[1 := ROOT];
    assert |GENESIS_KIND| != |"risk"|;
    assert es[0].body.kind != GENESIS_KIND;
  }

  lemma PairLinks(ev: map<EventId, Event>, id: EventId)
    requires id != 1 && ev == map[1 := ROOT, id := Child(id, 1, "risk", 2, 300)]
    ensures Links(ev) == map[1 := [], id := [1]]
    ensures (map x | x in ev :: ev[x].body.payloadBytes) == map[1 := 2, id := 2]
  {
  }

  lemma PairAncestry(g: Graph, w: map<EventId, nat>, id: EventId)
    requires id != 1 && g == map[1 := [], id := [1]] && w == map[1 := 2, id := 2]
    ensures Anc(g, {}) == {} && Anc(g, {1}) == {1} && Edge(g, id, 1)
    ensures Weight(w, {}) == 0 && Weight(w, {1}) == 2
  {
    ReachSelf(g, 1);
    assert ReachFrom(g, {1}, 1);
    forall x | ReachFrom(g, {1}, x) ensures x == 1 {
      ReachWithin(g, {1}, 1, x);
    }
    WeightAdd(w, {}, 1);
    assert {} + {1} == {1};
  }

  lemma PairCloses(es: seq<Event>, id: EventId, selected: seq<EventId>, candidates: seq<EventId>, policy: CriticalPolicy,
                   r: Result<ClosedSelection, LineageError>)
    requires es == [Child(id, 1, "risk", 2, 300)] && id != 1 && (selected == [] || selected == [1])
    requires (candidates == [id] && policy == ["risk"])
          || (candidates == [0, 1] && id == 0 && selected == [1] && policy == ["risk", GENESIS_KIND])
    requires SelectionCloses(Run(EMPTY, SampleOps(es)), 0, selected, candidates, policy, TIGHT, r)
    ensures var t := Run(EMPTY, SampleOps(es));
      && Inv(t) && r.Ok? && Selection(t, 0, selected, candidates, policy, TIGHT, r.value)
      && Anc(ReadGraph(t, 0), Elems(selected)) == Elems(selected)
      && ClosureIds(t, 0, selected, candidates, policy) == Elems(selected) + {id}
      && Edge(ReadGraph(t, 0), id, 1)
  {
    hide Inv, Run, Selection, Anc, ReadGraph, Reads, Critical, Weight, Ascending, Payloads, Parsed, Targets;
    var t := PairReads(es, id);
    PairAncestry(ReadGraph(t, 0), Payloads(t, 0), id);
    assert Elems<EventId>([]) == {} && Elems<EventId>([1]) == {1} && Elems<EventId>([id]) == {id} && Elems<EventId>([0, 1]) == {0, 1};
    assert |Elems(candidates)| <= MAX_CLOSURE_CANDIDATES && TIGHT.Checked();
    assert Within(t, 0, Anc(ReadGraph(t, 0), Elems(selected)), TIGHT);
    SoundSelectionCloses(t, 0, selected, candidates, policy, TIGHT, r);
    assert forall x :: x in candidates <==> x in Elems(candidates);
    assert (set x | x in candidates && Critical(t, 0, policy, x)) <= Elems(selected) + {id} || selected == [];
  }

  /** Closing nothing with one critical candidate yields that event without its parent; closing the
      genesis alone under a limit of one event yields two. */
  lemma CriticalLeavesGap(r: Result<ClosedSelection, LineageError>, full: Result<ClosedSelection, LineageError>)
    requires SelectionCloses(Run(EMPTY, SampleOps(ABOVE)), 0, [], [2], ["risk"], TIGHT, r)
    requires SelectionCloses(Run(EMPTY, SampleOps(ABOVE)), 0, [1], [2], ["risk"], TIGHT, full)
    ensures r.Ok? && RefIds(r.value.references) == [2] && Edge(ReadGraph(Run(EMPTY, SampleOps(ABOVE)), 0), 2, 1)
    ensures full.Ok? && |full.value.references| == 2 > full.value.limits.maxEvents
  {
    hide Inv, Run, Selection, Anc, ReadGraph, ClosureIds, Ascending;
    var t := Run(EMPTY, SampleOps(ABOVE));
    PairCloses(ABOVE, 2, [], [2], ["risk"], r);
    PairCloses(ABOVE, 2, [1], [2], ["risk"], full);
    SelectionIs(t, 0, [], [2], ["risk"], TIGHT, r.value);
    SelectionIs(t, 0, [1], [2], ["risk"], TIGHT, full.value);
    assert Elems<EventId>([]) == {} && Elems<EventId>([1]) == {1} && Elems<EventId>([2]) == {2} && Elems<EventId>([1, 2]) == {1, 2};
    AscendingUnique(RefIds(r.value.references), [2]);
    AscendingUnique(RefIds(full.value.references), [1, 2]);
    SelectionReports(t, 0, [1], [2], ["risk"], TIGHT, full.value);
  }

  /** After a smaller critical event is pushed, the search overlooks the selected genesis, and the report
      names it as an addition although it is in the ancestry. */
  lemma ReportNamesAncestor(r: Result<ClosedSelection, LineageError>)
    requires SelectionCloses(Run(EMPTY, SampleOps(BELOW)), 0, [1], [0, 1], ["risk", GENESIS_KIND], TIGHT, r)
    ensures r.Ok? && r.value.addedCritical == [0, 1] && 1 in Anc(ReadGraph(Run(EMPTY, SampleOps(BELOW)), 0), Elems([1]))
  {
    hide Inv, Run, Selection, Anc, ReadGraph, ClosureIds, Critical, Reported, Payloads, Parsed, Targets, Reads, Added, Ascending;
    var t := Run(EMPTY, SampleOps(BELOW));
    var policy := ["risk", GENESIS_KIND];
    PairCloses(BELOW, 0, [1], [0, 1], policy, r);
    var u := PairReads(BELOW, 0);
    SelectionReports(t, 0, [1], [0, 1], policy, TIGHT, r.value);
    assert Elems<EventId>([1]) == {1};
    ReportedAt(t, Anc(ReadGraph(t, 0), Elems([1])), policy, r.value.addedCritical);
  }

  lemma ReportedAt(t: Tables, anc: set<EventId>, policy: CriticalPolicy, added: seq<EventId>)
    requires Reported(t, 0, anc, [0, 1], policy, added) && anc == {1}
    requires Critical(t, 0, policy, 0) && Critical(t, 0, policy, 1)
    ensures added == [0, 1]
  {
    hide Critical, Added;
    var closed: seq<EventId> := [1];
    assert Elems(closed) == anc && Ascending(closed);
    SortOfAscending([0, 1]);
    Overlooked(t, policy);
  }

  lemma Overlooked(t: Tables, policy: CriticalPolicy)
    requires Critical(t, 0, policy, 0) && Critical(t, 0, policy, 1)
    ensures Added(t, 0, policy, [1], [0, 1]) == [0, 1]
  {
    hide Critical;
    assert [0, 1][..1] == [0] && [0][..0] == [];
    assert Added(t, 0, policy, [1], []) == [];
    assert !Search([1], 0, 0, 1);
    assert [1] + [] == [1];
    assert Added(t, 0, policy, [1], [0]) == [0];
    assert [1] + [0] == [1, 0];
    assert !Search([1, 0], 1, 0, 2);
  }
}
