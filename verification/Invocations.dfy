/** Crash-window recovery queries: requests without a result, and results off the branch. */
module Invocations {
  import opened Base
  import opened Sorting
  import opened Graph
  import opened Names
  import opened Tables
  import opened Transitions
  import opened Bundles
  import opened Runs
  import opened Branches
  import opened Projections
  import opened Provider

  const MAX_INVOCATION_QUERY_RESULTS := 1024

  datatype InvocationRow = InvocationRow(request: bool, event: Event, onBranch: bool, linked: bool)

  predicate InvocationKind(kind: string) {
    kind == REQUEST_KIND || ResultKind(kind)
  }

  // ---------------------------------------------------------------- what the queries mean

  function OfKind(ev: map<EventId, Event>, c: ContextId, requests: bool): set<EventId> {
    set id | id in ev && ev[id].body.context == c && if requests then ev[id].body.kind == REQUEST_KIND else ResultKind(ev[id].body.kind)
  }

  /** Some recorded result has the request as its only parent. */
  predicate Linked(ev: map<EventId, Event>, c: ContextId, id: EventId) {
    exists x :: x in OfKind(ev, c, false) && ev[x].body.parents == [id]
  }

  function Pending(ev: map<EventId, Event>, c: ContextId): set<EventId> {
    set id | id in OfKind(ev, c, true) && !Linked(ev, c, id)
  }

  ghost function BranchAncestry(t: Tables, c: ContextId, branch: Name): set<EventId> {
    var head := Lookup(t.localRefs, (c, branch));
    if head.Some? then Anc(ContextGraph(t, c), {head.value}) else {}
  }

  ghost function Detached(t: Tables, ev: map<EventId, Event>, c: ContextId, branch: Name): set<EventId> {
    OfKind(ev, c, false) - BranchAncestry(t, c, branch)
  }

  // ---------------------------------------------------------------- the scan

  function KindIds(parsed: seq<Event>, requests: bool): seq<EventId> {
    if parsed == [] then []
    else
      var e := parsed[|parsed| - 1];
      KindIds(parsed[..|parsed| - 1], requests) + if (e.body.kind == REQUEST_KIND) == requests then [e.id] else []
  }

  lemma {:induction false} KindIdsAre(parsed: seq<Event>, requests: bool)
    requires Distinct(Ids(parsed))
    ensures var s := KindIds(parsed, requests);
      && Distinct(s)
      && (forall x :: x in s <==> exists i :: 0 <= i < |parsed| && parsed[i].id == x && (parsed[i].body.kind == REQUEST_KIND) == requests)
  {
    hide Ascending;
    if parsed != [] {
      var k := |parsed| - 1;
      var init := parsed[..k];
      forall i, j | 0 <= i < j < k ensures Ids(init)[i] != Ids(init)[j] {
        assert Ids(parsed)[i] != Ids(parsed)[j];
      }
      KindIdsAre(init, requests);
      forall i | 0 <= i < k ensures init[i].id != parsed[k].id {
        assert Ids(parsed)[i] != Ids(parsed)[k];
      }
      var s := KindIds(parsed, requests);
      assert parsed[k].id !in KindIds(init, requests);
      assert Distinct(s) by {
        forall i, j | 0 <= i < j < |s| ensures s[i] != s[j] {
          assert s[i] in KindIds(init, requests);
        }
      }
      forall x ensures x in s <==> exists i :: 0 <= i < |parsed| && parsed[i].id == x && (parsed[i].body.kind == REQUEST_KIND) == requests {
        assert forall i :: 0 <= i < k ==> init[i] == parsed[i];
      }
    }
  }

  /** The rows matching the query, in no particular order, up to one beyond what may be returned. */
  method ScanRows(u: Tables, c: ContextId) returns (r: Result<seq<Event>, StoreError>)
    ensures Inv(u) ==> r.Ok?
    ensures Inv(u) && r.Ok? ==> var ev := Parsed(u.events); var all := OfKind(ev, c, true) + OfKind(ev, c, false);
      && Distinct(Ids(r.value)) && (forall i :: 0 <= i < |r.value| ==> r.value[i].id in ev && ev[r.value[i].id] == r.value[i])
      && Elems(Ids(r.value)) <= all && (Elems(Ids(r.value)) == all || |r.value| > 2 * MAX_INVOCATION_QUERY_RESULTS)
  {
    hide Inv, Parsed, RowOk, Ascending;
    var all := set id | id in u.events && u.events[id].context == c && InvocationKind(u.events[id].kind);
    if Inv(u) { MatchingRows(u, c, all); }
    var rest := all;
    var parsed: seq<Event> := [];
    while rest != {} && |parsed| < 2 * MAX_INVOCATION_QUERY_RESULTS + 1
      invariant rest <= all
      invariant Inv(u) ==> Scanned(u, all - rest, parsed)
      decreases rest
    {
      var id: EventId :| id in rest;
      var e := FromWire(u.events[id].wire);
      if Inv(u) { RowIs(u, id); }
      if e.None? || !InvocationKind(e.value.body.kind) || e.value.body.context != c {
        return Err(CorruptStorage);
      }
      if Inv(u) { ScanStep(u, all - rest, parsed, id, e.value); }
      parsed := parsed + [e.value];
      assert all - (rest - {id}) == (all - rest) + {id};
      rest := rest - {id};
    }
    r := Ok(parsed);
  }

  ghost predicate Scanned(u: Tables, seen: set<EventId>, parsed: seq<Event>) {
    var ev := Parsed(u.events);
    && Distinct(Ids(parsed)) && Elems(Ids(parsed)) == seen
    && forall i :: 0 <= i < |parsed| ==> parsed[i].id in ev && ev[parsed[i].id] == parsed[i]
  }

  lemma ScanStep(u: Tables, seen: set<EventId>, parsed: seq<Event>, id: EventId, e: Event)
    requires Scanned(u, seen, parsed) && id !in seen && e.id == id && id in Parsed(u.events) && Parsed(u.events)[id] == e
    ensures Scanned(u, seen + {id}, parsed + [e])
  {
    hide Parsed, Ascending;
    IdsAppend(parsed, e);
    forall i | 0 <= i < |parsed| ensures Ids(parsed)[i] != id { assert Ids(parsed)[i] in Elems(Ids(parsed)); }
  }

  lemma RowIs(u: Tables, id: EventId)
    requires Inv(u) && id in u.events
    ensures id in Parsed(u.events) && FromWire(u.events[id].wire) == Some(Parsed(u.events)[id]) && Parsed(u.events)[id].id == id
    ensures u.events[id].context == Parsed(u.events)[id].body.context && u.events[id].kind == Parsed(u.events)[id].body.kind
  {
    hide RefsOk, Cyclic, AuthorsOk, GenesisOk, ContextsOk, EdgesOk, ParentsOk, RefKeys, CoreKeys, Links;
    assert RowOk(u.authors, id, u.events[id]);
  }

  lemma MatchingRows(u: Tables, c: ContextId, all: set<EventId>)
    requires Inv(u) && all == set id | id in u.events && u.events[id].context == c && InvocationKind(u.events[id].kind)
    ensures all == OfKind(Parsed(u.events), c, true) + OfKind(Parsed(u.events), c, false)
  {
    hide Inv, Parsed;
    InvGraph(u);
    forall id | id in u.events
      ensures u.events[id].context == Parsed(u.events)[id].body.context && u.events[id].kind == Parsed(u.events)[id].body.kind
    {
      RowIs(u, id);
    }
  }

  function AnsweredIds(parsed: seq<Event>): set<EventId> {
    set i | 0 <= i < |parsed| && ResultKind(parsed[i].body.kind) && |parsed[i].body.parents| == 1 :: parsed[i].body.parents[0]
  }

  /** Every matching event once, with its place relative to the branch and to its result. */
  ghost predicate RowsExact(ev: map<EventId, Event>, c: ContextId, ancestry: set<EventId>, rows: seq<InvocationRow>) {
    && (forall i :: 0 <= i < |rows| ==>
          var row := rows[i]; var id := row.event.id;
          && id in ev && ev[id] == row.event
          && id in OfKind(ev, c, row.request)
          && (row.onBranch <==> id in ancestry)
          && (row.linked <==> Linked(ev, c, id)))
    && (forall i, j :: 0 <= i < j < |rows| ==> rows[i].event.id != rows[j].event.id)
    && (forall id, requests :: id in OfKind(ev, c, requests) ==>
          exists i :: 0 <= i < |rows| && rows[i].event.id == id && rows[i].request == requests)
  }

  /** The branch projects and both kinds of rows stay within the limits. */
  ghost predicate QueryFits(t: Tables, ev: map<EventId, Event>, c: ContextId, branch: Name, requests: bool) {
    && (c, branch) in t.localRefs && Fits(t, c, {t.localRefs[(c, branch)]}, DEFAULT_LIMITS)
    && |OfKind(ev, c, requests)| <= MAX_INVOCATION_QUERY_RESULTS
    && |OfKind(ev, c, true) + OfKind(ev, c, false)| <= 2 * MAX_INVOCATION_QUERY_RESULTS
  }

  /** The branch is projected from snapshot `t` and the rows are scanned in snapshot `u`. */
  method InvocationRows(t: Tables, u: Tables, c: ContextId, branch: Name,
                        requests: bool) returns (r: Result<seq<InvocationRow>, StoreError>)
    ensures (c, branch) !in t.localRefs ==> r == Err(RefMissing)
    ensures Inv(t) && Inv(u) && (c, branch) in t.localRefs ==>
      && (r.Ok? <==> QueryFits(t, Parsed(u.events), c, branch, requests))
      && (r.Ok? ==> RowsExact(Parsed(u.events), c, BranchAncestry(t, c, branch), r.value))
  {
    hide Inv, Parsed, Fits, Plan, ContextGraph, RowsExact, Anc, ValidName, OfKind, AuthoritativeContext, Loaded, WireSizes;
    var head := Lookup(t.localRefs, (c, branch));
    if head.None? {
      return Err(RefMissing);
    }
    if Inv(t) { HeadIsTarget(t, c, branch); }
    var hc := AuthoritativeContext(t, head.value);
    if hc.Err? {
      return Err(hc.error);
    }
    if hc.value != Some(c) {
      return Err(CorruptStorage);
    }
    var projection := ProjectOn(t, c, [head.value], DEFAULT_LIMITS);
    if Inv(t) { HeadProjects(t, c, head.value, projection); }
    if projection.Err? {
      return Err(projection.error);
    }
    var ancestry := Elems(Ids(projection.value.0));
    var scanned := ScanRows(u, c);
    if scanned.Err? {
      return Err(scanned.error);
    }
    var parsed := scanned.value;
    if Inv(u) { ScanCounts(Parsed(u.events), c, parsed, requests); }
    if |KindIds(parsed, requests)| > MAX_INVOCATION_QUERY_RESULTS || |parsed| > 2 * MAX_INVOCATION_QUERY_RESULTS {
      return Err(ProjectionLimitExceeded);
    }
    var answered := AnsweredIds(parsed);
    r := Ok(Classify(parsed, ancestry, answered));
    if Inv(u) { Classified(Parsed(u.events), c, parsed, ancestry); }
  }

  function Classify(parsed: seq<Event>, ancestry: set<EventId>, answered: set<EventId>): seq<InvocationRow> {
    seq(|parsed|, i requires 0 <= i < |parsed| =>
      InvocationRow(parsed[i].body.kind == REQUEST_KIND, parsed[i], parsed[i].id in ancestry, parsed[i].id in answered))
  }

  lemma HeadIsTarget(t: Tables, c: ContextId, branch: Name)
    requires Inv(t) && (c, branch) in t.localRefs
    ensures Targets(Parsed(t.events), c, t.localRefs[(c, branch)])
    ensures AuthoritativeContext(t, t.localRefs[(c, branch)]) == Ok(Some(c))
  {
    hide CoreInv, ValidName, Parsed, AuthoritativeContext;
    var h := t.localRefs[(c, branch)];
    assert Targets(Parsed(t.events), c, h);
    TargetChecked(t, c, h);
  }

  lemma HeadProjects(t: Tables, c: ContextId, h: EventId, r: Result<(seq<Event>, nat), StoreError>)
    requires Inv(t) && Targets(Parsed(t.events), c, h) && Projected(t, c, [h], DEFAULT_LIMITS, r)
    ensures r.Ok? <==> Fits(t, c, {h}, DEFAULT_LIMITS)
    ensures r.Ok? ==> Elems(Ids(r.value.0)) == Anc(ContextGraph(t, c), {h})
  {
    hide Inv, Parsed, Fits, ContextGraph, Anc, CyclicFrom;
    SoundPlan(t, c, [h]);
    assert Elems([h]) == {h};
    PostOrderExact(ContextGraph(t, c), [h]);
  }

  /** The limits on what was scanned are limits on what is stored. */
  lemma ScanCounts(ev: map<EventId, Event>, c: ContextId, parsed: seq<Event>, requests: bool)
    requires Distinct(Ids(parsed)) && forall i :: 0 <= i < |parsed| ==> parsed[i].id in ev && ev[parsed[i].id] == parsed[i]
    requires var all := OfKind(ev, c, true) + OfKind(ev, c, false);
      && Elems(Ids(parsed)) <= all && (Elems(Ids(parsed)) == all || |parsed| > 2 * MAX_INVOCATION_QUERY_RESULTS)
    ensures var within := |KindIds(parsed, requests)| <= MAX_INVOCATION_QUERY_RESULTS && |parsed| <= 2 * MAX_INVOCATION_QUERY_RESULTS;
      && (within <==> |OfKind(ev, c, requests)| <= MAX_INVOCATION_QUERY_RESULTS
                      && |OfKind(ev, c, true) + OfKind(ev, c, false)| <= 2 * MAX_INVOCATION_QUERY_RESULTS)
      && (within ==> Elems(Ids(parsed)) == OfKind(ev, c, true) + OfKind(ev, c, false))
  {
    hide Ascending;
    var all := OfKind(ev, c, true) + OfKind(ev, c, false);
    DistinctSize(Ids(parsed));
    SubsetSize(Elems(Ids(parsed)), all);
    if Elems(Ids(parsed)) == all {
      KindIdsAre(parsed, requests);
      DistinctSize(KindIds(parsed, requests));
      forall x ensures x in Elems(KindIds(parsed, requests)) <==> x in OfKind(ev, c, requests) {
        if x in OfKind(ev, c, requests) {
          assert x in Elems(Ids(parsed));
          var i :| 0 <= i < |parsed| && Ids(parsed)[i] == x;
          assert parsed[i].id == x;
        }
        if x in KindIds(parsed, requests) {
          var i :| 0 <= i < |parsed| && parsed[i].id == x && (parsed[i].body.kind == REQUEST_KIND) == requests;
          assert Ids(parsed)[i] == x;
          assert x in all;
        }
      }
      assert Elems(KindIds(parsed, requests)) == OfKind(ev, c, requests);
    }
  }

  lemma Classified(ev: map<EventId, Event>, c: ContextId, parsed: seq<Event>, ancestry: set<EventId>)
    requires Distinct(Ids(parsed))
    requires forall i :: 0 <= i < |parsed| ==> parsed[i].id in ev && ev[parsed[i].id] == parsed[i]
    requires Elems(Ids(parsed)) == OfKind(ev, c, true) + OfKind(ev, c, false)
    ensures RowsExact(ev, c, ancestry, Classify(parsed, ancestry, AnsweredIds(parsed)))
  {
    hide Ascending;
    var rows := Classify(parsed, ancestry, AnsweredIds(parsed));
    forall i, j | 0 <= i < j < |rows| ensures rows[i].event.id != rows[j].event.id {
      assert Ids(parsed)[i] != Ids(parsed)[j];
    }
    forall id, requests | id in OfKind(ev, c, requests)
      ensures exists i :: 0 <= i < |rows| && rows[i].event.id == id && rows[i].request == requests
    {
      assert id in Elems(Ids(parsed));
      var i :| 0 <= i < |parsed| && Ids(parsed)[i] == id;
      assert rows[i].event.id == id;
    }
    forall id: EventId ensures id in AnsweredIds(parsed) <==> Linked(ev, c, id) {
      if id in AnsweredIds(parsed) {
        var i :| 0 <= i < |parsed| && ResultKind(parsed[i].body.kind) && |parsed[i].body.parents| == 1 && parsed[i].body.parents[0] == id;
        assert Ids(parsed)[i] in Elems(Ids(parsed));
        assert ev[parsed[i].id].body.parents == [id];
      }
      if Linked(ev, c, id) {
        var x :| x in OfKind(ev, c, false) && ev[x].body.parents == [id];
        assert x in Elems(Ids(parsed));
        var i :| 0 <= i < |parsed| && Ids(parsed)[i] == x;
        assert parsed[i].id == x;
      }
    }
    forall i | 0 <= i < |rows| ensures rows[i].event.id in OfKind(ev, c, rows[i].request) {
      assert Ids(parsed)[i] in Elems(Ids(parsed));
    }
  }

  // ---------------------------------------------------------------- the queries

  /** An answer lists these events, each once, exactly as stored. */
  ghost predicate Lists(ev: map<EventId, Event>, ids: set<EventId>, events: seq<Event>) {
    && Distinct(Ids(events)) && Elems(Ids(events)) == ids
    && forall i :: 0 <= i < |events| ==> events[i].id in ev && ev[events[i].id] == events[i]
  }

  ghost predicate PendingAnswer(t: Tables, u: Tables, c: ContextId, branch: Name, r: Result<seq<Event>, StoreError>) {
    && ((c, branch) !in t.localRefs ==> r == Err(RefMissing))
    && (Inv(t) && Inv(u) && (c, branch) in t.localRefs ==>
          && (r.Ok? <==> QueryFits(t, Parsed(u.events), c, branch, true))
          && (r.Ok? ==> Lists(Parsed(u.events), Pending(Parsed(u.events), c), r.value)))
  }

  ghost predicate DetachedAnswer(t: Tables, u: Tables, c: ContextId, branch: Name, r: Result<seq<Event>, StoreError>) {
    && ((c, branch) !in t.localRefs ==> r == Err(RefMissing))
    && (Inv(t) && Inv(u) && (c, branch) in t.localRefs ==>
          && (r.Ok? <==> QueryFits(t, Parsed(u.events), c, branch, false))
          && (r.Ok? ==> Lists(Parsed(u.events), Detached(t, Parsed(u.events), c, branch), r.value)))
  }

  method PendingInvocations(t: Tables, u: Tables, c: ContextId, branch: Name) returns (r: Result<seq<Event>, StoreError>)
    ensures PendingAnswer(t, u, c, branch, r)
  {
    hide Inv, Parsed, QueryFits, BranchAncestry, ValidName, OfKind, Ascending, Lists, RowsExact;
    var scanned := InvocationRows(t, u, c, branch, true);
    if scanned.Err? {
      return Err(scanned.error);
    }
    r := Ok(Unlinked(scanned.value));
    if Inv(t) && Inv(u) && (c, branch) in t.localRefs {
      UnlinkedArePending(Parsed(u.events), c, BranchAncestry(t, c, branch), scanned.value);
    }
  }

  method DetachedResults(t: Tables, u: Tables, c: ContextId, branch: Name) returns (r: Result<seq<Event>, StoreError>)
    ensures DetachedAnswer(t, u, c, branch, r)
  {
    hide Inv, Parsed, QueryFits, BranchAncestry, ValidName, OfKind, Ascending, Lists, RowsExact;
    var scanned := InvocationRows(t, u, c, branch, false);
    if scanned.Err? {
      return Err(scanned.error);
    }
    r := Ok(OffBranch(scanned.value));
    if Inv(t) && Inv(u) && (c, branch) in t.localRefs {
      OffBranchAreDetached(Parsed(u.events), c, BranchAncestry(t, c, branch), scanned.value);
    }
  }

  function Unlinked(rows: seq<InvocationRow>): seq<Event> {
    if rows == [] then []
    else
      var row := rows[|rows| - 1];
      Unlinked(rows[..|rows| - 1]) + if row.request && !row.linked then [row.event] else []
  }

  function OffBranch(rows: seq<InvocationRow>): seq<Event> {
    if rows == [] then []
    else
      var row := rows[|rows| - 1];
      OffBranch(rows[..|rows| - 1]) + if !row.request && !row.onBranch then [row.event] else []
  }

  predicate RowsDistinct(rows: seq<InvocationRow>) {
    forall i, j :: 0 <= i < j < |rows| ==> rows[i].event.id != rows[j].event.id
  }

  lemma {:induction false} PickedDistinct(rows: seq<InvocationRow>)
    requires RowsDistinct(rows)
    ensures Distinct(Ids(Unlinked(rows))) && Distinct(Ids(OffBranch(rows)))
  {
    hide Ascending;
    if rows != [] {
      var k := |rows| - 1;
      var init := rows[..k];
      PickedDistinct(init);
      AddsDistinct(Unlinked(init), rows[k].event);
      AddsDistinct(OffBranch(init), rows[k].event);
      forall e | e in Unlinked(init) ensures e.id != rows[k].event.id { UnlinkedAre(init, e); }
      forall e | e in OffBranch(init) ensures e.id != rows[k].event.id { OffBranchAre(init, e); }
      assert Unlinked(init) + [] == Unlinked(init) && OffBranch(init) + [] == OffBranch(init);
    }
  }

  lemma AddsDistinct(s: seq<Event>, e: Event)
    requires Distinct(Ids(s))
    ensures (forall x :: x in s ==> x.id != e.id) ==> Distinct(Ids(s + [e]))
  {
    hide Ascending;
    IdsAppend(s, e);
    if forall x :: x in s ==> x.id != e.id {
      forall i | 0 <= i < |s| ensures Ids(s)[i] != e.id { assert s[i] in s; }
    }
  }

  lemma {:induction false} UnlinkedAre(rows: seq<InvocationRow>, e: Event)
    ensures e in Unlinked(rows) <==> exists i :: 0 <= i < |rows| && rows[i].event == e && rows[i].request && !rows[i].linked
  {
    hide Ascending;
    if rows != [] {
      var init := rows[..|rows| - 1];
      UnlinkedAre(init, e);
      assert forall i :: 0 <= i < |init| ==> init[i] == rows[i];
    }
  }

  lemma {:induction false} OffBranchAre(rows: seq<InvocationRow>, e: Event)
    ensures e in OffBranch(rows) <==> exists i :: 0 <= i < |rows| && rows[i].event == e && !rows[i].request && !rows[i].onBranch
  {
    hide Ascending;
    if rows != [] {
      var init := rows[..|rows| - 1];
      OffBranchAre(init, e);
      assert forall i :: 0 <= i < |init| ==> init[i] == rows[i];
    }
  }

  lemma MemberIds(events: seq<Event>, id: EventId)
    ensures id in Elems(Ids(events)) <==> exists i :: 0 <= i < |events| && events[i].id == id
  {
    hide Ascending;
    if id in Elems(Ids(events)) {
      var i :| 0 <= i < |events| && Ids(events)[i] == id;
      assert events[i].id == id;
    }
    if i :| 0 <= i < |events| && events[i].id == id {
      assert Ids(events)[i] == id;
    }
  }

  lemma UnlinkedArePending(ev: map<EventId, Event>, c: ContextId, ancestry: set<EventId>, rows: seq<InvocationRow>)
    requires RowsExact(ev, c, ancestry, rows)
    ensures Lists(ev, Pending(ev, c), Unlinked(rows))
  {
    hide Ascending;
    PickedDistinct(rows);
    var s := Unlinked(rows);
    forall i | 0 <= i < |s| ensures s[i].id in ev && ev[s[i].id] == s[i] && s[i].id in Pending(ev, c) {
      assert s[i] in s;
      UnlinkedAre(rows, s[i]);
    }
    forall id ensures id in Elems(Ids(s)) <==> id in Pending(ev, c) {
      MemberIds(s, id);
      if id in Pending(ev, c) {
        var i :| 0 <= i < |rows| && rows[i].event.id == id && rows[i].request == true;
        UnlinkedAre(rows, ev[id]);
        var j :| 0 <= j < |s| && s[j] == ev[id];
      }
    }
  }

  lemma OffBranchAreDetached(ev: map<EventId, Event>, c: ContextId, ancestry: set<EventId>, rows: seq<InvocationRow>)
    requires RowsExact(ev, c, ancestry, rows)
    ensures Lists(ev, OfKind(ev, c, false) - ancestry, OffBranch(rows))
  {
    hide Ascending;
    PickedDistinct(rows);
    var s := OffBranch(rows);
    forall i | 0 <= i < |s| ensures s[i].id in ev && ev[s[i].id] == s[i] && s[i].id in OfKind(ev, c, false) - ancestry {
      assert s[i] in s;
      OffBranchAre(rows, s[i]);
    }
    forall id ensures id in Elems(Ids(s)) <==> id in OfKind(ev, c, false) - ancestry {
      MemberIds(s, id);
      if id in OfKind(ev, c, false) - ancestry {
        var i :| 0 <= i < |rows| && rows[i].event.id == id && rows[i].request == false;
        OffBranchAre(rows, ev[id]);
        var j :| 0 <= j < |s| && s[j] == ev[id];
      }
    }
  }

  // ---------------------------------------------------------------- a request's life

  lemma EventsAfterAdmit(t: Tables, e: Event, m: RefMutation)
    requires AdmitSpec(t, e, m).Ok?
    ensures Parsed(AdmitSpec(t, e, m).value.0.events) == if e.id in t.events then Parsed(t.events) else Parsed(t.events)[e.id := e]
  {
    hide CheckEvent, ValidateStored, EdgeRows, ValidName, KnownContext, Parsed;
    ParsedInsert(t, e);
  }

  lemma StoredParents(t: Tables, x: EventId, p: EventId)
    requires Inv(t) && x in Parsed(t.events) && p in Parsed(t.events)[x].body.parents
    ensures p in t.events
  {
    hide Inv, Parsed;
    InParents(t, x, p);
    ParsedKeys(t.events, Parsed(t.events)[x].body.context, p);
  }

  /** A freshly committed request is pending. */
  lemma RequestIsPending(t: Tables, inv: Invocation)
    requires Inv(t) && Signed(inv) && inv.request.id !in t.events && AdmitSpec(t, inv.request, RequestMove(inv)).Ok?
    ensures inv.request.id in Pending(Parsed(AdmitSpec(t, inv.request, RequestMove(inv)).value.0.events), inv.context)
  {
    hide Inv, AdmitSpec, Parsed, Ascending, ValidName;
    var e := inv.request;
    EventsAfterAdmit(t, e, RequestMove(inv));
    var ev := Parsed(t.events)[e.id := e];
    forall x | x in OfKind(ev, inv.context, false) ensures ev[x].body.parents != [e.id] {
      if ev[x].body.parents == [e.id] {
        assert e.id in ev[x].body.parents;
        StoredParents(t, x, e.id);
      }
    }
  }

  /** Once the result is stored the request is never pending again, whatever anyone writes. */
  lemma AnsweredNeverPending(t: Tables, inv: Invocation, e: Event, ops: seq<Op>)
    requires Signed(inv) && inv.result == Some(e) && Answered(t, inv, e)
    ensures inv.request.id !in Pending(Parsed(Run(t, ops).events), inv.context)
  {
    hide Inv, Parsed, Run, Above, Grows, Holds, ValidName;
    var u := Run(t, ops);
    RunGrows(t, ops);
    RunInv(t, ops);
    GrowsKeeps(t, u, e);
    StoredEvent(u, e);
    assert e.id in OfKind(Parsed(u.events), inv.context, false);
  }

  /** No edge leads from the rows stored before to an event that was absent. */
  lemma {:induction false} AbsentUnreached(t: Tables, u: Tables, h: EventId, x: EventId)
    requires Inv(t) && Grows(t, u) && h in t.events && x !in t.events
    ensures !Above(u, h, x)
    ensures forall c :: !Reach(ContextGraph(u, c), h, x)
  {
    hide Inv, Parsed, Grows, Reach, LoadVerified;
    forall a, p | a in t.events.Keys && Edge(Links(Parsed(u.events)), a, p) ensures p in t.events.Keys {
      ParsedStays(t, u, a);
      StoredParents(t, a, p);
    }
    if Above(u, h, x) {
      ReachWithin(Links(Parsed(u.events)), t.events.Keys, h, x);
    }
    forall c | Reach(ContextGraph(u, c), h, x) ensures false {
      forall a, p | a in t.events.Keys && Edge(ContextGraph(u, c), a, p) ensures p in t.events.Keys {
        ParsedStays(t, u, a);
        LoadsParsed(u, a);
        StoredParents(t, a, p);
      }
      ReachWithin(ContextGraph(u, c), t.events.Keys, h, x);
    }
  }

  lemma ParsedStays(t: Tables, u: Tables, a: EventId)
    requires Inv(t) && Grows(t, u) && a in t.events
    ensures a in Parsed(t.events) && a in Parsed(u.events) && Parsed(u.events)[a] == Parsed(t.events)[a]
  {
    hide Inv;
    InvGraph(t);
  }

  lemma LoadsParsed(u: Tables, a: EventId)
    requires LoadVerified(u, a).Ok?
    ensures a in Parsed(u.events) && Parsed(u.events)[a] == LoadVerified(u, a).value
  {
  }

  /** A result stored by the fallback is in nobody's branch, so recovery reports it as detached. */
  lemma FallbackIsDetached(t: Tables, e: Event, branch: Name)
    requires Inv(t) && e.id !in t.events && AdmitSpec(t, e, NoMove).Ok? && ResultKind(e.body.kind)
    ensures var u := AdmitSpec(t, e, NoMove).value.0;
      && u.localRefs == t.localRefs
      && (forall k :: k in u.localRefs ==> !Above(u, u.localRefs[k], e.id))
      && e.id in Detached(u, Parsed(u.events), e.body.context, branch)
  {
    hide Inv, AdmitSpec, Parsed, Above, ContextGraph, Grows, Reach, Ascending, ValidName;
    var u := AdmitSpec(t, e, NoMove).value.0;
    AdmitGrows(t, e, NoMove);
    NoMoveKeepsLocal(t, e);
    EventsAfterAdmit(t, e, NoMove);
    forall k | k in u.localRefs ensures !Above(u, u.localRefs[k], e.id) && forall c :: !Reach(ContextGraph(u, c), u.localRefs[k], e.id) {
      HeadStored(t, k);
      AbsentUnreached(t, u, t.localRefs[k], e.id);
    }
  }

  // ---------------------------------------------------------------- a created context

  const ROOT: Event := SignedBody(1, Body(0, [], GENESIS_KIND, 7, 0, 2, 300), 0)

  function RootRow(): EventRow {
    EventRow(0, 7, GENESIS_KIND, ToWire(ROOT))
  }

  function Branched(side: bool): Tables {
    Tables(map[0 := ContextRow(1, Some(1), ACTIVE)], {(0, 7)}, map[1 := RootRow()], map[],
           if side then map[(0, "main") := 1, (0, "side") := 1] else map[(0, "main") := 1], map[])
  }

  lemma Created()
    ensures Step(EMPTY, CreateContextOp(ROOT, "main")) == Branched(false)
  {
    assert EdgeRows(ROOT) == map[];
    var p := ContextProvision(0, 1, [7]);
    assert Provisioned(EMPTY, p).authors == {(0, 7)} by { assert 7 in p.authors; }
  }
}
