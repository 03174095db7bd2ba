/** Full-store verification over arbitrary rows, as one scan that records bounded findings. */
module Verify {
  import opened Base
  import opened Sorting
  import opened Weights
  import opened Graph
  import opened Names
  import opened Tables
  import opened Bundles
  import opened Projections
  import opened RawRows
  import opened Cycles

  const MAX_VERIFICATION_FINDINGS_HARD := 1024

  datatype Category =
    | Schema | Context | Authorization | EventWire | EventIdentity | EventColumns | EdgeSet | MissingParent
    | ParentContext | Genesis | Cycle | LocalRef | RemoteRef | RefName | ProjectionLimit

  datatype Finding = Finding(category: Category, context: Option<ContextId>, event: Option<EventId>, related: Option<EventId>)

  datatype VerificationReport = VerificationReport(valid: bool, checkedContexts: nat, checkedEvents: nat, checkedRefs: nat,
                                                   findings: seq<Finding>, truncated: bool)

  class Findings {
    const max: nat
    var values: seq<Finding>
    var truncated: bool
    // Everything reported, also what was dropped.
    ghost var all: set<Finding>

    ghost predicate Valid()
      reads this
    {
      && 0 < max && |values| <= max && (truncated ==> values != [])
      && Elems(values) <= all && (!truncated ==> Elems(values) == all)
    }

    /** No inconsistency has been recorded or dropped. */
    predicate Clean()
      reads this
    {
      values == [] && !truncated
    }

    constructor (max: nat)
      requires 0 < max
      ensures Valid() && Clean() && this.max == max && all == {}
    {
      this.max := max;
      values := [];
      truncated := false;
      all := {};
    }

    method Push(f: Finding)
      requires Valid()
      modifies this
      ensures Valid() && !Clean()
      ensures values == if |old(values)| < max then old(values) + [f] else old(values)
      ensures truncated == (old(truncated) || |old(values)| >= max)
      ensures all == old(all) + {f}
    {
      all := all + {f};
      if |values| < max {
        values := values + [f];
      } else {
        truncated := true;
      }
    }

    method Truncate()
      requires Valid() && !Clean()
      modifies this
      ensures Valid() && !Clean() && values == old(values) && truncated && all == old(all)
    {
      truncated := true;
    }
  }

  // ---------------------------------------------------------------- contexts and authors

  /** What is wrong with one context row, as it is reported. */
  predicate ContextFault(r: RawContext, x: Finding) {
    if !(r.context.Good? && r.expected.Good? && r.state.Good?) then x == Finding(Context, None, None, None)
    else if r.genesis.Some? && r.genesis.value.Bad? then x == Finding(Context, Some(r.context.value), None, None)
    else !ConsistentRow(ContextOf(r)) && x == Finding(Context, Some(r.context.value), None, ContextOf(r).genesis)
  }

  method ScanContexts(rows: seq<RawContext>, f: Findings) returns (contexts: map<ContextId, ContextRow>)
    requires ContextsKeyed(rows) && f.Valid()
    modifies f
    ensures f.Valid() && contexts == DecodeContexts(rows)
    ensures f.Clean() <==> old(f.Clean()) && All(rows, GoodContext) && ContextsOk(contexts)
    ensures forall x :: x in f.all <==> x in old(f.all) || exists i :: 0 <= i < |rows| && ContextFault(rows[i], x)
  {
    contexts := map[];
    for i := 0 to |rows|
      invariant f.Valid()
      invariant forall x :: x in f.all <==> x in old(f.all) || exists j :: 0 <= j < i && ContextFault(rows[j], x)
      invariant forall j :: 0 <= j < i && GoodContext(rows[j]) ==>
        rows[j].context.value in contexts && contexts[rows[j].context.value] == ContextOf(rows[j])
      invariant forall c :: c in contexts ==> exists j :: 0 <= j < i && GoodContext(rows[j]) && rows[j].context == Good(c)
      invariant f.Clean() <==> old(f.Clean()) && (forall j :: 0 <= j < i ==> GoodContext(rows[j])) && ContextsOk(contexts)
    {
      var r := rows[i];
      if r.context.Good? && r.expected.Good? && r.state.Good? {
        if r.genesis.Some? && r.genesis.value.Bad? {
          f.Push(Finding(Context, Some(r.context.value), None, None));
        } else {
          var row := ContextOf(r);
          assert r.context.value !in contexts;
          if !ConsistentRow(row) {
            f.Push(Finding(Context, Some(r.context.value), None, row.genesis));
          }
          contexts := contexts[r.context.value := row];
        }
      } else {
        f.Push(Finding(Context, None, None, None));
        f.Truncate();
      }
    }
  }

  /** An unreadable authorization, or a context nobody may write to. */
  ghost predicate AuthorFault(rows: seq<RawAuthor>, contexts: map<ContextId, ContextRow>, x: Finding) {
    || (x == Finding(Authorization, None, None, None) && exists i :: 0 <= i < |rows| && !GoodAuthor(rows[i]))
    || (exists c :: Unowned(contexts, DecodeAuthors(rows), c) && x == Finding(Authorization, Some(c), None, None))
  }

  ghost predicate Unowned(contexts: map<ContextId, ContextRow>, authors: set<(ContextId, AuthorId)>, c: ContextId) {
    c in contexts && forall a :: (c, a) !in authors
  }

  method ScanAuthors(rows: seq<RawAuthor>, contexts: map<ContextId, ContextRow>,
                     f: Findings) returns (authors: set<(ContextId, AuthorId)>)
    requires f.Valid()
    modifies f
    ensures f.Valid() && authors == DecodeAuthors(rows)
    ensures f.Clean() <==> old(f.Clean()) && All(rows, GoodAuthor) && AuthorsOk(contexts, authors)
    ensures forall x :: x in f.all <==> x in old(f.all) || AuthorFault(rows, contexts, x)
  {
    authors := {};
    for i := 0 to |rows|
      invariant forall x :: x in f.all <==>
        x in old(f.all) || (x == Finding(Authorization, None, None, None) && exists j :: 0 <= j < i && !GoodAuthor(rows[j]))
      invariant f.Valid() && authors == DecodeAuthors(rows[..i])
      invariant f.Clean() <==> old(f.Clean()) && forall j :: 0 <= j < i ==> GoodAuthor(rows[j])
    {
      assert rows[..i + 1] == rows[..i] + [rows[i]];
      DecodeAuthorsSnoc(rows[..i], rows[i]);
      if GoodAuthor(rows[i]) {
        authors := authors + {(rows[i].context.value, rows[i].author.value)};
      } else {
        f.Push(Finding(Authorization, None, None, None));
      }
    }
    assert rows[..|rows|] == rows;
    ghost var before := f.Clean();
    ghost var mid := f.all;
    var todo := contexts.Keys;
    while todo != {}
      invariant f.Valid() && todo <= contexts.Keys
      invariant f.Clean() <==> before && forall c :: c in contexts && c !in todo ==> exists a :: (c, a) in authors
      invariant forall x :: x in f.all <==>
        x in mid || exists c :: c !in todo && Unowned(contexts, authors, c) && x == Finding(Authorization, Some(c), None, None)
      decreases todo
    {
      var c :| c in todo;
      todo := todo - {c};
      if !exists p :: p in authors && p.0 == c {
        assert forall a :: (c, a) in authors ==> (c, a).0 == c;
        f.Push(Finding(Authorization, Some(c), None, None));
        assert Unowned(contexts, authors, c);
      } else {
        var p :| p in authors && p.0 == c;
        assert (c, p.1) in authors;
      }
    }
  }

  lemma DecodeAuthorsSnoc(rows: seq<RawAuthor>, r: RawAuthor)
    ensures DecodeAuthors(rows + [r]) == DecodeAuthors(rows) + if GoodAuthor(r) then {(r.context.value, r.author.value)} else {}
  {
    var all := rows + [r];
    forall i | 0 <= i < |rows| ensures all[i] == rows[i] {}
    assert all[|rows|] == r;
    forall p | p in DecodeAuthors(all) ensures p in DecodeAuthors(rows) + if GoodAuthor(r) then {(r.context.value, r.author.value)} else {} {
      var i :| 0 <= i < |all| && GoodAuthor(all[i]) && p == (all[i].context.value, all[i].author.value);
      if i < |rows| { assert GoodAuthor(rows[i]); }
    }
    forall p | p in DecodeAuthors(rows) ensures p in DecodeAuthors(all) {
      var i :| 0 <= i < |rows| && GoodAuthor(rows[i]) && p == (rows[i].context.value, rows[i].author.value);
      assert GoodAuthor(all[i]) && p == (all[i].context.value, all[i].author.value);
    }
    if GoodAuthor(r) {
      assert GoodAuthor(all[|rows|]);
    }
  }

  // ---------------------------------------------------------------- events

  /** What is wrong with one event row, as it is reported. */
  predicate EventFault(r: RawEvent, authors: set<(ContextId, AuthorId)>, x: Finding) {
    if !GoodEvent(r) then
      x == Finding(EventColumns, if r.context.Good? then Some(r.context.value) else None, if r.id.Good? then Some(r.id.value) else None, None)
    else if !r.wire.value.Encoded? then x == Finding(EventWire, Some(r.context.value), Some(r.id.value), None)
    else ParsedFault(r, authors, x)
  }

  predicate ParsedFault(r: RawEvent, authors: set<(ContextId, AuthorId)>, x: Finding)
    requires GoodEvent(r) && r.wire.value.Encoded?
  {
    var e := r.wire.value.event;
    match x.category
    case EventWire => ToWire(e) != r.wire.value && x == Finding(EventWire, Some(r.context.value), Some(r.id.value), None)
    case EventIdentity => e.id != r.id.value && x == Finding(EventIdentity, Some(r.context.value), Some(r.id.value), Some(e.id))
    case EventColumns =>
      && (e.body.context != r.context.value || e.body.author != r.author.value || e.body.kind != r.kind.value)
      && x == Finding(EventColumns, Some(r.context.value), Some(r.id.value), None)
    case Authorization =>
      (e.body.context, e.body.author) !in authors && x == Finding(Authorization, Some(e.body.context), Some(r.id.value), None)
    case _ => false
  }

  /** Reports everything wrong with one parsed row. */
  method CheckRow(r: RawEvent, authors: set<(ContextId, AuthorId)>, f: Findings)
    requires GoodEvent(r) && r.wire.value.Encoded? && f.Valid()
    modifies f
    ensures f.Valid()
    ensures f.Clean() <==> old(f.Clean()) && RowOk(authors, r.id.value, RowOf(r))
    ensures forall x :: x in f.all <==> x in old(f.all) || ParsedFault(r, authors, x)
  {
    var e := r.wire.value.event;
    var c := Some(r.context.value);
    var id := Some(r.id.value);
    if ToWire(e) != r.wire.value {
      f.Push(Finding(EventWire, c, id, None));
    }
    if e.id != r.id.value {
      f.Push(Finding(EventIdentity, c, id, Some(e.id)));
    }
    if e.body.context != r.context.value || e.body.author != r.author.value || e.body.kind != r.kind.value {
      f.Push(Finding(EventColumns, c, id, None));
    }
    if (e.body.context, e.body.author) !in authors {
      f.Push(Finding(Authorization, Some(e.body.context), id, None));
    }
  }

  method ScanEvents(rows: seq<RawEvent>, authors: set<(ContextId, AuthorId)>, f: Findings)
    returns (events: map<EventId, Event>, checked: nat)
    requires EventsKeyed(rows) && f.Valid()
    modifies f
    ensures f.Valid() && checked == |rows| && events == Parsed(DecodeEvents(rows))
    ensures f.Clean() <==> old(f.Clean()) && All(rows, GoodEvent) && RowsOk(authors, DecodeEvents(rows))
    ensures forall x :: x in f.all <==> x in old(f.all) || exists i :: 0 <= i < |rows| && EventFault(rows[i], authors, x)
  {
    hide RowOk, ParsedFault;
    events := map[];
    checked := 0;
    for i := 0 to |rows|
      invariant forall x :: x in f.all <==> x in old(f.all) || exists j :: 0 <= j < i && EventFault(rows[j], authors, x)
      invariant f.Valid() && checked == i
      invariant forall j :: 0 <= j < i && GoodEvent(rows[j]) && rows[j].wire.value.Encoded? ==>
        rows[j].id.value in events && events[rows[j].id.value] == rows[j].wire.value.event
      invariant forall id :: id in events ==>
        exists j :: 0 <= j < i && GoodEvent(rows[j]) && rows[j].id == Good(id) && rows[j].wire.value.Encoded?
      invariant f.Clean() <==> old(f.Clean()) && forall j :: 0 <= j < i ==>
        GoodEvent(rows[j]) && RowOk(authors, rows[j].id.value, RowOf(rows[j]))
    {
      checked := checked + 1;
      var r := rows[i];
      if !GoodEvent(r) {
        var context := if r.context.Good? then Some(r.context.value) else None;
        var event := if r.id.Good? then Some(r.id.value) else None;
        f.Push(Finding(EventColumns, context, event, None));
      } else {
        var e := FromWire(r.wire.value);
        if e.None? {
          f.Push(Finding(EventWire, Some(r.context.value), Some(r.id.value), None));
          Unparsed(authors, r);
        } else {
          CheckRow(r, authors, f);
          assert r.id.value !in events;
          events := events[r.id.value := e.value];
        }
      }
    }
    EventsDecoded(rows, events);
    var m := DecodeEvents(rows);
    assert All(rows, GoodEvent) ==>
      (RowsOk(authors, m) <==> forall j :: 0 <= j < |rows| ==> RowOk(authors, rows[j].id.value, RowOf(rows[j])))
    by {
      if All(rows, GoodEvent) { RowsDecoded(rows, authors); }
    }
  }

  lemma Unparsed(authors: set<(ContextId, AuthorId)>, r: RawEvent)
    requires GoodEvent(r) && !r.wire.value.Encoded?
    ensures !RowOk(authors, r.id.value, RowOf(r))
  {
  }

  lemma EventsDecoded(rows: seq<RawEvent>, events: map<EventId, Event>)
    requires EventsKeyed(rows)
    requires forall j :: 0 <= j < |rows| && GoodEvent(rows[j]) && rows[j].wire.value.Encoded? ==>
      rows[j].id.value in events && events[rows[j].id.value] == rows[j].wire.value.event
    requires forall id :: id in events ==>
      exists j :: 0 <= j < |rows| && GoodEvent(rows[j]) && rows[j].id == Good(id) && rows[j].wire.value.Encoded?
    ensures events == Parsed(DecodeEvents(rows))
  {
    hide Ascending;
    var m := DecodeEvents(rows);
    forall id | id in events ensures id in Parsed(m) && Parsed(m)[id] == events[id] {
      var j :| 0 <= j < |rows| && GoodEvent(rows[j]) && rows[j].id == Good(id) && rows[j].wire.value.Encoded?;
      assert rows[j].id.value in m && m[rows[j].id.value] == RowOf(rows[j]);
    }
    forall id | id in Parsed(m) ensures id in events {
      var j :| 0 <= j < |rows| && GoodEvent(rows[j]) && rows[j].id.value == id;
      assert m[rows[j].id.value] == RowOf(rows[j]);
    }
  }

  lemma RowsDecoded(rows: seq<RawEvent>, authors: set<(ContextId, AuthorId)>)
    requires EventsKeyed(rows) && All(rows, GoodEvent)
    ensures RowsOk(authors, DecodeEvents(rows)) <==> forall j :: 0 <= j < |rows| ==> RowOk(authors, rows[j].id.value, RowOf(rows[j]))
  {
    hide RowOk;
    var m := DecodeEvents(rows);
    forall j | 0 <= j < |rows| ensures rows[j].id.value in m && m[rows[j].id.value] == RowOf(rows[j]) {
      assert GoodEvent(rows[j]);
    }
    forall id | id in m ensures exists j :: 0 <= j < |rows| && rows[j].id.value == id && m[id] == RowOf(rows[j]) {
      var j :| 0 <= j < |rows| && GoodEvent(rows[j]) && rows[j].id.value == id;
      assert m[rows[j].id.value] == RowOf(rows[j]);
    }
  }

  // ---------------------------------------------------------------- edges and parents

  /** Rows grouped by child, in row order. */
  ghost predicate Grouped(groups: map<EventId, seq<(int, EventId)>>, rows: seq<RawEdge>) {
    forall id :: (if id in groups then groups[id] else []) == ChildRows(rows, id) && (id in groups ==> groups[id] != [])
  }

  lemma ChildRowsSnoc(rows: seq<RawEdge>, r: RawEdge, id: EventId)
    ensures ChildRows(rows + [r], id) ==
      ChildRows(rows, id) + if GoodEdge(r) && r.child.value == id then [(r.ordinal.value, r.parent.value)] else []
  {
    assert (rows + [r])[..|rows|] == rows;
  }

  predicate UnreadEdge(rows: seq<RawEdge>, x: Finding) {
    x == Finding(EdgeSet, None, None, None) && exists i :: 0 <= i < |rows| && !GoodEdge(rows[i])
  }

  method GroupEdges(rows: seq<RawEdge>, f: Findings) returns (groups: map<EventId, seq<(int, EventId)>>)
    requires f.Valid()
    modifies f
    ensures f.Valid() && Grouped(groups, rows)
    ensures f.Clean() <==> old(f.Clean()) && All(rows, GoodEdge)
    ensures forall x :: x in f.all <==> x in old(f.all) || UnreadEdge(rows, x)
  {
    groups := map[];
    assert Grouped(groups, rows[..0]);
    hide Grouped;
    for i := 0 to |rows|
      invariant forall x :: x in f.all <==>
        x in old(f.all) || (x == Finding(EdgeSet, None, None, None) && exists j :: 0 <= j < i && !GoodEdge(rows[j]))
      invariant f.Valid() && Grouped(groups, rows[..i])
      invariant f.Clean() <==> old(f.Clean()) && forall j :: 0 <= j < i ==> GoodEdge(rows[j])
    {
      var r := rows[i];
      assert rows[..i + 1] == rows[..i] + [r];
      GroupStep(groups, rows[..i], r);
      if GoodEdge(r) {
        var c := r.child.value;
        groups := groups[c := (if c in groups then groups[c] else []) + [(r.ordinal.value, r.parent.value)]];
      } else {
        f.Push(Finding(EdgeSet, None, None, None));
      }
    }
    assert rows[..|rows|] == rows;
  }

  lemma GroupStep(groups: map<EventId, seq<(int, EventId)>>, before: seq<RawEdge>, r: RawEdge)
    requires Grouped(groups, before)
    ensures !GoodEdge(r) ==> Grouped(groups, before + [r])
    ensures GoodEdge(r) ==> var c := r.child.value;
      Grouped(groups[c := (if c in groups then groups[c] else []) + [(r.ordinal.value, r.parent.value)]], before + [r])
  {
    hide ChildRows;
    forall id { ChildRowsSnoc(before, r, id); }
  }

  /** A parent that is absent or of another context. */
  predicate ParentFault(ev: map<EventId, Event>, id: EventId, p: EventId, x: Finding)
    requires id in ev
  {
    var c := Some(ev[id].body.context);
    if p !in ev then x == Finding(MissingParent, c, Some(id), Some(p))
    else ev[p].body.context != ev[id].body.context && x == Finding(ParentContext, c, Some(id), Some(p))
  }

  method CheckParentsOf(ev: map<EventId, Event>, id: EventId, f: Findings)
    requires id in ev && f.Valid()
    modifies f
    ensures f.Valid()
    ensures f.Clean() <==> old(f.Clean()) && ParentsOf(ev, ev[id])
    ensures forall x :: x in f.all <==> x in old(f.all) || exists p :: p in ev[id].body.parents && ParentFault(ev, id, p, x)
  {
    var e := ev[id];
    var parents := e.body.parents;
    for i := 0 to |parents|
      invariant f.Valid()
      invariant forall x :: x in f.all <==> x in old(f.all) || exists j :: 0 <= j < i && ParentFault(ev, id, parents[j], x)
      invariant f.Clean() <==> old(f.Clean()) && forall j :: 0 <= j < i ==> parents[j] in ev && ev[parents[j]].body.context == e.body.context
    {
      var p := parents[i];
      if p !in ev {
        f.Push(Finding(MissingParent, Some(e.body.context), Some(id), Some(p)));
      } else if ev[p].body.context != e.body.context {
        f.Push(Finding(ParentContext, Some(e.body.context), Some(id), Some(p)));
      }
    }
    assert ParentsOf(ev, e) <==> forall j :: 0 <= j < |parents| ==> parents[j] in ev && ev[parents[j]].body.context == e.body.context by {
      assert forall j :: 0 <= j < |parents| ==> parents[j] in parents;
    }
  }

  /** What is wrong with the edges or parents of one event. */
  ghost predicate ChildFault(rows: seq<RawEdge>, ev: map<EventId, Event>, id: EventId, x: Finding)
    requires id in ev
  {
    || (!Exact(ChildRows(rows, id), ev[id].body.parents) && x == Finding(EdgeSet, Some(ev[id].body.context), Some(id), None))
    || (exists p :: p in ev[id].body.parents && ParentFault(ev, id, p, x))
  }

  /** A readable edge whose child is no parsed event. */
  ghost predicate Orphan(rows: seq<RawEdge>, ev: map<EventId, Event>, id: EventId) {
    id !in ev && exists i :: 0 <= i < |rows| && GoodEdge(rows[i]) && rows[i].child.value == id
  }

  ghost predicate EdgeFault(rows: seq<RawEdge>, ev: map<EventId, Event>, x: Finding) {
    || UnreadEdge(rows, x)
    || (exists id :: id in ev && ChildFault(rows, ev, id, x))
    || (exists id :: Orphan(rows, ev, id) && x == Finding(EdgeSet, None, Some(id), None))
  }

  /** Everything wrong with one parsed event's stored edges and parents. */
  method CheckChild(ghost rows: seq<RawEdge>, groups: map<EventId, seq<(int, EventId)>>, ev: map<EventId, Event>, id: EventId, f: Findings)
    requires Grouped(groups, rows) && id in ev && f.Valid()
    modifies f
    ensures f.Valid()
    ensures f.Clean() <==> old(f.Clean()) && Exact(ChildRows(rows, id), ev[id].body.parents) && ParentsOf(ev, ev[id])
    ensures forall x :: x in f.all <==> x in old(f.all) || ChildFault(rows, ev, id, x)
  {
    hide ChildRows, Exact, ParentFault, ParentsOf;
    var stored := if id in groups then groups[id] else [];
    assert stored == ChildRows(rows, id);
    hide Grouped;
    if !Exact(stored, ev[id].body.parents) {
      f.Push(Finding(EdgeSet, Some(ev[id].body.context), Some(id), None));
    }
    CheckParentsOf(ev, id, f);
  }

  /** Reports the children of edges that are no parsed events. */
  method ScanOrphans(ghost rows: seq<RawEdge>, groups: map<EventId, seq<(int, EventId)>>, ev: map<EventId, Event>, f: Findings)
    requires Grouped(groups, rows) && f.Valid()
    modifies f
    ensures f.Valid() && (f.Clean() <==> old(f.Clean()) && forall id :: id in groups ==> id in ev)
    ensures forall x :: x in f.all <==> x in old(f.all) || exists id :: Orphan(rows, ev, id) && x == Finding(EdgeSet, None, Some(id), None)
  {
    hide ChildRows;
    GroupsAreChildren(rows, groups);
    hide Grouped;
    var children := groups.Keys;
    while children != {}
      invariant forall x :: x in f.all <==>
        x in old(f.all) || exists id :: id in groups && id !in children && id !in ev && x == Finding(EdgeSet, None, Some(id), None)
      invariant f.Valid() && children <= groups.Keys
      invariant f.Clean() <==> old(f.Clean()) && forall id :: id in groups && id !in children ==> id in ev
      decreases children
    {
      var id :| id in children;
      children := children - {id};
      if id !in ev {
        f.Push(Finding(EdgeSet, None, Some(id), None));
      }
    }
    forall id ensures Orphan(rows, ev, id) <==> id in groups && id !in ev {}
  }

  method ScanEdges(rows: seq<RawEdge>, ev: map<EventId, Event>, f: Findings)
    requires EdgesKeyed(rows) && f.Valid()
    modifies f
    ensures f.Valid()
    ensures f.Clean() <==> old(f.Clean()) && EdgesGood(rows) && EdgesOk(DecodeEdges(rows), ev) && ParentsOk(ev)
    ensures forall x :: x in f.all <==> x in old(f.all) || EdgeFault(rows, ev, x)
  {
    hide ChildRows, Exact, DecodeEdges, ChildFault, UnreadEdge, Orphan, Grouped, ParentsOf, EdgesOk, EdgesGood;
    var groups := GroupEdges(rows, f);
    ghost var before := f.Clean();
    ghost var read := f.all;
    var todo := ev.Keys;
    while todo != {}
      invariant forall x :: x in f.all <==> x in read || exists id :: id in ev && id !in todo && ChildFault(rows, ev, id, x)
      invariant f.Valid() && todo <= ev.Keys
      invariant f.Clean() <==> before && forall id :: id in ev && id !in todo ==>
        Exact(ChildRows(rows, id), ev[id].body.parents) && ParentsOf(ev, ev[id])
      decreases todo
    {
      var id :| id in todo;
      todo := todo - {id};
      CheckChild(rows, groups, ev, id, f);
    }
    ScanOrphans(rows, groups, ev, f);
    EdgeScanDecides(rows, ev, groups);
  }

  /** The grouped comparison is the declarative edge rule. */
  lemma EdgeScanDecides(rows: seq<RawEdge>, ev: map<EventId, Event>, groups: map<EventId, seq<(int, EventId)>>)
    requires EdgesKeyed(rows) && Grouped(groups, rows)
    ensures All(rows, GoodEdge) && (forall id :: id in ev ==> Exact(ChildRows(rows, id), ev[id].body.parents))
              && (forall id :: id in groups ==> id in ev)
      <==> EdgesGood(rows) && EdgesOk(DecodeEdges(rows), ev)
  {
    hide ChildRows, Exact, DecodeEdges, RowAt, ChildEdges;
    var m := DecodeEdges(rows);
    forall id ensures Exact(ChildRows(rows, id), if id in ev then ev[id].body.parents else []) <==>
      ChildEdges(m, id, if id in ev then ev[id].body.parents else []) && forall o: int, p: EventId :: RowAt(rows, id, o, p) ==> o >= 0
    {
      ExactMeansChildEdges(rows, id, if id in ev then ev[id].body.parents else []);
    }
    GroupsAreChildren(rows, groups);
    if All(rows, GoodEdge) {
      forall i | 0 <= i < |rows| ensures RowAt(rows, rows[i].child.value, rows[i].ordinal.value, rows[i].parent.value) {
        RowIsAt(rows, i);
      }
      if (forall id :: id in ev ==> Exact(ChildRows(rows, id), ev[id].body.parents)) && (forall id :: id in groups ==> id in ev) {
        forall i | 0 <= i < |rows| ensures rows[i].ordinal.value >= 0 {
          assert rows[i].child.value in groups;
        }
        assert forall k :: k in m ==> k.0 in groups by { KeysAreChildren(rows); }
      }
      if EdgesGood(rows) && EdgesOk(m, ev) {
        forall id | id in groups ensures id in ev {
          var i :| 0 <= i < |rows| && rows[i].child.value == id;
          assert (id, rows[i].ordinal.value) in m by { RowKeyed(rows, i); }
        }
        forall id, o: int, p: EventId | RowAt(rows, id, o, p) ensures o >= 0 {
          OrdinalsGood(rows, id, o, p);
        }
      }
    }
  }

  lemma RowIsAt(rows: seq<RawEdge>, i: nat)
    requires i < |rows| && GoodEdge(rows[i])
    ensures RowAt(rows, rows[i].child.value, rows[i].ordinal.value, rows[i].parent.value)
  {
    assert rows[i] == RawEdge(Good(rows[i].child.value), Good(rows[i].ordinal.value), Good(rows[i].parent.value));
  }

  lemma OrdinalsGood(rows: seq<RawEdge>, id: EventId, o: int, p: EventId)
    requires EdgesGood(rows) && RowAt(rows, id, o, p)
    ensures o >= 0
  {
    var i :| 0 <= i < |rows| && rows[i] == RawEdge(Good(id), Good(o), Good(p));
    assert GoodEdge(rows[i]);
  }

  lemma RowKeyed(rows: seq<RawEdge>, i: nat)
    requires EdgesKeyed(rows) && i < |rows| && UsableEdge(rows[i])
    ensures (rows[i].child.value, rows[i].ordinal.value) in DecodeEdges(rows)
  {
    assert EdgeKeyOf(rows[i]) in DecodeEdges(rows);
  }

  lemma {:induction false} ChildRowsEmpty(rows: seq<RawEdge>, id: EventId)
    ensures ChildRows(rows, id) != [] <==> exists i :: 0 <= i < |rows| && GoodEdge(rows[i]) && rows[i].child.value == id
  {
    if rows != [] {
      var n := |rows| - 1;
      ChildRowsEmpty(rows[..n], id);
      forall i | 0 <= i < n ensures rows[..n][i] == rows[i] {}
      if GoodEdge(rows[n]) && rows[n].child.value == id {
      } else if ChildRows(rows, id) != [] {
        var i :| 0 <= i < n && GoodEdge(rows[..n][i]) && rows[..n][i].child.value == id;
        assert GoodEdge(rows[i]) && rows[i].child.value == id;
      }
    }
  }

  lemma GroupsAreChildren(rows: seq<RawEdge>, groups: map<EventId, seq<(int, EventId)>>)
    requires Grouped(groups, rows)
    ensures forall i :: 0 <= i < |rows| && GoodEdge(rows[i]) ==> rows[i].child.value in groups
    ensures forall id :: id in groups ==> exists i :: 0 <= i < |rows| && GoodEdge(rows[i]) && rows[i].child.value == id
  {
    hide ChildRows;
    forall id ensures id in groups <==> ChildRows(rows, id) != [] {
    }
    forall id ensures ChildRows(rows, id) != [] <==> exists i :: 0 <= i < |rows| && GoodEdge(rows[i]) && rows[i].child.value == id {
      ChildRowsEmpty(rows, id);
    }
  }

  lemma KeysAreChildren(rows: seq<RawEdge>)
    requires EdgesKeyed(rows)
    ensures forall k :: k in DecodeEdges(rows) ==> exists i :: 0 <= i < |rows| && GoodEdge(rows[i]) && rows[i].child.value == k.0
  {
    forall k | k in DecodeEdges(rows) ensures exists i :: 0 <= i < |rows| && GoodEdge(rows[i]) && rows[i].child.value == k.0 {
      var i :| 0 <= i < |rows| && UsableEdge(rows[i]) && EdgeKeyOf(rows[i]) == k;
      assert GoodEdge(rows[i]) && rows[i].child.value == k.0;
    }
  }

  // ---------------------------------------------------------------- genesis

  /** An active context without its genesis, or an event that breaks genesis policy. */
  ghost predicate GenesisFault(contexts: map<ContextId, ContextRow>, ev: map<EventId, Event>, x: Finding) {
    || (exists c :: c in contexts && !ActiveGenesis(ev, c, contexts[c]) && x == Finding(Genesis, Some(c), Some(contexts[c].expected), None))
    || (exists id :: id in ev && !EventGenesis(contexts, id, ev[id]) && x == Finding(Genesis, Some(ev[id].body.context), Some(id), None))
  }

  method ScanGenesis(contexts: map<ContextId, ContextRow>, ev: map<EventId, Event>, f: Findings)
    requires f.Valid()
    modifies f
    ensures f.Valid()
    ensures f.Clean() <==> old(f.Clean()) && GenesisOk(contexts, ev)
    ensures forall x :: x in f.all <==> x in old(f.all) || GenesisFault(contexts, ev, x)
  {
    hide ActiveGenesis, EventGenesis;
    var todo := contexts.Keys;
    while todo != {}
      invariant forall x :: x in f.all <==>
        x in old(f.all) || exists c :: c in contexts && c !in todo && !ActiveGenesis(ev, c, contexts[c])
                                       && x == Finding(Genesis, Some(c), Some(contexts[c].expected), None)
      invariant f.Valid() && todo <= contexts.Keys
      invariant f.Clean() <==> old(f.Clean()) && forall c :: c in contexts && c !in todo ==> ActiveGenesis(ev, c, contexts[c])
      decreases todo
    {
      var c :| c in todo;
      todo := todo - {c};
      if !ActiveGenesis(ev, c, contexts[c]) {
        f.Push(Finding(Genesis, Some(c), Some(contexts[c].expected), None));
      }
    }
    ghost var mid := f.Clean();
    ghost var half := f.all;
    var ids := ev.Keys;
    while ids != {}
      invariant forall x :: x in f.all <==>
        x in half || exists id :: id in ev && id !in ids && !EventGenesis(contexts, id, ev[id])
                                  && x == Finding(Genesis, Some(ev[id].body.context), Some(id), None)
      invariant f.Valid() && ids <= ev.Keys
      invariant f.Clean() <==> mid && forall id :: id in ev && id !in ids ==> EventGenesis(contexts, id, ev[id])
      decreases ids
    {
      var id :| id in ids;
      ids := ids - {id};
      if !EventGenesis(contexts, id, ev[id]) {
        f.Push(Finding(Genesis, Some(ev[id].body.context), Some(id), None));
      }
    }
  }

  // ---------------------------------------------------------------- refs

  predicate LocalRowOk(ev: map<EventId, Event>, r: RawLocal) {
    GoodLocal(r) && Targets(ev, r.context.value, r.head.value)
  }

  predicate RemoteRowOk(ev: map<EventId, Event>, r: RawRemote) {
    GoodRemote(r) && Targets(ev, r.context.value, r.head.value)
  }

  /** Exactly the heads of the rows whose target is sound. */
  ghost predicate LocalHeads(rows: seq<RawLocal>, ev: map<EventId, Event>, heads: set<(ContextId, EventId)>) {
    && (forall i :: 0 <= i < |rows| && LocalRowOk(ev, rows[i]) ==> (rows[i].context.value, rows[i].head.value) in heads)
    && (forall h :: h in heads ==> exists i :: 0 <= i < |rows| && LocalRowOk(ev, rows[i]) && h == (rows[i].context.value, rows[i].head.value))
  }

  ghost predicate RemoteHeads(rows: seq<RawRemote>, ev: map<EventId, Event>, heads: set<(ContextId, EventId)>) {
    && (forall i :: 0 <= i < |rows| && RemoteRowOk(ev, rows[i]) ==> (rows[i].context.value, rows[i].head.value) in heads)
    && (forall h :: h in heads ==> exists i :: 0 <= i < |rows| && RemoteRowOk(ev, rows[i]) && h == (rows[i].context.value, rows[i].head.value))
  }

  /** What is wrong with one ref row, as it is reported: unreadable, badly named, or without its target. */
  ghost predicate LocalFault(ev: map<EventId, Event>, r: RawLocal, x: Finding) {
    if !GoodLocal(r) then x == Finding(LocalRef, None, None, None)
    else
      var c, head := Some(r.context.value), Some(r.head.value);
      || (!ValidName(r.name.value) && x == Finding(RefName, c, None, head))
      || (!Targets(ev, r.context.value, r.head.value) && x == Finding(LocalRef, c, None, head))
  }

  ghost predicate RemoteFault(ev: map<EventId, Event>, r: RawRemote, x: Finding) {
    if !GoodRemote(r) then x == Finding(RemoteRef, None, None, None)
    else
      var c, head := Some(r.context.value), Some(r.head.value);
      || (!(ValidName(r.peer.value) && ValidName(r.name.value)) && x == Finding(RefName, c, None, head))
      || (!Targets(ev, r.context.value, r.head.value) && x == Finding(RemoteRef, c, None, head))
  }

  method ScanLocals(rows: seq<RawLocal>, ev: map<EventId, Event>, f: Findings) returns (heads: set<(ContextId, EventId)>)
    requires f.Valid()
    modifies f
    ensures f.Valid()
    ensures f.Clean() <==> old(f.Clean()) && forall i :: 0 <= i < |rows| ==> LocalRowOk(ev, rows[i]) && ValidName(rows[i].name.value)
    ensures LocalHeads(rows, ev, heads)
    ensures forall x :: x in f.all <==> x in old(f.all) || exists i :: 0 <= i < |rows| && LocalFault(ev, rows[i], x)
  {
    hide ValidName, Targets;
    heads := {};
    for i := 0 to |rows|
      invariant forall x :: x in f.all <==> x in old(f.all) || exists j :: 0 <= j < i && LocalFault(ev, rows[j], x)
      invariant f.Valid()
      invariant f.Clean() <==> old(f.Clean()) && forall j :: 0 <= j < i ==> LocalRowOk(ev, rows[j]) && ValidName(rows[j].name.value)
      invariant forall j :: 0 <= j < i && LocalRowOk(ev, rows[j]) ==> (rows[j].context.value, rows[j].head.value) in heads
      invariant forall h :: h in heads ==> exists j :: 0 <= j < i && LocalRowOk(ev, rows[j]) && h == (rows[j].context.value, rows[j].head.value)
    {
      var r := rows[i];
      if !GoodLocal(r) {
        f.Push(Finding(LocalRef, None, None, None));
      } else {
        var named := ValidateName(r.name.value);
        if !named {
          f.Push(Finding(RefName, Some(r.context.value), None, Some(r.head.value)));
        }
        if !Targets(ev, r.context.value, r.head.value) {
          f.Push(Finding(LocalRef, Some(r.context.value), None, Some(r.head.value)));
        } else {
          heads := heads + {(r.context.value, r.head.value)};
        }
      }
    }
  }

  method ScanRemotes(rows: seq<RawRemote>, ev: map<EventId, Event>, f: Findings) returns (heads: set<(ContextId, EventId)>)
    requires f.Valid()
    modifies f
    ensures f.Valid()
    ensures f.Clean() <==> old(f.Clean()) && forall i :: 0 <= i < |rows| ==>
      RemoteRowOk(ev, rows[i]) && ValidName(rows[i].peer.value) && ValidName(rows[i].name.value)
    ensures RemoteHeads(rows, ev, heads)
    ensures forall x :: x in f.all <==> x in old(f.all) || exists i :: 0 <= i < |rows| && RemoteFault(ev, rows[i], x)
  {
    hide ValidName, Targets;
    heads := {};
    for i := 0 to |rows|
      invariant forall x :: x in f.all <==> x in old(f.all) || exists j :: 0 <= j < i && RemoteFault(ev, rows[j], x)
      invariant f.Valid()
      invariant f.Clean() <==> old(f.Clean()) && forall j :: 0 <= j < i ==>
        RemoteRowOk(ev, rows[j]) && ValidName(rows[j].peer.value) && ValidName(rows[j].name.value)
      invariant forall j :: 0 <= j < i && RemoteRowOk(ev, rows[j]) ==> (rows[j].context.value, rows[j].head.value) in heads
      invariant forall h :: h in heads ==> exists j :: 0 <= j < i && RemoteRowOk(ev, rows[j]) && h == (rows[j].context.value, rows[j].head.value)
    {
      var r := rows[i];
      if !GoodRemote(r) {
        f.Push(Finding(RemoteRef, None, None, None));
      } else {
        var peerNamed := ValidateName(r.peer.value);
        var named := ValidateName(r.name.value);
        if !peerNamed || !named {
          f.Push(Finding(RefName, Some(r.context.value), None, Some(r.head.value)));
        }
        if !Targets(ev, r.context.value, r.head.value) {
          f.Push(Finding(RemoteRef, Some(r.context.value), None, Some(r.head.value)));
        } else {
          heads := heads + {(r.context.value, r.head.value)};
        }
      }
    }
  }

  ghost predicate Projects(t: Tables, c: ContextId, head: EventId, limits: ProjectionLimits) {
    Plan(t, c, [head]).Ordered? && Fits(t, c, {head}, limits)
  }

  /** A ref that does not project, with a reason that is real when it is a cycle. */
  ghost predicate ProjectionFault(t: Tables, limits: ProjectionLimits, h: (ContextId, EventId), x: Finding) {
    && !Projects(t, h.0, h.1, limits) && x.context == Some(h.0) && x.event == Some(h.1) && x.related == None
    && (x.category == ProjectionLimit || x.category == EventWire
        || (x.category == Cycle && CyclicFrom(ContextGraph(t, h.0), {h.1})))
  }

  method ProjectRefs(t: Tables, heads: set<(ContextId, EventId)>, limits: ProjectionLimits, f: Findings)
    requires f.Valid() && ValidLimits(limits)
    modifies f
    ensures f.Valid()
    ensures f.Clean() <==> old(f.Clean()) && forall h :: h in heads ==> Projects(t, h.0, h.1, limits)
    ensures old(f.all) <= f.all
    ensures forall x :: x in f.all ==> x in old(f.all) || exists h :: h in heads && ProjectionFault(t, limits, h, x)
    ensures forall h :: h in heads && !Projects(t, h.0, h.1, limits) ==> exists x :: x in f.all && ProjectionFault(t, limits, h, x)
  {
    var todo := heads;
    while todo != {}
      invariant old(f.all) <= f.all
      invariant forall x :: x in f.all ==> x in old(f.all) || exists h :: h in heads && ProjectionFault(t, limits, h, x)
      invariant forall h :: h in heads && h !in todo && !Projects(t, h.0, h.1, limits) ==>
        exists x :: x in f.all && ProjectionFault(t, limits, h, x)
      invariant f.Valid() && todo <= heads
      invariant f.Clean() <==> old(f.Clean()) && forall h :: h in heads && h !in todo ==> Projects(t, h.0, h.1, limits)
      decreases todo
    {
      hide Plan, Fits, Projects, ContextGraph, Loaded, WireSizes, ProjectionFault;
      var h :| h in todo;
      todo := todo - {h};
      var r := ProjectOn(t, h.0, [h.1], limits);
      ProjectsMeans(t, h.0, h.1, limits, r);
      if r.Err? {
        var category := if r.error.ProjectionLimitExceeded? then ProjectionLimit else if r.error.ProjectionCycle? then Cycle else EventWire;
        FailedProjection(t, h.0, h.1, limits, r, category);
        f.Push(Finding(category, Some(h.0), Some(h.1), None));
      }
    }
  }

  lemma FailedProjection(t: Tables, c: ContextId, head: EventId, limits: ProjectionLimits, r: Result<(seq<Event>, nat), StoreError>,
                         category: Category)
    requires r.Err? && Projected(t, c, [head], limits, r) && !Projects(t, c, head, limits)
    requires category == if r.error.ProjectionLimitExceeded? then ProjectionLimit else if r.error.ProjectionCycle? then Cycle else EventWire
    ensures ProjectionFault(t, limits, (c, head), Finding(category, Some(c), Some(head), None))
  {
    hide Plan, Fits, Projects, ContextGraph, Loaded, WireSizes, Anc, Weight, CyclicFrom;
    assert Elems([head]) == {head};
  }

  lemma ProjectsMeans(t: Tables, c: ContextId, head: EventId, limits: ProjectionLimits, r: Result<(seq<Event>, nat), StoreError>)
    requires ValidLimits(limits) && Projected(t, c, [head], limits, r)
    ensures r.Ok? <==> Projects(t, c, head, limits)
  {
    hide Plan, Fits, ContextGraph, Loaded, WireSizes, Anc, Weight;
    assert Elems([head]) == {head};
  }

  // ---------------------------------------------------------------- the whole scan

  ghost predicate RefsFit(t: Tables, limits: ProjectionLimits) {
    && (forall k :: k in t.localRefs ==> Fits(t, k.0, {t.localRefs[k]}, limits))
    && (forall k :: k in t.remoteRefs ==> Fits(t, k.1, {t.remoteRefs[k]}, limits))
  }

  /** What a valid report stands for: decodable rows, the store invariant, and projectable refs. */
  ghost predicate Sound(raw: RawStore, limits: ProjectionLimits)
    requires Keyed(raw)
  {
    raw.schemaOk && CellsGood(raw) && Inv(Decode(raw)) && RefsFit(Decode(raw), limits)
  }

  /** The conjunction the row passes decide, check by check. */
  ghost predicate RowChecks(raw: RawStore)
    requires Keyed(raw)
  {
    var t := Decode(raw);
    var ev := Parsed(t.events);
    && raw.schemaOk && RawForeignKeys(raw)
    && All(raw.contexts, GoodContext) && ContextsOk(t.contexts)
    && All(raw.authors, GoodAuthor) && AuthorsOk(t.contexts, t.authors)
    && All(raw.events, GoodEvent) && RowsOk(t.authors, t.events)
    && EdgesGood(raw.edges) && EdgesOk(t.edges, ev) && ParentsOk(ev)
    && GenesisOk(t.contexts, ev)
    && !Cyclic(Links(ev))
    && (forall i :: 0 <= i < |raw.locals| ==> LocalRowOk(ev, raw.locals[i]) && ValidName(raw.locals[i].name.value))
    && (forall i :: 0 <= i < |raw.remotes| ==>
          RemoteRowOk(ev, raw.remotes[i]) && ValidName(raw.remotes[i].peer.value) && ValidName(raw.remotes[i].name.value))
  }

  /** The whole scan also projects every ref. */
  ghost predicate Checks(raw: RawStore, limits: ProjectionLimits, locals: set<(ContextId, EventId)>,
                         remotes: set<(ContextId, EventId)>)
    requires Keyed(raw)
  {
    RowChecks(raw) && forall h :: h in locals + remotes ==> Projects(Decode(raw), h.0, h.1, limits)
  }

  ghost predicate HeadsOf(raw: RawStore, locals: set<(ContextId, EventId)>, remotes: set<(ContextId, EventId)>)
    requires Keyed(raw)
  {
    var ev := Parsed(DecodeEvents(raw.events));
    LocalHeads(raw.locals, ev, locals) && RemoteHeads(raw.remotes, ev, remotes)
  }

  lemma RefRowsDecide(raw: RawStore)
    requires Keyed(raw) && All(raw.locals, GoodLocal) && All(raw.remotes, GoodRemote)
    ensures var t := Decode(raw); var ev := Parsed(t.events);
      RefsOk(t.localRefs, t.remoteRefs, ev) <==>
        && (forall i :: 0 <= i < |raw.locals| ==> LocalRowOk(ev, raw.locals[i]) && ValidName(raw.locals[i].name.value))
        && (forall i :: 0 <= i < |raw.remotes| ==>
              RemoteRowOk(ev, raw.remotes[i]) && ValidName(raw.remotes[i].peer.value) && ValidName(raw.remotes[i].name.value))
  {
    hide ValidName, Targets, Parsed, DecodeEvents, DecodeContexts, DecodeAuthors, DecodeEdges, DecodeLocals, DecodeRemotes,
      ContextsKeyed, EventsKeyed, EdgesKeyed, LocalsKeyed, RemotesKeyed;
    var t := Decode(raw);
    forall i | 0 <= i < |raw.locals|
      ensures GoodLocal(raw.locals[i]) && (raw.locals[i].context.value, raw.locals[i].name.value) in t.localRefs
      ensures t.localRefs[(raw.locals[i].context.value, raw.locals[i].name.value)] == raw.locals[i].head.value
    {
      LocalRowDecoded(raw.locals, i);
    }
    forall i | 0 <= i < |raw.remotes|
      ensures GoodRemote(raw.remotes[i])
      ensures (raw.remotes[i].peer.value, raw.remotes[i].context.value, raw.remotes[i].name.value) in t.remoteRefs
      ensures t.remoteRefs[(raw.remotes[i].peer.value, raw.remotes[i].context.value, raw.remotes[i].name.value)] == raw.remotes[i].head.value
    {
      RemoteRowDecoded(raw.remotes, i);
    }
    forall k | k in t.localRefs
      ensures exists i :: 0 <= i < |raw.locals| && k == (raw.locals[i].context.value, raw.locals[i].name.value)
                          && t.localRefs[k] == raw.locals[i].head.value
    {
      var i := LocalKeyRow(raw.locals, k);
    }
    forall k | k in t.remoteRefs
      ensures exists i :: 0 <= i < |raw.remotes| && t.remoteRefs[k] == raw.remotes[i].head.value
                          && k == (raw.remotes[i].peer.value, raw.remotes[i].context.value, raw.remotes[i].name.value)
    {
      var i := RemoteKeyRow(raw.remotes, k);
    }
  }

  lemma LocalRowDecoded(rows: seq<RawLocal>, i: nat)
    requires LocalsKeyed(rows) && i < |rows| && GoodLocal(rows[i])
    ensures var k := (rows[i].context.value, rows[i].name.value);
      k in DecodeLocals(rows) && DecodeLocals(rows)[k] == rows[i].head.value
  {
  }

  lemma LocalKeyRow(rows: seq<RawLocal>, k: LocalKey) returns (i: nat)
    requires LocalsKeyed(rows) && k in DecodeLocals(rows)
    ensures i < |rows| && GoodLocal(rows[i]) && k == (rows[i].context.value, rows[i].name.value)
    ensures DecodeLocals(rows)[k] == rows[i].head.value
  {
    i :| 0 <= i < |rows| && GoodLocal(rows[i]) && k == (rows[i].context.value, rows[i].name.value);
    LocalRowDecoded(rows, i);
  }

  lemma LocalHeadsDecoded(rows: seq<RawLocal>, ev: map<EventId, Event>, heads: set<(ContextId, EventId)>)
    requires LocalsKeyed(rows) && LocalHeads(rows, ev, heads) && forall i :: 0 <= i < |rows| ==> LocalRowOk(ev, rows[i])
    ensures forall k :: k in DecodeLocals(rows) ==> (k.0, DecodeLocals(rows)[k]) in heads
    ensures forall h :: h in heads ==> exists k :: k in DecodeLocals(rows) && k.0 == h.0 && DecodeLocals(rows)[k] == h.1
  {
    hide Targets, LocalsKeyed, DecodeLocals;
    forall h | h in heads ensures exists k :: k in DecodeLocals(rows) && k.0 == h.0 && DecodeLocals(rows)[k] == h.1 {
      var i :| 0 <= i < |rows| && LocalRowOk(ev, rows[i]) && h == (rows[i].context.value, rows[i].head.value);
      LocalRowDecoded(rows, i);
    }
    forall k | k in DecodeLocals(rows) ensures (k.0, DecodeLocals(rows)[k]) in heads {
      var i := LocalKeyRow(rows, k);
      assert LocalRowOk(ev, rows[i]);
    }
  }

  lemma RemoteRowDecoded(rows: seq<RawRemote>, i: nat)
    requires RemotesKeyed(rows) && i < |rows| && GoodRemote(rows[i])
    ensures var k := (rows[i].peer.value, rows[i].context.value, rows[i].name.value);
      k in DecodeRemotes(rows) && DecodeRemotes(rows)[k] == rows[i].head.value
  {
  }

  lemma RemoteKeyRow(rows: seq<RawRemote>, k: RemoteKey) returns (i: nat)
    requires RemotesKeyed(rows) && k in DecodeRemotes(rows)
    ensures i < |rows| && GoodRemote(rows[i]) && k == (rows[i].peer.value, rows[i].context.value, rows[i].name.value)
    ensures DecodeRemotes(rows)[k] == rows[i].head.value
  {
    i :| 0 <= i < |rows| && GoodRemote(rows[i]) && k == (rows[i].peer.value, rows[i].context.value, rows[i].name.value);
    RemoteRowDecoded(rows, i);
  }

  lemma RemoteHeadsDecoded(rows: seq<RawRemote>, ev: map<EventId, Event>, heads: set<(ContextId, EventId)>)
    requires RemotesKeyed(rows) && RemoteHeads(rows, ev, heads) && forall i :: 0 <= i < |rows| ==> RemoteRowOk(ev, rows[i])
    ensures forall k :: k in DecodeRemotes(rows) ==> (k.1, DecodeRemotes(rows)[k]) in heads
    ensures forall h :: h in heads ==> exists k :: k in DecodeRemotes(rows) && k.1 == h.0 && DecodeRemotes(rows)[k] == h.1
  {
    hide Targets, RemotesKeyed, DecodeRemotes;
    forall h | h in heads ensures exists k :: k in DecodeRemotes(rows) && k.1 == h.0 && DecodeRemotes(rows)[k] == h.1 {
      var i :| 0 <= i < |rows| && RemoteRowOk(ev, rows[i]) && h == (rows[i].context.value, rows[i].head.value);
      RemoteRowDecoded(rows, i);
    }
    forall k | k in DecodeRemotes(rows) ensures (k.1, DecodeRemotes(rows)[k]) in heads {
      var i := RemoteKeyRow(rows, k);
      assert RemoteRowOk(ev, rows[i]);
    }
  }

  lemma HeadsFit(raw: RawStore, limits: ProjectionLimits, locals: set<(ContextId, EventId)>, remotes: set<(ContextId, EventId)>)
    requires Keyed(raw) && CellsGood(raw) && HeadsOf(raw, locals, remotes) && Inv(Decode(raw))
    ensures (forall h :: h in locals + remotes ==> Projects(Decode(raw), h.0, h.1, limits)) <==> RefsFit(Decode(raw), limits)
  {
    hide CoreInv, RefKeys, ValidName, Parsed, Plan, Fits, LocalRowOk, RemoteRowOk, LocalHeads, RemoteHeads, DecodeContexts,
         DecodeAuthors, DecodeEvents,
      DecodeEdges, DecodeLocals, DecodeRemotes;
    var t := Decode(raw);
    RefRowsDecide(raw);
    LocalHeadsDecoded(raw.locals, Parsed(t.events), locals);
    RemoteHeadsDecoded(raw.remotes, Parsed(t.events), remotes);
    forall h | h in locals + remotes ensures Projects(t, h.0, h.1, limits) <==> Fits(t, h.0, {h.1}, limits) {
      SoundPlan(t, h.0, [h.1]);
    }
  }

  lemma ChecksDecideSoundness(raw: RawStore, limits: ProjectionLimits, locals: set<(ContextId, EventId)>,
                              remotes: set<(ContextId, EventId)>)
    requires Keyed(raw) && HeadsOf(raw, locals, remotes)
    ensures Checks(raw, limits, locals, remotes) <==> Sound(raw, limits)
  {
    hide Projects, RefsFit, HeadsOf, Cyclic, RowsOk, EdgesOk, ParentsOk, GenesisOk, AuthorsOk, ContextsOk, RawForeignKeys,
         Parsed, Links,
      CoreKeys, RefKeys, DecodeEvents, DecodeContexts, DecodeAuthors, DecodeEdges, DecodeLocals, DecodeRemotes, EdgesGood, ValidName, RefsOk,
      Targets;
    if CellsGood(raw) {
      RawKeysDecode(raw);
      RefRowsDecide(raw);
      if Inv(Decode(raw)) {
        HeadsFit(raw, limits, locals, remotes);
      }
    }
  }

  /** A defect of the rows, as it is reported; refs that do not project are told apart by `ProjectionFault`. */
  ghost predicate RowFault(raw: RawStore, x: Finding)
    requires Keyed(raw)
  {
    var t := Decode(raw);
    var ev := Parsed(t.events);
    || (x == Finding(Schema, None, None, None) && !(raw.schemaOk && RawForeignKeys(raw)))
    || (exists i :: 0 <= i < |raw.contexts| && ContextFault(raw.contexts[i], x))
    || AuthorFault(raw.authors, t.contexts, x)
    || (exists i :: 0 <= i < |raw.events| && EventFault(raw.events[i], t.authors, x))
    || EdgeFault(raw.edges, ev, x)
    || GenesisFault(t.contexts, ev, x)
    || (x == Finding(Cycle, None, None, None) && Cyclic(Links(ev)))
    || (exists i :: 0 <= i < |raw.locals| && LocalFault(ev, raw.locals[i], x))
    || (exists i :: 0 <= i < |raw.remotes| && RemoteFault(ev, raw.remotes[i], x))
  }

  /** Some ref row with a sound target names this head. */
  ghost predicate RefHead(raw: RawStore, h: (ContextId, EventId))
    requires Keyed(raw)
  {
    var ev := Parsed(DecodeEvents(raw.events));
    || (exists i :: 0 <= i < |raw.locals| && LocalRowOk(ev, raw.locals[i]) && h == (raw.locals[i].context.value, raw.locals[i].head.value))
    || (exists i :: 0 <= i < |raw.remotes| && RemoteRowOk(ev, raw.remotes[i]) && h == (raw.remotes[i].context.value, raw.remotes[i].head.value))
  }

  /** Only defects are reported; and as long as nothing was dropped, every one of them is. */
  ghost predicate FindingsExact(raw: RawStore, limits: ProjectionLimits, findings: set<Finding>, truncated: bool)
    requires Keyed(raw)
  {
    && (forall x :: x in findings ==> RowFault(raw, x) || exists h :: RefHead(raw, h) && ProjectionFault(Decode(raw), limits, h, x))
    && (!truncated ==>
          && (forall x :: RowFault(raw, x) ==> x in findings)
          && (forall h :: RefHead(raw, h) && !Projects(Decode(raw), h.0, h.1, limits) ==>
                exists x :: x in findings && ProjectionFault(Decode(raw), limits, h, x)))
  }

  lemma HeadsAreRefs(raw: RawStore, locals: set<(ContextId, EventId)>, remotes: set<(ContextId, EventId)>)
    requires Keyed(raw) && HeadsOf(raw, locals, remotes)
    ensures forall h :: h in locals + remotes <==> RefHead(raw, h)
  {
    hide LocalRowOk, RemoteRowOk, Parsed, DecodeEvents;
    forall h ensures h in locals + remotes <==> RefHead(raw, h) {}
  }

  /** Reports valid exactly when the rows are a sound store whose refs all project within the limits. */
  method VerifyOn(raw: RawStore, maxFindings: nat, limits: ProjectionLimits) returns (report: VerificationReport)
    requires Keyed(raw) && 0 < maxFindings <= MAX_VERIFICATION_FINDINGS_HARD && ValidLimits(limits)
    ensures report.valid <==> Sound(raw, limits)
    ensures report.valid <==> report.findings == [] && !report.truncated
    ensures FindingsExact(raw, limits, Elems(report.findings), report.truncated)
    ensures |report.findings| <= maxFindings
    ensures report.checkedContexts == |DecodeContexts(raw.contexts)|
    ensures report.checkedEvents == |raw.events| && report.checkedRefs == |raw.locals| + |raw.remotes|
  {
    hide Projects, Cyclic, RowsOk, EdgesOk, ParentsOk, GenesisOk, AuthorsOk, ContextsOk, RawForeignKeys, Parsed, Links, Sound,
      DecodeEvents, DecodeContexts, DecodeAuthors, DecodeEdges, DecodeLocals, DecodeRemotes, EdgesGood, ValidName, LocalRowOk, RemoteRowOk,
      ContextsKeyed, EventsKeyed, EdgesKeyed, LocalsKeyed, RemotesKeyed, ValidLimits, ContextFault, AuthorFault, EventFault,
      EdgeFault, GenesisFault, LocalFault, RemoteFault, ProjectionFault, RefHead;
    var f := new Findings(maxFindings);
    var contexts, checked, locals, remotes := ScanRows(raw, f);
    HeadsAreRefs(raw, locals, remotes);
    ghost var rowFaults := f.all;
    ProjectRefs(Decode(raw), locals + remotes, limits, f);
    ChecksDecideSoundness(raw, limits, locals, remotes);
    ReportsExact(raw, limits, rowFaults, f.all, Elems(f.values), f.truncated, locals + remotes);
    report := VerificationReport(f.values == [] && !f.truncated, contexts, checked, |raw.locals| + |raw.remotes|, f.values, f.truncated);
  }

  lemma ReportsExact(raw: RawStore, limits: ProjectionLimits, rowFaults: set<Finding>, all: set<Finding>, findings: set<Finding>,
                     truncated: bool, heads: set<(ContextId, EventId)>)
    requires Keyed(raw) && (forall x :: x in rowFaults <==> RowFault(raw, x)) && (forall h :: h in heads <==> RefHead(raw, h))
    requires rowFaults <= all && findings <= all && (!truncated ==> findings == all)
    requires forall x :: x in all ==> x in rowFaults || exists h :: h in heads && ProjectionFault(Decode(raw), limits, h, x)
    requires forall h :: h in heads && !Projects(Decode(raw), h.0, h.1, limits) ==>
      exists x :: x in all && ProjectionFault(Decode(raw), limits, h, x)
    ensures FindingsExact(raw, limits, findings, truncated)
  {
    hide RowFault, RefHead, ProjectionFault, Projects, Decode;
  }

  /** Every pass but the projections. */
  method ScanRows(raw: RawStore, f: Findings)
    returns (contextCount: nat, checked: nat, locals: set<(ContextId, EventId)>, remotes: set<(ContextId, EventId)>)
    requires Keyed(raw) && f.Valid() && f.Clean() && f.all == {}
    modifies f
    ensures f.Valid() && (f.Clean() <==> RowChecks(raw)) && HeadsOf(raw, locals, remotes)
    ensures contextCount == |DecodeContexts(raw.contexts)| && checked == |raw.events|
    ensures forall x :: x in f.all <==> RowFault(raw, x)
  {
    hide Cyclic, RowsOk, EdgesOk, ParentsOk, GenesisOk, AuthorsOk, ContextsOk, RawForeignKeys, Parsed, Links,
      DecodeEvents, DecodeContexts, DecodeAuthors, DecodeEdges, DecodeLocals, DecodeRemotes, EdgesGood, ValidName, LocalRowOk, RemoteRowOk,
      ContextsKeyed, EventsKeyed, EdgesKeyed, LocalsKeyed, RemotesKeyed, ContextFault, AuthorFault, EventFault,
      EdgeFault, GenesisFault, LocalFault, RemoteFault, RowFault, LocalHeads, RemoteHeads;
    var schema := CheckSchema(raw);
    if !schema {
      f.Push(Finding(Schema, None, None, None));
    }
    ghost var afterSchema := f.all;
    var contexts := ScanContexts(raw.contexts, f);
    ghost var afterContexts := f.all;
    var authors := ScanAuthors(raw.authors, contexts, f);
    ghost var afterAuthors := f.all;
    var events, count := ScanEvents(raw.events, authors, f);
    ghost var afterEvents := f.all;
    ScanEdges(raw.edges, events, f);
    ghost var afterEdges := f.all;
    ScanGenesis(contexts, events, f);
    ghost var afterGenesis := f.all;
    var cyclic := GraphHasCycle(events);
    if cyclic {
      f.Push(Finding(Cycle, None, None, None));
    }
    ghost var afterCycle := f.all;
    locals := ScanLocals(raw.locals, events, f);
    ghost var afterLocals := f.all;
    remotes := ScanRemotes(raw.remotes, events, f);
    contextCount, checked := |contexts|, count;
    FaultsUnite(raw, afterSchema, afterContexts, afterAuthors, afterEvents, afterEdges, afterGenesis, afterCycle, afterLocals, f.all);
  }

  /** The passes together report what is wrong with the rows. */
  lemma FaultsUnite(raw: RawStore, schema: set<Finding>, contexts: set<Finding>, authors: set<Finding>, events: set<Finding>,
                    edges: set<Finding>, genesis: set<Finding>, cycle: set<Finding>, locals: set<Finding>, remotes: set<Finding>)
    requires Keyed(raw)
    requires forall x :: x in schema <==> x == Finding(Schema, None, None, None) && !(raw.schemaOk && RawForeignKeys(raw))
    requires forall x :: x in contexts <==> x in schema || exists i :: 0 <= i < |raw.contexts| && ContextFault(raw.contexts[i], x)
    requires forall x :: x in authors <==> x in contexts || AuthorFault(raw.authors, Decode(raw).contexts, x)
    requires forall x :: x in events <==> x in authors || exists i :: 0 <= i < |raw.events| && EventFault(raw.events[i], Decode(raw).authors, x)
    requires forall x :: x in edges <==> x in events || EdgeFault(raw.edges, Parsed(Decode(raw).events), x)
    requires forall x :: x in genesis <==> x in edges || GenesisFault(Decode(raw).contexts, Parsed(Decode(raw).events), x)
    requires forall x :: x in cycle <==> x in genesis || (x == Finding(Cycle, None, None, None) && Cyclic(Links(Parsed(Decode(raw).events))))
    requires forall x :: x in locals <==> x in cycle || exists i :: 0 <= i < |raw.locals| && LocalFault(Parsed(Decode(raw).events), raw.locals[i], x)
    requires forall x :: x in remotes <==> x in locals || exists i :: 0 <= i < |raw.remotes| && RemoteFault(Parsed(Decode(raw).events), raw.remotes[i], x)
    ensures forall x :: x in remotes <==> RowFault(raw, x)
  {
    hide ContextFault, AuthorFault, EventFault, EdgeFault, GenesisFault, LocalFault, RemoteFault, Cyclic, Links, Parsed, RawForeignKeys, Decode;
  }

  method CheckSchema(raw: RawStore) returns (ok: bool)
    ensures ok <==> raw.schemaOk && RawForeignKeys(raw)
  {
    hide HasContext, HasEvent;
    var contexts: set<Cell<ContextId>> := set i | 0 <= i < |raw.contexts| :: raw.contexts[i].context;
    var events: set<Cell<EventId>> := set i | 0 <= i < |raw.events| :: raw.events[i].id;
    KeySets(raw, contexts, events);
    ok := raw.schemaOk
      && (forall i :: 0 <= i < |raw.authors| ==> raw.authors[i].context in contexts)
      && (forall i :: 0 <= i < |raw.events| ==> raw.events[i].context in contexts)
      && (forall i :: 0 <= i < |raw.edges| ==> raw.edges[i].child in events && raw.edges[i].parent in events)
      && (forall i :: 0 <= i < |raw.locals| ==> raw.locals[i].context in contexts && raw.locals[i].head in events)
      && (forall i :: 0 <= i < |raw.remotes| ==> raw.remotes[i].context in contexts && raw.remotes[i].head in events);
  }

  lemma KeySets(raw: RawStore, contexts: set<Cell<ContextId>>, events: set<Cell<EventId>>)
    requires contexts == set i | 0 <= i < |raw.contexts| :: raw.contexts[i].context
    requires events == set i | 0 <= i < |raw.events| :: raw.events[i].id
    ensures forall c :: c in contexts <==> HasContext(raw.contexts, c)
    ensures forall e :: e in events <==> HasEvent(raw.events, e)
  {
    forall c ensures c in contexts <==> HasContext(raw.contexts, c) {}
    forall e ensures e in events <==> HasEvent(raw.events, e) {}
  }

  // ---------------------------------------------------------------- reachable stores verify

  /** Rows that list the typed tables. */
  ghost predicate Represents(raw: RawStore, t: Tables) {
    Keyed(raw) && raw.schemaOk && CellsGood(raw) && Decode(raw) == t
  }

  /** A sound store verifies clean exactly when every ref's ancestry fits the projection limits. */
  lemma SoundStoreVerifies(raw: RawStore, t: Tables, limits: ProjectionLimits)
    requires Inv(t) && Represents(raw, t)
    ensures Sound(raw, limits) <==> RefsFit(t, limits)
  {
    hide Inv, RefsFit, CellsGood, Decode;
  }
}
