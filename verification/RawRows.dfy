/** Arbitrary, possibly corrupt rows as SQL returns them, and the typed tables they decode to. */
module RawRows {
  import opened Base
  import opened Sorting
  import opened Graph
  import opened Names
  import opened Tables
  import opened Bundles
  import opened Projections

  /** A column value of the expected type and width, or something else. */
  datatype Cell<+T> = Good(value: T) | Bad(raw: nat)

  datatype RawContext = RawContext(context: Cell<ContextId>, expected: Cell<EventId>, genesis: Option<Cell<EventId>>, state: Cell<int>)
  datatype RawAuthor = RawAuthor(context: Cell<ContextId>, author: Cell<AuthorId>)
  datatype RawEvent = RawEvent(id: Cell<EventId>, context: Cell<ContextId>, author: Cell<AuthorId>, kind: Cell<string>, wire: Cell<Wire>)
  datatype RawEdge = RawEdge(child: Cell<EventId>, ordinal: Cell<int>, parent: Cell<EventId>)
  datatype RawLocal = RawLocal(context: Cell<ContextId>, name: Cell<string>, head: Cell<EventId>)
  datatype RawRemote = RawRemote(peer: Cell<string>, context: Cell<ContextId>, name: Cell<string>, head: Cell<EventId>)

  /** `schemaOk` stands for the version, fingerprint and object checks. */
  datatype RawStore = RawStore(
    schemaOk: bool,
    contexts: seq<RawContext>,
    authors: seq<RawAuthor>,
    events: seq<RawEvent>,
    edges: seq<RawEdge>,
    locals: seq<RawLocal>,
    remotes: seq<RawRemote>)

  // ---------------------------------------------------------------- primary keys and row order

  predicate ContextsKeyed(rows: seq<RawContext>) {
    forall i, j :: 0 <= i < j < |rows| ==> rows[i].context != rows[j].context
  }

  predicate EventsKeyed(rows: seq<RawEvent>) {
    forall i, j :: 0 <= i < j < |rows| ==> rows[i].id != rows[j].id
  }

  /** The primary key is child and ordinal, and rows come ordered by it. */
  predicate EdgesKeyed(rows: seq<RawEdge>) {
    forall i, j :: 0 <= i < j < |rows| && rows[i].child == rows[j].child && rows[i].ordinal.Good? && rows[j].ordinal.Good? ==>
      rows[i].ordinal.value < rows[j].ordinal.value
  }

  predicate LocalsKeyed(rows: seq<RawLocal>) {
    forall i, j :: 0 <= i < j < |rows| ==> rows[i].context != rows[j].context || rows[i].name != rows[j].name
  }

  predicate RemotesKeyed(rows: seq<RawRemote>) {
    forall i, j :: 0 <= i < j < |rows| ==>
      rows[i].peer != rows[j].peer || rows[i].context != rows[j].context || rows[i].name != rows[j].name
  }

  predicate Keyed(raw: RawStore) {
    && ContextsKeyed(raw.contexts) && EventsKeyed(raw.events) && EdgesKeyed(raw.edges)
    && LocalsKeyed(raw.locals) && RemotesKeyed(raw.remotes)
  }

  // ---------------------------------------------------------------- decodable rows

  predicate GoodContext(r: RawContext) {
    r.context.Good? && r.expected.Good? && (r.genesis.Some? ==> r.genesis.value.Good?) && r.state.Good?
  }

  predicate GoodAuthor(r: RawAuthor) {
    r.context.Good? && r.author.Good?
  }

  predicate GoodEvent(r: RawEvent) {
    r.id.Good? && r.context.Good? && r.author.Good? && r.kind.Good? && r.wire.Good?
  }

  predicate GoodEdge(r: RawEdge) {
    r.child.Good? && r.ordinal.Good? && r.parent.Good?
  }

  predicate GoodLocal(r: RawLocal) {
    r.context.Good? && r.name.Good? && r.head.Good?
  }

  predicate GoodRemote(r: RawRemote) {
    r.peer.Good? && r.context.Good? && r.name.Good? && r.head.Good?
  }

  predicate All<T>(rows: seq<T>, p: T -> bool) {
    forall i :: 0 <= i < |rows| ==> p(rows[i])
  }

  predicate EdgesGood(rows: seq<RawEdge>) {
    forall i :: 0 <= i < |rows| ==> GoodEdge(rows[i]) && rows[i].ordinal.value >= 0
  }

  predicate CellsGood(raw: RawStore) {
    && All(raw.contexts, GoodContext) && All(raw.authors, GoodAuthor) && All(raw.events, GoodEvent)
    && EdgesGood(raw.edges) && All(raw.locals, GoodLocal) && All(raw.remotes, GoodRemote)
  }

  // ---------------------------------------------------------------- decoding

  function ContextOf(r: RawContext): ContextRow
    requires GoodContext(r)
  {
    ContextRow(r.expected.value, if r.genesis.Some? then Some(r.genesis.value.value) else None, r.state.value)
  }

  function DecodeContexts(rows: seq<RawContext>): map<ContextId, ContextRow>
    requires ContextsKeyed(rows)
  {
    map i | 0 <= i < |rows| && GoodContext(rows[i]) :: rows[i].context.value := ContextOf(rows[i])
  }

  function DecodeAuthors(rows: seq<RawAuthor>): set<(ContextId, AuthorId)> {
    set i | 0 <= i < |rows| && GoodAuthor(rows[i]) :: (rows[i].context.value, rows[i].author.value)
  }

  function RowOf(r: RawEvent): EventRow
    requires GoodEvent(r)
  {
    EventRow(r.context.value, r.author.value, r.kind.value, r.wire.value)
  }

  function DecodeEvents(rows: seq<RawEvent>): map<EventId, EventRow>
    requires EventsKeyed(rows)
  {
    map i | 0 <= i < |rows| && GoodEvent(rows[i]) :: rows[i].id.value := RowOf(rows[i])
  }

  predicate UsableEdge(r: RawEdge) {
    GoodEdge(r) && r.ordinal.value >= 0
  }

  function EdgeKeyOf(r: RawEdge): EdgeKey
    requires UsableEdge(r)
  {
    (r.child.value, r.ordinal.value)
  }

  function DecodeEdges(rows: seq<RawEdge>): map<EdgeKey, EventId>
    requires EdgesKeyed(rows)
  {
    map i | 0 <= i < |rows| && UsableEdge(rows[i]) :: EdgeKeyOf(rows[i]) := rows[i].parent.value
  }

  function DecodeLocals(rows: seq<RawLocal>): map<LocalKey, EventId>
    requires LocalsKeyed(rows)
  {
    map i | 0 <= i < |rows| && GoodLocal(rows[i]) :: (rows[i].context.value, rows[i].name.value) := rows[i].head.value
  }

  function DecodeRemotes(rows: seq<RawRemote>): map<RemoteKey, EventId>
    requires RemotesKeyed(rows)
  {
    map i | 0 <= i < |rows| && GoodRemote(rows[i]) ::
      (rows[i].peer.value, rows[i].context.value, rows[i].name.value) := rows[i].head.value
  }

  function Decode(raw: RawStore): Tables
    requires Keyed(raw)
  {
    Tables(DecodeContexts(raw.contexts), DecodeAuthors(raw.authors), DecodeEvents(raw.events), DecodeEdges(raw.edges),
           DecodeLocals(raw.locals), DecodeRemotes(raw.remotes))
  }

  // ---------------------------------------------------------------- foreign keys over cells

  ghost predicate HasContext(rows: seq<RawContext>, c: Cell<ContextId>) {
    exists i :: 0 <= i < |rows| && rows[i].context == c
  }

  ghost predicate HasEvent(rows: seq<RawEvent>, id: Cell<EventId>) {
    exists i :: 0 <= i < |rows| && rows[i].id == id
  }

  /** `PRAGMA foreign_key_check`: every child cell occurs in the referenced key column. */
  ghost predicate RawForeignKeys(raw: RawStore) {
    && (forall i :: 0 <= i < |raw.authors| ==> HasContext(raw.contexts, raw.authors[i].context))
    && (forall i :: 0 <= i < |raw.events| ==> HasContext(raw.contexts, raw.events[i].context))
    && (forall i :: 0 <= i < |raw.edges| ==> HasEvent(raw.events, raw.edges[i].child) && HasEvent(raw.events, raw.edges[i].parent))
    && (forall i :: 0 <= i < |raw.locals| ==> HasContext(raw.contexts, raw.locals[i].context) && HasEvent(raw.events, raw.locals[i].head))
    && (forall i :: 0 <= i < |raw.remotes| ==> HasContext(raw.contexts, raw.remotes[i].context) && HasEvent(raw.events, raw.remotes[i].head))
  }

  lemma HasContextDecoded(rows: seq<RawContext>, c: ContextId)
    requires ContextsKeyed(rows) && All(rows, GoodContext)
    ensures HasContext(rows, Good(c)) <==> c in DecodeContexts(rows)
  {
    if c in DecodeContexts(rows) {
      var i :| 0 <= i < |rows| && GoodContext(rows[i]) && rows[i].context.value == c;
      assert rows[i].context == Good(c);
    }
    if HasContext(rows, Good(c)) {
      var i :| 0 <= i < |rows| && rows[i].context == Good(c);
      assert GoodContext(rows[i]) && rows[i].context.value == c;
    }
  }

  lemma HasEventDecoded(rows: seq<RawEvent>, id: EventId)
    requires EventsKeyed(rows) && All(rows, GoodEvent)
    ensures HasEvent(rows, Good(id)) <==> id in DecodeEvents(rows)
  {
    if id in DecodeEvents(rows) {
      var i :| 0 <= i < |rows| && GoodEvent(rows[i]) && rows[i].id.value == id;
      assert rows[i].id == Good(id);
    }
    if HasEvent(rows, Good(id)) {
      var i :| 0 <= i < |rows| && rows[i].id == Good(id);
      assert GoodEvent(rows[i]) && rows[i].id.value == id;
    }
  }

  lemma AuthorKeys(raw: RawStore)
    requires Keyed(raw) && CellsGood(raw)
    ensures (forall i :: 0 <= i < |raw.authors| ==> HasContext(raw.contexts, raw.authors[i].context))
      <==> (forall a :: a in DecodeAuthors(raw.authors) ==> a.0 in DecodeContexts(raw.contexts))
  {
    hide HasContext, DecodeContexts;
    forall i | 0 <= i < |raw.authors|
      ensures HasContext(raw.contexts, raw.authors[i].context) <==> raw.authors[i].context.value in DecodeContexts(raw.contexts)
      ensures (raw.authors[i].context.value, raw.authors[i].author.value) in DecodeAuthors(raw.authors)
    {
      assert GoodAuthor(raw.authors[i]);
      HasContextDecoded(raw.contexts, raw.authors[i].context.value);
    }
  }

  lemma EventKeys(raw: RawStore)
    requires Keyed(raw) && CellsGood(raw)
    ensures (forall i :: 0 <= i < |raw.events| ==> HasContext(raw.contexts, raw.events[i].context))
      <==> (forall id :: id in DecodeEvents(raw.events) ==> DecodeEvents(raw.events)[id].context in DecodeContexts(raw.contexts))
  {
    hide HasContext, DecodeContexts;
    var m := DecodeEvents(raw.events);
    forall i | 0 <= i < |raw.events|
      ensures HasContext(raw.contexts, raw.events[i].context) <==> raw.events[i].context.value in DecodeContexts(raw.contexts)
      ensures raw.events[i].id.value in m && m[raw.events[i].id.value].context == raw.events[i].context.value
    {
      assert GoodEvent(raw.events[i]);
      HasContextDecoded(raw.contexts, raw.events[i].context.value);
    }
  }

  lemma EdgeKeys(raw: RawStore)
    requires Keyed(raw) && CellsGood(raw)
    ensures (forall i :: 0 <= i < |raw.edges| ==> HasEvent(raw.events, raw.edges[i].child) && HasEvent(raw.events, raw.edges[i].parent))
      <==> (forall k :: k in DecodeEdges(raw.edges) ==> k.0 in DecodeEvents(raw.events) && DecodeEdges(raw.edges)[k] in DecodeEvents(raw.events))
  {
    hide HasEvent, DecodeEvents;
    var m := DecodeEdges(raw.edges);
    forall i | 0 <= i < |raw.edges|
      ensures HasEvent(raw.events, raw.edges[i].child) <==> raw.edges[i].child.value in DecodeEvents(raw.events)
      ensures HasEvent(raw.events, raw.edges[i].parent) <==> raw.edges[i].parent.value in DecodeEvents(raw.events)
      ensures (raw.edges[i].child.value, raw.edges[i].ordinal.value) in m
      ensures m[(raw.edges[i].child.value, raw.edges[i].ordinal.value)] == raw.edges[i].parent.value
    {
      assert UsableEdge(raw.edges[i]);
      HasEventDecoded(raw.events, raw.edges[i].child.value);
      HasEventDecoded(raw.events, raw.edges[i].parent.value);
      assert EdgeKeyOf(raw.edges[i]) in m;
    }
  }

  lemma RefRowKeys(raw: RawStore)
    requires Keyed(raw) && CellsGood(raw)
    ensures (forall i :: 0 <= i < |raw.locals| ==> HasContext(raw.contexts, raw.locals[i].context) && HasEvent(raw.events, raw.locals[i].head))
      <==> (forall k :: k in DecodeLocals(raw.locals) ==>
              k.0 in DecodeContexts(raw.contexts) && DecodeLocals(raw.locals)[k] in DecodeEvents(raw.events))
    ensures (forall i :: 0 <= i < |raw.remotes| ==> HasContext(raw.contexts, raw.remotes[i].context) && HasEvent(raw.events, raw.remotes[i].head))
      <==> (forall k :: k in DecodeRemotes(raw.remotes) ==>
              k.1 in DecodeContexts(raw.contexts) && DecodeRemotes(raw.remotes)[k] in DecodeEvents(raw.events))
  {
    hide HasContext, HasEvent, DecodeContexts, DecodeEvents;
    var l := DecodeLocals(raw.locals);
    forall i | 0 <= i < |raw.locals|
      ensures HasContext(raw.contexts, raw.locals[i].context) <==> raw.locals[i].context.value in DecodeContexts(raw.contexts)
      ensures HasEvent(raw.events, raw.locals[i].head) <==> raw.locals[i].head.value in DecodeEvents(raw.events)
      ensures (raw.locals[i].context.value, raw.locals[i].name.value) in l
      ensures l[(raw.locals[i].context.value, raw.locals[i].name.value)] == raw.locals[i].head.value
    {
      assert GoodLocal(raw.locals[i]);
      HasContextDecoded(raw.contexts, raw.locals[i].context.value);
      HasEventDecoded(raw.events, raw.locals[i].head.value);
    }
    var r := DecodeRemotes(raw.remotes);
    forall i | 0 <= i < |raw.remotes|
      ensures HasContext(raw.contexts, raw.remotes[i].context) <==> raw.remotes[i].context.value in DecodeContexts(raw.contexts)
      ensures HasEvent(raw.events, raw.remotes[i].head) <==> raw.remotes[i].head.value in DecodeEvents(raw.events)
      ensures (raw.remotes[i].peer.value, raw.remotes[i].context.value, raw.remotes[i].name.value) in r
      ensures r[(raw.remotes[i].peer.value, raw.remotes[i].context.value, raw.remotes[i].name.value)] == raw.remotes[i].head.value
    {
      assert GoodRemote(raw.remotes[i]);
      HasContextDecoded(raw.contexts, raw.remotes[i].context.value);
      HasEventDecoded(raw.events, raw.remotes[i].head.value);
    }
  }

  /** On decodable rows the cell-level check is the typed one. */
  lemma RawKeysDecode(raw: RawStore)
    requires Keyed(raw) && CellsGood(raw)
    ensures RawForeignKeys(raw) <==> ForeignKeys(Decode(raw))
  {
    hide HasContext, HasEvent, DecodeContexts, DecodeEvents, DecodeAuthors, DecodeEdges, DecodeLocals, DecodeRemotes;
    AuthorKeys(raw);
    EventKeys(raw);
    EdgeKeys(raw);
    RefRowKeys(raw);
  }

  // ---------------------------------------------------------------- the edges of one child

  /** The stored rows of one child in row order, as the scan groups them. */
  function ChildRows(rows: seq<RawEdge>, id: EventId): seq<(int, EventId)> {
    if rows == [] then []
    else
      var r := rows[|rows| - 1];
      var before := ChildRows(rows[..|rows| - 1], id);
      if GoodEdge(r) && r.child.value == id then before + [(r.ordinal.value, r.parent.value)] else before
  }

  predicate Exact(stored: seq<(int, EventId)>, parents: seq<EventId>) {
    |stored| == |parents| && forall i :: 0 <= i < |stored| ==> stored[i] == (i, parents[i])
  }

  ghost predicate RowAt(rows: seq<RawEdge>, id: EventId, o: int, p: EventId) {
    exists i :: 0 <= i < |rows| && rows[i] == RawEdge(Good(id), Good(o), Good(p))
  }

  lemma {:induction false} ChildRowsAre(rows: seq<RawEdge>, id: EventId)
    requires EdgesKeyed(rows)
    ensures forall o: int, p: EventId :: (o, p) in ChildRows(rows, id) <==> RowAt(rows, id, o, p)
    ensures forall i, j :: 0 <= i < j < |ChildRows(rows, id)| ==> ChildRows(rows, id)[i].0 < ChildRows(rows, id)[j].0
  {
    if rows != [] {
      var n := |rows| - 1;
      var init := rows[..n];
      ChildRowsAre(init, id);
      forall o: int, p: EventId ensures RowAt(rows, id, o, p) <==> RowAt(init, id, o, p) || rows[n] == RawEdge(Good(id), Good(o), Good(p)) {
        if RowAt(init, id, o, p) {
          var i :| 0 <= i < n && init[i] == RawEdge(Good(id), Good(o), Good(p));
          assert rows[i] == init[i];
        }
        if RowAt(rows, id, o, p) && rows[n] != RawEdge(Good(id), Good(o), Good(p)) {
          var i :| 0 <= i < |rows| && rows[i] == RawEdge(Good(id), Good(o), Good(p));
          assert init[i] == rows[i];
        }
      }
      var before := ChildRows(init, id);
      forall i | 0 <= i < |before| && GoodEdge(rows[n]) && rows[n].child.value == id ensures before[i].0 < rows[n].ordinal.value {
        assert (before[i].0, before[i].1) in before;
        var k :| 0 <= k < n && init[k] == RawEdge(Good(id), Good(before[i].0), Good(before[i].1));
        assert rows[k] == init[k];
      }
    }
  }

  /** Strictly ascending naturals that are exactly 0..n are in place. */
  lemma {:induction false} InPlace(s: seq<(int, EventId)>, k: nat)
    requires forall i, j :: 0 <= i < j < |s| ==> s[i].0 < s[j].0
    requires forall i :: 0 <= i < |s| ==> 0 <= s[i].0 < |s|
    requires k < |s|
    ensures s[k].0 == k
  {
    AtLeast(s, k);
    AtMost(s, k);
  }

  lemma {:induction false} AtLeast(s: seq<(int, EventId)>, k: nat)
    requires (forall i, j :: 0 <= i < j < |s| ==> s[i].0 < s[j].0) && k < |s|
    requires forall i :: 0 <= i < |s| ==> 0 <= s[i].0
    ensures s[k].0 >= k
  {
    if k > 0 { AtLeast(s, k - 1); }
  }

  lemma {:induction false} AtMost(s: seq<(int, EventId)>, k: nat)
    requires (forall i, j :: 0 <= i < j < |s| ==> s[i].0 < s[j].0) && k < |s|
    requires forall i :: 0 <= i < |s| ==> s[i].0 < |s|
    ensures s[k].0 <= k
    decreases |s| - k
  {
    if k < |s| - 1 { AtMost(s, k + 1); }
  }

  lemma EdgeDecoded(rows: seq<RawEdge>, id: EventId, o: nat, p: EventId)
    requires EdgesKeyed(rows)
    ensures RowAt(rows, id, o, p) <==> (id, o) in DecodeEdges(rows) && DecodeEdges(rows)[(id, o)] == p
  {
    var m := DecodeEdges(rows);
    if RowAt(rows, id, o, p) {
      var i :| 0 <= i < |rows| && rows[i] == RawEdge(Good(id), Good(o), Good(p));
      assert UsableEdge(rows[i]) && EdgeKeyOf(rows[i]) == (id, o);
    }
    if (id, o) in m && m[(id, o)] == p {
      var i :| 0 <= i < |rows| && UsableEdge(rows[i]) && EdgeKeyOf(rows[i]) == (id, o) && rows[i].parent.value == p;
      assert rows[i] == RawEdge(Good(id), Good(o), Good(p));
    }
  }

  /** The positional comparison of one child's rows decides whether its edges are its signed parents. */
  lemma ExactMeansChildEdges(rows: seq<RawEdge>, id: EventId, parents: seq<EventId>)
    requires EdgesKeyed(rows)
    ensures Exact(ChildRows(rows, id), parents) <==>
      && ChildEdges(DecodeEdges(rows), id, parents)
      && forall o: int, p: EventId :: RowAt(rows, id, o, p) ==> o >= 0
  {
    hide DecodeEdges, RowAt, ChildRows;
    var s := ChildRows(rows, id);
    var m := DecodeEdges(rows);
    ChildRowsAre(rows, id);
    forall o: nat, p: EventId ensures RowAt(rows, id, o, p) <==> (id, o) in m && m[(id, o)] == p {
      EdgeDecoded(rows, id, o, p);
    }
    if Exact(s, parents) {
      forall o: int, p: EventId | RowAt(rows, id, o, p) ensures 0 <= o < |parents| && p == parents[o] {
        assert (o, p) in s;
      }
      forall o: nat | (id, o) in m ensures o < |parents| {
        assert RowAt(rows, id, o, m[(id, o)]);
      }
      forall i: nat ensures ((id, i) in m <==> i < |parents|) && (i < |parents| ==> m[(id, i)] == parents[i]) {
        if i < |parents| {
          assert s[i] == (i, parents[i]) && s[i] in s;
          assert RowAt(rows, id, i, parents[i]);
        }
      }
    }
    if ChildEdges(m, id, parents) && (forall o: int, p: EventId :: RowAt(rows, id, o, p) ==> o >= 0) {
      forall i | 0 <= i < |s| ensures 0 <= s[i].0 < |parents| && s[i].1 == parents[s[i].0] {
        assert (s[i].0, s[i].1) in s;
        assert RowAt(rows, id, s[i].0, s[i].1);
      }
      SameLength(s, m, rows, id, parents);
      forall i | 0 <= i < |s| ensures s[i] == (i, parents[i]) {
        InPlace(s, i);
      }
    }
  }

  lemma SameLength(s: seq<(int, EventId)>, m: map<EdgeKey, EventId>, rows: seq<RawEdge>, id: EventId, parents: seq<EventId>)
    requires forall i, j :: 0 <= i < j < |s| ==> s[i].0 < s[j].0
    requires forall i :: 0 <= i < |s| ==> 0 <= s[i].0 < |parents| && s[i].1 == parents[s[i].0]
    requires forall o: int, p: EventId :: (o, p) in s <==> RowAt(rows, id, o, p)
    requires forall o: nat, p: EventId :: RowAt(rows, id, o, p) <==> (id, o) in m && m[(id, o)] == p
    requires ChildEdges(m, id, parents)
    ensures |s| == |parents|
  {
    hide RowAt;
    var os := seq(|s|, i requires 0 <= i < |s| => s[i].0);
    var full := seq(|parents|, i requires 0 <= i < |parents| => i);
    assert Distinct(os) && Distinct(full);
    assert Elems(os) == Elems(full) by {
      forall o | o in os ensures o in full {
        var i :| 0 <= i < |s| && os[i] == o;
        assert full[o] == o;
      }
      forall o | o in full ensures o in os {
        assert RowAt(rows, id, o, parents[o]);
        var i :| 0 <= i < |s| && s[i] == (o, parents[o]);
        assert os[i] == o;
      }
    }
    DistinctSize(os);
    DistinctSize(full);
  }
}
