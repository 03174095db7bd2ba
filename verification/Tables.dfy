/** The store's tables, the reads the operations make, and the full-store invariant. */
module Tables {
  import opened Base
  import opened Sorting
  import opened Graph
  import opened Names

  datatype ContextRow = ContextRow(expected: EventId, genesis: Option<EventId>, state: int)
  datatype EventRow = EventRow(context: ContextId, author: AuthorId, kind: string, wire: Wire)

  const PENDING := 0
  const ACTIVE := 1

  // Primary keys: child and ordinal; context and name; peer, context and name.
  type EdgeKey = (EventId, nat)
  type LocalKey = (ContextId, string)
  type RemoteKey = (string, ContextId, string)

  datatype Tables = Tables(
    contexts: map<ContextId, ContextRow>,
    authors: set<(ContextId, AuthorId)>,
    events: map<EventId, EventRow>,
    edges: map<EdgeKey, EventId>,
    localRefs: map<LocalKey, EventId>,
    remoteRefs: map<RemoteKey, EventId>)

  const EMPTY := Tables(map[], {}, map[], map[], map[], map[])

  // ---------------------------------------------------------------- reads

  function Lookup<K, V>(m: map<K, V>, k: K): Option<V> {
    if k in m then Some(m[k]) else None
  }

  predicate ConsistentRow(row: ContextRow) {
    && (row.state == PENDING || row.state == ACTIVE)
    && (row.state == PENDING ==> row.genesis == None)
    && (row.state == ACTIVE ==> row.genesis == Some(row.expected))
  }

  /** An inconsistent row is corruption; an absent one is not an error by itself. */
  function ContextState(t: Tables, c: ContextId): Result<Option<ContextRow>, StoreError> {
    if c !in t.contexts then Ok(None)
    else if ConsistentRow(t.contexts[c]) then Ok(Some(t.contexts[c]))
    else Err(CorruptStorage)
  }

  function KnownContext(t: Tables, c: ContextId): Result<ContextRow, StoreError> {
    var row :- ContextState(t, c);
    if row.Some? then Ok(row.value) else Err(ContextUnknown)
  }

  /** Context named by the stored envelope itself, not by the denormalized column. */
  function AuthoritativeContext(t: Tables, id: EventId): Result<Option<ContextId>, StoreError> {
    if id !in t.events then Ok(None)
    else
      var e := FromWire(t.events[id].wire);
      if e.Some? && e.value.id == id then Ok(Some(e.value.body.context)) else Err(CorruptStorage)
  }

  /** Parents by ascending ordinal, from ordinal `k` on. */
  function EdgesFrom(edges: map<EdgeKey, EventId>, id: EventId, k: nat): seq<EventId>
    decreases MAX_PARENTS - k
  {
    if k >= MAX_PARENTS then []
    else (if (id, k) in edges then [edges[(id, k)]] else []) + EdgesFrom(edges, id, k + 1)
  }

  predicate ValidateStored(t: Tables, e: Event) {
    && e.id in t.events
    && t.events[e.id] == EventRow(e.body.context, e.body.author, e.body.kind, ToWire(e))
    && EdgesFrom(t.edges, e.id, 0) == e.body.parents
  }

  function LoadVerified(t: Tables, id: EventId): Result<Event, StoreError> {
    if id !in t.events then Err(ParentMissing(id))
    else
      var e := FromWire(t.events[id].wire);
      if e.Some? && e.value.id == id && ValidateStored(t, e.value) then Ok(e.value) else Err(CorruptStorage)
  }

  // ---------------------------------------------------------------- the invariant

  /** Every row whose envelope parses. */
  function Parsed(rows: map<EventId, EventRow>): map<EventId, Event> {
    map id | id in rows && rows[id].wire.Encoded? :: rows[id].wire.event
  }

  function Links(ev: map<EventId, Event>): Graph {
    map id | id in ev :: ev[id].body.parents
  }

  predicate ContextsOk(contexts: map<ContextId, ContextRow>) {
    forall c :: c in contexts ==> ConsistentRow(contexts[c])
  }

  ghost predicate AuthorsOk(contexts: map<ContextId, ContextRow>, authors: set<(ContextId, AuthorId)>) {
    forall c :: c in contexts ==> exists a :: (c, a) in authors
  }

  predicate RowOk(authors: set<(ContextId, AuthorId)>, id: EventId, row: EventRow) {
    && row.wire.Encoded?
    && row.wire.slack == 0
    && var e := row.wire.event;
      && e.id == id
      && row.context == e.body.context
      && row.author == e.body.author
      && row.kind == e.body.kind
      && (e.body.context, e.body.author) in authors
  }

  predicate RowsOk(authors: set<(ContextId, AuthorId)>, rows: map<EventId, EventRow>) {
    forall id :: id in rows ==> RowOk(authors, id, rows[id])
  }

  /** The edges of one child are exactly its signed parents, in order. */
  ghost predicate ChildEdges(edges: map<EdgeKey, EventId>, id: EventId, parents: seq<EventId>) {
    forall i: nat :: ((id, i) in edges <==> i < |parents|) && (i < |parents| ==> edges[(id, i)] == parents[i])
  }

  ghost predicate EdgesOk(edges: map<EdgeKey, EventId>, ev: map<EventId, Event>) {
    && (forall id :: id in ev ==> ChildEdges(edges, id, ev[id].body.parents))
    && (forall k :: k in edges ==> k.0 in ev)
  }

  predicate ParentsOf(ev: map<EventId, Event>, e: Event) {
    forall p :: p in e.body.parents ==> p in ev && ev[p].body.context == e.body.context
  }

  predicate ParentsOk(ev: map<EventId, Event>) {
    forall id :: id in ev ==> ParentsOf(ev, ev[id])
  }

  predicate IsGenesis(expected: EventId, e: Event) {
    e.id == expected && e.body.kind == GENESIS_KIND && e.body.parents == []
  }

  /** An active context holds its genesis. */
  predicate ActiveGenesis(ev: map<EventId, Event>, c: ContextId, row: ContextRow) {
    row.state == ACTIVE ==>
      && row.expected in ev
      && row.genesis == Some(row.expected)
      && var e := ev[row.expected];
        e.body.context == c && e.body.kind == GENESIS_KIND && e.body.parents == []
  }

  /** Events live in contexts that are not pending, and only the genesis looks like one. */
  predicate EventGenesis(contexts: map<ContextId, ContextRow>, id: EventId, e: Event) {
    var row := Lookup(contexts, e.body.context);
    var expected := if row.Some? then Some(row.value.expected) else None;
    && !(row.Some? && row.value.state == PENDING)
    && (e.body.parents == [] ==> expected == Some(id))
    && (e.body.kind == GENESIS_KIND ==> expected == Some(id))
  }

  predicate GenesisOk(contexts: map<ContextId, ContextRow>, ev: map<EventId, Event>) {
    && (forall c :: c in contexts ==> ActiveGenesis(ev, c, contexts[c]))
    && (forall id :: id in ev ==> EventGenesis(contexts, id, ev[id]))
  }

  predicate Targets(ev: map<EventId, Event>, c: ContextId, head: EventId) {
    head in ev && ev[head].body.context == c
  }

  ghost predicate RefsOk(localRefs: map<LocalKey, EventId>, remoteRefs: map<RemoteKey, EventId>,
                         ev: map<EventId, Event>)
  {
    && (forall k :: k in localRefs ==> ValidName(k.1) && Targets(ev, k.0, localRefs[k]))
    && (forall k :: k in remoteRefs ==> ValidName(k.0) && ValidName(k.2) && Targets(ev, k.1, remoteRefs[k]))
  }

  /** Foreign keys, which the engine enforces on every connection. */
  predicate CoreKeys(contexts: map<ContextId, ContextRow>, authors: set<(ContextId, AuthorId)>,
                     rows: map<EventId, EventRow>, edges: map<EdgeKey, EventId>)
  {
    && (forall a :: a in authors ==> a.0 in contexts)
    && (forall id :: id in rows ==> rows[id].context in contexts)
    && (forall k :: k in edges ==> k.0 in rows && edges[k] in rows)
  }

  predicate RefKeys(t: Tables) {
    && (forall k :: k in t.localRefs ==> k.0 in t.contexts && t.localRefs[k] in t.events)
    && (forall k :: k in t.remoteRefs ==> k.1 in t.contexts && t.remoteRefs[k] in t.events)
  }

  predicate ForeignKeys(t: Tables) {
    CoreKeys(t.contexts, t.authors, t.events, t.edges) && RefKeys(t)
  }

  /** Contexts, authorization, events and edges agree with the signed envelopes. */
  ghost predicate CoreInv(contexts: map<ContextId, ContextRow>, authors: set<(ContextId, AuthorId)>,
                          rows: map<EventId, EventRow>, edges: map<EdgeKey, EventId>)
  {
    var ev := Parsed(rows);
    && CoreKeys(contexts, authors, rows, edges)
    && ContextsOk(contexts)
    && AuthorsOk(contexts, authors)
    && RowsOk(authors, rows)
    && EdgesOk(edges, ev)
    && ParentsOk(ev)
    && GenesisOk(contexts, ev)
    && !Cyclic(Links(ev))
  }

  ghost predicate Inv(t: Tables) {
    && CoreInv(t.contexts, t.authors, t.events, t.edges)
    && RefKeys(t)
    && RefsOk(t.localRefs, t.remoteRefs, Parsed(t.events))
  }

  // ---------------------------------------------------------------- consequences

  lemma {:induction false} EdgesFromExact(edges: map<EdgeKey, EventId>, id: EventId, parents: seq<EventId>, k: nat)
    requires ChildEdges(edges, id, parents) && k <= |parents| <= MAX_PARENTS
    ensures EdgesFrom(edges, id, k) == parents[k..]
    decreases MAX_PARENTS - k
  {
    if k < |parents| {
      EdgesFromExact(edges, id, parents, k + 1);
    } else if k < MAX_PARENTS {
      EdgesFromEmpty(edges, id, k);
    }
  }

  lemma {:induction false} EdgesFromEmpty(edges: map<EdgeKey, EventId>, id: EventId, k: nat)
    requires forall i: nat :: k <= i ==> (id, i) !in edges
    ensures EdgesFrom(edges, id, k) == []
    decreases MAX_PARENTS - k
  {
    if k < MAX_PARENTS {
      EdgesFromEmpty(edges, id, k + 1);
    }
  }

  /** Every stored event loads, and loads as the event the parsed table holds. */
  lemma InvLoads(t: Tables, id: EventId)
    requires Inv(t) && id in t.events
    ensures id in Parsed(t.events) && LoadVerified(t, id) == Ok(Parsed(t.events)[id])
    ensures AuthoritativeContext(t, id) == Ok(Some(Parsed(t.events)[id].body.context))
    ensures Parsed(t.events)[id].id == id
  {
    var ev := Parsed(t.events);
    assert RowOk(t.authors, id, t.events[id]);
    EdgesFromExact(t.edges, id, ev[id].body.parents, 0);
    assert ev[id].body.parents[0..] == ev[id].body.parents;
  }

  lemma ParsedKeys(rows: map<EventId, EventRow>, c: ContextId, head: EventId)
    requires Targets(Parsed(rows), c, head)
    ensures head in rows
  {
  }

  lemma InvGraph(t: Tables)
    requires Inv(t)
    ensures Parsed(t.events).Keys == t.events.Keys
    ensures Closed(Links(Parsed(t.events)))
  {
    var ev := Parsed(t.events);
    forall id | id in t.events ensures id in ev {
      assert RowOk(t.authors, id, t.events[id]);
    }
    forall c, p | Edge(Links(ev), c, p) ensures p in ev {
      assert ParentsOf(ev, ev[c]);
    }
  }

  /** An ancestor lies in its descendant's context. */
  lemma {:induction false} PathContext(ev: map<EventId, Event>, p: seq<EventId>)
    requires ParentsOk(ev) && |p| > 0 && p[0] in ev && Chain(Links(ev), p)
    ensures p[|p| - 1] in ev && ev[p[|p| - 1]].body.context == ev[p[0]].body.context
  {
    if |p| > 1 {
      assert Edge(Links(ev), p[0], p[1]);
      assert ParentsOf(ev, ev[p[0]]);
      var q := p[1..];
      forall i, j | 0 <= i && j == i + 1 && j < |q| ensures Edge(Links(ev), q[i], q[j]) {
        assert Edge(Links(ev), p[i + 1], p[j + 1]);
      }
      PathContext(ev, q);
    }
  }

  lemma {:induction false} RootAbove(ev: map<EventId, Event>, s: seq<EventId>, k: nat)
    requires Topo(Links(ev), s) && k < |s|
    ensures exists r :: r in ev && ev[r].body.parents == [] && Reach(Links(ev), s[k], r)
    decreases k
  {
    var g := Links(ev);
    assert s[k] in g;
    if g[s[k]] == [] {
      ReachSelf(g, s[k]);
    } else {
      var p := g[s[k]][0];
      assert p in g[s[k]];
      assert p in s[..k];
      var m :| 0 <= m < k && s[m] == p;
      RootAbove(ev, s, m);
      var r :| r in ev && ev[r].body.parents == [] && Reach(g, p, r);
      ReachEdge(g, s[k], p);
      ReachTrans(g, s[k], p, r);
    }
  }

  lemma HasRoot(t: Tables, id: EventId) returns (r: EventId)
    requires Inv(t) && id in Parsed(t.events)
    ensures r in Parsed(t.events) && Parsed(t.events)[r].body.parents == [] && Reach(Links(Parsed(t.events)), id, r)
    ensures Parsed(t.events)[r].body.context == Parsed(t.events)[id].body.context
  {
    var ev := Parsed(t.events);
    var g := Links(ev);
    InvGraph(t);
    PostOrderTotal(g, [id]);
    PostOrderSound(g, [], [id], []);
    var s := PostOrder(g, [], [id], []).order;
    assert id in [id];
    var k :| 0 <= k < |s| && s[k] == id;
    RootAbove(ev, s, k);
    r :| r in ev && ev[r].body.parents == [] && Reach(g, id, r);
    var p :| IsPath(g, id, p, r);
    PathContext(ev, p);
  }

  /** Every event of a sound store descends from the unique genesis of its context. */
  lemma DescendsFromGenesis(t: Tables, id: EventId)
    requires Inv(t) && id in t.events
    ensures id in Parsed(t.events) && Parsed(t.events)[id].body.context in t.contexts
    ensures Reach(Links(Parsed(t.events)), id, t.contexts[Parsed(t.events)[id].body.context].expected)
    ensures forall x :: x in Parsed(t.events) && Parsed(t.events)[x].body.kind == GENESIS_KIND
                        && Parsed(t.events)[x].body.context == Parsed(t.events)[id].body.context
              ==> x == t.contexts[Parsed(t.events)[id].body.context].expected
  {
    var ev := Parsed(t.events);
    assert RowOk(t.authors, id, t.events[id]);
    var r := HasRoot(t, id);
    assert EventGenesis(t.contexts, r, ev[r]);
    forall x | x in ev && ev[x].body.kind == GENESIS_KIND && ev[x].body.context == ev[id].body.context
      ensures x == t.contexts[ev[id].body.context].expected
    {
      assert EventGenesis(t.contexts, x, ev[x]);
    }
  }
}
