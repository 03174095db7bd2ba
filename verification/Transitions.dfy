/** What each store transaction does to the tables.  An error carries no tables: it changes nothing. */
module Transitions {
  import opened Base
  import opened Sorting
  import opened Graph
  import opened Names
  import opened Tables

  const MAX_AUTHORIZED_AUTHORS := 1024

  datatype ContextProvision = ContextProvision(context: ContextId, expectedGenesis: EventId, authors: seq<AuthorId>)
  datatype Expectation = Absent | Head(id: EventId)
  datatype RefMutation =
    | NoMove
    | CompareAndSwap(context: ContextId, name: Name, expected: Expectation, newHead: EventId)
  datatype AdmissionStatus = Inserted | AlreadyPresent | AlreadyApplied

  // ---------------------------------------------------------------- contexts and authors

  function ValidateAuthors(authors: seq<AuthorId>): Result<(), StoreError> {
    if |authors| > MAX_AUTHORIZED_AUTHORS then Err(LimitExceeded)
    else if authors == [] then Err(UnauthorizedAuthor)
    else if !Ascending(authors) then Err(ContextProvisionMismatch)
    else Ok(())
  }

  function AuthorsOf(t: Tables, c: ContextId): set<AuthorId> {
    set p | p in t.authors && p.0 == c :: p.1
  }

  function Provisioned(t: Tables, p: ContextProvision): Tables {
    t.(contexts := t.contexts[p.context := ContextRow(p.expectedGenesis, None, PENDING)],
       authors := t.authors + set a | a in p.authors :: (p.context, a))
  }

  /** `pendingOnly` separates joining, which accepts only an untouched provision, from provisioning. */
  function ProvisionSpec(t: Tables, p: ContextProvision, pendingOnly: bool): Result<Tables, StoreError> {
    var _ :- ValidateAuthors(p.authors);
    var row :- ContextState(t, p.context);
    if row.None? then Ok(Provisioned(t, p))
    else if pendingOnly && row.value.state != PENDING then Err(ContextProvisionMismatch)
    else if row.value.expected == p.expectedGenesis && AuthorsOf(t, p.context) == Elems(p.authors) then Ok(t)
    else Err(ContextProvisionMismatch)
  }

  function AuthorizeSpec(t: Tables, c: ContextId, a: AuthorId): Result<(Tables, bool), StoreError> {
    var _ :- KnownContext(t, c);
    Ok((t.(authors := t.authors + {(c, a)}), (c, a) !in t.authors))
  }

  // ---------------------------------------------------------------- admission

  function CheckParents(t: Tables, c: ContextId, parents: seq<EventId>): Result<(), StoreError> {
    if parents == [] then Ok(())
    else
      var pc :- AuthoritativeContext(t, parents[0]);
      if pc.None? then Err(ParentMissing(parents[0]))
      else if pc.value != c then Err(ParentContextMismatch(parents[0]))
      else CheckParents(t, c, parents[1..])
  }

  /** Genesis policy, then authorization, then parents. */
  function CheckEvent(t: Tables, c: ContextId, expected: EventId, state: int, e: Event): Result<(), StoreError> {
    var genesis := IsGenesis(expected, e);
    if state == PENDING && !genesis then Err(GenesisMismatch)
    else if state != PENDING && !genesis && (e.body.parents == [] || e.body.kind == GENESIS_KIND) then Err(GenesisMismatch)
    else if (c, e.body.author) !in t.authors then Err(UnauthorizedAuthor)
    else CheckParents(t, c, e.body.parents)
  }

  function EdgeRows(e: Event): map<EdgeKey, EventId> {
    map i: nat | i < |e.body.parents| :: (e.id, i) := e.body.parents[i]
  }

  function InsertEvent(t: Tables, e: Event): Tables {
    t.(events := t.events[e.id := EventRow(e.body.context, e.body.author, e.body.kind, ToWire(e))],
       edges := t.edges + EdgeRows(e))
  }

  function Activate(t: Tables, c: ContextId, id: EventId): Tables {
    if c in t.contexts then t.(contexts := t.contexts[c := t.contexts[c].(genesis := Some(id), state := ACTIVE)]) else t
  }

  /** `genesis_event_id` is unique across contexts. */
  predicate GenesisTaken(t: Tables, c: ContextId, id: EventId) {
    exists d :: d in t.contexts && d != c && t.contexts[d].genesis == Some(id)
  }

  /** Inserts an absent event, or re-validates the identical stored one. */
  function StoreEvent(t: Tables, e: Event): Result<Tables, StoreError> {
    if e.id !in t.events then Ok(InsertEvent(t, e))
    else if t.events[e.id].wire != ToWire(e) then Err(EventCollision)
    else if ValidateStored(t, e) then Ok(t)
    else Err(CorruptStorage)
  }

  function MoveRef(t: Tables, id: EventId, m: RefMutation): Result<(Tables, bool), StoreError> {
    if m.NoMove? then Ok((t, false))
    else
      var current := Lookup(t.localRefs, (m.context, m.name));
      if current == Some(m.newHead) then Ok((t, true))
      else if (m.expected.Absent? && current.None?) || (m.expected.Head? && current == Some(m.expected.id))
      then Ok((t.(localRefs := t.localRefs[(m.context, m.name) := id]), false))
      else Err(StaleHead(current))
  }

  function AdmitSpec(t: Tables, e: Event, m: RefMutation): Result<(Tables, AdmissionStatus), StoreError> {
    if m.CompareAndSwap? && (m.context != e.body.context || m.newHead != e.id) then Err(RefMutationMismatch)
    else
      var c := e.body.context;
      var row :- KnownContext(t, c);
      var _ :- CheckEvent(t, c, row.expected, row.state, e);
      if row.state == ACTIVE && IsGenesis(row.expected, e) && e.id !in t.events then Err(CorruptStorage)
      else
        var stored :- StoreEvent(t, e);
        if row.state == PENDING && GenesisTaken(t, c, e.id) then Err(DatabaseUnavailable)
        else
          var active := if row.state == PENDING then Activate(stored, c, e.id) else stored;
          var (moved, applied) :- MoveRef(active, e.id, m);
          Ok((moved, if applied then AlreadyApplied else if e.id in t.events then AlreadyPresent else Inserted))
  }

  /** The genesis is already signed for its own, freshly drawn context. */
  function CreateContextSpec(t: Tables, e: Event, name: Name): Result<Tables, StoreError>
    requires IsGenesis(e.id, e)
  {
    var c := e.body.context;
    var row :- ContextState(t, c);
    if row.Some? then Err(ContextProvisionMismatch)
    else if e.id in t.events || GenesisTaken(t, c, e.id) then Err(DatabaseUnavailable)
    else
      var provisioned := Provisioned(t, ContextProvision(c, e.id, [e.body.author]));
      var active := Activate(InsertEvent(provisioned, e), c, e.id);
      Ok(active.(localRefs := active.localRefs[(c, name) := e.id]))
  }

  /** The event append signs: one parent, the expected head. */
  function AppendSpec(t: Tables, e: Event, name: Name, expected: EventId): Result<Tables, StoreError>
    requires e.body.parents == [expected]
  {
    if e.body.kind == GENESIS_KIND || e.body.kind == MERGE_KIND then Err(ReservedEventKind)
    else
      var (u, _) :- AdmitSpec(t, e, CompareAndSwap(e.body.context, name, Head(expected), e.id));
      Ok(u)
  }

  /** `e` is signed over the sorted requested parents. */
  function MergeSpec(t: Tables, e: Event, name: Name, expected: EventId, parents: seq<EventId>): Result<Tables, StoreError>
    requires e.body.kind == MERGE_KIND && e.body.parents == SortDedup(parents)
  {
    if !(2 <= |parents| <= MAX_PARENTS) || !Distinct(parents) || expected !in parents
    then Err(InvalidMerge)
    else
      var (u, _) :- AdmitSpec(t, e, CompareAndSwap(e.body.context, name, Head(expected), e.id));
      Ok(u)
  }

  // ---------------------------------------------------------------- refs

  function CheckTarget(t: Tables, c: ContextId, head: EventId): Result<(), StoreError> {
    var hc :- AuthoritativeContext(t, head);
    if hc.None? then Err(ParentMissing(head))
    else if hc.value != c then Err(ParentContextMismatch(head))
    else Ok(())
  }

  function CreateBranchSpec(t: Tables, c: ContextId, name: Name, head: EventId): Result<Tables, StoreError> {
    var _ :- CheckTarget(t, c, head);
    var current := Lookup(t.localRefs, (c, name));
    if current == Some(head) then Ok(t)
    else if current.Some? then Err(RefAlreadyExists)
    else Ok(t.(localRefs := t.localRefs[(c, name) := head]))
  }

  function SetRemoteSpec(t: Tables, peer: Name, c: ContextId, name: Name, head: EventId): Result<Tables, StoreError> {
    var _ :- CheckTarget(t, c, head);
    Ok(t.(remoteRefs := t.remoteRefs[(peer, c, name) := head]))
  }

  // ---------------------------------------------------------------- each step keeps the invariant

  /** What admission has established when it inserts an event that is not its context's genesis. */
  predicate ChildReady(t: Tables, e: Event) {
    var ev := Parsed(t.events);
    && e.id !in t.events
    && e.body.context in t.contexts && t.contexts[e.body.context].state == ACTIVE
    && (e.body.context, e.body.author) in t.authors
    && e.body.parents != [] && e.body.kind != GENESIS_KIND
    && ParentsOf(ev, e)
  }

  lemma ParsedInsert(t: Tables, e: Event)
    ensures Parsed(InsertEvent(t, e).events) == Parsed(t.events)[e.id := e]
    ensures Links(Parsed(t.events)[e.id := e]) == Links(Parsed(t.events))[e.id := e.body.parents]
  {
    var u := InsertEvent(t, e);
    assert u.events[e.id].wire == ToWire(e);
    assert Parsed(u.events).Keys == Parsed(t.events).Keys + {e.id};
  }

  lemma EdgesInsert(edges: map<EdgeKey, EventId>, ev: map<EventId, Event>, e: Event)
    requires EdgesOk(edges, ev) && e.id !in ev
    ensures EdgesOk(edges + EdgeRows(e), ev[e.id := e])
  {
    var all := edges + EdgeRows(e);
    assert forall k :: k in EdgeRows(e) ==> k.0 == e.id;
    assert forall i: nat :: (e.id, i) !in edges;
    forall id | id in ev ensures ChildEdges(all, id, ev[id].body.parents) {
      assert ChildEdges(edges, id, ev[id].body.parents);
      assert forall i: nat :: (id, i) !in EdgeRows(e);
    }
    assert ChildEdges(all, e.id, e.body.parents);
  }

  lemma GraphInsert(ev: map<EventId, Event>, e: Event)
    requires ParentsOk(ev) && !Cyclic(Links(ev)) && e.id !in ev && ParentsOf(ev, e)
    ensures !Cyclic(Links(ev)[e.id := e.body.parents]) && ParentsOk(ev[e.id := e])
  {
    var g := Links(ev);
    forall c, p | Edge(g, c, p) ensures p in g { assert ParentsOf(ev, ev[c]); }
    assert Elems(e.body.parents) <= g.Keys;
    ExtendAcyclic(g, e.id, e.body.parents);
    hide Cyclic;
    var ew := ev[e.id := e];
    forall id | id in ew ensures ParentsOf(ew, ew[id]) {
      if id != e.id {
        assert ParentsOf(ev, ev[id]);
      }
    }
  }

  lemma RowsInsert(t: Tables, e: Event)
    requires RowsOk(t.authors, t.events) && (e.body.context, e.body.author) in t.authors
    ensures RowsOk(t.authors, InsertEvent(t, e).events)
  {
    forall id | id in InsertEvent(t, e).events ensures RowOk(t.authors, id, InsertEvent(t, e).events[id]) {
      if id != e.id { assert RowOk(t.authors, id, t.events[id]); }
    }
  }

  lemma KeysInsert(t: Tables, e: Event)
    requires ForeignKeys(t) && e.body.context in t.contexts && forall p :: p in e.body.parents ==> p in t.events
    ensures ForeignKeys(InsertEvent(t, e))
  {
    assert forall k :: k in EdgeRows(e) ==> EdgeRows(e)[k] in e.body.parents;
  }

  lemma RefsInsert(t: Tables, ev: map<EventId, Event>, e: Event)
    requires RefsOk(t.localRefs, t.remoteRefs, ev) && e.id !in ev
    ensures RefsOk(t.localRefs, t.remoteRefs, ev[e.id := e])
  {
  }

  /** Inserting an absent, authorized event above its parents keeps everything but genesis policy. */
  lemma InsertKeeps(t: Tables, e: Event)
    requires Inv(t) && e.id !in t.events
    requires e.body.context in t.contexts && (e.body.context, e.body.author) in t.authors && ParentsOf(Parsed(t.events), e)
    ensures var u := InsertEvent(t, e); var ev := Parsed(u.events);
      && ev == Parsed(t.events)[e.id := e]
      && ForeignKeys(u) && RowsOk(u.authors, u.events) && EdgesOk(u.edges, ev) && ParentsOk(ev)
      && !Cyclic(Links(ev)) && RefsOk(u.localRefs, u.remoteRefs, ev)
      && e.id !in Parsed(t.events)
  {
    hide RefsOk, Cyclic, GenesisOk, AuthorsOk, ContextsOk, RowsOk, EdgesOk, ParentsOk, CoreKeys, RefKeys, Links, EdgeRows;
    var ev := Parsed(t.events);
    assert forall p :: p in e.body.parents ==> p in t.events;
    assert e.id !in ev;
    ParsedInsert(t, e);
    hide Parsed;
    EdgesInsert(t.edges, ev, e);
    GraphInsert(ev, e);
    RowsInsert(t, e);
    KeysInsert(t, e);
    RefsInsert(t, ev, e);
  }

  lemma InsertChildInv(t: Tables, e: Event)
    requires Inv(t) && ChildReady(t, e)
    ensures Inv(InsertEvent(t, e))
  {
    hide RefsOk, Cyclic, AuthorsOk, ContextsOk, RowsOk, EdgesOk, ParentsOk, CoreKeys, RefKeys, Links, EdgeRows, Parsed;
    InsertKeeps(t, e);
    var ev := Parsed(t.events);
    var ew := ev[e.id := e];
    forall c | c in t.contexts ensures ActiveGenesis(ew, c, t.contexts[c]) {
      assert ActiveGenesis(ev, c, t.contexts[c]);
    }
    forall id | id in ew ensures EventGenesis(t.contexts, id, ew[id]) {
      if id != e.id { assert EventGenesis(t.contexts, id, ev[id]); }
    }
  }

  predicate GenesisReady(t: Tables, e: Event) {
    && e.id !in t.events
    && e.body.context in t.contexts && t.contexts[e.body.context].state == PENDING
    && IsGenesis(t.contexts[e.body.context].expected, e)
    && (e.body.context, e.body.author) in t.authors
  }

  lemma GenesisInsert(contexts: map<ContextId, ContextRow>, ev: map<EventId, Event>, e: Event)
    requires GenesisOk(contexts, ev) && ContextsOk(contexts) && e.id !in ev
    requires e.body.context in contexts && contexts[e.body.context].state == PENDING
    requires IsGenesis(contexts[e.body.context].expected, e)
    ensures var c := e.body.context;
      var row := contexts[c].(genesis := Some(e.id), state := ACTIVE);
      ContextsOk(contexts[c := row]) && GenesisOk(contexts[c := row], ev[e.id := e])
  {
    var c := e.body.context;
    var now := contexts[c := contexts[c].(genesis := Some(e.id), state := ACTIVE)];
    var ew := ev[e.id := e];
    forall d | d in now ensures ActiveGenesis(ew, d, now[d]) {
      assert ActiveGenesis(ev, d, contexts[d]);
    }
    forall id | id in ew ensures EventGenesis(now, id, ew[id]) {
      if id != e.id { assert EventGenesis(contexts, id, ev[id]); }
    }
  }

  lemma ActivateKeeps(t: Tables, c: ContextId, id: EventId)
    requires c in t.contexts && ForeignKeys(t) && AuthorsOk(t.contexts, t.authors)
    ensures ForeignKeys(Activate(t, c, id)) && AuthorsOk(Activate(t, c, id).contexts, t.authors)
  {
  }

  lemma InsertGenesisInv(t: Tables, e: Event)
    requires Inv(t) && GenesisReady(t, e)
    ensures Inv(Activate(InsertEvent(t, e), e.body.context, e.id))
  {
    hide RefsOk, Cyclic, AuthorsOk, GenesisOk, ContextsOk, RowsOk, EdgesOk, ParentsOk, CoreKeys, RefKeys, Links, EdgeRows, Parsed;
    InsertKeeps(t, e);
    GenesisInsert(t.contexts, Parsed(t.events), e);
    ActivateKeeps(InsertEvent(t, e), e.body.context, e.id);
  }

  lemma AuthorsGrow(contexts: map<ContextId, ContextRow>, authors: set<(ContextId, AuthorId)>, more: set<(ContextId, AuthorId)>,
                    rows: map<EventId, EventRow>)
    requires AuthorsOk(contexts, authors) && RowsOk(authors, rows)
    ensures AuthorsOk(contexts, authors + more) && RowsOk(authors + more, rows)
  {
    forall c | c in contexts ensures exists a :: (c, a) in authors + more {
      var a :| (c, a) in authors;
      assert (c, a) in authors + more;
    }
    forall id | id in rows ensures RowOk(authors + more, id, rows[id]) {
      assert RowOk(authors, id, rows[id]);
    }
  }

  lemma MoreAuthorsInv(t: Tables, c: ContextId, a: AuthorId)
    requires Inv(t) && c in t.contexts
    ensures Inv(t.(authors := t.authors + {(c, a)}))
  {
    hide RefsOk, Cyclic, AuthorsOk, GenesisOk, ContextsOk, RowsOk, EdgesOk, ParentsOk, Links, Parsed;
    AuthorsGrow(t.contexts, t.authors, {(c, a)}, t.events);
  }

  lemma GenesisProvisioned(contexts: map<ContextId, ContextRow>, rows: map<EventId, EventRow>, c: ContextId, row: ContextRow)
    requires GenesisOk(contexts, Parsed(rows)) && ContextsOk(contexts) && c !in contexts && row.state == PENDING && row.genesis == None
    requires forall id :: id in Parsed(rows) ==> Parsed(rows)[id].body.context in contexts
    ensures GenesisOk(contexts[c := row], Parsed(rows)) && ContextsOk(contexts[c := row])
  {
    hide Parsed;
    var ev := Parsed(rows);
    forall id | id in ev ensures EventGenesis(contexts[c := row], id, ev[id]) {
      assert EventGenesis(contexts, id, ev[id]);
    }
    var now := contexts[c := row];
    forall d | d in now ensures ActiveGenesis(ev, d, now[d]) {
      if d != c { assert ActiveGenesis(ev, d, contexts[d]); }
    }
  }

  lemma ContextsOfRows(t: Tables, id: EventId)
    requires Inv(t) && id in Parsed(t.events)
    ensures id in t.events && Parsed(t.events)[id].body.context in t.contexts
  {
    hide RefsOk, Cyclic, AuthorsOk, GenesisOk, ContextsOk, EdgesOk, ParentsOk, RefKeys, Links;
    assert RowOk(t.authors, id, t.events[id]);
  }

  lemma ProvisionedInv(t: Tables, p: ContextProvision)
    requires Inv(t) && p.context !in t.contexts && p.authors != []
    ensures Inv(Provisioned(t, p))
  {
    hide RefsOk, Cyclic, AuthorsOk, GenesisOk, ContextsOk, RowsOk, EdgesOk, ParentsOk, Links, Parsed;
    var u := Provisioned(t, p);
    forall id | id in Parsed(t.events) ensures Parsed(t.events)[id].body.context in t.contexts {
      ContextsOfRows(t, id);
    }
    GenesisProvisioned(t.contexts, t.events, p.context, ContextRow(p.expectedGenesis, None, PENDING));
    AuthorsGrow(t.contexts, t.authors, set a | a in p.authors :: (p.context, a), t.events);
    AuthorsProvisioned(t, p);
  }

  lemma AuthorsProvisioned(t: Tables, p: ContextProvision)
    requires AuthorsOk(t.contexts, t.authors + set a | a in p.authors :: (p.context, a)) && p.authors != []
    ensures AuthorsOk(Provisioned(t, p).contexts, Provisioned(t, p).authors)
  {
    assert (p.context, p.authors[0]) in Provisioned(t, p).authors;
  }

  lemma LocalRefInv(t: Tables, c: ContextId, name: Name, head: EventId)
    requires Inv(t) && c in t.contexts && Targets(Parsed(t.events), c, head)
    ensures Inv(t.(localRefs := t.localRefs[(c, name) := head]))
  {
    hide CoreInv, Parsed, ValidName;
    ParsedKeys(t.events, c, head);
  }

  lemma RemoteRefInv(t: Tables, peer: Name, c: ContextId, name: Name, head: EventId)
    requires Inv(t) && c in t.contexts && Targets(Parsed(t.events), c, head)
    ensures Inv(t.(remoteRefs := t.remoteRefs[(peer, c, name) := head]))
  {
    hide CoreInv, Parsed, ValidName;
    ParsedKeys(t.events, c, head);
  }

  lemma TargetChecked(t: Tables, c: ContextId, head: EventId)
    requires Inv(t)
    ensures CheckTarget(t, c, head).Ok? <==> Targets(Parsed(t.events), c, head)
    ensures AuthoritativeContext(t, head) == if head in Parsed(t.events) then Ok(Some(Parsed(t.events)[head].body.context)) else Ok(None)
    ensures Targets(Parsed(t.events), c, head) ==> c in t.contexts
  {
    hide RefsOk, Cyclic, AuthorsOk, GenesisOk, ContextsOk, EdgesOk, ParentsOk, RefKeys, Links;
    if head in t.events { assert RowOk(t.authors, head, t.events[head]); }
  }

  lemma {:induction false} ParentsChecked(t: Tables, c: ContextId, parents: seq<EventId>)
    requires Inv(t)
    ensures CheckParents(t, c, parents).Ok? <==> forall p :: p in parents ==> Targets(Parsed(t.events), c, p)
    decreases |parents|
  {
    hide Inv, Parsed, AuthoritativeContext;
    if parents != [] {
      ParentsChecked(t, c, parents[1..]);
      assert parents == [parents[0]] + parents[1..];
      TargetChecked(t, c, parents[0]);
    }
  }

  lemma StoreEventInv(t: Tables, row: ContextRow, e: Event)
    requires Inv(t)
    requires KnownContext(t, e.body.context) == Ok(row)
    requires CheckEvent(t, e.body.context, row.expected, row.state, e).Ok?
    requires !(row.state == ACTIVE && IsGenesis(row.expected, e) && e.id !in t.events)
    ensures e.id !in t.events ==> (row.state == PENDING && GenesisReady(t, e)) || (row.state == ACTIVE && ChildReady(t, e))
    ensures e.id in t.events && t.events[e.id].wire == ToWire(e) ==> row.state == ACTIVE && StoreEvent(t, e) == Ok(t)
  {
    hide RefsOk, Cyclic, AuthorsOk, ContextsOk, EdgesOk, ParentsOk, CoreKeys, RefKeys, Links, CheckParents, EdgesFrom, Parsed;
    ParentsChecked(t, e.body.context, e.body.parents);
    if e.id in t.events && t.events[e.id].wire == ToWire(e) {
      InvLoads(t, e.id);
      assert EventGenesis(t.contexts, e.id, Parsed(t.events)[e.id]);
    }
  }

  lemma AdmitInv(t: Tables, e: Event, m: RefMutation)
    requires Inv(t)
    ensures var r := AdmitSpec(t, e, m);
      r.Ok? ==> Inv(r.value.0) && Targets(Parsed(r.value.0.events), e.body.context, e.id)
                && (r.value.1 == Inserted ==> e.id !in t.events)
  {
    hide Inv, Parsed, CheckEvent, EdgeRows, ValidateStored, ValidName;
    var r := AdmitSpec(t, e, m);
    if r.Ok? {
      var c := e.body.context;
      var row := KnownContext(t, c).value;
      StoreEventInv(t, row, e);
      ParsedInsert(t, e);
      var stored := StoreEvent(t, e).value;
      var active := if row.state == PENDING then Activate(stored, c, e.id) else stored;
      if e.id in t.events {
        InvLoads(t, e.id);
      } else if row.state == PENDING {
        InsertGenesisInv(t, e);
      } else {
        InsertChildInv(t, e);
      }
      assert Inv(active) && Targets(Parsed(active.events), c, e.id);
      if m.CompareAndSwap? {
        LocalRefInv(active, c, m.name, e.id);
      }
    }
  }

  lemma ProvisionInv(t: Tables, p: ContextProvision, pendingOnly: bool)
    requires Inv(t)
    ensures var r := ProvisionSpec(t, p, pendingOnly); r.Ok? ==> Inv(r.value)
  {
    hide Inv;
    if p.context !in t.contexts && p.authors != [] {
      ProvisionedInv(t, p);
    }
  }

  lemma CreateContextInv(t: Tables, e: Event, name: Name)
    requires Inv(t) && IsGenesis(e.id, e)
    ensures var r := CreateContextSpec(t, e, name); r.Ok? ==> Inv(r.value)
  {
    hide Inv, Parsed, EdgeRows, ValidName;
    var c := e.body.context;
    if CreateContextSpec(t, e, name).Ok? {
      var p := ContextProvision(c, e.id, [e.body.author]);
      ProvisionedInv(t, p);
      var u := Provisioned(t, p);
      assert (c, e.body.author) in u.authors by { assert e.body.author in p.authors; }
      InsertGenesisInv(u, e);
      ParsedInsert(u, e);
      LocalRefInv(Activate(InsertEvent(u, e), c, e.id), c, name, e.id);
    }
  }

  lemma RefStepsInv(t: Tables, peer: Name, c: ContextId, name: Name, head: EventId)
    requires Inv(t)
    ensures var r := CreateBranchSpec(t, c, name, head); r.Ok? ==> Inv(r.value)
    ensures var r := SetRemoteSpec(t, peer, c, name, head); r.Ok? ==> Inv(r.value)
  {
    hide Inv, Parsed, CheckTarget, ValidName;
    TargetChecked(t, c, head);
    if Targets(Parsed(t.events), c, head) {
      LocalRefInv(t, c, name, head);
      RemoteRefInv(t, peer, c, name, head);
    }
  }
}
