/** The store as an object: tables changed in place inside transactions that roll back on error. */
module Store {
  import opened Base
  import opened Sorting
  import opened Names
  import opened Tables
  import opened Transitions
  import opened Bundles
  import opened Namespaces
  import opened Runs
  import opened Pull

  function EdgesTo(id: EventId, parents: seq<EventId>, n: nat): map<EdgeKey, EventId>
    requires n <= |parents|
  {
    map i: nat | i < n :: (id, i) := parents[i]
  }

  lemma RowsInserted(t: Tables, u: Tables, e: Event)
    requires u == t.(events := t.events[e.id := EventRow(e.body.context, e.body.author, e.body.kind, ToWire(e))],
                     edges := t.edges + EdgesTo(e.id, e.body.parents, |e.body.parents|))
    ensures u == InsertEvent(t, e)
  {
    hide Ascending;
    assert EdgesTo(e.id, e.body.parents, |e.body.parents|) == EdgeRows(e);
  }

  lemma SameGenesis(t: Tables, u: Tables, c: ContextId, id: EventId)
    requires forall d :: d != c ==> (d in t.contexts <==> d in u.contexts) && (d in t.contexts ==> t.contexts[d] == u.contexts[d])
    ensures GenesisTaken(t, c, id) <==> GenesisTaken(u, c, id)
  {
  }

  /** The rest of an import, added to what has been counted, is the whole import. */
  predicate EventsLeft(whole: Result<(Tables, nat, nat), StoreError>, rest: Result<(Tables, nat, nat), StoreError>,
                       inserted: nat, present: nat)
  {
    if rest.Ok? then whole == Ok((rest.value.0, inserted + rest.value.1, present + rest.value.2)) else whole == rest
  }

  predicate RefsLeft(whole: Result<(Tables, nat), StoreError>, rest: Result<(Tables, nat), StoreError>, updated: nat) {
    if rest.Ok? then whole == Ok((rest.value.0, updated + rest.value.1)) else whole == rest
  }

  class Database {
    var contexts: map<ContextId, ContextRow>
    var authors: set<(ContextId, AuthorId)>
    var events: map<EventId, EventRow>
    var edges: map<EdgeKey, EventId>
    var localRefs: map<LocalKey, EventId>
    var remoteRefs: map<RemoteKey, EventId>

    function Snap(): Tables
      reads this
    {
      Tables(contexts, authors, events, edges, localRefs, remoteRefs)
    }

    constructor ()
      ensures Snap() == EMPTY && Inv(Snap())
    {
      contexts, authors, events, edges, localRefs, remoteRefs := map[], {}, map[], map[], map[], map[];
      new;
      ReachableIsSound([]);
    }

    method Rollback(saved: Tables)
      modifies this
      ensures Snap() == saved
    {
      contexts, authors, events := saved.contexts, saved.authors, saved.events;
      edges, localRefs, remoteRefs := saved.edges, saved.localRefs, saved.remoteRefs;
    }

    // ---------------------------------------------------------------- contexts

    /** Canonically ordered allowlist of one context. */
    method AuthorRows(c: ContextId) returns (r: seq<AuthorId>)
      ensures Ascending(r) && Elems(r) == AuthorsOf(Snap(), c)
    {
      r := SortedKeys(AuthorsOf(Snap(), c));
    }

    method ProvisionTx(p: ContextProvision, pendingOnly: bool) returns (r: Result<(), StoreError>)
      modifies this
      ensures var s := ProvisionSpec(old(Snap()), p, pendingOnly);
        if s.Ok? then r == Ok(()) && Snap() == s.value else r == Err(s.error)
    {
      var valid := ValidateAuthors(p.authors);
      if valid.Err? {
        return Err(valid.error);
      }
      var row := ContextState(Snap(), p.context);
      if row.Err? {
        return Err(row.error);
      }
      if row.value.Some? {
        if pendingOnly && row.value.value.state != PENDING {
          return Err(ContextProvisionMismatch);
        }
        var listed := AuthorRows(p.context);
        if Elems(listed) == Elems(p.authors) { AscendingUnique(listed, p.authors); }
        if row.value.value.expected == p.expectedGenesis && listed == p.authors {
          return Ok(());
        }
        return Err(ContextProvisionMismatch);
      }
      contexts := contexts[p.context := ContextRow(p.expectedGenesis, None, PENDING)];
      for i := 0 to |p.authors|
        invariant authors == old(authors) + set a | a in p.authors[..i] :: (p.context, a)
        invariant contexts == old(contexts)[p.context := ContextRow(p.expectedGenesis, None, PENDING)]
        invariant events == old(events) && edges == old(edges) && localRefs == old(localRefs) && remoteRefs == old(remoteRefs)
      {
        assert p.authors[..i + 1] == p.authors[..i] + [p.authors[i]];
        authors := authors + {(p.context, p.authors[i])};
      }
      assert p.authors[..|p.authors|] == p.authors;
      r := Ok(());
    }

    /** `pendingOnly` is joining. */
    method ProvisionContext(p: ContextProvision, pendingOnly: bool) returns (r: Result<(), StoreError>)
      modifies this
      ensures Snap() == Step(old(Snap()), ProvisionOp(p, pendingOnly))
      ensures r.Ok? <==> ProvisionSpec(old(Snap()), p, pendingOnly).Ok?
      ensures Inv(old(Snap())) ==> Inv(Snap())
    {
      hide Inv;
      var saved := Snap();
      r := ProvisionTx(p, pendingOnly);
      if r.Err? {
        Rollback(saved);
      }
      if Inv(saved) { StepInv(saved, ProvisionOp(p, pendingOnly)); }
    }

    method AuthorizeAuthor(c: ContextId, a: AuthorId) returns (r: Result<bool, StoreError>)
      modifies this
      ensures Snap() == Step(old(Snap()), AuthorizeOp(c, a))
      ensures r.Ok? <==> KnownContext(old(Snap()), c).Ok?
      ensures r.Ok? ==> (r.value <==> (c, a) !in old(authors))
    {
      var row := KnownContext(Snap(), c);
      if row.Err? {
        return Err(row.error);
      }
      r := Ok((c, a) !in authors);
      authors := authors + {(c, a)};
    }

    // ---------------------------------------------------------------- admission

    /** Inserts the event row and then one edge row per parent. */
    method InsertRows(e: Event)
      modifies this
      ensures Snap() == InsertEvent(old(Snap()), e)
    {
      hide EdgeRows, EdgesTo, InsertEvent, Ascending;
      ghost var before := Snap();
      events := events[e.id := EventRow(e.body.context, e.body.author, e.body.kind, ToWire(e))];
      InsertEdges(e.id, e.body.parents);
      RowsInserted(before, Snap(), e);
    }

    method InsertEdges(id: EventId, parents: seq<EventId>)
      modifies `edges
      ensures edges == old(edges) + EdgesTo(id, parents, |parents|)
    {
      for i := 0 to |parents|
        invariant edges == old(edges) + EdgesTo(id, parents, i)
      {
        edges := edges[(id, i) := parents[i]];
      }
    }

    /** Genesis policy, authorization and parents, in that order. */
    method CheckRow(c: ContextId, expected: EventId, state: int, e: Event) returns (r: Result<(), StoreError>)
      requires state == PENDING || state == ACTIVE
      ensures r == CheckEvent(Snap(), c, expected, state, e)
    {
      hide CheckParents;
      var genesis := IsGenesis(expected, e);
      var parents := e.body.parents;
      if state == PENDING && !genesis {
        return Err(GenesisMismatch);
      }
      if state != PENDING && !genesis && (parents == [] || e.body.kind == GENESIS_KIND) {
        return Err(GenesisMismatch);
      }
      if (c, e.body.author) !in authors {
        return Err(UnauthorizedAuthor);
      }
      r := ParentsPresent(c, parents);
    }

    /** Insertion or re-validation of one checked event, and activation of a pending context. */
    method StoreRow(c: ContextId, expected: EventId, state: int, e: Event) returns (r: Result<bool, StoreError>)
      requires state == PENDING || state == ACTIVE
      modifies this
      ensures var t := old(Snap()); var stored := StoreEvent(t, e);
        if state == ACTIVE && IsGenesis(expected, e) && e.id !in t.events then r == Err(CorruptStorage)
        else if stored.Err? then r == Err(stored.error)
        else if state == PENDING && GenesisTaken(t, c, e.id) then r == Err(DatabaseUnavailable)
        else r == Ok(e.id !in t.events) && Snap() == if state == PENDING then Activate(stored.value, c, e.id) else stored.value
    {
      hide EdgesFrom, EdgeRows;
      var existing := Lookup(events, e.id);
      if state == ACTIVE && IsGenesis(expected, e) && existing.None? {
        return Err(CorruptStorage);
      }
      if existing.None? {
        InsertRows(e);
      } else if existing.value.wire == ToWire(e) {
        if !ValidateStored(Snap(), e) {
          return Err(CorruptStorage);
        }
      } else {
        return Err(EventCollision);
      }
      if state == PENDING {
        if GenesisTaken(Snap(), c, e.id) {
          return Err(DatabaseUnavailable);
        }
        if c in contexts {
          contexts := contexts[c := contexts[c].(genesis := Some(e.id), state := ACTIVE)];
        }
      }
      r := Ok(existing.None?);
    }

    method ParentsPresent(c: ContextId, parents: seq<EventId>) returns (r: Result<(), StoreError>)
      ensures r == CheckParents(Snap(), c, parents)
    {
      for i := 0 to |parents|
        invariant CheckParents(Snap(), c, parents) == CheckParents(Snap(), c, parents[i..])
      {
        assert parents[i..][0] == parents[i] && parents[i..][1..] == parents[i + 1..];
        var pc := AuthoritativeContext(Snap(), parents[i]);
        if pc.Err? {
          return Err(pc.error);
        }
        if pc.value.None? {
          return Err(ParentMissing(parents[i]));
        }
        if pc.value.value != c {
          return Err(ParentContextMismatch(parents[i]));
        }
      }
      r := Ok(());
    }

    method ApplyRef(id: EventId, m: RefMutation) returns (r: Result<bool, StoreError>)
      modifies this
      ensures var s := MoveRef(old(Snap()), id, m);
        if s.Ok? then r == Ok(s.value.1) && Snap() == s.value.0 else r == Err(s.error)
    {
      if m.NoMove? {
        return Ok(false);
      }
      var key := (m.context, m.name);
      var current := Lookup(localRefs, key);
      if current == Some(m.newHead) {
        return Ok(true);
      }
      match m.expected {
        case Absent =>
          if current.None? {
            localRefs := localRefs[key := id];
            return Ok(false);
          }
        case Head(expected) =>
          if current == Some(expected) {
            localRefs := localRefs[key := id];
            return Ok(false);
          }
      }
      r := Err(StaleHead(current));
    }

    method AdmitTx(e: Event, m: RefMutation) returns (r: Result<AdmissionStatus, StoreError>)
      modifies this
      ensures var s := AdmitSpec(old(Snap()), e, m);
        if s.Ok? then r == Ok(s.value.1) && Snap() == s.value.0 else r == Err(s.error)
    {
      hide CheckEvent, StoreEvent, InsertEvent, MoveRef, ValidName;
      if m.CompareAndSwap? && (m.context != e.body.context || m.newHead != e.id) {
        return Err(RefMutationMismatch);
      }
      var row := KnownContext(Snap(), e.body.context);
      if row.Err? {
        return Err(row.error);
      }
      assert row.value.state == PENDING || row.value.state == ACTIVE by { KnownStored(Snap(), e.body.context); }
      var checked := CheckRow(e.body.context, row.value.expected, row.value.state, e);
      if checked.Err? {
        return Err(checked.error);
      }
      var inserted := StoreRow(e.body.context, row.value.expected, row.value.state, e);
      if inserted.Err? {
        return Err(inserted.error);
      }
      var applied := ApplyRef(e.id, m);
      if applied.Err? {
        return Err(applied.error);
      }
      r := Ok(if applied.value then AlreadyApplied else if inserted.value then Inserted else AlreadyPresent);
    }

    /** Admission is atomic: an error, at any point of the transaction, changes nothing. */
    method Admit(e: Event, m: RefMutation) returns (r: Result<AdmissionStatus, StoreError>)
      modifies this
      ensures Snap() == Step(old(Snap()), AdmitOp(e, m))
      ensures var s := AdmitSpec(old(Snap()), e, m); r == if s.Ok? then Ok(s.value.1) else Err(s.error)
      ensures Inv(old(Snap())) ==> Inv(Snap())
    {
      hide Inv, AdmitSpec;
      var saved := Snap();
      r := AdmitTx(e, m);
      if r.Err? {
        Rollback(saved);
      }
      if Inv(saved) { StepInv(saved, AdmitOp(e, m)); }
    }

    method Append(e: Event, name: Name, expected: EventId) returns (r: Result<(), StoreError>)
      requires e.body.parents == [expected]
      modifies this
      ensures var s := AppendSpec(old(Snap()), e, name, expected);
        if s.Ok? then r == Ok(()) && Snap() == s.value else r == Err(s.error) && Snap() == old(Snap())
    {
      hide Inv, AdmitSpec;
      if e.body.kind == GENESIS_KIND || e.body.kind == MERGE_KIND {
        return Err(ReservedEventKind);
      }
      var admitted := Admit(e, CompareAndSwap(e.body.context, name, Head(expected), e.id));
      r := if admitted.Ok? then Ok(()) else Err(admitted.error);
    }

    method Merge(e: Event, name: Name, expected: EventId, parents: seq<EventId>) returns (r: Result<(), StoreError>)
      requires e.body.kind == MERGE_KIND && e.body.parents == SortDedup(parents)
      modifies this
      ensures var s := MergeSpec(old(Snap()), e, name, expected, parents);
        if s.Ok? then r == Ok(()) && Snap() == s.value else r == Err(s.error) && Snap() == old(Snap())
    {
      hide Inv, AdmitSpec;
      if !(2 <= |parents| <= MAX_PARENTS) || !Distinct(parents) || expected !in parents {
        return Err(InvalidMerge);
      }
      var admitted := Admit(e, CompareAndSwap(e.body.context, name, Head(expected), e.id));
      r := if admitted.Ok? then Ok(()) else Err(admitted.error);
    }

    method CreateContextTx(e: Event, name: Name) returns (r: Result<(), StoreError>)
      requires IsGenesis(e.id, e)
      modifies this
      ensures var s := CreateContextSpec(old(Snap()), e, name);
        if s.Ok? then r == Ok(()) && Snap() == s.value else r == Err(s.error)
    {
      var c := e.body.context;
      var row := ContextState(Snap(), c);
      if row.Err? {
        return Err(row.error);
      }
      if row.value.Some? {
        return Err(ContextProvisionMismatch);
      }
      contexts := contexts[c := ContextRow(e.id, None, PENDING)];
      authors := authors + {(c, e.body.author)};
      if e.id in events {
        return Err(DatabaseUnavailable);
      }
      assert Snap() == Provisioned(old(Snap()), ContextProvision(c, e.id, [e.body.author]));
      InsertRows(e);
      SameGenesis(old(Snap()), Snap(), c, e.id);
      if GenesisTaken(Snap(), c, e.id) {
        return Err(DatabaseUnavailable);
      }
      contexts := contexts[c := contexts[c].(genesis := Some(e.id), state := ACTIVE)];
      localRefs := localRefs[(c, name) := e.id];
      r := Ok(());
    }

    method CreateContext(e: Event, name: Name) returns (r: Result<(), StoreError>)
      requires IsGenesis(e.id, e)
      modifies this
      ensures Snap() == Step(old(Snap()), CreateContextOp(e, name))
      ensures r.Ok? <==> CreateContextSpec(old(Snap()), e, name).Ok?
      ensures Inv(old(Snap())) ==> Inv(Snap())
    {
      hide Inv, CreateContextSpec;
      var saved := Snap();
      r := CreateContextTx(e, name);
      if r.Err? {
        Rollback(saved);
      }
      if Inv(saved) { StepInv(saved, CreateContextOp(e, name)); }
    }

    method CreateBranch(c: ContextId, name: Name, head: EventId) returns (r: Result<(), StoreError>)
      modifies this
      ensures Snap() == Step(old(Snap()), CreateBranchOp(c, name, head))
      ensures var s := CreateBranchSpec(old(Snap()), c, name, head); r == if s.Ok? then Ok(()) else Err(s.error)
    {
      hide ValidName;
      var target := CheckTarget(Snap(), c, head);
      if target.Err? {
        return Err(target.error);
      }
      var current := Lookup(localRefs, (c, name));
      if current.Some? {
        return if current.value == head then Ok(()) else Err(RefAlreadyExists);
      }
      localRefs := localRefs[(c, name) := head];
      r := Ok(());
    }

    method SetRemoteRef(peer: Name, c: ContextId, name: Name, head: EventId) returns (r: Result<(), StoreError>)
      modifies this
      ensures Snap() == Step(old(Snap()), SetRemoteOp(peer, c, name, head))
      ensures var s := SetRemoteSpec(old(Snap()), peer, c, name, head); r == if s.Ok? then Ok(()) else Err(s.error)
    {
      hide ValidName;
      var target := CheckTarget(Snap(), c, head);
      if target.Err? {
        return Err(target.error);
      }
      remoteRefs := remoteRefs[(peer, c, name) := head];
      r := Ok(());
    }

    // ---------------------------------------------------------------- import and replacement

    /** The event loop of an import: `state` turns active with the first event stored. */
    method ImportEventRows(c: ContextId, expected: EventId, was: int,
                           list: seq<Event>) returns (r: Result<(nat, nat), StoreError>)
      requires was == PENDING || was == ACTIVE
      modifies this
      ensures var s := ImportEvents(old(Snap()), c, expected, was, list);
        if s.Ok? then r == Ok((s.value.1, s.value.2)) && Snap() == s.value.0 else r == Err(s.error)
    {
      hide CheckEvent, StoreEvent, InsertEvent, ImportOne;
      var state := was;
      var inserted, present := 0, 0;
      for i := 0 to |list|
        invariant state == PENDING || state == ACTIVE
        invariant EventsLeft(ImportEvents(old(Snap()), c, expected, was, list),
                             ImportEvents(Snap(), c, expected, state, list[i..]), inserted, present)
      {
        var e := list[i];
        assert list[i..][0] == e && list[i..][1..] == list[i + 1..];
        var isNew := ImportEventRow(c, expected, state, e);
        if isNew.Err? {
          return Err(isNew.error);
        }
        if isNew.value { inserted := inserted + 1; } else { present := present + 1; }
        state := ACTIVE;
      }
      assert list[|list|..] == [];
      r := Ok((inserted, present));
    }

    method ImportEventRow(c: ContextId, expected: EventId, state: int, e: Event) returns (r: Result<bool, StoreError>)
      requires state == PENDING || state == ACTIVE
      modifies this
      ensures var s := ImportOne(old(Snap()), c, expected, state, e);
        if s.Ok? then r == Ok(s.value.1) && Snap() == s.value.0 else r == Err(s.error)
    {
      hide CheckEvent, StoreEvent, InsertEvent;
      var checked := CheckRow(c, expected, state, e);
      if checked.Err? {
        return Err(checked.error);
      }
      if state == PENDING && IsGenesis(expected, e) && e.id in events {
        return Err(CorruptStorage);
      }
      r := StoreRow(c, expected, state, e);
    }

    /** Overwrites the peer's claims, counting those that differ. */
    method ImportRefRows(peer: Name, c: ContextId, refs: seq<AdvertisedRef>) returns (r: Result<nat, StoreError>)
      modifies this
      ensures var s := ImportRefs(old(Snap()), peer, c, refs);
        if s.Ok? then r == Ok(s.value.1) && Snap() == s.value.0 else r == Err(s.error)
    {
      hide AuthoritativeContext, ValidName;
      r := Ok(0);
      var updated := 0;
      for i := 0 to |refs|
        invariant RefsLeft(ImportRefs(old(Snap()), peer, c, refs), ImportRefs(Snap(), peer, c, refs[i..]), updated)
      {
        var item := refs[i];
        assert refs[i..][0] == item && refs[i..][1..] == refs[i + 1..];
        var hc := AuthoritativeContext(Snap(), item.head);
        if hc.Err? {
          return Err(hc.error);
        }
        if hc.value != Some(c) {
          return Err(BundleRefInvalid);
        }
        var key := (peer, c, item.name);
        if Lookup(remoteRefs, key) != Some(item.head) {
          remoteRefs := remoteRefs[key := item.head];
          updated := updated + 1;
        }
      }
      assert refs[|refs|..] == [];
      r := Ok(updated);
    }

    method ImportTx(peer: Name, b: Bundle) returns (r: Result<ImportReport, StoreError>)
      modifies this
      ensures var s := ImportSpec(old(Snap()), peer, b);
        if s.Ok? then r == Ok(s.value.1) && Snap() == s.value.0 else r == Err(s.error)
    {
      hide ImportEvents, ImportRefs, ValidName;
      var row := KnownContext(Snap(), b.context);
      if row.Err? {
        return Err(row.error);
      }
      var counts := ImportEventRows(b.context, row.value.expected, row.value.state, b.events);
      if counts.Err? {
        return Err(counts.error);
      }
      var updated := ImportRefRows(peer, b.context, b.refs);
      if updated.Err? {
        return Err(updated.error);
      }
      r := Ok(ImportReport(counts.value.0, counts.value.1, updated.value));
    }

    /** Imports a validated bundle atomically. */
    method ImportValue(peer: Name, b: Bundle) returns (r: Result<ImportReport, StoreError>)
      requires WellFormed(b)
      modifies this
      ensures Snap() == Step(old(Snap()), ImportOp(peer, b))
      ensures var s := ImportSpec(old(Snap()), peer, b); r == if s.Ok? then Ok(s.value.1) else Err(s.error)
      ensures Inv(old(Snap())) ==> Inv(Snap())
    {
      hide Inv, ImportSpec, WellFormed;
      var saved := Snap();
      r := ImportTx(peer, b);
      if r.Err? {
        Rollback(saved);
      }
      if Inv(saved) { StepInv(saved, ImportOp(peer, b)); }
    }

    method HeadsPresent(c: ContextId, refs: seq<AdvertisedRef>) returns (r: Result<(), StoreError>)
      ensures r == CheckHeads(Snap(), c, refs)
    {
      hide AuthoritativeContext, ValidName;
      for i := 0 to |refs|
        invariant CheckHeads(Snap(), c, refs) == CheckHeads(Snap(), c, refs[i..])
      {
        assert refs[i..][0] == refs[i] && refs[i..][1..] == refs[i + 1..];
        var hc := AuthoritativeContext(Snap(), refs[i].head);
        if hc.Err? {
          return Err(hc.error);
        }
        if hc.value != Some(c) {
          return Err(BundleRefInvalid);
        }
      }
      r := Ok(());
    }

    method ReplaceTx(peer: Name, c: ContextId, refs: seq<AdvertisedRef>) returns (r: Result<nat, StoreError>)
      requires |refs| <= MAX_BUNDLE_REFS && NamesAscend(refs)
      modifies this
      ensures var s := ReplaceSpec(old(Snap()), peer, c, refs);
        if s.Ok? then r == Ok(s.value.1) && Snap() == s.value.0 else r == Err(s.error)
    {
      hide NamesAscend, ValidName, CheckHeads, AuthoritativeContext, Namespace, Desired, ChangeCount, Replaced;
      var row := KnownContext(Snap(), c);
      if row.Err? {
        return Err(row.error);
      }
      if row.value.state != ACTIVE {
        return Err(ContextUnknown);
      }
      var checked := HeadsPresent(c, refs);
      if checked.Err? {
        return Err(checked.error);
      }
      var existing := Namespace(remoteRefs, peer, c);
      var named := NamesParse(existing.Keys);
      if !named {
        return Err(InvalidRefName);
      }
      var changed := ChangeCount(existing, Desired(refs));
      if changed == 0 {
        return Ok(0);
      }
      RewriteNamespace(peer, c, refs);
      r := Ok(changed);
    }

    /** Deletes the namespace and inserts the requested refs one by one. */
    method RewriteNamespace(peer: Name, c: ContextId, refs: seq<AdvertisedRef>)
      modifies `remoteRefs
      ensures remoteRefs == Replaced(old(remoteRefs), peer, c, Desired(refs))
    {
      remoteRefs := map k | k in remoteRefs && (k.0 != peer || k.1 != c) :: remoteRefs[k];
      for i := 0 to |refs|
        invariant remoteRefs == Replaced(old(remoteRefs), peer, c, Desired(refs[..i]))
      {
        assert refs[..i + 1][..i] == refs[..i];
        ReplacedStep(old(remoteRefs), peer, c, Desired(refs[..i]), refs[i]);
        remoteRefs := remoteRefs[(peer, c, refs[i].name) := refs[i].head];
      }
      assert refs[..|refs|] == refs;
    }

    /** Atomic replacement of one peer's namespace in one context. */
    method ReplaceRemoteRefSnapshot(peer: Name, c: ContextId, refs: seq<AdvertisedRef>) returns (r: Result<nat, StoreError>)
      modifies this
      ensures Snap() == Step(old(Snap()), ReplaceRemoteOp(peer, c, refs))
      ensures var s := ReplaceSpec(old(Snap()), peer, c, refs); r == if s.Ok? then Ok(s.value.1) else Err(s.error)
      ensures Inv(old(Snap())) ==> Inv(Snap())
    {
      hide Inv, ReplaceSpec, NamesAscend, ValidName;
      var saved := Snap();
      var ordered := NamesOk(refs);
      if |refs| > MAX_BUNDLE_REFS || !ordered {
        UnorderedRefused(saved, peer, c, refs);
        if Inv(saved) { StepInv(saved, ReplaceRemoteOp(peer, c, refs)); }
        return Err(BundleRefInvalid);
      }
      r := ReplaceTx(peer, c, refs);
      if r.Err? {
        Rollback(saved);
      }
      if Inv(saved) { StepInv(saved, ReplaceRemoteOp(peer, c, refs)); }
    }

    // ---------------------------------------------------------------- other writers

    method Apply(op: Op)
      modifies this
      ensures Snap() == Step(old(Snap()), op)
    {
      hide Inv, ProvisionSpec, CreateContextSpec, AdmitSpec, CreateBranchSpec, ImportSpec, SetRemoteSpec, ReplaceSpec,
           KnownContext, ValidName;
      match op
      case ProvisionOp(p, pendingOnly) => var _ := ProvisionContext(p, pendingOnly);
      case CreateContextOp(e, b) => if IsGenesis(e.id, e) { var _ := CreateContext(e, b); }
      case AuthorizeOp(c, a) => var _ := AuthorizeAuthor(c, a);
      case AdmitOp(e, m) => var _ := Admit(e, m);
      case CreateBranchOp(c, b, h) => var _ := CreateBranch(c, b, h);
      case ImportOp(peer, b) => if WellFormed(b) { var _ := ImportValue(peer, b); }
      case SetRemoteOp(peer, c, b, h) => var _ := SetRemoteRef(peer, c, b, h);
      case ReplaceRemoteOp(peer, c, refs) => var _ := ReplaceRemoteRefSnapshot(peer, c, refs);
    }

    /** A store driven by any sequence of transactions is in the state the run says. */
    method ApplyAll(ops: seq<Op>)
      modifies this
      ensures Snap() == Run(old(Snap()), ops)
    {
      hide Step;
      for i := 0 to |ops|
        invariant Run(old(Snap()), ops) == Run(Snap(), ops[i..])
      {
        assert ops[i..][0] == ops[i] && ops[i..][1..] == ops[i + 1..];
        Apply(ops[i]);
      }
      assert ops[|ops|..] == [];
    }
  }

  method NamesParse(names: set<string>) returns (ok: bool)
    ensures ok <==> forall n :: n in names ==> ValidName(n)
  {
    hide ValidName;
    var rest := names;
    while rest != {}
      invariant rest <= names && forall n :: n in names && n !in rest ==> ValidName(n)
      decreases rest
    {
      var n :| n in rest;
      var valid := ValidateName(n);
      if !valid {
        return false;
      }
      rest := rest - {n};
    }
    ok := true;
  }

  lemma ReplacedStep(m: map<RemoteKey, EventId>, peer: Name, c: ContextId, now: map<string, EventId>, item: AdvertisedRef)
    ensures Replaced(m, peer, c, now)[(peer, c, item.name) := item.head] == Replaced(m, peer, c, now[item.name := item.head])
  {
    hide ValidName;
    var a := Replaced(m, peer, c, now)[(peer, c, item.name) := item.head];
    var b := Replaced(m, peer, c, now[item.name := item.head]);
    forall k ensures Lookup(a, k) == Lookup(b, k) {}
    SameLookups(a, b);
  }

  lemma SameLookups(a: map<RemoteKey, EventId>, b: map<RemoteKey, EventId>)
    requires forall k :: Lookup(a, k) == Lookup(b, k)
    ensures a == b
  {
    assert forall k :: k in a <==> Lookup(a, k).Some?;
    assert forall k :: k in b <==> Lookup(b, k).Some?;
    assert forall k | k in a :: Some(a[k]) == Lookup(b, k);
  }

  lemma UnorderedRefused(t: Tables, peer: Name, c: ContextId, refs: seq<AdvertisedRef>)
    requires |refs| > MAX_BUNDLE_REFS || !NamesAscend(refs)
    ensures ReplaceSpec(t, peer, c, refs) == Err(BundleRefInvalid) && Step(t, ReplaceRemoteOp(peer, c, refs)) == t
  {
  }
}
