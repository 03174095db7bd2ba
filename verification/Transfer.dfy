/** An honest transfer always imports: the client ends with exactly the plan added. */
module Transfer {
  import opened Base
  import opened Sorting
  import opened Graph
  import opened Names
  import opened Tables
  import opened Transitions
  import opened Bundles
  import opened Namespaces
  import opened Runs
  import opened Projections
  import opened Paging
  import opened Export
  import opened Pull
  import opened Convergence

  /** Identifiers determine envelopes across the two stores. */
  predicate SharedWires(t: Tables, s: Tables) {
    forall id :: id in t.events && id in s.events ==> t.events[id].wire == s.events[id].wire
  }

  /** What the client must already have decided: the same genesis, and every plan author authorized. */
  predicate Trusts(t: Tables, s: Tables, c: ContextId, d: seq<EventId>) {
    && c in t.contexts && c in s.contexts && t.contexts[c].expected == s.contexts[c].expected
    && forall i :: 0 <= i < |d| && d[i] in Parsed(s.events) ==> (c, Parsed(s.events)[d[i]].body.author) in t.authors
  }

  // ---------------------------------------------------------------- one event

  lemma PendingHoldsNothing(t: Tables, c: ContextId, p: EventId)
    requires Inv(t) && Targets(Parsed(t.events), c, p)
    ensures c in t.contexts && t.contexts[c].state == ACTIVE
  {
    hide RefsOk, Cyclic, AuthorsOk, RowsOk, EdgesOk, ParentsOk, RefKeys, CoreKeys, Links, Parsed;
    TargetChecked(t, c, p);
    assert EventGenesis(t.contexts, p, Parsed(t.events)[p]);
    assert ConsistentRow(t.contexts[c]);
  }

  lemma GenesisHeld(t: Tables, c: ContextId)
    requires Inv(t) && c in t.contexts && t.contexts[c].state == ACTIVE
    ensures t.contexts[c].expected in t.events
  {
    hide RefsOk, Cyclic, AuthorsOk, RowsOk, EdgesOk, ParentsOk, RefKeys, CoreKeys, Links, ContextsOk;
    assert ActiveGenesis(Parsed(t.events), c, t.contexts[c]);
  }

  lemma GenesisNotTaken(t: Tables, c: ContextId, id: EventId)
    requires Inv(t) && id !in t.events
    ensures !GenesisTaken(t, c, id)
  {
    hide RefsOk, Cyclic, AuthorsOk, RowsOk, EdgesOk, ParentsOk, RefKeys, CoreKeys, Links, GenesisOk, Parsed;
    forall d | d in t.contexts ensures t.contexts[d].genesis != Some(id) {
      assert ConsistentRow(t.contexts[d]);
      if t.contexts[d].state == ACTIVE { GenesisHeld(t, d); }
    }
  }

  lemma OnlyGenesisLooksLikeOne(s: Tables, e: Event)
    requires Inv(s) && Holds(s, [e])
    ensures e.body.context in s.contexts
    ensures e.body.parents == [] || e.body.kind == GENESIS_KIND || e.id == s.contexts[e.body.context].expected ==>
      IsGenesis(s.contexts[e.body.context].expected, e)
  {
    hide RefsOk, Cyclic, AuthorsOk, EdgesOk, ParentsOk, RefKeys, Links;
    assert [e][0] == e;
    StoredIsParsed(s.events, e);
    var ev := Parsed(s.events);
    assert RowOk(s.authors, e.id, s.events[e.id]);
    assert EventGenesis(s.contexts, e.id, ev[e.id]);
    var row := s.contexts[e.body.context];
    assert ConsistentRow(row);
    assert ActiveGenesis(ev, e.body.context, row);
  }

  /** Admission of a sound server's event cannot fail once its parents are held. */
  lemma HonestEventAdmits(t: Tables, s: Tables, c: ContextId, e: Event)
    requires Inv(t) && Inv(s) && Holds(s, [e]) && e.body.context == c
    requires c in t.contexts && c in s.contexts && t.contexts[c].expected == s.contexts[c].expected && (c, e.body.author) in t.authors
    requires forall p :: p in e.body.parents ==> Targets(Parsed(t.events), c, p)
    requires e.id in t.events ==> t.events[e.id].wire == ToWire(e)
    ensures AdmitSpec(t, e, NoMove).Ok?
    ensures e.id !in t.events ==> AdmitSpec(t, e, NoMove).value.0.events.Keys == t.events.Keys + {e.id}
    ensures e.id in t.events ==> AdmitSpec(t, e, NoMove).value.0 == t
  {
    hide Inv, Parsed, Targets, CheckParents, ValidateStored, EdgeRows, GenesisTaken, KnownContext;
    var row := t.contexts[c];
    KnownRow(t, c);
    if e.id in t.events {
      assert Holds(t, [e]);
      PresentReimports(t, c, row, e);
    } else {
      OnlyGenesisLooksLikeOne(s, e);
      ParentsChecked(t, c, e.body.parents);
      GenesisNotTaken(t, c, e.id);
      if row.state == PENDING {
        if e.body.parents != [] {
          PendingHoldsNothing(t, c, e.body.parents[0]);
        }
      } else {
        GenesisHeld(t, c);
      }
    }
  }

  lemma KnownRow(t: Tables, c: ContextId)
    requires Inv(t) && c in t.contexts
    ensures KnownContext(t, c) == Ok(t.contexts[c]) && (t.contexts[c].state == PENDING || t.contexts[c].state == ACTIVE)
  {
    hide RefsOk, Cyclic, AuthorsOk, RowsOk, EdgesOk, ParentsOk, RefKeys, CoreKeys, Links, GenesisOk, Parsed;
    assert ConsistentRow(t.contexts[c]);
  }

  // ---------------------------------------------------------------- the plan's parents

  /** A parent of a plan event is an earlier plan event or in the known ancestry. */
  lemma PlanParents(s: Tables, c: ContextId, requested: seq<EventId>, effective: seq<EventId>, k: nat, p: EventId)
    requires Plan(s, c, requested).Ordered? && Plan(s, c, effective).Ordered?
    requires var d := Difference(s, c, requested, effective); k < |d| && d[k] in ContextGraph(s, c) && p in ContextGraph(s, c)[d[k]]
    ensures p in Difference(s, c, requested, effective)[..k] || p in Anc(ContextGraph(s, c), Elems(effective))
  {
    hide ContextGraph, Anc;
    var g := ContextGraph(s, c);
    var want := Plan(s, c, requested).order;
    var have := Plan(s, c, effective).order;
    PostOrderExact(g, requested);
    PostOrderExact(g, effective);
    WithoutIs(want, Elems(have));
    WithoutKeepsOrder(g, want, Elems(have));
    var d := Without(want, Elems(have));
    assert d[k] in d;
    ParentsAreEarlier(g, want, d[k]);
    if p !in Elems(have) {
      assert p in d;
    }
  }

  /** What the client holds of the server's context is closed under the server's edges. */
  lemma KnownAncestryHeld(t: Tables, s: Tables, c: ContextId, heads: set<EventId>, x: EventId)
    requires Inv(t) && Inv(s) && SharedWires(t, s) && heads <= t.events.Keys && x in Anc(ContextGraph(s, c), heads)
    ensures x in t.events
  {
    hide Inv, ContextGraph, Parsed;
    var g := ContextGraph(s, c);
    SoundGraph(s, c);
    var h :| h in heads && Reach(g, h, x);
    forall a, b | a in t.events.Keys && Edge(g, a, b) ensures b in t.events.Keys {
      SharedParents(t, s, a);
      HeldParents(t, a);
    }
    ReachWithin(g, t.events.Keys, h, x);
  }

  lemma SharedParents(t: Tables, s: Tables, a: EventId)
    requires SharedWires(t, s) && a in t.events && a in Parsed(s.events)
    ensures a in Parsed(t.events) && Parsed(t.events)[a] == Parsed(s.events)[a]
  {
  }

  lemma HeldParents(t: Tables, a: EventId)
    requires Inv(t) && a in Parsed(t.events)
    ensures forall p :: p in Parsed(t.events)[a].body.parents ==> p in t.events && Targets(Parsed(t.events), Parsed(t.events)[a].body.context, p)
  {
    hide Inv, Parsed;
    forall p | p in Parsed(t.events)[a].body.parents
      ensures p in t.events && Targets(Parsed(t.events), Parsed(t.events)[a].body.context, p)
    {
      InParents(t, a, p);
      ParsedKeys(t.events, Parsed(t.events)[a].body.context, p);
    }
  }

  // ---------------------------------------------------------------- the client between events

  /** The client's store `u` after importing the first `k` plan events into `t`. */
  ghost predicate Synced(t: Tables, u: Tables, s: Tables, d: seq<EventId>, k: nat)
    requires k <= |d|
  {
    && Inv(u) && Grows(t, u) && SharedWires(u, s)
    && (forall id :: id in u.events <==> id in t.events || id in d[..k])
  }

  /** The plan: events of the server's context, each above earlier ones or above what the client has. */
  ghost predicate Importable(t: Tables, s: Tables, c: ContextId, d: seq<EventId>) {
    && Inv(s) && Trusts(t, s, c, d)
    && (forall k :: 0 <= k < |d| ==> Targets(Parsed(s.events), c, d[k]))
    && (forall k, p :: 0 <= k < |d| && p in Parsed(s.events)[d[k]].body.parents ==> p in d[..k] || p in t.events)
  }

  lemma SyncOne(t: Tables, u: Tables, s: Tables, c: ContextId, d: seq<EventId>, k: nat, e: Event)
    requires Importable(t, s, c, d) && k < |d| && Synced(t, u, s, d, k)
    requires e.id == d[k] && Holds(s, [e])
    ensures var r := AdmitSpec(u, e, NoMove); r.Ok? && Synced(t, r.value.0, s, d, k + 1)
  {
    hide Inv, Grows, Parsed, AdmitSpec;
    assert [e][0] == e;
    StoredEventIs(s, e);
    assert Targets(Parsed(s.events), c, d[k]);
    forall p | p in e.body.parents ensures Targets(Parsed(u.events), c, p) {
      assert p in u.events;
      InParents(s, e.id, p);
      SharedParents(u, s, p);
    }
    GrowsFacts(t, u, c, (c, e.body.author));
    HonestEventAdmits(u, s, c, e);
    AdmitInv(u, e, NoMove);
    AdmitGrows(u, e, NoMove);
    AdmitStores(u, e, NoMove);
    var v := AdmitSpec(u, e, NoMove).value.0;
    GrowsTrans(t, u, v);
    assert d[..k + 1] == d[..k] + [d[k]];
    forall id | id in v.events && id in s.events ensures v.events[id].wire == s.events[id].wire {
      if id in u.events { assert v.events[id] == u.events[id]; }
    }
  }

  lemma StoredEventIs(s: Tables, e: Event)
    requires Holds(s, [e])
    ensures e.id in Parsed(s.events) && Parsed(s.events)[e.id] == e
  {
    assert [e][0] == e;
    StoredIsParsed(s.events, e);
  }

  lemma GrowsFacts(t: Tables, u: Tables, c: ContextId, a: (ContextId, AuthorId))
    requires Grows(t, u) && c in t.contexts
    ensures c in u.contexts && u.contexts[c].expected == t.contexts[c].expected
    ensures a in t.authors ==> a in u.authors
  {
  }

  /** A slice of the plan admits event by event. */
  lemma {:induction false} SyncSlice(t: Tables, u: Tables, s: Tables, c: ContextId, d: seq<EventId>, k: nat, events: seq<Event>)
    requires Importable(t, s, c, d) && k + |events| <= |d| && Synced(t, u, s, d, k)
    requires Ids(events) == d[k..k + |events|] && Holds(s, events)
    ensures var r := AdmitAll(u, events); r.Ok? && Synced(t, r.value, s, d, k + |events|)
    decreases |events|
  {
    hide Importable, Synced, AdmitSpec;
    if events != [] {
      var e := events[0];
      assert Ids(events)[0] == e.id && d[k..k + |events|][0] == d[k];
      assert Holds(s, [e]);
      SyncOne(t, u, s, c, d, k, e);
      var rest := events[1..];
      forall i | 0 <= i < |rest| ensures rest[i] == events[i + 1] && Ids(rest)[i] == d[k + 1 + i] {
        assert Ids(events)[i + 1] == d[k..k + |events|][i + 1];
      }
      assert Ids(rest) == d[k + 1..k + 1 + |rest|];
      SyncSlice(t, AdmitSpec(u, e, NoMove).value.0, s, c, d, k + 1, rest);
    }
  }

  /** An honest page imports in one transaction. */
  lemma SyncOnePage(t: Tables, u: Tables, s: Tables, c: ContextId, d: seq<EventId>, k: nat, peer: Name, events: seq<Event>)
    requires Importable(t, s, c, d) && k + |events| <= |d| && Synced(t, u, s, d, k)
    requires Ids(events) == d[k..k + |events|] && Holds(s, events) && WellFormed(Page(c, events))
    ensures var r := ImportSpec(u, peer, Page(c, events));
      && r.Ok? && Synced(t, r.value.0, s, d, k + |events|)
      && r.value.0.remoteRefs == u.remoteRefs && r.value.0.localRefs == u.localRefs
  {
    SyncKnown(t, u, s, c, d, k);
    hide Importable, Synced, AdmitSpec, AdmitAll, ImportSpec, Inv, KnownContext, WellFormed, Grows, ValidName;
    SyncSlice(t, u, s, c, d, k, events);
    ImportIsAdmissions(u, peer, Page(c, events));
    AdmitAllStores(u, events);
    AdmitAllGrows(u, events);
    var a := AdmitAll(u, events).value;
    assert a.(remoteRefs := PeerRefs(a.remoteRefs, peer, c, [])) == a;
  }

  lemma SyncKnown(t: Tables, u: Tables, s: Tables, c: ContextId, d: seq<EventId>, k: nat)
    requires Importable(t, s, c, d) && k <= |d| && Synced(t, u, s, d, k)
    ensures Inv(u) && KnownContext(u, c).Ok?
  {
    hide Inv, KnownContext, Parsed;
    KnownRow(u, c);
  }
}
