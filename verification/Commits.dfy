/** When each transaction of a sound store succeeds, and everything it then changes. */
module Commits {
  import opened Base
  import opened Sorting
  import opened Graph
  import opened Names
  import opened Tables
  import opened Transitions
  import opened Bundles
  import opened Namespaces
  import opened Runs
  import opened Branches
  import opened Transfer
  import opened Provider

  // ---------------------------------------------------------------- admitting a child

  /** Not shaped like a genesis. */
  predicate Childlike(e: Event) {
    e.body.parents != [] && e.body.kind != GENESIS_KIND
  }

  /** The event may enter this store: its parents are there, its author is authorized, and no other
      envelope claims its identifier. */
  predicate Ready(t: Tables, e: Event) {
    && (forall p :: p in e.body.parents ==> Targets(Parsed(t.events), e.body.context, p))
    && (e.body.context, e.body.author) in t.authors
    && Unforged(t, e)
  }

  /** The event is held and nothing else is new. */
  ghost predicate Gained(t: Tables, u: Tables, e: Event) {
    && Inv(u) && Grows(t, u) && Holds(u, [e])
    && u.events.Keys == t.events.Keys + {e.id}
    && u.contexts == t.contexts && u.authors == t.authors && u.remoteRefs == t.remoteRefs
  }

  /** The event is held, the branch is at it, and nothing else is different. */
  ghost predicate Moved(t: Tables, u: Tables, e: Event, name: Name) {
    Gained(t, u, e) && u.localRefs == t.localRefs[(e.body.context, name) := e.id]
  }

  /** A child is admitted exactly when it is ready. */
  lemma ChildAdmitsWhen(t: Tables, e: Event)
    requires Inv(t) && Childlike(e)
    ensures AdmitSpec(t, e, NoMove).Ok? <==> Ready(t, e)
    ensures Ready(t, e) ==> Gained(t, AdmitSpec(t, e, NoMove).value.0, e) && AdmitSpec(t, e, NoMove).value.0.localRefs == t.localRefs
  {
    hide Inv, Gained, AdmitSpec, Ready;
    if Ready(t, e) {
      ReadyAdmits(t, e);
      AdmittedGains(t, e);
      NoMoveKeepsLocal(t, e);
    } else if AdmitSpec(t, e, NoMove).Ok? {
      AdmittedReady(t, e);
    }
  }

  lemma ReadyAdmits(t: Tables, e: Event)
    requires Inv(t) && Childlike(e) && Ready(t, e)
    ensures AdmitSpec(t, e, NoMove).Ok? && KnownContext(t, e.body.context).Ok? && KnownContext(t, e.body.context).value.state == ACTIVE
  {
    hide Inv, Parsed, Targets, CheckParents, ValidateStored, EdgeRows, GenesisTaken, KnownContext, ValidName;
    var c := e.body.context;
    var p := e.body.parents[0];
    assert p in e.body.parents;
    TargetChecked(t, c, p);
    KnownRow(t, c);
    PendingHoldsNothing(t, c, p);
    ParentsChecked(t, c, e.body.parents);
    if e.id in t.events {
      assert Holds(t, [e]);
      PresentReimports(t, c, t.contexts[c], e);
    }
  }

  lemma AdmittedReady(t: Tables, e: Event)
    requires Inv(t) && AdmitSpec(t, e, NoMove).Ok?
    ensures Ready(t, e)
  {
    hide Inv, Parsed, Targets, CheckParents, ValidateStored, EdgeRows, GenesisTaken, KnownContext, ValidName;
    ParentsChecked(t, e.body.context, e.body.parents);
  }

  lemma AdmittedGains(t: Tables, e: Event)
    requires Inv(t) && Childlike(e) && AdmitSpec(t, e, NoMove).Ok? && KnownContext(t, e.body.context).Ok?
    requires KnownContext(t, e.body.context).value.state == ACTIVE
    ensures Gained(t, AdmitSpec(t, e, NoMove).value.0, e)
  {
    hide Inv, Grows, Holds, AdmitSpec, ValidName;
    AdmitInv(t, e, NoMove);
    AdmitGrows(t, e, NoMove);
    AdmitStores(t, e, NoMove);
    AdmittedTables(t, e);
  }

  lemma AdmittedTables(t: Tables, e: Event)
    requires AdmitSpec(t, e, NoMove).Ok? && KnownContext(t, e.body.context).value.state == ACTIVE
    ensures var u := AdmitSpec(t, e, NoMove).value.0;
      u.events.Keys == t.events.Keys + {e.id} && u.contexts == t.contexts && u.authors == t.authors
  {
    hide CheckEvent, ValidateStored, EdgeRows, KnownContext, ValidName;
  }

  /** With a compare-and-swap it is admitted exactly when, moreover, the branch is where the writer
      expects it, or already at the event; elsewhere the current head is reported. */
  lemma SwapWhen(t: Tables, e: Event, name: Name, expected: EventId)
    requires Inv(t) && Childlike(e)
    ensures var r := AdmitSpec(t, e, CompareAndSwap(e.body.context, name, Head(expected), e.id));
      var current := Lookup(t.localRefs, (e.body.context, name));
      && (r.Ok? <==> Ready(t, e) && (current == Some(expected) || current == Some(e.id)))
      && (Ready(t, e) && current != Some(expected) && current != Some(e.id) ==> r == Err(StaleHead(current)))
      && (r.Ok? ==> Moved(t, r.value.0, e, name))
  {
    hide Inv, AdmitSpec, Ready, Gained, ValidName;
    ChildAdmitsWhen(t, e);
    var m := CompareAndSwap(e.body.context, name, Head(expected), e.id);
    if AdmitSpec(t, e, m).Ok? {
      SwapLands(t, e, m);
    }
    if Ready(t, e) {
      SwapDecided(t, e, name, expected);
      if AdmitSpec(t, e, m).Ok? {
        AdmitInv(t, e, m);
        SwapOnlyMoves(t, e, name, expected);
        GainedMoves(t, AdmitSpec(t, e, NoMove).value.0, AdmitSpec(t, e, m).value.0, e);
      }
    }
  }

  lemma SwapOnlyMoves(t: Tables, e: Event, name: Name, expected: EventId)
    requires var m := CompareAndSwap(e.body.context, name, Head(expected), e.id); AdmitSpec(t, e, m).Ok? && AdmitSpec(t, e, NoMove).Ok?
    ensures var m := CompareAndSwap(e.body.context, name, Head(expected), e.id);
      AdmitSpec(t, e, m).value.0 == AdmitSpec(t, e, NoMove).value.0.(localRefs := t.localRefs[(e.body.context, name) := e.id])
  {
    hide CheckEvent, ValidateStored, EdgeRows, KnownContext, ValidName;
  }

  lemma GainedMoves(t: Tables, s: Tables, u: Tables, e: Event)
    requires Gained(t, s, e) && Inv(u) && u == s.(localRefs := u.localRefs)
    ensures Gained(t, u, e)
  {
    hide Inv;
    RefsDoNotMatter(t, s, u);
    assert [e][0] == e;
  }

  lemma ParentsUnder(t: Tables, u: Tables, e: Event)
    requires Gained(t, u, e)
    ensures forall p :: p in e.body.parents ==> Above(u, e.id, p)
  {
    hide Inv, Grows, Holds, Above;
    forall p | p in e.body.parents ensures Above(u, e.id, p) {
      ParentBelow(u, e, p);
    }
  }

  /** What an admission reports: that the branch was at the event, else that the event was there, else that
      it is new. */
  lemma StatusSays(t: Tables, e: Event, m: RefMutation)
    requires AdmitSpec(t, e, m).Ok?
    ensures var status := AdmitSpec(t, e, m).value.1;
      var there := m.CompareAndSwap? && Lookup(t.localRefs, (m.context, m.name)) == Some(e.id);
      && (status == AlreadyApplied <==> there)
      && (status == AlreadyPresent <==> !there && e.id in t.events)
      && (status == Inserted <==> !there && e.id !in t.events)
  {
    hide CheckEvent, ValidateStored, EdgeRows, KnownContext, ValidName;
  }

  // ---------------------------------------------------------------- append and merge

  /** Appending an ordinary event succeeds exactly when the event is ready and the branch is at its single
      parent, or at the event already.  Then the branch is at the event, above the old head, and everything
      else is as before.  A ready event on a branch that is elsewhere is told the current head. */
  lemma AppendDecided(t: Tables, e: Event, name: Name, expected: EventId)
    requires Inv(t) && e.body.parents == [expected]
    ensures var r := AppendSpec(t, e, name, expected); var current := Lookup(t.localRefs, (e.body.context, name));
      var reserved := e.body.kind == GENESIS_KIND || e.body.kind == MERGE_KIND;
      && (r.Ok? <==> !reserved && Ready(t, e) && (current == Some(expected) || current == Some(e.id)))
      && (reserved ==> r == Err(ReservedEventKind))
      && (!reserved && Ready(t, e) && r.Err? ==> r == Err(StaleHead(current)))
      && (r.Ok? ==> Moved(t, r.value, e, name) && Above(r.value, e.id, expected) && e.id != expected)
  {
    hide Inv, AdmitSpec, Ready, Above, Gained, ValidName;
    if e.body.kind != GENESIS_KIND && e.body.kind != MERGE_KIND {
      SwapWhen(t, e, name, expected);
      if AppendSpec(t, e, name, expected).Ok? {
        var u := AppendSpec(t, e, name, expected).value;
        assert expected in e.body.parents;
        ParentsUnder(t, u, e);
        Irreflexive(t, u, e);
      }
    }
  }

  lemma Irreflexive(t: Tables, u: Tables, e: Event)
    requires Gained(t, u, e)
    ensures e.id !in e.body.parents
  {
    hide Inv, Grows, Holds;
    NotOwnParent(u, e);
  }

  /** Of two appends that expect the same head the second is stale. */
  lemma SecondAppendStale(t: Tables, e: Event, f: Event, name: Name, expected: EventId)
    requires Inv(t) && e.body.parents == [expected] == f.body.parents && e.body.context == f.body.context && e.id != f.id
    requires AppendSpec(t, e, name, expected).Ok?
    requires f.body.kind != GENESIS_KIND && f.body.kind != MERGE_KIND && Ready(AppendSpec(t, e, name, expected).value, f)
    ensures AppendSpec(AppendSpec(t, e, name, expected).value, f, name, expected) == Err(StaleHead(Some(e.id)))
  {
    hide Inv, AppendSpec, Ready, Above, Grows, Holds, ValidName;
    AppendDecided(t, e, name, expected);
    AppendDecided(AppendSpec(t, e, name, expected).value, f, name, expected);
  }

  /** Merging two to sixty-four distinct parents, the expected head among them, succeeds exactly when the
      merge event is ready and the branch is at the expected head, or at the event already.  Then the branch
      is at the event, above every parent, and everything else is as before. */
  lemma MergeDecided(t: Tables, e: Event, name: Name, expected: EventId, parents: seq<EventId>)
    requires Inv(t) && e.body.kind == MERGE_KIND && e.body.parents == SortDedup(parents)
    ensures var r := MergeSpec(t, e, name, expected, parents); var current := Lookup(t.localRefs, (e.body.context, name));
      var shaped := 2 <= |parents| <= MAX_PARENTS && Distinct(parents) && expected in parents;
      && (r.Ok? <==> shaped && Ready(t, e) && (current == Some(expected) || current == Some(e.id)))
      && (!shaped ==> r == Err(InvalidMerge))
      && (shaped && Ready(t, e) && r.Err? ==> r == Err(StaleHead(current)))
      && (r.Ok? ==> Moved(t, r.value, e, name) && forall p :: p in parents ==> Above(r.value, e.id, p))
  {
    hide Inv, AdmitSpec, Ready, Above, Gained, ValidName, Ascending;
    if 2 <= |parents| <= MAX_PARENTS && Distinct(parents) && expected in parents {
      assert expected in Elems(parents);
      assert |MERGE_KIND| != |GENESIS_KIND|;
      SwapWhen(t, e, name, expected);
      if MergeSpec(t, e, name, expected, parents).Ok? {
        ParentsUnder(t, MergeSpec(t, e, name, expected, parents).value, e);
        forall p | p in parents ensures p in e.body.parents {
          assert p in Elems(SortDedup(parents));
        }
      }
    }
  }

  // ---------------------------------------------------------------- why a child is refused

  /** The first parent that is not an event of the context. */
  predicate FirstBad(t: Tables, c: ContextId, parents: seq<EventId>, i: nat) {
    && i < |parents| && !Targets(Parsed(t.events), c, parents[i])
    && forall j :: 0 <= j < i ==> Targets(Parsed(t.events), c, parents[j])
  }

  /** Why the parents do not do: the first bad one, absent or of another context. */
  function BadParent(t: Tables, p: EventId): StoreError {
    if p in t.events then ParentContextMismatch(p) else ParentMissing(p)
  }

  /** A sound store names the first thing that stands in the way of a child, whether or not it would move a
      branch: an unknown or pending context, the author, the first bad parent, then the collision. */
  lemma ChildRefused(t: Tables, e: Event, m: RefMutation)
    requires Inv(t) && Childlike(e) && (m.CompareAndSwap? ==> m.context == e.body.context && m.newHead == e.id)
    ensures var r := AdmitSpec(t, e, m); var c := e.body.context;
      && (c !in t.contexts ==> r == Err(ContextUnknown))
      && (c in t.contexts && t.contexts[c].state == PENDING ==> r == Err(GenesisMismatch))
      && (c in t.contexts && t.contexts[c].state == ACTIVE ==>
            && ((c, e.body.author) !in t.authors ==> r == Err(UnauthorizedAuthor))
            && ((c, e.body.author) in t.authors ==>
                  && (forall i: nat :: FirstBad(t, c, e.body.parents, i) ==> r == Err(BadParent(t, e.body.parents[i])))
                  && ((forall p :: p in e.body.parents ==> Targets(Parsed(t.events), c, p)) && !Unforged(t, e) ==>
                        r == Err(EventCollision))))
  {
    hide Inv, Parsed, Targets, CheckParents, AdmitSpec, ValidName, FirstBad, BadParent, CheckEvent, IsGenesis;
    var c := e.body.context;
    if c !in t.contexts {
      UnknownRefused(t, e, m);
    } else {
      KnownRow(t, c);
      var row := t.contexts[c];
      CheckOrder(t, c, row.expected, row.state, e);
      CheckRefuses(t, e, m);
      ParentsChecked(t, c, e.body.parents);
      forall i: nat | FirstBad(t, c, e.body.parents, i)
        ensures i < |e.body.parents| && CheckParents(t, c, e.body.parents) == Err(BadParent(t, e.body.parents[i]))
      {
        FirstBadParent(t, c, e.body.parents, i);
      }
      if CheckEvent(t, c, row.expected, row.state, e).Ok? && !Unforged(t, e) {
        CollisionRefuses(t, e, m);
      }
    }
  }

  lemma UnknownRefused(t: Tables, e: Event, m: RefMutation)
    requires e.body.context !in t.contexts && (m.CompareAndSwap? ==> m.context == e.body.context && m.newHead == e.id)
    ensures AdmitSpec(t, e, m) == Err(ContextUnknown)
  {
    hide CheckEvent, ValidateStored, EdgeRows, GenesisTaken, ValidName;
  }

  lemma CheckOrder(t: Tables, c: ContextId, expected: EventId, state: int, e: Event)
    requires Childlike(e) && (state == PENDING || state == ACTIVE)
    ensures CheckEvent(t, c, expected, state, e) ==
      if state == PENDING then Err(GenesisMismatch)
      else if (c, e.body.author) !in t.authors then Err(UnauthorizedAuthor)
      else CheckParents(t, c, e.body.parents)
  {
    hide CheckParents;
  }

  lemma CheckRefuses(t: Tables, e: Event, m: RefMutation)
    requires KnownContext(t, e.body.context).Ok? && (m.CompareAndSwap? ==> m.context == e.body.context && m.newHead == e.id)
    ensures var row := KnownContext(t, e.body.context).value; var checked := CheckEvent(t, e.body.context, row.expected, row.state, e);
      checked.Err? ==> AdmitSpec(t, e, m) == Err(checked.error)
  {
    hide CheckEvent, KnownContext, ValidateStored, EdgeRows, GenesisTaken, ValidName;
  }

  lemma CollisionRefuses(t: Tables, e: Event, m: RefMutation)
    requires Childlike(e) && KnownContext(t, e.body.context).Ok? && !Unforged(t, e)
    requires m.CompareAndSwap? ==> m.context == e.body.context && m.newHead == e.id
    requires var row := KnownContext(t, e.body.context).value; CheckEvent(t, e.body.context, row.expected, row.state, e).Ok?
    ensures AdmitSpec(t, e, m) == Err(EventCollision)
  {
    hide CheckEvent, KnownContext, ValidateStored, EdgeRows, GenesisTaken, ValidName;
  }

  lemma {:induction false} FirstBadParent(t: Tables, c: ContextId, parents: seq<EventId>, i: nat)
    requires Inv(t) && FirstBad(t, c, parents, i)
    ensures i < |parents|
    ensures CheckParents(t, c, parents) == Err(BadParent(t, parents[i]))
    decreases i
  {
    hide Inv, Parsed, AuthoritativeContext;
    TargetChecked(t, c, parents[0]);
    InvGraph(t);
    if i > 0 {
      assert FirstBad(t, c, parents[1..], i - 1);
      FirstBadParent(t, c, parents[1..], i - 1);
    }
  }

  // ---------------------------------------------------------------- contexts and authors

  /** Provisioning succeeds exactly for a proper author list and a context that is new or was provisioned
      alike, joining only while it is still pending.  Afterwards the context expects that genesis from
      exactly those authors, and every other context, author and table is as before. */
  lemma ProvisionDecided(t: Tables, p: ContextProvision, pendingOnly: bool)
    requires Inv(t)
    ensures var r := ProvisionSpec(t, p, pendingOnly); var c := p.context;
      && (r.Ok? <==>
            && 0 < |p.authors| <= MAX_AUTHORIZED_AUTHORS && Ascending(p.authors)
            && (c in t.contexts ==>
                  && t.contexts[c].expected == p.expectedGenesis && AuthorsOf(t, c) == Elems(p.authors)
                  && (pendingOnly ==> t.contexts[c].state == PENDING)))
      && (r.Ok? ==> var u := r.value;
            && Lookup(u.contexts, c) == (if c in t.contexts then Some(t.contexts[c]) else Some(ContextRow(p.expectedGenesis, None, PENDING)))
            && AuthorsOf(u, c) == Elems(p.authors)
            && (forall d :: d != c ==> Lookup(u.contexts, d) == Lookup(t.contexts, d) && AuthorsOf(u, d) == AuthorsOf(t, d))
            && u == t.(contexts := u.contexts, authors := u.authors)
            && ProvisionSpec(u, p, pendingOnly) == Ok(u))
  {
    hide Inv, Ascending, ValidName;
    if p.context in t.contexts {
      KnownRow(t, p.context);
    } else {
      NoStrayAuthors(t, p.context);
      if ValidateAuthors(p.authors).Ok? { ProvisionedAuthors(t, p); }
    }
  }

  lemma NoStrayAuthors(t: Tables, c: ContextId)
    requires Inv(t) && c !in t.contexts
    ensures AuthorsOf(t, c) == {}
  {
    hide RefsOk, Cyclic, AuthorsOk, GenesisOk, ContextsOk, RowsOk, EdgesOk, ParentsOk, RefKeys, Links, Parsed;
  }

  lemma ProvisionedAuthors(t: Tables, p: ContextProvision)
    requires AuthorsOf(t, p.context) == {}
    ensures AuthorsOf(Provisioned(t, p), p.context) == Elems(p.authors)
    ensures forall d :: d != p.context ==> AuthorsOf(Provisioned(t, p), d) == AuthorsOf(t, d)
  {
    var u := Provisioned(t, p);
    forall a ensures a in AuthorsOf(u, p.context) <==> a in Elems(p.authors) {
      if a in Elems(p.authors) {
        assert (p.context, a) in u.authors;
      }
      if a in AuthorsOf(u, p.context) {
        assert (p.context, a) in u.authors;
        assert (p.context, a) in t.authors ==> a in AuthorsOf(t, p.context);
      }
    }
    forall d | d != p.context ensures AuthorsOf(u, d) == AuthorsOf(t, d) {
      forall a ensures a in AuthorsOf(u, d) <==> a in AuthorsOf(t, d) {
        assert a in AuthorsOf(u, d) <==> (d, a) in u.authors;
        assert a in AuthorsOf(t, d) <==> (d, a) in t.authors;
      }
    }
  }

  /** Authorizing succeeds exactly for a known context; then exactly that author is authorized as well, and
      the answer says whether that is new. */
  lemma AuthorizeDecided(t: Tables, c: ContextId, a: AuthorId)
    requires Inv(t)
    ensures var r := AuthorizeSpec(t, c, a);
      && (r.Ok? <==> c in t.contexts)
      && (r.Ok? ==> var (u, novel) := r.value;
            && AuthorsOf(u, c) == AuthorsOf(t, c) + {a} && (forall d :: d != c ==> AuthorsOf(u, d) == AuthorsOf(t, d))
            && (novel <==> a !in AuthorsOf(t, c)) && u == t.(authors := u.authors))
  {
    hide Inv;
    if c in t.contexts {
      KnownRow(t, c);
      var u := AuthorizeSpec(t, c, a).value.0;
      forall d, b ensures b in AuthorsOf(u, d) <==> b in AuthorsOf(t, d) || (d == c && b == a) {
        assert b in AuthorsOf(u, d) <==> (d, b) in u.authors;
        assert b in AuthorsOf(t, d) <==> (d, b) in t.authors;
      }
    }
  }

  /** A context is created exactly when neither it nor its genesis is there; then it is active with that
      genesis, its one author and its one branch, and everything else is as before. */
  lemma CreateContextDecided(t: Tables, e: Event, name: Name)
    requires Inv(t) && IsGenesis(e.id, e)
    ensures var r := CreateContextSpec(t, e, name); var c := e.body.context;
      && (r.Ok? <==> c !in t.contexts && e.id !in t.events)
      && (r.Ok? ==> var u := r.value;
            && Inv(u) && Holds(u, [e]) && u.events.Keys == t.events.Keys + {e.id} && Grows(t, u)
            && u.contexts == t.contexts[c := ContextRow(e.id, Some(e.id), ACTIVE)]
            && u.authors == t.authors + {(c, e.body.author)}
            && u.localRefs == t.localRefs[(c, name) := e.id] && u.remoteRefs == t.remoteRefs)
  {
    hide Inv, Grows, ValidName, EdgeRows, GenesisTaken;
    var c := e.body.context;
    if c in t.contexts { KnownRow(t, c); }
    if GenesisTaken(t, c, e.id) { TakenIsStored(t, c, e.id); }
    CreateContextInv(t, e, name);
    if CreateContextSpec(t, e, name).Ok? {
      CreatedGrows(t, e, name);
      var p := ContextProvision(c, e.id, [e.body.author]);
      assert (set a | a in p.authors :: (c, a)) == {(c, e.body.author)} by {
        assert e.body.author in p.authors;
      }
    }
  }

  lemma CreatedGrows(t: Tables, e: Event, name: Name)
    requires Inv(t) && IsGenesis(e.id, e) && CreateContextSpec(t, e, name).Ok?
    ensures Grows(t, CreateContextSpec(t, e, name).value)
  {
    hide Inv, Grows, CreateContextSpec, ValidName;
    StepGrows(t, CreateContextOp(e, name));
  }

  lemma TakenIsStored(t: Tables, c: ContextId, id: EventId)
    requires Inv(t) && GenesisTaken(t, c, id)
    ensures id in t.events
  {
    hide RefsOk, Cyclic, AuthorsOk, RowsOk, EdgesOk, ParentsOk, RefKeys, CoreKeys, Links;
    var d :| d in t.contexts && d != c && t.contexts[d].genesis == Some(id);
    assert ActiveGenesis(Parsed(t.events), d, t.contexts[d]);
  }

  /** The genesis of a pending context is admitted exactly when its author is authorized and nothing has its
      identifier; then the context is active with it, and nothing else is new. */
  lemma GenesisAdmitsWhen(t: Tables, e: Event)
    requires Inv(t) && e.body.context in t.contexts && t.contexts[e.body.context].state == PENDING
    requires IsGenesis(t.contexts[e.body.context].expected, e)
    ensures var r := AdmitSpec(t, e, NoMove); var c := e.body.context;
      && (r.Ok? <==> (c, e.body.author) in t.authors && e.id !in t.events)
      && (r.Ok? ==> var u := r.value.0;
            && Inv(u) && Holds(u, [e]) && u.events.Keys == t.events.Keys + {e.id} && Grows(t, u)
            && u.contexts == t.contexts[c := ContextRow(e.id, Some(e.id), ACTIVE)]
            && u.authors == t.authors && u.localRefs == t.localRefs && u.remoteRefs == t.remoteRefs)
  {
    hide Inv, Grows, ValidName, EdgeRows, GenesisTaken, ValidateStored, AdmitSpec, Holds;
    var c := e.body.context;
    KnownRow(t, c);
    if GenesisTaken(t, c, e.id) { TakenIsStored(t, c, e.id); }
    if Holds(t, [e]) { StoredGenesisActive(t, e); }
    PendingAdmission(t, e);
    if AdmitSpec(t, e, NoMove).Ok? {
      AdmitInv(t, e, NoMove);
      AdmitGrows(t, e, NoMove);
      AdmitStores(t, e, NoMove);
    }
  }

  lemma StoredGenesisActive(t: Tables, e: Event)
    requires Inv(t) && Holds(t, [e])
    ensures e.body.context in t.contexts ==> t.contexts[e.body.context].state == ACTIVE
  {
    hide Inv, Parsed;
    StoredEvent(t, e);
    PendingHoldsNothing(t, e.body.context, e.id);
  }

  lemma PendingAdmission(t: Tables, e: Event)
    requires KnownContext(t, e.body.context).Ok? && KnownContext(t, e.body.context).value == t.contexts[e.body.context]
    requires e.body.context in t.contexts && t.contexts[e.body.context].state == PENDING
    requires IsGenesis(t.contexts[e.body.context].expected, e) && !Holds(t, [e])
    requires GenesisTaken(t, e.body.context, e.id) ==> e.id in t.events
    ensures var r := AdmitSpec(t, e, NoMove); var c := e.body.context;
      && (r.Ok? <==> (c, e.body.author) in t.authors && e.id !in t.events)
      && (r.Ok? ==> var u := r.value.0;
            && u.events.Keys == t.events.Keys + {e.id}
            && u.contexts == t.contexts[c := ContextRow(e.id, Some(e.id), ACTIVE)]
            && u.authors == t.authors && u.localRefs == t.localRefs && u.remoteRefs == t.remoteRefs)
  {
    hide KnownContext, ValidName, EdgeRows, GenesisTaken, ValidateStored;
  }

  // ---------------------------------------------------------------- refs

  /** A branch is created exactly at an event of the context and under a name that is free or already there;
      a taken name is refused, and nothing but the one ref changes. */
  lemma CreateBranchDecided(t: Tables, c: ContextId, name: Name, head: EventId)
    requires Inv(t)
    ensures var r := CreateBranchSpec(t, c, name, head); var current := Lookup(t.localRefs, (c, name));
      && (r.Ok? <==> Targets(Parsed(t.events), c, head) && (current == None || current == Some(head)))
      && (Targets(Parsed(t.events), c, head) && r.Err? ==> r == Err(RefAlreadyExists))
      && (head !in t.events ==> r == Err(ParentMissing(head)))
      && (head in t.events && !Targets(Parsed(t.events), c, head) ==> r == Err(ParentContextMismatch(head)))
      && (r.Ok? ==> r.value == t.(localRefs := t.localRefs[(c, name) := head]))
  {
    hide Inv, Parsed, AuthoritativeContext, ValidName;
    TargetChecked(t, c, head);
    InvGraph(t);
    if Lookup(t.localRefs, (c, name)) == Some(head) {
      assert t.localRefs[(c, name) := head] == t.localRefs;
    }
  }

  /** A remote ref is bound exactly to an event of the context, whatever it was; nothing else changes. */
  lemma SetRemoteDecided(t: Tables, peer: Name, c: ContextId, name: Name, head: EventId)
    requires Inv(t)
    ensures var r := SetRemoteSpec(t, peer, c, name, head);
      && (r.Ok? <==> Targets(Parsed(t.events), c, head))
      && (head !in t.events ==> r == Err(ParentMissing(head)))
      && (head in t.events && r.Err? ==> r == Err(ParentContextMismatch(head)))
      && (r.Ok? ==> r.value == t.(remoteRefs := t.remoteRefs[(peer, c, name) := head]))
  {
    hide Inv, Parsed, AuthoritativeContext, ValidName;
    TargetChecked(t, c, head);
    InvGraph(t);
  }
}
