/** One page of an ancestry difference, selected in a read snapshot. */
module Export {
  import opened Base
  import opened Sorting
  import opened Graph
  import opened Names
  import opened Tables
  import opened Transitions
  import opened Bundles
  import opened Projections
  import opened Paging

  datatype SyncPage = SyncPage(bundle: Bundle, effectiveKnown: seq<EventId>, nextOffset: Option<nat>)

  /** Known heads that this snapshot holds in the context, in order. */
  function Effective(t: Tables, c: ContextId, known: seq<EventId>): Result<seq<EventId>, StoreError> {
    if known == [] then Ok([])
    else
      var before :- Effective(t, c, known[..|known| - 1]);
      var kc :- AuthoritativeContext(t, known[|known| - 1]);
      Ok(if kc == Some(c) then before + [known[|known| - 1]] else before)
  }

  function Without(order: seq<EventId>, known: set<EventId>): seq<EventId> {
    if order == [] then []
    else
      var before := Without(order[..|order| - 1], known);
      if order[|order| - 1] in known then before else before + [order[|order| - 1]]
  }

  /** Ancestry of the requested heads minus ancestry of the known ones, in projection order. */
  ghost function Difference(t: Tables, c: ContextId, requested: seq<EventId>, effective: seq<EventId>): seq<EventId> {
    var want := Plan(t, c, requested);
    var have := Plan(t, c, effective);
    if want.Ordered? && have.Ordered? then Without(want.order, Elems(have.order)) else []
  }

  // ---------------------------------------------------------------- slices of a topological order

  ghost predicate ParentsBefore(g: Graph, s: seq<EventId>) {
    && Distinct(s)
    && forall i :: 0 <= i < |s| ==> s[i] in g && forall p :: p in g[s[i]] && p in s ==> p in s[..i]
  }

  lemma {:induction false} WithoutIs(order: seq<EventId>, known: set<EventId>)
    ensures forall x :: x in Without(order, known) <==> x in order && x !in known
  {
    if order != [] {
      WithoutIs(order[..|order| - 1], known);
      assert order == order[..|order| - 1] + [order[|order| - 1]];
    }
  }

  lemma {:induction false} WithoutKeepsOrder(g: Graph, order: seq<EventId>, known: set<EventId>)
    requires Topo(g, order)
    ensures ParentsBefore(g, Without(order, known))
  {
    if order != [] {
      var n := |order| - 1;
      var init := order[..n];
      var last := order[n];
      assert Topo(g, init) by {
        forall i | 0 <= i < n ensures init[i] in g && forall p :: p in g[init[i]] ==> p in init[..i] {
          assert init[i] == order[i] && init[..i] == order[..i];
        }
      }
      WithoutKeepsOrder(g, init, known);
      WithoutIs(init, known);
      var before := Without(init, known);
      assert last !in init && last in g;
      if last !in known {
        var s := before + [last];
        forall i | 0 <= i < |s| ensures s[i] in g && forall p :: p in g[s[i]] && p in s ==> p in s[..i] {
          if i < |before| {
            assert s[..i] == before[..i] && s[i] in before && s[i] in init;
            assert last !in g[s[i]] by { ParentsAreEarlier(g, init, s[i]); }
          } else {
            assert s[..i] == before;
            assert order[..n] == init;
          }
        }
        assert last !in before;
      }
    }
  }

  lemma ParentsAreEarlier(g: Graph, s: seq<EventId>, x: EventId)
    requires Topo(g, s) && x in s
    ensures forall p :: p in g[x] ==> p in s
  {
    var i :| 0 <= i < |s| && s[i] == x;
  }

  lemma SliceKeepsOrder(g: Graph, s: seq<EventId>, a: nat, b: nat)
    requires ParentsBefore(g, s) && a <= b <= |s|
    ensures ParentsBefore(g, s[a..b])
  {
    var u := s[a..b];
    forall i | 0 <= i < |u| ensures u[i] in g && forall p :: p in g[u[i]] && p in u ==> p in u[..i] {
      assert u[i] == s[a + i];
      forall p | p in g[u[i]] && p in u ensures p in u[..i] {
        assert p in s[..a + i];
        var j :| 0 <= j < a + i && s[j] == p;
        var k :| 0 <= k < |u| && u[k] == p;
        assert s[a + k] == p;
        assert j == a + k;
        assert u[..i][k] == p;
      }
    }
  }

  /** Loaded events in parent-first order of their context form a well-formed page. */
  lemma SliceWellFormed(t: Tables, c: ContextId, events: seq<Event>)
    requires ParentsBefore(ContextGraph(t, c), Ids(events)) && Loaded(t, events) && |events| <= MAX_BUNDLE_EVENTS
    ensures WellFormed(Page(c, events))
  {
    hide LoadVerified;
    var g := ContextGraph(t, c);
    var ids := Ids(events);
    forall i | 0 <= i < |events|
      ensures events[i].body.context == c && g[ids[i]] == events[i].body.parents
    {
      assert ids[i] == events[i].id && ids[i] in g;
      assert LoadVerified(t, events[i].id) == Ok(events[i]);
    }
  }

  // ---------------------------------------------------------------- the page contract

  predicate ValidPageLimits(maxEvents: nat, maxBytes: nat) {
    0 < maxEvents <= MAX_BUNDLE_EVENTS && 0 < maxBytes <= MAX_BUNDLE_CANONICAL_BYTES
  }

  function ActiveContext(t: Tables, c: ContextId): Result<(), StoreError> {
    var row :- KnownContext(t, c);
    if row.state == ACTIVE then Ok(()) else Err(ContextUnknown)
  }

  /** A page is a nonempty slice of the difference at the offset, as long as the limits allow, with
      the offset that follows it. */
  ghost predicate IsPage(t: Tables, c: ContextId, requested: seq<EventId>, known: seq<EventId>, offset: nat,
                         maxEvents: nat, maxBytes: nat, page: SyncPage)
  {
    var d := Difference(t, c, requested, page.effectiveKnown);
    var events := page.bundle.events;
    var n := |events|;
    && ActiveContext(t, c).Ok?
    && Effective(t, c, known) == Ok(page.effectiveKnown)
    && Plan(t, c, requested).Ordered? && Plan(t, c, page.effectiveKnown).Ordered?
    && offset + n <= |d| && Ids(events) == d[offset..offset + n] && Loaded(t, events)
    && page.bundle == Page(c, events) && WellFormed(page.bundle)
    && (n == 0 ==> offset == 0 && d == [])
    && (n > 0 ==> n <= maxEvents && BundleBytes(page.bundle) <= maxBytes)
    && page.nextOffset == (if offset + n < |d| then Some(offset + n) else None)
    && (0 < n < maxEvents && offset + n < |d| ==>
          forall e :: LoadVerified(t, d[offset + n]) == Ok(e) ==> BundleBytes(Page(c, events + [e])) > maxBytes)
  }

  /** Request, limits and offset leave no choice of page. */
  lemma PageUnique(t: Tables, c: ContextId, requested: seq<EventId>, known: seq<EventId>, offset: nat, maxEvents: nat,
                   maxBytes: nat, a: SyncPage, b: SyncPage)
    requires IsPage(t, c, requested, known, offset, maxEvents, maxBytes, a)
    requires IsPage(t, c, requested, known, offset, maxEvents, maxBytes, b)
    ensures a == b
  {
    hide Difference, Plan, Effective, ActiveContext, LoadVerified, WellFormed, BundleBytes;
    NoShorterPage(t, c, requested, known, offset, maxEvents, maxBytes, a, b);
    NoShorterPage(t, c, requested, known, offset, maxEvents, maxBytes, b, a);
    LoadedUnique(t, a.bundle.events, b.bundle.events);
  }

  lemma NoShorterPage(t: Tables, c: ContextId, requested: seq<EventId>, known: seq<EventId>, offset: nat, maxEvents: nat,
                      maxBytes: nat, a: SyncPage, b: SyncPage)
    requires IsPage(t, c, requested, known, offset, maxEvents, maxBytes, a)
    requires IsPage(t, c, requested, known, offset, maxEvents, maxBytes, b)
    ensures |a.bundle.events| >= |b.bundle.events|
  {
    hide Difference, Plan, Effective, ActiveContext, LoadVerified, WellFormed, BundleBytes;
    var short, long := a.bundle.events, b.bundle.events;
    var n := |short|;
    var d := Difference(t, c, requested, a.effectiveKnown);
    PageBytesIs(c, long, |long|);
    assert long[..|long|] == long;
    if n < |long| {
      PrefixIs(t, d, offset, short, long);
      assert LoadVerified(t, d[offset + n]) == Ok(long[n]) by { assert Ids(long)[n] == long[n].id; }
      PageBytesIs(c, long, n + 1);
      LongerIsLarger(long, n + 1, |long|);
    }
  }

  lemma PrefixIs(t: Tables, d: seq<EventId>, offset: nat, short: seq<Event>, long: seq<Event>)
    requires |short| < |long| && offset + |long| <= |d| && Loaded(t, short) && Loaded(t, long)
    requires Ids(short) == d[offset..offset + |short|] && Ids(long) == d[offset..offset + |long|]
    ensures long[..|short| + 1] == short + [long[|short|]] && d[offset + |short|] == long[|short|].id
  {
    hide LoadVerified;
    forall i | 0 <= i < |short| ensures short[i] == long[i] {
      assert Ids(short)[i] == short[i].id && Ids(long)[i] == long[i].id;
    }
    assert Ids(long)[|short|] == long[|short|].id;
  }

  ghost predicate Projectable(t: Tables, c: ContextId, heads: seq<EventId>) {
    0 < |heads| <= MAX_BUNDLE_EVENTS && Plan(t, c, heads).Ordered? && Fits(t, c, Elems(heads), DEFAULT_LIMITS)
  }

  /** The first event fits a page and the size search meets no bundle above the hard cap. */
  ghost predicate Pageable(t: Tables, rest: seq<EventId>, maxEvents: nat, maxBytes: nat) {
    exists events :: SizedRest(t, rest, maxEvents, maxBytes, events)
  }

  ghost predicate SizedRest(t: Tables, rest: seq<EventId>, maxEvents: nat, maxBytes: nat, events: seq<Event>) {
    && Loaded(t, events) && Ids(events) == rest && events != []
    && PageBytes(events, 1) <= maxBytes
    && Searchable(events, 1, if |events| < maxEvents then |events| else maxEvents, maxBytes)
  }

  /** When there is a page to return. */
  ghost predicate Exportable(t: Tables, c: ContextId, requestedHeads: seq<EventId>, knownHeads: seq<EventId>, offset: nat,
                             maxEvents: nat, maxBytes: nat)
  {
    && HasPlan(t, c, requestedHeads, knownHeads, maxEvents, maxBytes)
    && var d := Difference(t, c, SortDedup(requestedHeads), Effective(t, c, SortDedup(knownHeads)).value);
      if d == [] then offset == 0 else offset < |d| && Pageable(t, d[offset..], maxEvents, maxBytes)
  }

  /** The request defines a difference at all. */
  ghost predicate HasPlan(t: Tables, c: ContextId, requestedHeads: seq<EventId>, knownHeads: seq<EventId>, maxEvents: nat,
                          maxBytes: nat)
  {
    var requested, effective := SortDedup(requestedHeads), Effective(t, c, SortDedup(knownHeads));
    && ValidPageLimits(maxEvents, maxBytes)
    && 0 < |requestedHeads| <= MAX_PROJECTION_HEADS && |knownHeads| <= MAX_BUNDLE_REFS
    && ActiveContext(t, c).Ok? && effective.Ok?
    && Projectable(t, c, requested) && (effective.value != [] ==> Projectable(t, c, effective.value))
  }

  /** The offset lies behind everything there is to send. */
  ghost predicate PastEnd(t: Tables, c: ContextId, requestedHeads: seq<EventId>, knownHeads: seq<EventId>, offset: nat,
                          maxEvents: nat, maxBytes: nat)
  {
    && HasPlan(t, c, requestedHeads, knownHeads, maxEvents, maxBytes)
    && var d := Difference(t, c, SortDedup(requestedHeads), Effective(t, c, SortDedup(knownHeads)).value);
      offset > |d| || (offset == |d| && offset != 0)
  }

  lemma OtherErrors(t: Tables, c: ContextId, known: seq<EventId>)
    ensures ActiveContext(t, c) != Err(BundleOrder) && Effective(t, c, known) != Err(BundleOrder)
  {
    if known != [] {
      OtherErrors(t, c, known[..|known| - 1]);
    }
  }

  lemma LoadedUnique(t: Tables, a: seq<Event>, b: seq<Event>)
    requires Loaded(t, a) && Loaded(t, b) && Ids(a) == Ids(b)
    ensures a == b
  {
    hide LoadVerified, Ascending;
    assert |a| == |Ids(a)| && |b| == |Ids(b)|;
    forall i | 0 <= i < |a| ensures a[i] == b[i] {
      assert Ids(a)[i] == a[i].id && Ids(b)[i] == b[i].id;
    }
  }

  /** The search's answer is about the events the plan names, and no others. */
  lemma PageableIs(t: Tables, rest: seq<Event>, maxEvents: nat, maxBytes: nat)
    requires Loaded(t, rest) && rest != []
    ensures Pageable(t, Ids(rest), maxEvents, maxBytes) <==>
      PageBytes(rest, 1) <= maxBytes && Searchable(rest, 1, if |rest| < maxEvents then |rest| else maxEvents, maxBytes)
  {
    hide Loaded, Searchable, PageBytes, Ids, Ascending;
    if Pageable(t, Ids(rest), maxEvents, maxBytes) {
      var events :| SizedRest(t, Ids(rest), maxEvents, maxBytes, events);
      LoadedUnique(t, rest, events);
    }
    if PageBytes(rest, 1) <= maxBytes && Searchable(rest, 1, if |rest| < maxEvents then |rest| else maxEvents, maxBytes) {
      assert SizedRest(t, Ids(rest), maxEvents, maxBytes, rest);
    }
  }

  lemma ProjectableIs(t: Tables, c: ContextId, heads: seq<EventId>, r: Result<(seq<Event>, nat), StoreError>)
    requires Projected(t, c, heads, DEFAULT_LIMITS, r)
    ensures r.Ok? <==> Projectable(t, c, heads)
  {
    hide Fits, Plan, Loaded, WireSizes;
  }

  lemma RestIds(t: Tables, plan: seq<Event>, offset: nat)
    requires offset <= |plan| && Loaded(t, plan)
    ensures Loaded(t, plan[offset..]) && Ids(plan[offset..]) == Ids(plan)[offset..] && |Ids(plan)| == |plan|
  {
    hide LoadVerified, Ascending;
  }

  method EffectiveHeads(t: Tables, c: ContextId, known: seq<EventId>) returns (r: Result<seq<EventId>, StoreError>)
    ensures r == Effective(t, c, known)
  {
    var effective: seq<EventId> := [];
    for i := 0 to |known|
      invariant Effective(t, c, known[..i]) == Ok(effective)
    {
      var kc := AuthoritativeContext(t, known[i]);
      assert known[..i + 1][..i] == known[..i];
      if kc.Err? {
        EffectiveFails(t, c, known, i);
        return Err(kc.error);
      }
      if kc.value == Some(c) {
        effective := effective + [known[i]];
      }
    }
    assert known[..|known|] == known;
    r := Ok(effective);
  }

  lemma {:induction false} EffectiveFails(t: Tables, c: ContextId, known: seq<EventId>, i: nat)
    requires i < |known| && Effective(t, c, known[..i]).Ok? && AuthoritativeContext(t, known[i]).Err?
    ensures Effective(t, c, known) == Err(AuthoritativeContext(t, known[i]).error)
    decreases |known|
  {
    if i < |known| - 1 {
      assert known[..|known| - 1][..i] == known[..i];
      EffectiveFails(t, c, known[..|known| - 1], i);
    }
  }

  /** Drops events the recipient's heads already reach. */
  method Subtract(events: seq<Event>, known: set<EventId>) returns (plan: seq<Event>)
    ensures Ids(plan) == Without(Ids(events), known)
    ensures forall e :: e in plan ==> e in events
  {
    plan := [];
    for i := 0 to |events|
      invariant Ids(plan) == Without(Ids(events)[..i], known)
      invariant forall e :: e in plan ==> e in events
    {
      assert Ids(events)[..i + 1][..i] == Ids(events)[..i];
      if events[i].id !in known {
        IdsAppend(plan, events[i]);
        plan := plan + [events[i]];
      }
    }
    assert Ids(events)[..|events|] == Ids(events);
  }

  lemma LoadedSubset(t: Tables, events: seq<Event>, plan: seq<Event>)
    requires Loaded(t, events) && forall e :: e in plan ==> e in events
    ensures Loaded(t, plan)
  {
    hide LoadVerified;
    forall i | 0 <= i < |plan| ensures LoadVerified(t, plan[i].id) == Ok(plan[i]) {
      assert plan[i] in events;
    }
  }

  /** The remaining events after an offset, page-ready up to any permitted count. */
  lemma RestWellFormed(t: Tables, c: ContextId, requested: seq<EventId>, effective: seq<EventId>, plan: seq<Event>,
                       offset: nat, upper: nat)
    requires Plan(t, c, requested).Ordered? && Plan(t, c, effective).Ordered? && Loaded(t, plan)
    requires Ids(plan) == Difference(t, c, requested, effective)
    requires offset <= |plan| && upper <= |plan| - offset && upper <= MAX_BUNDLE_EVENTS
    ensures WellFormed(Page(c, plan[offset..][..upper]))
  {
    hide LoadVerified;
    var g := ContextGraph(t, c);
    PostOrderExact(g, requested);
    WithoutKeepsOrder(g, Plan(t, c, requested).order, Elems(Plan(t, c, effective).order));
    SliceKeepsOrder(g, Ids(plan), offset, offset + upper);
    var slice := plan[offset..][..upper];
    assert Ids(slice) == Ids(plan)[offset..offset + upper];
    assert Loaded(t, slice) by {
      forall i | 0 <= i < |slice| ensures LoadVerified(t, slice[i].id) == Ok(slice[i]) {
        assert slice[i] == plan[offset + i];
      }
    }
    SliceWellFormed(t, c, slice);
  }

  lemma PageIs(t: Tables, c: ContextId, requested: seq<EventId>, known: seq<EventId>, effective: seq<EventId>, plan: seq<Event>,
               offset: nat, maxEvents: nat, maxBytes: nat, upper: nat, n: nat)
    requires ActiveContext(t, c).Ok? && Effective(t, c, known) == Ok(effective)
    requires Plan(t, c, requested).Ordered? && Plan(t, c, effective).Ordered? && Loaded(t, plan)
    requires Ids(plan) == Difference(t, c, requested, effective)
    requires offset < |plan| && maxEvents <= MAX_BUNDLE_EVENTS
    requires upper == (if |plan| - offset < maxEvents then |plan| - offset else maxEvents)
    requires 1 <= n <= upper && n == Longest(plan[offset..], upper, maxBytes)
    ensures IsPage(t, c, requested, known, offset, maxEvents, maxBytes,
                   SyncPage(Page(c, plan[offset..][..n]), effective, if offset + n < |plan| then Some(offset + n) else None))
  {
    hide LoadVerified, BundleBytes, Plan, Difference, Effective, ActiveContext;
    var rest := plan[offset..];
    LongestIs(rest, upper, maxBytes);
    RestWellFormed(t, c, requested, effective, plan, offset, n);
    var events := rest[..n];
    forall i | 0 <= i < n ensures events[i] == plan[offset + i] && Ids(events)[i] == Ids(plan)[offset + i] {}
    assert Ids(events) == Ids(plan)[offset..offset + n];
    PageBytesIs(c, rest, n);
    if n < maxEvents && offset + n < |plan| {
      assert n + 1 <= upper;
      PageBytesIs(c, rest, n + 1);
      assert rest[..n + 1] == events + [plan[offset + n]];
      assert Ids(plan)[offset + n] == plan[offset + n].id;
    }
  }

  /** Returns the maximal page at the offset of the difference this snapshot defines. */
  method ExportSyncPage(t: Tables, c: ContextId, requestedHeads: seq<EventId>, knownHeads: seq<EventId>, offset: nat,
                        maxEvents: nat, maxBytes: nat)
    returns (r: Result<SyncPage, StoreError>)
    ensures r.Ok? <==> Exportable(t, c, requestedHeads, knownHeads, offset, maxEvents, maxBytes)
    ensures r.Ok? ==> IsPage(t, c, SortDedup(requestedHeads), SortDedup(knownHeads), offset, maxEvents, maxBytes, r.value)
    ensures r == Err(BundleOrder) <==> PastEnd(t, c, requestedHeads, knownHeads, offset, maxEvents, maxBytes)
  {
    hide Projectable, Pageable, LoadVerified, IsPage, Plan, Difference, Effective, ContextGraph, Loaded, Projected,
         WellFormed, Searchable, ActiveContext, Ascending;
    if !ValidPageLimits(maxEvents, maxBytes) {
      return Err(BundleLimitExceeded);
    }
    if requestedHeads == [] || |requestedHeads| > MAX_PROJECTION_HEADS {
      return Err(ProjectionLimitExceeded);
    }
    if |knownHeads| > MAX_BUNDLE_REFS {
      return Err(BundleLimitExceeded);
    }
    var requested := SortDedup(requestedHeads);
    var known := SortDedup(knownHeads);
    OtherErrors(t, c, known);
    var active := ActiveContext(t, c);
    if active.Err? {
      return Err(active.error);
    }
    var effective := EffectiveHeads(t, c, known);
    if effective.Err? {
      return Err(effective.error);
    }
    var wanted := ProjectOn(t, c, requested, DEFAULT_LIMITS);
    ProjectableIs(t, c, requested, wanted);
    if wanted.Err? {
      return Err(wanted.error);
    }
    ProjectionOrder(t, c, requested, DEFAULT_LIMITS, wanted);
    assert Projectable(t, c, requested);
    var knownIds: set<EventId> := {};
    if effective.value != [] {
      var had := ProjectOn(t, c, effective.value, DEFAULT_LIMITS);
      ProjectableIs(t, c, effective.value, had);
      if had.Err? {
        return Err(had.error);
      }
      ProjectionOrder(t, c, effective.value, DEFAULT_LIMITS, had);
      knownIds := Elems(Ids(had.value.0));
    } else {
      NothingKnown(t, c);
    }
    var plan := Subtract(wanted.value.0, knownIds);
    LoadedSubset(t, wanted.value.0, plan);
    DifferenceIs(t, c, requested, effective.value);
    assert Ids(plan) == Difference(t, c, requested, effective.value) && (Ids(plan) == [] <==> plan == []);
    if offset > |plan| || (offset == |plan| && offset != 0) {
      return Err(BundleOrder);
    }
    if plan == [] {
      EmptyPage(t, c, requested, known, effective.value, maxEvents, maxBytes);
      return Ok(SyncPage(Page(c, []), effective.value, None));
    }
    var remaining := |plan| - offset;
    var upper := if remaining < maxEvents then remaining else maxEvents;
    RestWellFormed(t, c, requested, effective.value, plan, offset, upper);
    RestIds(t, plan, offset);
    PageableIs(t, plan[offset..], maxEvents, maxBytes);
    var found := SearchPage(c, plan[offset..], upper, maxBytes);
    if found.Err? {
      return Err(found.error);
    }
    var count := found.value.0;
    LongestIs(plan[offset..], upper, maxBytes);
    PageIs(t, c, requested, known, effective.value, plan, offset, maxEvents, maxBytes, upper, count);
    r := Ok(SyncPage(found.value.1, effective.value, if offset + count < |plan| then Some(offset + count) else None));
  }

  lemma ProjectionOrder(t: Tables, c: ContextId, heads: seq<EventId>, limits: ProjectionLimits,
                        r: Result<(seq<Event>, nat), StoreError>)
    requires Projected(t, c, heads, limits, r) && r.Ok?
    ensures Plan(t, c, heads) == Ordered(Ids(r.value.0)) && Loaded(t, r.value.0)
  {
    hide Plan, Loaded, ContextGraph, WireSizes;
  }

  lemma NothingKnown(t: Tables, c: ContextId)
    ensures Plan(t, c, []) == Ordered([]) && Elems<EventId>([]) == {}
  {
  }

  lemma DifferenceIs(t: Tables, c: ContextId, requested: seq<EventId>, effective: seq<EventId>)
    requires Plan(t, c, requested).Ordered? && Plan(t, c, effective).Ordered?
    ensures Difference(t, c, requested, effective) == Without(Plan(t, c, requested).order, Elems(Plan(t, c, effective).order))
  {
    hide Plan;
  }

  lemma EmptyPage(t: Tables, c: ContextId, requested: seq<EventId>, known: seq<EventId>, effective: seq<EventId>,
                  maxEvents: nat, maxBytes: nat)
    requires ActiveContext(t, c).Ok? && Effective(t, c, known) == Ok(effective)
    requires Plan(t, c, requested).Ordered? && Plan(t, c, effective).Ordered? && Difference(t, c, requested, effective) == []
    ensures IsPage(t, c, requested, known, 0, maxEvents, maxBytes, SyncPage(Page(c, []), effective, None))
  {
    hide Plan, Difference, Effective, ActiveContext, BundleBytes, LoadVerified;
    assert Ids([]) == [];
  }
  // ---------------------------------------------------------------- what is sent

  /** The known heads that this snapshot holds as events of the context. */
  ghost function HeldHeads(t: Tables, c: ContextId, known: seq<EventId>): set<EventId> {
    set h | h in known && Targets(Parsed(t.events), c, h)
  }

  /** On a sound store the effective heads are exactly those, in the given order. */
  lemma {:induction false} EffectiveIs(t: Tables, c: ContextId, known: seq<EventId>)
    requires Inv(t)
    ensures Effective(t, c, known).Ok? && Elems(Effective(t, c, known).value) == HeldHeads(t, c, known)
    ensures Ascending(known) ==> Ascending(Effective(t, c, known).value)
  {
    hide Inv, Parsed, AuthoritativeContext;
    if known != [] {
      var init, last := known[..|known| - 1], known[|known| - 1];
      assert known == init + [last];
      EffectiveIs(t, c, init);
      TargetChecked(t, c, last);
      var before := Effective(t, c, init).value;
      if Targets(Parsed(t.events), c, last) {
        assert Effective(t, c, known).value == before + [last];
        forall i | 0 <= i < |before| ensures before[i] in init { assert before[i] in Elems(before); }
        assert HeldHeads(t, c, known) == HeldHeads(t, c, init) + {last};
      } else {
        assert HeldHeads(t, c, known) == HeldHeads(t, c, init);
      }
    }
  }

  /** The difference is the requested ancestry less the known one, each event once. */
  lemma DifferenceSet(t: Tables, c: ContextId, requested: seq<EventId>, effective: seq<EventId>)
    requires Plan(t, c, requested).Ordered? && Plan(t, c, effective).Ordered?
    ensures var g := ContextGraph(t, c); var d := Difference(t, c, requested, effective);
      Elems(d) == Anc(g, Elems(requested)) - Anc(g, Elems(effective)) && Distinct(d)
  {
    hide ContextGraph, Anc;
    var g := ContextGraph(t, c);
    PostOrderExact(g, requested);
    PostOrderExact(g, effective);
    var want, have := Plan(t, c, requested).order, Plan(t, c, effective).order;
    WithoutIs(want, Elems(have));
    WithoutKeepsOrder(g, want, Elems(have));
  }

  /** A page names as effective exactly the known heads this snapshot holds in the context, in order. */
  lemma PageKnows(t: Tables, c: ContextId, requested: seq<EventId>, known: seq<EventId>, offset: nat, maxEvents: nat, maxBytes: nat,
                  page: SyncPage)
    requires Inv(t) && IsPage(t, c, requested, known, offset, maxEvents, maxBytes, page)
    ensures forall h :: h in page.effectiveKnown <==> h in known && Targets(Parsed(t.events), c, h)
    ensures Ascending(known) ==> Ascending(page.effectiveKnown)
  {
    hide Inv, Parsed, Effective, Difference, Plan, ActiveContext, Loaded, WellFormed, BundleBytes, Targets, Ascending;
    EffectiveIs(t, c, known);
    forall h ensures h in page.effectiveKnown <==> h in known && Targets(Parsed(t.events), c, h) {
      assert h in page.effectiveKnown <==> h in Elems(page.effectiveKnown);
    }
  }

  /** A client whose known heads have every requested head in their ancestry is sent nothing. */
  lemma NothingToSend(t: Tables, c: ContextId, requested: seq<EventId>, known: seq<EventId>, maxEvents: nat, maxBytes: nat, page: SyncPage)
    requires Inv(t) && IsPage(t, c, requested, known, 0, maxEvents, maxBytes, page)
    requires forall h :: h in requested ==> h in Anc(ContextGraph(t, c), HeldHeads(t, c, known))
    ensures page.bundle == Page(c, []) && page.nextOffset == None
  {
    hide Inv, Parsed, Effective, Difference, Plan, ActiveContext, Loaded, WellFormed, BundleBytes, ContextGraph, Anc, HeldHeads;
    EffectiveIs(t, c, known);
    DifferenceSet(t, c, requested, page.effectiveKnown);
    var g := ContextGraph(t, c);
    forall x | x in Anc(g, Elems(requested)) ensures x in Anc(g, HeldHeads(t, c, known)) {
      AncNested(g, Elems(requested), HeldHeads(t, c, known), x);
    }
    var d := Difference(t, c, requested, page.effectiveKnown);
    assert Elems(d) == {};
    DistinctSize(d);
    assert d == [];
    assert |page.bundle.events| == 0;
  }

  lemma AncNested(g: Graph, heads: set<EventId>, tops: set<EventId>, x: EventId)
    requires x in Anc(g, heads) && forall h :: h in heads ==> h in Anc(g, tops)
    ensures x in Anc(g, tops)
  {
    hide Reach;
    var h :| h in heads && Reach(g, h, x);
    var top :| top in tops && Reach(g, top, h);
    ReachTrans(g, top, h, x);
  }
}
