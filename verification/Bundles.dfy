/** Bundle v1: structural validity, size, and atomic import. */
module Bundles {
  import opened Base
  import opened Sorting
  import opened Graph
  import opened Names
  import opened Tables
  import opened Transitions

  const MAX_BUNDLE_EVENTS := 1024
  const MAX_BUNDLE_CANONICAL_BYTES := 16 * 1024 * 1024
  const MAX_BUNDLE_REFS := 256

  // Canonical bytes of a bundle without events or refs, and of one advertised ref without its name.
  const EMPTY_BUNDLE_BYTES := 103
  const EMPTY_REF_BYTES := 89

  /** An unsigned peer claim; the namespace is always the peer's local one. */
  datatype AdvertisedRef = AdvertisedRef(name: Name, head: EventId)
  datatype Bundle = Bundle(context: ContextId, events: seq<Event>, refs: seq<AdvertisedRef>)
  datatype ImportReport = ImportReport(inserted: nat, alreadyPresent: nat, remoteRefsUpdated: nat)

  function Ids(events: seq<Event>): seq<EventId> {
    seq(|events|, i requires 0 <= i < |events| => events[i].id)
  }

  predicate NamesAscend(refs: seq<AdvertisedRef>) {
    forall i, j :: 0 <= i < j < |refs| ==> Before(refs[i].name, refs[j].name)
  }

  /** A parent inside the bundle precedes its child; one outside is the frontier. */
  predicate ParentsFirst(events: seq<Event>) {
    forall i :: 0 <= i < |events| ==>
      forall p :: p in events[i].body.parents && p in Ids(events) ==> p in Ids(events)[..i]
  }

  predicate WellFormed(b: Bundle) {
    && |b.events| <= MAX_BUNDLE_EVENTS && |b.refs| <= MAX_BUNDLE_REFS
    && Distinct(Ids(b.events))
    && (forall i :: 0 <= i < |b.events| ==> b.events[i].body.context == b.context)
    && ParentsFirst(b.events)
    && NamesAscend(b.refs)
  }

  lemma {:induction false} DistinctBySize<T>(s: seq<T>)
    ensures |Elems(s)| <= |s|
    ensures |Elems(s)| == |s| ==> Distinct(s)
  {
    if s != [] {
      var t := s[..|s| - 1];
      var x := s[|s| - 1];
      DistinctBySize(t);
      assert s == t + [x];
      assert Elems(s) == Elems(t) + {x};
      if x in t { assert Elems(s) == Elems(t); }
    }
  }

  method FrontierOk(parents: seq<EventId>, all: set<EventId>, seen: set<EventId>) returns (ok: bool)
    ensures ok <==> forall p :: p in parents && p in all ==> p in seen
  {
    for k := 0 to |parents|
      invariant forall l :: 0 <= l < k && parents[l] in all ==> parents[l] in seen
    {
      if parents[k] in all && parents[k] !in seen {
        return false;
      }
    }
    ok := true;
  }

  method NamesOk(refs: seq<AdvertisedRef>) returns (ok: bool)
    ensures ok <==> NamesAscend(refs)
  {
    hide ValidName;
    var i := 1;
    while i < |refs|
      invariant 1 <= i
      invariant forall k, l :: 0 <= k < l < i && l < |refs| ==> Before(refs[k].name, refs[l].name)
    {
      if !Before(refs[i - 1].name, refs[i].name) {
        return false;
      }
      forall k | 0 <= k < i ensures Before(refs[k].name, refs[i].name) {
        BeforeStrict(refs[k].name, refs[i - 1].name, refs[i].name);
      }
      i := i + 1;
    }
    ok := true;
  }

  /** Checks contexts and parent order in one pass, growing the set of ids seen. */
  method EventsInOrder(context: ContextId, events: seq<Event>, all: set<EventId>) returns (r: Result<(), StoreError>)
    requires all == Elems(Ids(events))
    ensures r.Ok? <==> ParentsFirst(events) && forall i :: 0 <= i < |events| ==> events[i].body.context == context
    ensures r.Err? ==> r.error == BundleOrder || r.error == BundleMalformed
  {
    hide Ascending;
    var ids := Ids(events);
    var seen: set<EventId> := {};
    for i := 0 to |events|
      invariant seen == Elems(ids[..i])
      invariant forall k :: 0 <= k < i ==> events[k].body.context == context
      invariant forall k :: 0 <= k < i ==> forall p :: p in events[k].body.parents && p in ids ==> p in ids[..k]
    {
      if events[i].body.context != context {
        return Err(BundleMalformed);
      }
      var ok := FrontierOk(events[i].body.parents, all, seen);
      assert ok <==> forall p :: p in events[i].body.parents && p in ids ==> p in ids[..i];
      if !ok {
        return Err(BundleOrder);
      }
      seen := seen + {events[i].id};
      assert ids[..i + 1] == ids[..i] + [events[i].id];
    }
    r := Ok(());
  }

  /** Accepts exactly the well-formed bundles. */
  method FromParts(context: ContextId, events: seq<Event>, refs: seq<AdvertisedRef>) returns (r: Result<Bundle, StoreError>)
    ensures r.Ok? <==> WellFormed(Bundle(context, events, refs))
    ensures r.Ok? ==> r.value == Bundle(context, events, refs)
    ensures r.Err? ==> r.error == BundleLimitExceeded || r.error == BundleOrder || r.error == BundleMalformed
  {
    hide NamesAscend, ParentsFirst, ValidName;
    if |events| > MAX_BUNDLE_EVENTS || |refs| > MAX_BUNDLE_REFS {
      return Err(BundleLimitExceeded);
    }
    var ids := Ids(events);
    var all := Elems(ids);
    DistinctBySize(ids);
    if |all| != |events| {
      assert !Distinct(ids) by { if Distinct(ids) { DistinctSize(ids); } }
      return Err(BundleOrder);
    }
    var order := EventsInOrder(context, events, all);
    if order.Err? {
      return Err(order.error);
    }
    var ok := NamesOk(refs);
    r := if ok then Ok(Bundle(context, events, refs)) else Err(BundleOrder);
  }

  // ---------------------------------------------------------------- size

  function EventBytes(events: seq<Event>): nat {
    if events == [] then 0 else EventBytes(events[..|events| - 1]) + events[|events| - 1].body.wireBytes
  }

  function RefBytes(refs: seq<AdvertisedRef>): nat {
    if refs == [] then 0 else RefBytes(refs[..|refs| - 1]) + EMPTY_REF_BYTES + |refs[|refs| - 1].name|
  }

  function Separators(n: nat): nat {
    if n == 0 then 0 else n - 1
  }

  function BundleBytes(b: Bundle): nat {
    EMPTY_BUNDLE_BYTES + EventBytes(b.events) + Separators(|b.events|) + RefBytes(b.refs) + Separators(|b.refs|)
  }

  /** Rendering fails above the hard cap instead of returning a length. */
  function WireLength(b: Bundle): Result<nat, StoreError> {
    if BundleBytes(b) > MAX_BUNDLE_CANONICAL_BYTES then Err(BundleLimitExceeded) else Ok(BundleBytes(b))
  }

  // ---------------------------------------------------------------- import

  /** One event of an import; `expected` and `state` are what the transaction has read and set so far. */
  function ImportOne(t: Tables, c: ContextId, expected: EventId, state: int, e: Event): Result<(Tables, bool), StoreError> {
    var _ :- CheckEvent(t, c, expected, state, e);
    var genesis := IsGenesis(expected, e);
    if e.id !in t.events && state == ACTIVE && genesis then Err(CorruptStorage)
    else if e.id in t.events && state == PENDING && genesis then Err(CorruptStorage)
    else
      var u :- StoreEvent(t, e);
      if state != PENDING then Ok((u, e.id !in t.events))
      else if GenesisTaken(t, c, e.id) then Err(DatabaseUnavailable)
      else Ok((Activate(u, c, e.id), e.id !in t.events))
  }

  function ImportEvents(t: Tables, c: ContextId, expected: EventId, state: int,
                        events: seq<Event>): Result<(Tables, nat, nat), StoreError>
    decreases |events|
  {
    if events == [] then Ok((t, 0, 0))
    else
      var (u, isNew) :- ImportOne(t, c, expected, state, events[0]);
      var (v, inserted, present) :- ImportEvents(u, c, expected, ACTIVE, events[1..]);
      Ok(if isNew then (v, inserted + 1, present) else (v, inserted, present + 1))
  }

  function ImportRefs(t: Tables, peer: Name, c: ContextId, refs: seq<AdvertisedRef>): Result<(Tables, nat), StoreError>
    decreases |refs|
  {
    if refs == [] then Ok((t, 0))
    else
      var hc :- AuthoritativeContext(t, refs[0].head);
      if hc != Some(c) then Err(BundleRefInvalid)
      else
        var key := (peer, c, refs[0].name);
        var same := Lookup(t.remoteRefs, key) == Some(refs[0].head);
        var (u, updated) :- ImportRefs(if same then t else t.(remoteRefs := t.remoteRefs[key := refs[0].head]), peer, c, refs[1..]);
        Ok((u, if same then updated else updated + 1))
  }

  function ImportSpec(t: Tables, peer: Name, b: Bundle): Result<(Tables, ImportReport), StoreError> {
    var row :- KnownContext(t, b.context);
    var (u, inserted, present) :- ImportEvents(t, b.context, row.expected, row.state, b.events);
    var (v, updated) :- ImportRefs(u, peer, b.context, b.refs);
    Ok((v, ImportReport(inserted, present, updated)))
  }

  /** Every event counts once, as inserted or as present, and the store grows by the inserted ones. */
  lemma ImportCounts(t: Tables, peer: Name, b: Bundle)
    requires ImportSpec(t, peer, b).Ok?
    ensures var (u, i) := ImportSpec(t, peer, b).value;
      i.inserted + i.alreadyPresent == |b.events| && |u.events| == |t.events| + i.inserted
  {
    hide ImportEvents, ImportRefs, KnownContext, WellFormed;
    var row := KnownContext(t, b.context).value;
    EventCounts(t, b.context, row.expected, row.state, b.events);
    RefsKeepEvents(ImportEvents(t, b.context, row.expected, row.state, b.events).value.0, peer, b.context, b.refs);
  }

  lemma {:induction false} EventCounts(t: Tables, c: ContextId, expected: EventId, state: int, events: seq<Event>)
    requires ImportEvents(t, c, expected, state, events).Ok?
    ensures var (u, inserted, present) := ImportEvents(t, c, expected, state, events).value;
      inserted + present == |events| && |u.events| == |t.events| + inserted
    decreases |events|
  {
    hide ImportOne;
    if events != [] {
      OneCounts(t, c, expected, state, events[0]);
      EventCounts(ImportOne(t, c, expected, state, events[0]).value.0, c, expected, ACTIVE, events[1..]);
    }
  }

  lemma OneAdds(t: Tables, c: ContextId, expected: EventId, state: int, e: Event)
    requires ImportOne(t, c, expected, state, e).Ok?
    ensures var (u, isNew) := ImportOne(t, c, expected, state, e).value;
      u.events.Keys == t.events.Keys + {e.id} && (isNew <==> e.id !in t.events)
  {
    hide CheckEvent, ValidateStored, EdgeRows, GenesisTaken, IsGenesis;
    StoreAdds(t, e);
  }

  lemma StoreAdds(t: Tables, e: Event)
    ensures StoreEvent(t, e).Ok? ==> StoreEvent(t, e).value.events.Keys == t.events.Keys + {e.id}
  {
    hide ValidateStored, EdgeRows;
  }

  lemma OneCounts(t: Tables, c: ContextId, expected: EventId, state: int, e: Event)
    requires ImportOne(t, c, expected, state, e).Ok?
    ensures var (u, isNew) := ImportOne(t, c, expected, state, e).value;
      |u.events| == |t.events| + if isNew then 1 else 0
  {
    hide *;
    OneAdds(t, c, expected, state, e);
    var u := ImportOne(t, c, expected, state, e).value.0;
    KeyCount(u.events);
    KeyCount(t.events);
    if e.id in t.events { assert t.events.Keys + {e.id} == t.events.Keys; }
  }

  lemma KeyCount<K, V>(m: map<K, V>)
    ensures |m| == |m.Keys|
  {
  }

  lemma {:induction false} RefsKeepEvents(t: Tables, peer: Name, c: ContextId, refs: seq<AdvertisedRef>)
    requires ImportRefs(t, peer, c, refs).Ok?
    ensures ImportRefs(t, peer, c, refs).value.0.events == t.events
    decreases |refs|
  {
    hide AuthoritativeContext;
    if refs != [] {
      var key := (peer, c, refs[0].name);
      var same := Lookup(t.remoteRefs, key) == Some(refs[0].head);
      RefsKeepEvents(if same then t else t.(remoteRefs := t.remoteRefs[key := refs[0].head]), peer, c, refs[1..]);
    }
  }

  // ---------------------------------------------------------------- import is a fold of admissions

  /** Single admissions in order, none of which moves a ref. */
  function AdmitAll(t: Tables, events: seq<Event>): Result<Tables, StoreError>
    decreases |events|
  {
    if events == [] then Ok(t)
    else
      var (u, _) :- AdmitSpec(t, events[0], NoMove);
      AdmitAll(u, events[1..])
  }

  function PeerRefs(m: map<RemoteKey, EventId>, peer: Name, c: ContextId, refs: seq<AdvertisedRef>)
    : map<RemoteKey, EventId>
    decreases |refs|
  {
    if refs == [] then m else PeerRefs(m[(peer, c, refs[0].name) := refs[0].head], peer, c, refs[1..])
  }

  lemma ImportOneIsAdmit(t: Tables, row: ContextRow, e: Event)
    requires Inv(t) && KnownContext(t, e.body.context) == Ok(row)
    ensures var i := ImportOne(t, e.body.context, row.expected, row.state, e); var a := AdmitSpec(t, e, NoMove);
      && (i.Ok? <==> a.Ok?)
      && (i.Ok? ==> i.value.0 == a.value.0 && (i.value.1 <==> a.value.1 == Inserted) && (!i.value.1 ==> i.value.0 == t))
  {
    hide Inv, CheckEvent, ValidateStored, EdgeRows;
    var c := e.body.context;
    if CheckEvent(t, c, row.expected, row.state, e).Ok? && !(row.state == ACTIVE && IsGenesis(row.expected, e) && e.id !in t.events) {
      StoreEventInv(t, row, e);
      if row.state == PENDING { PendingIsGenesis(t, c, row.expected, e); }
    }
  }

  lemma PendingIsGenesis(t: Tables, c: ContextId, expected: EventId, e: Event)
    requires CheckEvent(t, c, expected, PENDING, e).Ok?
    ensures IsGenesis(expected, e)
  {
  }

  lemma ContextAfterAdmit(t: Tables, e: Event, m: RefMutation)
    requires AdmitSpec(t, e, m).Ok?
    ensures var u := AdmitSpec(t, e, m).value.0; var c := e.body.context;
      && KnownContext(t, c).Ok? && KnownContext(u, c).Ok?
      && KnownContext(u, c).value.expected == KnownContext(t, c).value.expected
      && KnownContext(u, c).value.state == ACTIVE
  {
    hide CheckEvent, ValidateStored, EdgeRows, ValidName;
    var c := e.body.context;
    var row := KnownContext(t, c).value;
    if row.state == PENDING {
      assert CheckEvent(t, c, row.expected, row.state, e).Ok?;
      PendingIsGenesis(t, c, row.expected, e);
    }
  }

  lemma {:induction false} ImportEventsIsAdmissions(t: Tables, c: ContextId, row: ContextRow, events: seq<Event>)
    requires Inv(t) && KnownContext(t, c) == Ok(row) && forall i :: 0 <= i < |events| ==> events[i].body.context == c
    ensures var i := ImportEvents(t, c, row.expected, row.state, events); var a := AdmitAll(t, events);
      && (i.Ok? <==> a.Ok?)
      && (i.Ok? ==> i.value.0 == a.value && Inv(a.value) && i.value.1 + i.value.2 == |events|)
    decreases |events|
  {
    hide Inv, ImportOne, AdmitSpec, KnownContext;
    if events != [] {
      assert events[0].body.context == c;
      ImportOneIsAdmit(t, row, events[0]);
      var a := AdmitSpec(t, events[0], NoMove);
      if a.Ok? {
        AdmitInv(t, events[0], NoMove);
        ContextAfterAdmit(t, events[0], NoMove);
        ImportEventsIsAdmissions(a.value.0, c, KnownContext(a.value.0, c).value, events[1..]);
      }
    }
  }

  lemma {:induction false} ImportRefsIsOverwrite(t: Tables, peer: Name, c: ContextId, refs: seq<AdvertisedRef>)
    requires Inv(t)
    ensures var r := ImportRefs(t, peer, c, refs);
      && (r.Ok? <==> forall i :: 0 <= i < |refs| ==> Targets(Parsed(t.events), c, refs[i].head))
      && (r.Ok? ==> r.value.0 == t.(remoteRefs := PeerRefs(t.remoteRefs, peer, c, refs)) && Inv(r.value.0))
    decreases |refs|
  {
    hide Inv, AuthoritativeContext, Parsed, ValidName;
    if refs != [] {
      TargetChecked(t, c, refs[0].head);
      if Targets(Parsed(t.events), c, refs[0].head) {
        var key := (peer, c, refs[0].name);
        var u := t.(remoteRefs := t.remoteRefs[key := refs[0].head]);
        RemoteRefInv(t, peer, c, refs[0].name, refs[0].head);
        var same := Lookup(t.remoteRefs, key) == Some(refs[0].head);
        if same { assert t.remoteRefs[key := refs[0].head] == t.remoteRefs; }
        ImportRefsIsOverwrite(if same then t else u, peer, c, refs[1..]);
        forall i | 0 <= i < |refs| ensures i > 0 ==> refs[i] == refs[1..][i - 1] {}
      }
    }
  }

  /** Import succeeds exactly when admitting the events one by one succeeds and every advertised head
      then exists in the context; its result is those admissions followed by the ref overwrites. */
  lemma ImportIsAdmissions(t: Tables, peer: Name, b: Bundle)
    requires Inv(t) && WellFormed(b)
    ensures var i := ImportSpec(t, peer, b); var a := AdmitAll(t, b.events);
      && (i.Ok? <==> KnownContext(t, b.context).Ok? && a.Ok?
                     && forall k :: 0 <= k < |b.refs| ==> Targets(Parsed(a.value.events), b.context, b.refs[k].head))
      && (i.Ok? ==> i.value.0 == a.value.(remoteRefs := PeerRefs(a.value.remoteRefs, peer, b.context, b.refs))
                    && Inv(i.value.0))
  {
    hide Inv, KnownContext, ImportEvents, ImportRefs, AdmitAll, PeerRefs, Targets;
    var k := KnownContext(t, b.context);
    if k.Ok? {
      ImportEventsIsAdmissions(t, b.context, k.value, b.events);
      if AdmitAll(t, b.events).Ok? {
        ImportRefsIsOverwrite(AdmitAll(t, b.events).value, peer, b.context, b.refs);
      }
    }
  }

  // ---------------------------------------------------------------- re-import

  predicate Holds(t: Tables, events: seq<Event>) {
    forall i :: 0 <= i < |events| ==> events[i].id in t.events && t.events[events[i].id].wire == ToWire(events[i])
  }

  predicate PeerHolds(t: Tables, peer: Name, c: ContextId, refs: seq<AdvertisedRef>) {
    forall i :: 0 <= i < |refs| ==> Lookup(t.remoteRefs, (peer, c, refs[i].name)) == Some(refs[i].head)
  }

  lemma PresentReimports(t: Tables, c: ContextId, row: ContextRow, e: Event)
    requires Inv(t) && Holds(t, [e]) && e.body.context == c && KnownContext(t, c) == Ok(row)
    ensures row.state == ACTIVE && ImportOne(t, c, row.expected, ACTIVE, e) == Ok((t, false))
    ensures AdmitSpec(t, e, NoMove) == Ok((t, AlreadyPresent))
  {
    hide RefsOk, Cyclic, AuthorsOk, ContextsOk, EdgesOk, CoreKeys, RefKeys, Links, CheckParents, EdgesFrom, Parsed;
    var ev := Parsed(t.events);
    assert [e][0] == e;
    InvLoads(t, e.id);
    assert ev[e.id] == e by { StoredIsParsed(t.events, e); }
    assert EventGenesis(t.contexts, e.id, ev[e.id]);
    assert RowOk(t.authors, e.id, t.events[e.id]);
    assert ParentsOf(ev, e);
    ParentsChecked(t, c, e.body.parents);
  }

  lemma StoredIsParsed(rows: map<EventId, EventRow>, e: Event)
    requires e.id in rows && rows[e.id].wire == ToWire(e)
    ensures e.id in Parsed(rows) && Parsed(rows)[e.id] == e
  {
  }

  lemma {:induction false} ReimportEvents(t: Tables, c: ContextId, row: ContextRow, events: seq<Event>)
    requires Inv(t) && Holds(t, events) && KnownContext(t, c) == Ok(row)
    requires forall i :: 0 <= i < |events| ==> events[i].body.context == c
    ensures ImportEvents(t, c, row.expected, row.state, events) == Ok((t, 0, |events|))
    ensures AdmitAll(t, events) == Ok(t)
    decreases |events|
  {
    hide Inv, ImportOne, AdmitSpec, KnownContext;
    if events != [] {
      assert Holds(t, [events[0]]) && events[0].body.context == c;
      PresentReimports(t, c, row, events[0]);
      assert Holds(t, events[1..]) by {
        forall i | 0 <= i < |events| - 1
          ensures events[1..][i].id in t.events && t.events[events[1..][i].id].wire == ToWire(events[1..][i])
        {
          assert events[1..][i] == events[i + 1];
        }
      }
      ReimportEvents(t, c, row, events[1..]);
    }
  }

  lemma {:induction false} ReimportRefs(t: Tables, peer: Name, c: ContextId, refs: seq<AdvertisedRef>)
    requires Inv(t) && PeerHolds(t, peer, c, refs) && forall i :: 0 <= i < |refs| ==> Targets(Parsed(t.events), c, refs[i].head)
    ensures ImportRefs(t, peer, c, refs) == Ok((t, 0))
    decreases |refs|
  {
    hide Inv, AuthoritativeContext, Parsed, ValidName;
    if refs != [] {
      TargetChecked(t, c, refs[0].head);
      assert Lookup(t.remoteRefs, (peer, c, refs[0].name)) == Some(refs[0].head);
      forall i | 0 <= i < |refs[1..]| ensures refs[1..][i] == refs[i + 1] {}
      ReimportRefs(t, peer, c, refs[1..]);
    }
  }

  /** Importing a bundle whose events and refs a sound store already holds inserts nothing, moves
      nothing, and reports exactly that. */
  lemma ReimportIsNoOp(t: Tables, peer: Name, b: Bundle)
    requires Inv(t) && WellFormed(b) && b.context in t.contexts
    requires Holds(t, b.events) && PeerHolds(t, peer, b.context, b.refs)
    ensures ImportSpec(t, peer, b) == Ok((t, ImportReport(0, |b.events|, 0)))
  {
    var row := t.contexts[b.context];
    assert KnownContext(t, b.context) == Ok(row) by { assert ConsistentRow(row); }
    forall i | 0 <= i < |b.refs| ensures Targets(Parsed(t.events), b.context, b.refs[i].head) {
      var key := (peer, b.context, b.refs[i].name);
      assert Lookup(t.remoteRefs, key) == Some(b.refs[i].head);
      assert key in t.remoteRefs;
    }
    hide Inv, ImportEvents, ImportRefs, KnownContext, Holds, PeerHolds;
    ReimportEvents(t, b.context, row, b.events);
    ReimportRefs(t, peer, b.context, b.refs);
  }

  lemma {:induction false} PeerRefsHold(m: map<RemoteKey, EventId>, peer: Name, c: ContextId, refs: seq<AdvertisedRef>, k: string)
    requires NamesAscend(refs)
    ensures var r := PeerRefs(m, peer, c, refs);
      && (forall i :: 0 <= i < |refs| && refs[i].name == k ==> Lookup(r, (peer, c, k)) == Some(refs[i].head))
      && ((forall i :: 0 <= i < |refs| ==> refs[i].name != k) ==> Lookup(r, (peer, c, k)) == Lookup(m, (peer, c, k)))
      && (forall q: RemoteKey :: q.0 != peer || q.1 != c ==> Lookup(r, q) == Lookup(m, q))
    decreases |refs|
  {
    hide ValidName;
    if refs != [] {
      var n := m[(peer, c, refs[0].name) := refs[0].head];
      assert NamesAscend(refs[1..]) by {
        forall i, j | 0 <= i < j < |refs[1..]| ensures Before(refs[1..][i].name, refs[1..][j].name) {
          assert Before(refs[i + 1].name, refs[j + 1].name);
        }
      }
      PeerRefsHold(n, peer, c, refs[1..], k);
      var r := PeerRefs(m, peer, c, refs);
      assert refs == [refs[0]] + refs[1..];
      forall i | 0 <= i < |refs| && refs[i].name == k ensures Lookup(r, (peer, c, k)) == Some(refs[i].head) {
        if i == 0 {
          forall j | 0 <= j < |refs[1..]| ensures refs[1..][j].name != k {
            assert Before(refs[0].name, refs[j + 1].name);
            BeforeStrict(refs[0].name, refs[0].name, refs[0].name);
          }
        } else {
          assert refs[1..][i - 1] == refs[i];
        }
      }
      forall q: RemoteKey | q.0 != peer || q.1 != c ensures Lookup(r, q) == Lookup(m, q) {
        assert Lookup(n, q) == Lookup(m, q);
      }
    }
  }

  /** The names a bundle binds to another head than before. */
  function Bound(m: map<RemoteKey, EventId>, peer: Name, c: ContextId, refs: seq<AdvertisedRef>): set<string> {
    set i | 0 <= i < |refs| && Rebinds(m, peer, c, refs[i]) :: refs[i].name
  }

  predicate Rebinds(m: map<RemoteKey, EventId>, peer: Name, c: ContextId, r: AdvertisedRef) {
    Lookup(m, (peer, c, r.name)) != Some(r.head)
  }

  /** An import counts as updated the refs it binds to another head. */
  lemma {:induction false} RefsUpdated(t: Tables, peer: Name, c: ContextId, refs: seq<AdvertisedRef>)
    requires NamesAscend(refs) && ImportRefs(t, peer, c, refs).Ok?
    ensures ImportRefs(t, peer, c, refs).value.1 == |Bound(t.remoteRefs, peer, c, refs)|
    decreases |refs|
  {
    hide AuthoritativeContext, ValidName, Bound;
    BoundNone(t.remoteRefs, peer, c);
    if refs != [] {
      var rest := refs[1..];
      var key := (peer, c, refs[0].name);
      var same := Lookup(t.remoteRefs, key) == Some(refs[0].head);
      var u := if same then t else t.(remoteRefs := t.remoteRefs[key := refs[0].head]);
      assert NamesAscend(rest) by {
        forall i, j | 0 <= i < j < |rest| ensures Before(rest[i].name, rest[j].name) {
          assert Before(refs[i + 1].name, refs[j + 1].name);
        }
      }
      RefsUpdated(u, peer, c, rest);
      BoundFirst(t.remoteRefs, u.remoteRefs, peer, c, refs);
    }
  }

  lemma BoundNone(m: map<RemoteKey, EventId>, peer: Name, c: ContextId)
    ensures Bound(m, peer, c, []) == {}
  {
  }

  /** The first ref is bound on its own; the others are counted the same before and after it. */
  lemma BoundFirst(m: map<RemoteKey, EventId>, n: map<RemoteKey, EventId>, peer: Name, c: ContextId, refs: seq<AdvertisedRef>)
    requires NamesAscend(refs) && refs != []
    requires forall k: RemoteKey :: k != (peer, c, refs[0].name) ==> Lookup(n, k) == Lookup(m, k)
    ensures |Bound(m, peer, c, refs)| == |Bound(n, peer, c, refs[1..])| + if Rebinds(m, peer, c, refs[0]) then 1 else 0
  {
    hide ValidName, Bound, Rebinds, NamesAscend;
    var all, rest := Bound(m, peer, c, refs), Bound(n, peer, c, refs[1..]);
    forall x ensures x in all <==> x in rest || (x == refs[0].name && Rebinds(m, peer, c, refs[0])) {
      BoundMember(m, n, peer, c, refs, x);
    }
    FirstApart(n, peer, c, refs);
    assert all == rest + if Rebinds(m, peer, c, refs[0]) then {refs[0].name} else {};
  }

  lemma OtherNames(refs: seq<AdvertisedRef>, i: nat)
    requires NamesAscend(refs) && 0 < i < |refs|
    ensures refs[i].name != refs[0].name && refs[1..][i - 1] == refs[i]
  {
    hide ValidName, Before;
    assert Before(refs[0].name, refs[i].name);
    BeforeStrict(refs[0].name, refs[0].name, refs[0].name);
  }

  lemma FirstApart(n: map<RemoteKey, EventId>, peer: Name, c: ContextId, refs: seq<AdvertisedRef>)
    requires NamesAscend(refs) && refs != []
    ensures refs[0].name !in Bound(n, peer, c, refs[1..])
  {
    hide ValidName, Rebinds, NamesAscend;
    forall i | 0 <= i < |refs[1..]| ensures refs[1..][i].name != refs[0].name {
      OtherNames(refs, i + 1);
    }
  }

  lemma BoundMember(m: map<RemoteKey, EventId>, n: map<RemoteKey, EventId>, peer: Name, c: ContextId, refs: seq<AdvertisedRef>, x: string)
    requires NamesAscend(refs) && refs != []
    requires forall k: RemoteKey :: k != (peer, c, refs[0].name) ==> Lookup(n, k) == Lookup(m, k)
    ensures x in Bound(m, peer, c, refs) <==> x in Bound(n, peer, c, refs[1..]) || (x == refs[0].name && Rebinds(m, peer, c, refs[0]))
  {
    hide ValidName, NamesAscend, Rebinds;
    forall i | 0 < i < |refs| ensures refs[1..][i - 1] == refs[i] && (Rebinds(m, peer, c, refs[i]) <==> Rebinds(n, peer, c, refs[i])) {
      OtherNames(refs, i);
      SameBinding(m, n, peer, c, refs, i);
    }
    if x in Bound(n, peer, c, refs[1..]) {
      var i :| 0 <= i < |refs[1..]| && Rebinds(n, peer, c, refs[1..][i]) && refs[1..][i].name == x;
      assert refs[i + 1] == refs[1..][i];
    }
    if x in Bound(m, peer, c, refs) {
      var i :| 0 <= i < |refs| && Rebinds(m, peer, c, refs[i]) && refs[i].name == x;
      if i > 0 { assert refs[1..][i - 1] == refs[i]; }
    }
  }

  lemma SameBinding(m: map<RemoteKey, EventId>, n: map<RemoteKey, EventId>, peer: Name, c: ContextId, refs: seq<AdvertisedRef>, i: nat)
    requires i < |refs| && refs[i].name != refs[0].name
    requires forall k: RemoteKey :: k != (peer, c, refs[0].name) ==> Lookup(n, k) == Lookup(m, k)
    ensures Rebinds(m, peer, c, refs[i]) <==> Rebinds(n, peer, c, refs[i])
  {
    hide ValidName;
    var k: RemoteKey := (peer, c, refs[i].name);
    assert Lookup(n, k) == Lookup(m, k);
  }

  lemma AdmitStores(t: Tables, e: Event, m: RefMutation)
    requires AdmitSpec(t, e, m).Ok?
    ensures var u := AdmitSpec(t, e, m).value.0;
      && Holds(u, [e])
      && u.remoteRefs == t.remoteRefs
      && (forall id :: id in t.events ==> id in u.events && u.events[id] == t.events[id])
  {
    hide CheckEvent, ValidateStored, EdgeRows, ValidName;
  }

  lemma {:induction false} AdmitAllStores(t: Tables, events: seq<Event>)
    requires AdmitAll(t, events).Ok?
    ensures var u := AdmitAll(t, events).value;
      && Holds(u, events)
      && u.remoteRefs == t.remoteRefs
      && (forall id :: id in t.events ==> id in u.events && u.events[id] == t.events[id])
    decreases |events|
  {
    hide AdmitSpec;
    if events != [] {
      AdmitStores(t, events[0], NoMove);
      var v := AdmitSpec(t, events[0], NoMove).value.0;
      AdmitAllStores(v, events[1..]);
      assert [events[0]][0] == events[0];
      forall i | 0 <= i < |events| ensures i > 0 ==> events[i] == events[1..][i - 1] {}
    }
  }

  lemma KnownStored(t: Tables, c: ContextId)
    requires KnownContext(t, c).Ok?
    ensures c in t.contexts && KnownContext(t, c).value == t.contexts[c]
  {
  }

  /** A successful import leaves a store in which importing the same bundle again is a no-op. */
  lemma ImportTwice(t: Tables, peer: Name, b: Bundle)
    requires Inv(t) && WellFormed(b) && ImportSpec(t, peer, b).Ok?
    ensures var u := ImportSpec(t, peer, b).value.0;
      ImportSpec(u, peer, b) == Ok((u, ImportReport(0, |b.events|, 0)))
  {
    hide Inv, ImportSpec, KnownContext, AdmitAll, PeerRefs, AdmitSpec, Targets, Parsed, NamesAscend, ValidName;
    ImportIsAdmissions(t, peer, b);
    KnownStored(t, b.context);
    var u := ImportSpec(t, peer, b).value.0;
    AdmitAllStores(t, b.events);
    forall i | 0 <= i < |b.refs| ensures Lookup(u.remoteRefs, (peer, b.context, b.refs[i].name)) == Some(b.refs[i].head) {
      PeerRefsHold(AdmitAll(t, b.events).value.remoteRefs, peer, b.context, b.refs, b.refs[i].name);
    }
    ContextStays(t, b.events, b.context);
    ReimportIsNoOp(u, peer, b);
  }

  lemma {:induction false} ContextStays(t: Tables, events: seq<Event>, c: ContextId)
    requires AdmitAll(t, events).Ok? && c in t.contexts
    ensures c in AdmitAll(t, events).value.contexts
    decreases |events|
  {
    hide CheckEvent, ValidateStored, EdgeRows;
    if events != [] {
      ContextStays(AdmitSpec(t, events[0], NoMove).value.0, events[1..], c);
    }
  }
}
