/** Atomic replacement of one peer's remote-ref namespace. */
module Namespaces {
  import opened Base
  import opened Sorting
  import opened Names
  import opened Tables
  import opened Transitions
  import opened Bundles

  /** One peer's bindings in one context. */
  function Namespace(m: map<RemoteKey, EventId>, peer: Name, c: ContextId): map<string, EventId> {
    map k | k in m && k.0 == peer && k.1 == c :: k.2 := m[k]
  }

  function Desired(refs: seq<AdvertisedRef>): map<string, EventId> {
    if refs == [] then map[]
    else Desired(refs[..|refs| - 1])[refs[|refs| - 1].name := refs[|refs| - 1].head]
  }

  function Deleted(was: map<string, EventId>, now: map<string, EventId>): set<string> {
    set n | n in was && n !in now
  }

  function Rebound(was: map<string, EventId>, now: map<string, EventId>): set<string> {
    set n | n in now && Lookup(was, n) != Some(now[n])
  }

  function ChangeCount(was: map<string, EventId>, now: map<string, EventId>): nat {
    |Deleted(was, now)| + |Rebound(was, now)|
  }

  function Replaced(m: map<RemoteKey, EventId>, peer: Name, c: ContextId, now: map<string, EventId>): map<RemoteKey, EventId> {
    (map k | k in m && (k.0 != peer || k.1 != c) :: m[k]) + (map n | n in now :: (peer, c, n) := now[n])
  }

  function CheckHeads(t: Tables, c: ContextId, refs: seq<AdvertisedRef>): Result<(), StoreError>
    decreases |refs|
  {
    if refs == [] then Ok(())
    else
      var hc :- AuthoritativeContext(t, refs[0].head);
      if hc != Some(c) then Err(BundleRefInvalid) else CheckHeads(t, c, refs[1..])
  }

  ghost function ReplaceSpec(t: Tables, peer: Name, c: ContextId, refs: seq<AdvertisedRef>): Result<(Tables, nat), StoreError> {
    if |refs| > MAX_BUNDLE_REFS || !NamesAscend(refs) then Err(BundleRefInvalid)
    else
      var row :- KnownContext(t, c);
      if row.state != ACTIVE then Err(ContextUnknown)
      else
        var _ :- CheckHeads(t, c, refs);
        var was := Namespace(t.remoteRefs, peer, c);
        if exists n :: n in was && !ValidName(n) then Err(InvalidRefName)
        else
          var changed := ChangeCount(was, Desired(refs));
          Ok((if changed == 0 then t else t.(remoteRefs := Replaced(t.remoteRefs, peer, c, Desired(refs))), changed))
  }

  /** The count is zero exactly when the namespace already is what is asked for. */
  lemma NoChangeMeansEqual(was: map<string, EventId>, now: map<string, EventId>)
    ensures ChangeCount(was, now) == 0 <==> was == now
  {
    assert was == now ==> Deleted(was, now) == {} && Rebound(was, now) == {};
    assert forall n :: n in was && n !in now ==> n in Deleted(was, now);
    assert forall n :: n in now && Lookup(was, n) != Some(now[n]) ==> n in Rebound(was, now);
    assert Deleted(was, now) == {} && Rebound(was, now) == {} ==> was.Keys == now.Keys;
  }

  /** The names whose binding is not the requested one. */
  function Differing(was: map<string, EventId>, now: map<string, EventId>): set<string> {
    set n | n in was.Keys + now.Keys && Lookup(was, n) != Lookup(now, n)
  }

  /** The count is how many names end up bound differently, deleted ones included. */
  lemma CountsDifferences(was: map<string, EventId>, now: map<string, EventId>)
    ensures ChangeCount(was, now) == |Differing(was, now)|
  {
    var d, r := Deleted(was, now), Rebound(was, now);
    assert Differing(was, now) == d + r;
    assert d * r == {};
  }

  lemma ReplacedIs(m: map<RemoteKey, EventId>, peer: Name, c: ContextId, now: map<string, EventId>)
    ensures Namespace(Replaced(m, peer, c, now), peer, c) == now
    ensures forall k: RemoteKey :: k.0 != peer || k.1 != c ==> Lookup(Replaced(m, peer, c, now), k) == Lookup(m, k)
  {
    hide ValidName;
    var r := Replaced(m, peer, c, now);
    forall n | n in now ensures n in Namespace(r, peer, c) && Namespace(r, peer, c)[n] == now[n] {
      assert (peer, c, n) in r && r[(peer, c, n)] == now[n];
    }
    forall n | n in Namespace(r, peer, c) ensures n in now {
      assert (peer, c, n) in r;
    }
  }

  /** After a replacement the namespace is the requested one, whether or not anything had to change;
      every other binding, and every other table, is as before. */
  lemma ReplaceSetsNamespace(t: Tables, peer: Name, c: ContextId, refs: seq<AdvertisedRef>)
    requires ReplaceSpec(t, peer, c, refs).Ok?
    ensures var (u, changed) := ReplaceSpec(t, peer, c, refs).value;
      && Namespace(u.remoteRefs, peer, c) == Desired(refs)
      && (forall k: RemoteKey :: k.0 != peer || k.1 != c ==> Lookup(u.remoteRefs, k) == Lookup(t.remoteRefs, k))
      && u == t.(remoteRefs := u.remoteRefs)
      && (changed == 0 <==> Namespace(t.remoteRefs, peer, c) == Desired(refs))
      && (changed == 0 ==> u == t)
  {
    hide CheckHeads, Namespace, Replaced, ChangeCount, ValidName;
    NoChangeMeansEqual(Namespace(t.remoteRefs, peer, c), Desired(refs));
    ReplacedIs(t.remoteRefs, peer, c, Desired(refs));
  }

  lemma {:induction false} DesiredHolds(refs: seq<AdvertisedRef>, n: string)
    requires NamesAscend(refs)
    ensures n in Desired(refs) <==> exists i :: 0 <= i < |refs| && refs[i].name == n
    ensures forall i :: 0 <= i < |refs| && refs[i].name == n ==> Lookup(Desired(refs), n) == Some(refs[i].head)
  {
    hide ValidName;
    if refs != [] {
      var k := |refs| - 1;
      var init := refs[..k];
      DesiredHolds(init, n);
      forall i | 0 <= i < k ensures refs[i].name != refs[k].name && init[i] == refs[i] {
        assert Before(refs[i].name, refs[k].name);
        BeforeStrict(refs[k].name, refs[k].name, refs[k].name);
      }
    }
  }

  lemma {:induction false} HeadsChecked(t: Tables, c: ContextId, refs: seq<AdvertisedRef>)
    requires Inv(t)
    ensures CheckHeads(t, c, refs).Ok? <==> forall i :: 0 <= i < |refs| ==> Targets(Parsed(t.events), c, refs[i].head)
    decreases |refs|
  {
    hide Inv, Parsed, AuthoritativeContext, ValidName;
    if refs != [] {
      TargetChecked(t, c, refs[0].head);
      HeadsChecked(t, c, refs[1..]);
      forall i | 0 <= i < |refs| ensures i > 0 ==> refs[i] == refs[1..][i - 1] {}
    }
  }

  lemma DesiredTargets(t: Tables, c: ContextId, refs: seq<AdvertisedRef>)
    requires Inv(t) && NamesAscend(refs) && CheckHeads(t, c, refs).Ok?
    ensures forall n :: n in Desired(refs) ==> ValidName(n) && Targets(Parsed(t.events), c, Desired(refs)[n]) && Desired(refs)[n] in t.events
  {
    hide Inv, CheckHeads, Parsed, ValidName, Desired, Targets, NamesAscend;
    HeadsChecked(t, c, refs);
    forall n | n in Desired(refs)
      ensures ValidName(n) && Targets(Parsed(t.events), c, Desired(refs)[n]) && Desired(refs)[n] in t.events
    {
      DesiredHolds(refs, n);
      var i :| 0 <= i < |refs| && refs[i].name == n;
      ParsedKeys(t.events, c, refs[i].head);
    }
  }

  lemma ReplacedEntries(m: map<RemoteKey, EventId>, peer: Name, c: ContextId, now: map<string, EventId>)
    ensures forall k :: k in Replaced(m, peer, c, now) ==>
      || (k in m && Replaced(m, peer, c, now)[k] == m[k])
      || (k.0 == peer && k.1 == c && k.2 in now && Replaced(m, peer, c, now)[k] == now[k.2])
  {
    hide ValidName;
  }

  lemma ReplacedRefsInv(t: Tables, peer: Name, c: ContextId, m: map<RemoteKey, EventId>, now: map<string, EventId>)
    requires Inv(t) && c in t.contexts
    requires forall n :: n in now ==> ValidName(n) && Targets(Parsed(t.events), c, now[n]) && now[n] in t.events
    requires forall k :: k in m ==>
      || (k in t.remoteRefs && m[k] == t.remoteRefs[k])
      || (k.0 == peer && k.1 == c && k.2 in now && m[k] == now[k.2])
    ensures Inv(t.(remoteRefs := m))
  {
    hide CoreInv, Parsed, ValidName, Targets;
  }

  lemma ReplaceInv(t: Tables, peer: Name, c: ContextId, refs: seq<AdvertisedRef>)
    requires Inv(t) && ReplaceSpec(t, peer, c, refs).Ok?
    ensures Inv(ReplaceSpec(t, peer, c, refs).value.0)
  {
    hide Inv, CheckHeads, ValidName, Desired, ChangeCount, Replaced, Namespace, NamesAscend, Targets, Parsed;
    DesiredTargets(t, c, refs);
    ReplacedEntries(t.remoteRefs, peer, c, Desired(refs));
    ReplacedRefsInv(t, peer, c, Replaced(t.remoteRefs, peer, c, Desired(refs)), Desired(refs));
  }
}
