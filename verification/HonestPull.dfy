/** A whole pull from an honest, growing server succeeds and converges. */
module HonestPull {
  import opened Base
  import opened Sorting
  import opened Graph
  import opened Names
  import opened Tables
  import opened Transitions
  import opened Bundles
  import opened Namespaces
  import opened Runs
  import opened Projections
  import opened Paging
  import opened Export
  import opened Pull
  import opened Convergence
  import opened Transfer

  // ---------------------------------------------------------------- the difference is importable

  lemma {:induction false} EffectiveIsKnown(s: Tables, c: ContextId, known: seq<EventId>)
    requires Effective(s, c, known).Ok?
    ensures forall h :: h in Effective(s, c, known).value ==> h in known
  {
    if known != [] {
      EffectiveIsKnown(s, c, known[..|known| - 1]);
    }
  }

  lemma KnownHeadsStored(t: Tables, peer: Name, c: ContextId)
    requires Inv(t)
    ensures KnownHeads(t, peer, c) <= t.events.Keys
  {
    hide CoreInv, RefsOk, ValidName;
  }

  /** What the server would send is what the client can admit in that order. */
  lemma DifferenceImportable(t: Tables, s: Tables, peer: Name, c: ContextId, requested: seq<EventId>, known: seq<EventId>,
                             effective: seq<EventId>)
    requires Inv(t) && Inv(s) && SharedWires(t, s) && Elems(known) == KnownHeads(t, peer, c)
    requires Effective(s, c, known) == Ok(effective)
    requires Plan(s, c, requested).Ordered? && Plan(s, c, effective).Ordered?
    requires Trusts(t, s, c, Difference(s, c, requested, effective))
    ensures Importable(t, s, c, Difference(s, c, requested, effective))
  {
    hide Inv, Parsed, Plan, ContextGraph, Effective, KnownHeads, Trusts, Anc;
    var d := Difference(s, c, requested, effective);
    var g := ContextGraph(s, c);
    SoundGraph(s, c);
    PlanInGraph(s, c, requested, effective);
    EffectiveIsKnown(s, c, known);
    KnownHeadsStored(t, peer, c);
    forall h | h in Elems(effective) ensures h in t.events.Keys { assert h in Elems(known); }
    forall k, p | 0 <= k < |d| && p in Parsed(s.events)[d[k]].body.parents ensures p in d[..k] || p in t.events {
      PlanParents(s, c, requested, effective, k, p);
      if p in Anc(g, Elems(effective)) {
        KnownAncestryHeld(t, s, c, Elems(effective), p);
      }
    }
  }

  lemma PlanInGraph(s: Tables, c: ContextId, requested: seq<EventId>, effective: seq<EventId>)
    requires Plan(s, c, requested).Ordered? && Plan(s, c, effective).Ordered?
    ensures var d := Difference(s, c, requested, effective); forall k :: 0 <= k < |d| ==> d[k] in ContextGraph(s, c)
  {
    hide ContextGraph;
    var g := ContextGraph(s, c);
    PostOrderExact(g, requested);
    WithoutKeepsOrder(g, Plan(s, c, requested).order, Elems(Plan(s, c, effective).order));
  }

  // ---------------------------------------------------------------- page after page

  /** The client's requests and the server's answers belong together, and the client trusts the plan. */
  ghost predicate HonestExchange(t: Tables, cfg: PullConfig, requested: seq<EventId>, known: seq<EventId>, servers: seq<Tables>,
                                 pages: seq<SyncPage>, replies: seq<Reply>)
  {
    && Inv(t) && HonestRun(servers, cfg.context, requested, known, cfg.limits, pages, replies)
    && Elems(known) == KnownHeads(t, cfg.peer, cfg.context)
    && EMPTY_BUNDLE_BYTES <= cfg.limits.maxBytes <= MAX_BUNDLE_CANONICAL_BYTES && |replies| <= cfg.limits.maxPages
    && SharedWires(t, servers[|servers| - 1])
    && Trusts(t, servers[|servers| - 1], cfg.context, TheDifference(cfg, requested, servers, pages))
  }

  ghost function TheDifference(cfg: PullConfig, requested: seq<EventId>, servers: seq<Tables>, pages: seq<SyncPage>): seq<EventId>
    requires 0 < |servers| == |pages|
  {
    Difference(servers[0], cfg.context, requested, pages[0].effectiveKnown)
  }

  lemma LoadedHolds(s: Tables, last: Tables, events: seq<Event>)
    requires Grows(s, last) && Loaded(s, events)
    ensures Holds(last, events)
  {
    forall i | 0 <= i < |events| ensures events[i].id in last.events && last.events[events[i].id].wire == ToWire(events[i]) {
      assert LoadVerified(s, events[i].id) == Ok(events[i]);
      assert last.events[events[i].id] == s.events[events[i].id];
    }
  }

  lemma ExchangePlan(t: Tables, cfg: PullConfig, requested: seq<EventId>, known: seq<EventId>, servers: seq<Tables>,
                     pages: seq<SyncPage>, replies: seq<Reply>)
    requires HonestExchange(t, cfg, requested, known, servers, pages, replies)
    ensures var last := servers[|servers| - 1]; var d := TheDifference(cfg, requested, servers, pages); var eff := pages[0].effectiveKnown;
      && d == Difference(last, cfg.context, requested, eff)
      && Plan(last, cfg.context, requested).Ordered? && Plan(last, cfg.context, eff).Ordered?
      && Effective(last, cfg.context, known) == Ok(eff)
      && Importable(t, last, cfg.context, d)
  {
    hide Inv, IsPage, Grows, Difference, Plan, Loaded, Effective, Importable, Trusts, KnownHeads, SharedWires;
    var n := |pages| - 1;
    var cursor := CursorAt(replies, n);
    SlicesOfOnePlan(servers, cfg.context, requested, known, cfg.limits, pages, replies, n);
    assert HonestPage(servers[n], cfg.context, requested, known, cfg.limits, cursor, pages[n], replies[n]);
    PageFacts(servers[n], cfg.context, requested, known, OffsetOf(cursor),
              cfg.limits.maxEvents, cfg.limits.maxBytes, pages[n]);
    DifferenceImportable(t, servers[n], cfg.peer, cfg.context, requested, known, pages[0].effectiveKnown);
  }

  /** A page answered for the client's cursor passes every client check. */
  lemma AnswerPasses(s: Tables, cfg: PullConfig, requested: seq<EventId>, known: seq<EventId>, cursor: Option<Cursor>,
                     page: SyncPage, r: Reply, at: Progress)
    requires HonestPage(s, cfg.context, requested, known, cfg.limits, cursor, page, r)
    requires EMPTY_BUNDLE_BYTES <= cfg.limits.maxBytes <= MAX_BUNDLE_CANONICAL_BYTES
    requires (cursor.Some? ==> cursor.value.At?) && at.offset == OffsetOf(cursor)
    requires at.mark.Some? ==> cursor.Some? && at.mark.value == cursor.value.mark
    ensures r.PageReply? && CheckPage(cfg, requested, at, r) == Ok(())
    ensures r.bundle == Page(cfg.context, page.bundle.events) && r.bundle == page.bundle && WellFormed(r.bundle)
    ensures BundleBytes(r.bundle) <= cfg.limits.maxBytes && |r.bundle.events| <= cfg.limits.maxEvents
    ensures r.next.Some? ==> r.next.value.At? && r.next.value.offset == at.offset + |page.bundle.events|
  {
    hide IsPage, WellFormed, BundleBytes, ValidName;
    PageLimitsHeld(s, cfg.context, requested, known, at.offset, cfg.limits.maxEvents, cfg.limits.maxBytes, page);
  }

  /** The exchange gives page `i` for the cursor of page `i - 1`. */
  lemma ExchangePage(t: Tables, cfg: PullConfig, requested: seq<EventId>, known: seq<EventId>, servers: seq<Tables>,
                     pages: seq<SyncPage>, replies: seq<Reply>, i: nat)
    requires HonestExchange(t, cfg, requested, known, servers, pages, replies) && i < |replies|
    ensures |replies| == |pages| == |servers| && (forall k :: 0 <= k < |replies| ==> replies[k].PageReply?)
    ensures HonestPage(servers[i], cfg.context, requested, known, cfg.limits, CursorAt(replies, i), pages[i], replies[i])
    ensures EMPTY_BUNDLE_BYTES <= cfg.limits.maxBytes <= MAX_BUNDLE_CANONICAL_BYTES
    ensures i > 0 ==> CursorAt(replies, i) == replies[i - 1].next
  {
    hide Inv, Grows, HonestPage, KnownHeads, SharedWires, Trusts;
  }

  lemma ExchangeOffset(t: Tables, cfg: PullConfig, requested: seq<EventId>, known: seq<EventId>, servers: seq<Tables>,
                       pages: seq<SyncPage>, replies: seq<Reply>, i: nat)
    requires HonestExchange(t, cfg, requested, known, servers, pages, replies) && i < |replies|
    ensures |replies| == |pages| && (forall k :: 0 <= k < |replies| ==> replies[k].PageReply?)
    ensures var cursor := CursorAt(replies, i);
      (cursor.Some? ==> cursor.value.At?) && Sent(pages, i) == OffsetOf(cursor)
  {
    hide Inv, Grows, HonestPage, KnownHeads, SharedWires, Trusts, Difference, Loaded, Ids, Sent, CursorAt;
    SlicesOfOnePlan(servers, cfg.context, requested, known, cfg.limits, pages, replies, i);
  }

  /** Each reply passes every client check at its turn. */
  lemma PagePasses(t: Tables, cfg: PullConfig, requested: seq<EventId>, known: seq<EventId>, servers: seq<Tables>,
                   pages: seq<SyncPage>, replies: seq<Reply>, i: nat, at: Progress)
    requires HonestExchange(t, cfg, requested, known, servers, pages, replies) && i < |replies|
    requires at.offset == Sent(pages, i)
    requires at.mark.Some? ==>
      && i > 0 && replies[i - 1].next.Some? && replies[i - 1].next.value.At?
      && at.mark.value == replies[i - 1].next.value.mark
    ensures replies[i].PageReply? && CheckPage(cfg, requested, at, replies[i]) == Ok(())
    ensures replies[i].bundle == Page(cfg.context, pages[i].bundle.events) && WellFormed(replies[i].bundle)
    ensures BundleBytes(replies[i].bundle) <= cfg.limits.maxBytes && |replies[i].bundle.events| <= cfg.limits.maxEvents
    ensures replies[i].next.Some? ==> replies[i].next.value.At? && replies[i].next.value.offset == Sent(pages, i + 1)
  {
    ExchangePage(t, cfg, requested, known, servers, pages, replies, i);
    hide HonestExchange, HonestPage, CheckPage, WellFormed, BundleBytes, Page, CursorAt;
    ExchangeOffset(t, cfg, requested, known, servers, pages, replies, i);
    AnswerPasses(servers[i], cfg, requested, known, CursorAt(replies, i), pages[i], replies[i], at);
    assert Sent(pages, i + 1) == Sent(pages, i) + |pages[i].bundle.events|;
  }

  lemma PageLimitsHeld(s: Tables, c: ContextId, requested: seq<EventId>, known: seq<EventId>, offset: nat, maxEvents: nat,
                       maxBytes: nat, page: SyncPage)
    requires IsPage(s, c, requested, known, offset, maxEvents, maxBytes, page) && EMPTY_BUNDLE_BYTES <= maxBytes
    ensures BundleBytes(page.bundle) <= maxBytes && |page.bundle.events| <= maxEvents
    ensures page.bundle == Page(c, page.bundle.events) && WellFormed(page.bundle)
    ensures page.bundle.events == [] ==> page.nextOffset == None
    ensures page.nextOffset.Some? ==> page.nextOffset.value == offset + |page.bundle.events| > offset
  {
    hide Difference, Plan, Loaded, Effective, WellFormed, LoadVerified, ActiveContext;
    assert RefBytes([]) == 0 && EventBytes([]) == 0;
  }

  /** The client stands before page `i` with everything sent so far imported. */
  ghost predicate Before(t: Tables, u: Tables, cfg: PullConfig, requested: seq<EventId>, servers: seq<Tables>,
                         pages: seq<SyncPage>, replies: seq<Reply>, i: nat, at: Progress)
    requires 0 < |servers| == |pages| == |replies| && i < |replies|
  {
    var d := TheDifference(cfg, requested, servers, pages);
    && Sent(pages, i) <= |d| && Synced(t, u, servers[|servers| - 1], d, Sent(pages, i))
    && at.offset == Sent(pages, i) == at.report.received && at.report.pages == i
    && (at.mark.Some? ==> i > 0 && replies[i - 1].PageReply? && replies[i - 1].next.Some? && replies[i - 1].next.value.At?
                          && at.mark.value == replies[i - 1].next.value.mark)
  }

  /** The pull ended with the whole plan imported and no ref moved. */
  ghost predicate Complete(t: Tables, u: Tables, cfg: PullConfig, requested: seq<EventId>, servers: seq<Tables>,
                           pages: seq<SyncPage>, replies: seq<Reply>, v: Tables, r: Result<PullReport, SyncError>)
    requires 0 < |servers| == |pages|
  {
    var d := TheDifference(cfg, requested, servers, pages);
    && r.Ok? && v.remoteRefs == u.remoteRefs && v.localRefs == u.localRefs
    && r.value.received == |d| && r.value.pages == |replies|
    && Synced(t, v, servers[|servers| - 1], d, |d|)
  }

  /** The page's import succeeds and carries the client past it. */
  lemma PageImports(t: Tables, u: Tables, cfg: PullConfig, requested: seq<EventId>, known: seq<EventId>, servers: seq<Tables>,
                    pages: seq<SyncPage>, replies: seq<Reply>, i: nat, at: Progress)
    requires HonestExchange(t, cfg, requested, known, servers, pages, replies) && i < |replies|
    requires 0 < |servers| == |pages| == |replies| && Before(t, u, cfg, requested, servers, pages, replies, i, at)
    ensures replies[i].PageReply? && ImportSpec(u, cfg.peer, replies[i].bundle).Ok?
    ensures CheckPage(cfg, requested, at, replies[i]) == Ok(()) && at.report.pages < cfg.limits.maxPages
    ensures BundleBytes(replies[i].bundle) <= cfg.limits.maxBytes && |replies[i].bundle.events| <= cfg.limits.maxEvents
    ensures WellFormed(replies[i].bundle)
    ensures var v := ImportSpec(u, cfg.peer, replies[i].bundle).value.0; var d := TheDifference(cfg, requested, servers, pages);
      && v.remoteRefs == u.remoteRefs && v.localRefs == u.localRefs
      && Sent(pages, i + 1) <= |d| && Synced(t, v, servers[|servers| - 1], d, Sent(pages, i + 1))
    ensures Sent(pages, i + 1) == Sent(pages, i) + |replies[i].bundle.events|
    ensures replies[i].next.Some? ==> replies[i].next.value.At? && replies[i].next.value.offset == Sent(pages, i + 1)
    ensures i == |replies| - 1 ==> Sent(pages, i + 1) == |TheDifference(cfg, requested, servers, pages)|
  {
    hide HonestExchange, TheDifference, Synced, Importable, ImportSpec, WellFormed, BundleBytes, CheckPage, Holds,
         PullPages, AfterPage, Sent, Ids,
      ValidName, Ascending;
    ExchangeImportable(t, cfg, requested, known, servers, pages, replies, i);
    PagePasses(t, cfg, requested, known, servers, pages, replies, i, at);
    SyncOnePage(t, u, servers[|servers| - 1], cfg.context, TheDifference(cfg, requested, servers, pages), Sent(pages, i), cfg.peer,
                pages[i].bundle.events);
  }

  lemma PageStep(t: Tables, u: Tables, cfg: PullConfig, requested: seq<EventId>, known: seq<EventId>, servers: seq<Tables>,
                 pages: seq<SyncPage>, replies: seq<Reply>, i: nat, at: Progress)
    requires HonestExchange(t, cfg, requested, known, servers, pages, replies) && i < |replies|
    requires 0 < |servers| == |pages| == |replies| && Before(t, u, cfg, requested, servers, pages, replies, i, at)
    ensures replies[i].PageReply? && ImportSpec(u, cfg.peer, replies[i].bundle).Ok?
    ensures var v := ImportSpec(u, cfg.peer, replies[i].bundle).value.0; v.remoteRefs == u.remoteRefs && v.localRefs == u.localRefs
    ensures replies[i].next.None? ==>
      Complete(t, u, cfg, requested, servers, pages, replies,
               PullPages(u, cfg, requested, replies[i..], at).0, PullPages(u, cfg, requested, replies[i..], at).1)
    ensures replies[i].next.Some? ==>
      && replies[i].next.value.At? && i + 1 < |replies|
      && PullPages(u, cfg, requested, replies[i..], at)
        == PullPages(AfterPage(u, cfg, replies[i], at).0, cfg, requested, replies[i + 1..], AfterPage(u, cfg, replies[i], at).1)
      && AfterPage(u, cfg, replies[i], at).0 == ImportSpec(u, cfg.peer, replies[i].bundle).value.0
      && Before(t, AfterPage(u, cfg, replies[i], at).0, cfg, requested, servers, pages, replies, i + 1, AfterPage(u, cfg, replies[i], at).1)
  {
    hide HonestExchange, HonestRun, TheDifference, Synced, ImportSpec, WellFormed, BundleBytes, CheckPage, PullPages,
         AfterPage, Sent,
      ValidName, Ascending;
    ExchangeSizes(t, cfg, requested, known, servers, pages, replies);
    PageImports(t, u, cfg, requested, known, servers, pages, replies, i, at);
    assert replies[i..][0] == replies[i] && replies[i..][1..] == replies[i + 1..];
    PullUnfolds(u, cfg, requested, replies[i..], at);
  }

  /** From any page on, the remaining exchange imports completely. */
  lemma {:induction false} PagesImport(t: Tables, u: Tables, cfg: PullConfig, requested: seq<EventId>, known: seq<EventId>,
                                       servers: seq<Tables>, pages: seq<SyncPage>, replies: seq<Reply>, i: nat, at: Progress)
    requires HonestExchange(t, cfg, requested, known, servers, pages, replies) && i < |replies|
    requires 0 < |servers| == |pages| == |replies| && Before(t, u, cfg, requested, servers, pages, replies, i, at)
    ensures var (v, r) := PullPages(u, cfg, requested, replies[i..], at); Complete(t, u, cfg, requested, servers, pages, replies, v, r)
    decreases |replies| - i
  {
    hide HonestExchange, Before, Complete, PullPages, AfterPage, ImportSpec;
    PageStep(t, u, cfg, requested, known, servers, pages, replies, i, at);
    if replies[i].next.Some? {
      var (v, next) := AfterPage(u, cfg, replies[i], at);
      PagesImport(t, v, cfg, requested, known, servers, pages, replies, i + 1, next);
      var (w, r) := PullPages(v, cfg, requested, replies[i + 1..], next);
      SameRefs(t, u, v, cfg, requested, servers, pages, replies, w, r);
    }
  }

  lemma SameRefs(t: Tables, u: Tables, v: Tables, cfg: PullConfig, requested: seq<EventId>, servers: seq<Tables>,
                 pages: seq<SyncPage>, replies: seq<Reply>, w: Tables, r: Result<PullReport, SyncError>)
    requires 0 < |servers| == |pages| && v.remoteRefs == u.remoteRefs && v.localRefs == u.localRefs
    requires Complete(t, v, cfg, requested, servers, pages, replies, w, r)
    ensures Complete(t, u, cfg, requested, servers, pages, replies, w, r)
  {
    hide Synced, TheDifference;
  }

  /** The store and progress after one accepted page that is not the last. */
  ghost function AfterPage(u: Tables, cfg: PullConfig, r: Reply, at: Progress): (Tables, Progress)
    requires r.PageReply? && ImportSpec(u, cfg.peer, r.bundle).Ok? && r.next.Some? && r.next.value.At?
  {
    var (v, imported) := ImportSpec(u, cfg.peer, r.bundle).value;
    (v, Progress(r.next.value.offset, Some(r.next.value.mark), Counted(at.report, r.bundle, imported)))
  }

  lemma PullUnfolds(u: Tables, cfg: PullConfig, requested: seq<EventId>, replies: seq<Reply>, at: Progress)
    requires at.report.pages < cfg.limits.maxPages && replies != [] && CheckPage(cfg, requested, at, replies[0]) == Ok(())
    requires replies[0].PageReply? && WellFormed(replies[0].bundle) && ImportSpec(u, cfg.peer, replies[0].bundle).Ok?
    requires BundleBytes(replies[0].bundle) <= cfg.limits.maxBytes && |replies[0].bundle.events| <= cfg.limits.maxEvents
    ensures var r := replies[0]; var (v, q) := PullPages(u, cfg, requested, replies, at);
      if r.next.None? then
        && v == ImportSpec(u, cfg.peer, r.bundle).value.0 && q.Ok?
        && q.value.pages == at.report.pages + 1 && q.value.received == at.report.received + |r.bundle.events|
      else
        && r.next.value.At?
        && (v, q) == PullPages(AfterPage(u, cfg, r, at).0, cfg, requested, replies[1..], AfterPage(u, cfg, r, at).1)
        && AfterPage(u, cfg, r, at).0 == ImportSpec(u, cfg.peer, r.bundle).value.0
        && var next := AfterPage(u, cfg, r, at).1;
          && next.offset == r.next.value.offset && next.mark == Some(r.next.value.mark)
          && next.report.pages == at.report.pages + 1 && next.report.received == at.report.received + |r.bundle.events|
  {
    hide ImportSpec, WellFormed, BundleBytes;
  }

  lemma ExchangeSizes(t: Tables, cfg: PullConfig, requested: seq<EventId>, known: seq<EventId>, servers: seq<Tables>,
                      pages: seq<SyncPage>, replies: seq<Reply>)
    requires HonestExchange(t, cfg, requested, known, servers, pages, replies)
    ensures 0 < |replies| == |pages| == |servers| && |replies| <= cfg.limits.maxPages
    ensures HonestRun(servers, cfg.context, requested, known, cfg.limits, pages, replies)
    ensures forall i :: 0 <= i < |replies| ==> replies[i].PageReply? && (replies[i].next.None? <==> i == |replies| - 1)
  {
    hide Inv, HonestPage, Grows, Difference, Trusts, KnownHeads, SharedWires;
  }

  lemma RunGrowsToLast(servers: seq<Tables>, c: ContextId, requested: seq<EventId>, known: seq<EventId>, limits: PullLimits,
                       pages: seq<SyncPage>, replies: seq<Reply>, i: nat)
    requires HonestRun(servers, c, requested, known, limits, pages, replies) && i < |servers|
    ensures Grows(servers[i], servers[|servers| - 1])
  {
    hide Inv, HonestPage, Grows;
    GrowsAlong(servers, i, |servers| - 1);
  }

  lemma ExchangeImportable(t: Tables, cfg: PullConfig, requested: seq<EventId>, known: seq<EventId>, servers: seq<Tables>,
                           pages: seq<SyncPage>, replies: seq<Reply>, i: nat)
    requires HonestExchange(t, cfg, requested, known, servers, pages, replies) && i < |replies|
    ensures 0 < |replies| == |pages| == |servers| && i < cfg.limits.maxPages
    ensures Importable(t, servers[|servers| - 1], cfg.context, TheDifference(cfg, requested, servers, pages))
    ensures Holds(servers[|servers| - 1], pages[i].bundle.events)
    ensures var d := TheDifference(cfg, requested, servers, pages); var n := |pages[i].bundle.events|;
      && Sent(pages, i) + n == Sent(pages, i + 1) <= |d| && Ids(pages[i].bundle.events) == d[Sent(pages, i)..Sent(pages, i) + n]
      && (i == |replies| - 1 ==> Sent(pages, i + 1) == |d|)
  {
    ExchangeSizes(t, cfg, requested, known, servers, pages, replies);
    hide HonestExchange, HonestRun, Inv, Grows, Difference, Loaded, Importable, CursorAt, Holds, Ids;
    ExchangePlan(t, cfg, requested, known, servers, pages, replies);
    SlicesOfOnePlan(servers, cfg.context, requested, known, cfg.limits, pages, replies, i);
    RunGrowsToLast(servers, cfg.context, requested, known, cfg.limits, pages, replies, i);
    LoadedHolds(servers[i], servers[|servers| - 1], pages[i].bundle.events);
  }

  // ---------------------------------------------------------------- convergence

  /** An event of the requested ancestry is in the difference or in what the client already had. */
  lemma WantedIsHeld(t: Tables, s: Tables, peer: Name, c: ContextId, requested: seq<EventId>, known: seq<EventId>,
                     effective: seq<EventId>, x: EventId)
    requires Inv(t) && Inv(s) && SharedWires(t, s) && Elems(known) == KnownHeads(t, peer, c) && Effective(s, c, known) == Ok(effective)
    requires Plan(s, c, requested).Ordered? && Plan(s, c, effective).Ordered? && x in Plan(s, c, requested).order
    ensures x in Difference(s, c, requested, effective) || x in t.events
  {
    hide Inv, ContextGraph, KnownHeads, Effective, SharedWires, Anc;
    var g := ContextGraph(s, c);
    PostOrderExact(g, effective);
    WithoutIs(Plan(s, c, requested).order, Elems(Plan(s, c, effective).order));
    if x !in Difference(s, c, requested, effective) {
      EffectiveIsKnown(s, c, known);
      KnownHeadsStored(t, peer, c);
      forall h | h in Elems(effective) ensures h in t.events.Keys { assert h in Elems(known); }
      KnownAncestryHeld(t, s, c, Elems(effective), x);
    }
  }

  /** Whatever the server's plan of the requested heads orders, the synced client holds. */
  lemma PlanHeld(t: Tables, v: Tables, cfg: PullConfig, requested: seq<EventId>, known: seq<EventId>, servers: seq<Tables>,
                 pages: seq<SyncPage>, replies: seq<Reply>, x: EventId)
    requires HonestExchange(t, cfg, requested, known, servers, pages, replies)
    requires 0 < |servers| == |pages|
    requires var d := TheDifference(cfg, requested, servers, pages); Synced(t, v, servers[|servers| - 1], d, |d|)
    requires Plan(servers[|servers| - 1], cfg.context, requested).Ordered? && x in Plan(servers[|servers| - 1], cfg.context, requested).order
    ensures Targets(Parsed(v.events), cfg.context, x)
  {
    hide HonestExchange, HonestRun, Inv, Grows, ContextGraph, Parsed, TheDifference, Importable, Effective, KnownHeads,
         Plan, Difference,
      SharedWires, Synced;
    var last := servers[|servers| - 1];
    var d := TheDifference(cfg, requested, servers, pages);
    ExchangeFacts(t, cfg, requested, known, servers, pages, replies);
    ExchangePlan(t, cfg, requested, known, servers, pages, replies);
    WantedIsHeld(t, last, cfg.peer, cfg.context, requested, known, pages[0].effectiveKnown, x);
    SyncedFacts(t, v, last, d);
    assert x in v.events.Keys;
    OrderInGraph(last, cfg.context, requested, x);
    SoundGraph(last, cfg.context);
    SharedParents(v, last, x);
  }

  lemma OrderInGraph(s: Tables, c: ContextId, requested: seq<EventId>, x: EventId)
    requires Plan(s, c, requested).Ordered? && x in Plan(s, c, requested).order
    ensures x in ContextGraph(s, c)
  {
    hide ContextGraph, LoadVerified;
    PostOrderExact(ContextGraph(s, c), requested);
  }

  lemma ExchangeFacts(t: Tables, cfg: PullConfig, requested: seq<EventId>, known: seq<EventId>, servers: seq<Tables>,
                      pages: seq<SyncPage>, replies: seq<Reply>)
    requires HonestExchange(t, cfg, requested, known, servers, pages, replies)
    ensures 0 < |servers| == |pages| == |replies|
    ensures Inv(t) && Inv(servers[|servers| - 1]) && SharedWires(t, servers[|servers| - 1])
    ensures Elems(known) == KnownHeads(t, cfg.peer, cfg.context)
  {
    hide Inv, HonestPage, Grows, Difference, Trusts, KnownHeads, SharedWires;
  }

  lemma SoundIsListable(t: Tables, peer: Name, c: ContextId)
    requires Inv(t)
    ensures Listable(t, peer, c)
  {
    hide CoreInv, Parsed, AuthoritativeContext, ValidName;
    forall k | k in t.localRefs && k.0 == c ensures AuthoritativeContext(t, t.localRefs[k]) == Ok(Some(c)) {
      TargetChecked(t, c, t.localRefs[k]);
    }
    forall k | k in t.remoteRefs && k.0 == peer && k.1 == c ensures AuthoritativeContext(t, t.remoteRefs[k]) == Ok(Some(c)) {
      TargetChecked(t, c, t.remoteRefs[k]);
    }
  }

  lemma NamespaceNamed(t: Tables, peer: Name, c: ContextId)
    requires Inv(t)
    ensures forall n :: n in Namespace(t.remoteRefs, peer, c) ==> ValidName(n)
  {
    hide CoreInv, Parsed, ValidName;
    forall n | n in Namespace(t.remoteRefs, peer, c) ensures ValidName(n) {
      assert (peer, c, n) in t.remoteRefs;
    }
  }

  /** The final replacement is accepted once every advertised head is held. */
  lemma ReplaceSucceeds(v: Tables, peer: Name, c: ContextId, refs: seq<AdvertisedRef>)
    requires Inv(v) && refs != [] && |refs| <= MAX_BUNDLE_REFS && NamesAscend(refs)
    requires forall i :: 0 <= i < |refs| ==> Targets(Parsed(v.events), c, refs[i].head)
    ensures ReplaceSpec(v, peer, c, refs).Ok?
  {
    hide Inv, Parsed, Targets, CheckHeads, KnownContext, Namespace, Desired, Replaced, ChangeCount, ValidName;
    HeadsChecked(v, c, refs);
    PendingHoldsNothing(v, c, refs[0].head);
    KnownRow(v, c);
    NamespaceNamed(v, peer, c);
  }

  /** On a sound store a namespace is replaced exactly in an active context, by a proper list of heads that
      are events of it; the answer counts the names that end up bound differently. */
  lemma ReplaceDecided(t: Tables, peer: Name, c: ContextId, refs: seq<AdvertisedRef>)
    requires Inv(t)
    ensures var r := ReplaceSpec(t, peer, c, refs);
      var active := c in t.contexts && t.contexts[c].state == ACTIVE;
      var proper := |refs| <= MAX_BUNDLE_REFS && NamesAscend(refs);
      var targets := forall i :: 0 <= i < |refs| ==> Targets(Parsed(t.events), c, refs[i].head);
      && (r.Ok? <==> proper && active && targets)
      && (!proper ==> r == Err(BundleRefInvalid))
      && (proper && !active ==> r == Err(ContextUnknown))
      && (proper && active && !targets ==> r == Err(BundleRefInvalid))
      && (r.Ok? ==> r.value.1 == |Differing(Namespace(t.remoteRefs, peer, c), Desired(refs))|)
  {
    hide Inv, Parsed, Targets, CheckHeads, KnownContext, Namespace, Desired, Replaced, ChangeCount, Differing, ValidName, NamesAscend;
    HeadsChecked(t, c, refs);
    OneHeadError(t, c, refs);
    if c in t.contexts { KnownRow(t, c); } else { UnknownContext(t, c); }
    NamespaceNamed(t, peer, c);
    CountsDifferences(Namespace(t.remoteRefs, peer, c), Desired(refs));
  }

  lemma UnknownContext(t: Tables, c: ContextId)
    requires c !in t.contexts
    ensures KnownContext(t, c) == Err(ContextUnknown)
  {
  }

  lemma {:induction false} OneHeadError(t: Tables, c: ContextId, refs: seq<AdvertisedRef>)
    requires Inv(t)
    ensures CheckHeads(t, c, refs).Err? ==> CheckHeads(t, c, refs).error == BundleRefInvalid
    decreases |refs|
  {
    hide Inv, Parsed, AuthoritativeContext, ValidName;
    if refs != [] {
      TargetChecked(t, c, refs[0].head);
      OneHeadError(t, c, refs[1..]);
    }
  }

  lemma SameProjection(v: Tables, s: Tables, c: ContextId, requested: seq<EventId>)
    requires Inv(v) && Inv(s) && SharedWires(v, s) && Plan(s, c, requested).Ordered?
    requires forall h :: h in requested ==> Targets(Parsed(v.events), c, h)
    ensures Plan(v, c, requested) == Plan(s, c, requested)
  {
    hide Inv, Plan, Parsed, Targets, SharedWires;
    SoundPlan(v, c, requested);
    forall id | Loads(v, c, id) && Loads(s, c, id) ensures LoadVerified(v, id).value.body == LoadVerified(s, id).value.body {
      LoadedIsStored(v, id);
      LoadedIsStored(s, id);
      InvLoads(v, id);
      InvLoads(s, id);
      SharedParents(v, s, id);
    }
    SameHeadsSameProjection(v, s, c, requested);
  }

  lemma HeadsAreRequested(refs: seq<AdvertisedRef>, i: nat)
    requires i < |refs|
    ensures refs[i].head in SortDedup(Heads(refs))
  {
    hide ValidName;
    assert Heads(refs)[i] == refs[i].head;
    assert refs[i].head in Elems(Heads(refs));
    assert refs[i].head in Elems(SortDedup(Heads(refs)));
  }

  lemma RequestedHeld(t: Tables, v: Tables, cfg: PullConfig, requested: seq<EventId>, known: seq<EventId>, servers: seq<Tables>,
                      pages: seq<SyncPage>, replies: seq<Reply>)
    requires HonestExchange(t, cfg, requested, known, servers, pages, replies)
    requires 0 < |servers| == |pages|
    requires var d := TheDifference(cfg, requested, servers, pages); Synced(t, v, servers[|servers| - 1], d, |d|)
    ensures forall h :: h in requested ==> Targets(Parsed(v.events), cfg.context, h)
    ensures Plan(servers[|servers| - 1], cfg.context, requested).Ordered?
  {
    hide HonestExchange, Synced, TheDifference, Parsed, Importable, ContextGraph, Effective;
    ExchangePlan(t, cfg, requested, known, servers, pages, replies);
    var last := servers[|servers| - 1];
    PostOrderSound(ContextGraph(last, cfg.context), [], requested, []);
    forall h | h in requested ensures Targets(Parsed(v.events), cfg.context, h) {
      PlanHeld(t, v, cfg, requested, known, servers, pages, replies, h);
    }
  }

  lemma SyncedFacts(t: Tables, u: Tables, s: Tables, d: seq<EventId>)
    requires Synced(t, u, s, d, |d|)
    ensures Inv(u) && SharedWires(u, s) && u.events.Keys == t.events.Keys + Elems(d)
  {
    hide Inv, Grows;
    assert d[..|d|] == d;
  }

  /** A pull whose every page an honest server answered succeeds.  The client's events are then its
      own plus exactly the plan, and it projects the requested heads to the server's own sequence. */
  lemma PullConverges(t: Tables, cfg: PullConfig, s: RefSnapshot, known: seq<EventId>, servers: seq<Tables>,
                      pages: seq<SyncPage>, replies: seq<Reply>)
    requires SnapshotParses(s) && s.context == cfg.context && s.refs != [] && |KnownHeads(t, cfg.peer, cfg.context)| <= MAX_BUNDLE_REFS
    requires HonestExchange(t, cfg, SortDedup(Heads(s.refs)), known, servers, pages, replies)
    ensures 0 < |servers| == |pages|
    ensures var requested := SortDedup(Heads(s.refs)); var last := servers[|servers| - 1];
      var d := TheDifference(cfg, requested, servers, pages); var (u, r) := PullSpec(t, cfg, s, replies);
      && r.Ok? && r.value.received == |d| && r.value.pages == |replies|
      && u.events.Keys == t.events.Keys + Elems(d)
      && Plan(last, cfg.context, requested).Ordered?
      && Plan(u, cfg.context, requested) == Plan(last, cfg.context, requested)
  {
    hide HonestExchange, HonestRun, Synced, Inv, Before, PullPages, ReplaceSpec, Listable, KnownHeads, TheDifference,
         Parsed, Targets, Plan,
      SharedWires, ValidName, NamesAscend, Heads;
    var requested := SortDedup(Heads(s.refs));
    ExchangeFacts(t, cfg, requested, known, servers, pages, replies);
    SoundIsListable(t, cfg.peer, cfg.context);
    HeadsAreRequested(s.refs, 0);
    StartsBefore(t, cfg, requested, servers, pages, replies);
    PagesImport(t, t, cfg, requested, known, servers, pages, replies, 0, STARTED);
    assert replies[0..] == replies;
    var (v, r) := PullPages(t, cfg, requested, replies, STARTED);
    var last := servers[|servers| - 1];
    RequestedHeld(t, v, cfg, requested, known, servers, pages, replies);
    SyncedFacts(t, v, last, TheDifference(cfg, requested, servers, pages));
    forall i | 0 <= i < |s.refs| ensures Targets(Parsed(v.events), cfg.context, s.refs[i].head) {
      HeadsAreRequested(s.refs, i);
    }
    ReplaceSucceeds(v, cfg.peer, cfg.context, s.refs);
    ReplaceSetsNamespace(v, cfg.peer, cfg.context, s.refs);
    ReplaceInv(v, cfg.peer, cfg.context, s.refs);
    var u := ReplaceSpec(v, cfg.peer, cfg.context, s.refs).value.0;
    SharedAfterReplace(v, u, last);
    SameProjection(u, last, cfg.context, requested);
  }

  lemma SharedAfterReplace(v: Tables, u: Tables, s: Tables)
    requires SharedWires(v, s) && u.events == v.events
    ensures SharedWires(u, s)
  {
  }

  lemma StartsBefore(t: Tables, cfg: PullConfig, requested: seq<EventId>, servers: seq<Tables>, pages: seq<SyncPage>,
                     replies: seq<Reply>)
    requires 0 < |servers| == |pages| == |replies|
    requires Inv(t) && SharedWires(t, servers[|servers| - 1])
    ensures Before(t, t, cfg, requested, servers, pages, replies, 0, STARTED)
  {
    hide Inv, Grows, TheDifference;
    GrowsSelf(t);
  }
  /** So the client gains exactly what it lacked: the requested ancestry at the first snapshot, less that of
      the known heads the snapshot held in the context; and it received as many events. */
  lemma PullFetches(t: Tables, cfg: PullConfig, s: RefSnapshot, known: seq<EventId>, servers: seq<Tables>,
                    pages: seq<SyncPage>, replies: seq<Reply>)
    requires SnapshotParses(s) && s.context == cfg.context && s.refs != [] && |KnownHeads(t, cfg.peer, cfg.context)| <= MAX_BUNDLE_REFS
    requires HonestExchange(t, cfg, SortDedup(Heads(s.refs)), known, servers, pages, replies)
    ensures 0 < |servers|
    ensures var g := ContextGraph(servers[0], cfg.context);
      var missing := Anc(g, Elems(Heads(s.refs))) - Anc(g, HeldHeads(servers[0], cfg.context, known));
      var (u, r) := PullSpec(t, cfg, s, replies);
      r.Ok? && u.events.Keys == t.events.Keys + missing && r.value.received == |missing|
  {
    hide *;
    PullConverges(t, cfg, s, known, servers, pages, replies);
    ExchangeIsRun(t, cfg, SortDedup(Heads(s.refs)), known, servers, pages, replies);
    WhatIsMissing(t, cfg, SortDedup(Heads(s.refs)), known, servers, pages, replies);
  }

  lemma ExchangeIsRun(t: Tables, cfg: PullConfig, requested: seq<EventId>, known: seq<EventId>, servers: seq<Tables>,
                      pages: seq<SyncPage>, replies: seq<Reply>)
    requires HonestExchange(t, cfg, requested, known, servers, pages, replies)
    ensures HonestRun(servers, cfg.context, requested, known, cfg.limits, pages, replies)
  {
    hide HonestRun, TheDifference, SharedWires, Trusts, Inv;
  }

  lemma WhatIsMissing(t: Tables, cfg: PullConfig, requested: seq<EventId>, known: seq<EventId>, servers: seq<Tables>,
                      pages: seq<SyncPage>, replies: seq<Reply>)
    requires HonestRun(servers, cfg.context, requested, known, cfg.limits, pages, replies) && 0 < |servers| == |pages|
    ensures var g := ContextGraph(servers[0], cfg.context); var d := TheDifference(cfg, requested, servers, pages);
      Elems(d) == Anc(g, Elems(requested)) - Anc(g, HeldHeads(servers[0], cfg.context, known)) && |d| == |Elems(d)|
  {
    hide HonestRun, Difference, HeldHeads, Anc, ContextGraph, Plan, Effective;
    RunStarts(servers, cfg.context, requested, known, cfg.limits, pages, replies);
    EffectiveIs(servers[0], cfg.context, known);
    DifferenceSet(servers[0], cfg.context, requested, pages[0].effectiveKnown);
    DistinctSize(TheDifference(cfg, requested, servers, pages));
  }

  /** The head of a local branch of the context, or of one of the peer's recorded ones. */
  ghost predicate RefAt(t: Tables, peer: Name, c: ContextId, head: EventId) {
    || (exists n: string :: Lookup(t.localRefs, (c, n)) == Some(head))
    || (exists n: string :: Lookup(t.remoteRefs, (peer, c, n)) == Some(head))
  }

  lemma RefsAreKnown(t: Tables, peer: Name, c: ContextId, head: EventId)
    requires RefAt(t, peer, c, head)
    ensures head in KnownHeads(t, peer, c)
  {
    hide ValidName;
    if n: string :| Lookup(t.localRefs, (c, n)) == Some(head) {
      assert (c, n) in t.localRefs;
    } else {
      var n: string :| Lookup(t.remoteRefs, (peer, c, n)) == Some(head);
      assert (peer, c, n) in t.remoteRefs;
    }
  }

  /** A pull of heads that the client has refs at receives nothing and adds nothing. */
  lemma KnownFetchesNothing(t: Tables, cfg: PullConfig, s: RefSnapshot, known: seq<EventId>, servers: seq<Tables>,
                            pages: seq<SyncPage>, replies: seq<Reply>)
    requires SnapshotParses(s) && s.context == cfg.context && s.refs != [] && |KnownHeads(t, cfg.peer, cfg.context)| <= MAX_BUNDLE_REFS
    requires HonestExchange(t, cfg, SortDedup(Heads(s.refs)), known, servers, pages, replies)
    requires forall i :: 0 <= i < |s.refs| ==> RefAt(t, cfg.peer, cfg.context, s.refs[i].head)
    ensures var (u, r) := PullSpec(t, cfg, s, replies); r.Ok? && r.value.received == 0 && u.events.Keys == t.events.Keys
  {
    hide *;
    var c := cfg.context;
    var requested := SortDedup(Heads(s.refs));
    PullFetches(t, cfg, s, known, servers, pages, replies);
    ExchangeIsRun(t, cfg, requested, known, servers, pages, replies);
    RunStarts(servers, c, requested, known, cfg.limits, pages, replies);
    ExchangeKnows(t, cfg, requested, known, servers, pages, replies);
    forall h | h in Elems(Heads(s.refs)) ensures h in HeldHeads(servers[0], c, known) {
      AdvertisedAt(s.refs, h, t, cfg.peer, c);
      RefsAreKnown(t, cfg.peer, c, h);
      PlannedHeld(servers[0], c, requested, known, h);
    }
    LargerAncestry(ContextGraph(servers[0], c), Elems(Heads(s.refs)), HeldHeads(servers[0], c, known));
  }

  lemma LargerAncestry(g: Graph, a: set<EventId>, b: set<EventId>)
    requires a <= b
    ensures Anc(g, a) <= Anc(g, b)
  {
    hide Reach;
    forall x | x in Anc(g, a) ensures x in Anc(g, b) {
      var h :| h in a && Reach(g, h, x);
      assert h in b;
    }
  }

  lemma ExchangeKnows(t: Tables, cfg: PullConfig, requested: seq<EventId>, known: seq<EventId>, servers: seq<Tables>,
                      pages: seq<SyncPage>, replies: seq<Reply>)
    requires HonestExchange(t, cfg, requested, known, servers, pages, replies)
    ensures Elems(known) == KnownHeads(t, cfg.peer, cfg.context) && Inv(t)
  {
    hide HonestRun, TheDifference, SharedWires, Trusts, Inv, KnownHeads;
  }

  lemma AdvertisedAt(refs: seq<AdvertisedRef>, h: EventId, t: Tables, peer: Name, c: ContextId)
    requires h in Elems(Heads(refs)) && forall i :: 0 <= i < |refs| ==> RefAt(t, peer, c, refs[i].head)
    ensures RefAt(t, peer, c, h)
  {
    hide RefAt, ValidName;
    var i :| 0 <= i < |Heads(refs)| && Heads(refs)[i] == h;
    assert refs[i].head == h;
  }

  lemma PlannedHeld(s: Tables, c: ContextId, requested: seq<EventId>, known: seq<EventId>, h: EventId)
    requires Inv(s) && Plan(s, c, requested).Ordered? && h in Elems(requested) && h in Elems(known)
    ensures h in HeldHeads(s, c, known)
  {
    hide Inv, Parsed, ContextGraph, Closed, Cyclic;
    SoundGraph(s, c);
    PostOrderExact(ContextGraph(s, c), requested);
    ReachSelf(ContextGraph(s, c), h);
    assert ReachFrom(ContextGraph(s, c), Elems(requested), h);
  }

  /** In particular pulling the same snapshot again, once a pull of it has succeeded, fetches nothing. */
  lemma SecondPullFetchesNothing(t: Tables, cfg: PullConfig, s: RefSnapshot, first: seq<Reply>, known: seq<EventId>,
                                 servers: seq<Tables>, pages: seq<SyncPage>, replies: seq<Reply>)
    requires Inv(t) && PullSpec(t, cfg, s, first).1.Ok? && s.refs != []
    requires |KnownHeads(PullSpec(t, cfg, s, first).0, cfg.peer, cfg.context)| <= MAX_BUNDLE_REFS
    requires HonestExchange(PullSpec(t, cfg, s, first).0, cfg, SortDedup(Heads(s.refs)), known, servers, pages, replies)
    ensures var u := PullSpec(t, cfg, s, first).0; var (v, r) := PullSpec(u, cfg, s, replies);
      r.Ok? && r.value.received == 0 && r.value.remoteRefsUpdated == 0 && v.events.Keys == u.events.Keys
  {
    hide *;
    var u := PullSpec(t, cfg, s, first).0;
    PullIsSafe(t, cfg, s, first);
    PulledSnapshot(t, cfg, s, first);
    forall i | 0 <= i < |s.refs| ensures RefAt(u, cfg.peer, cfg.context, s.refs[i].head) {
      DesiredAt(u, cfg.peer, cfg.context, s.refs, i);
    }
    KnownFetchesNothing(u, cfg, s, known, servers, pages, replies);
    PullCountsRefs(u, cfg, s, replies);
    NothingDiffers(Desired(s.refs));
  }

  lemma PulledSnapshot(t: Tables, cfg: PullConfig, s: RefSnapshot, first: seq<Reply>)
    requires PullSpec(t, cfg, s, first).1.Ok? && Safe(t, cfg, s.refs, PullSpec(t, cfg, s, first).0, PullSpec(t, cfg, s, first).1)
    ensures SnapshotParses(s) && s.context == cfg.context && NamesAscend(s.refs) && Inv(PullSpec(t, cfg, s, first).0)
    ensures Namespace(PullSpec(t, cfg, s, first).0.remoteRefs, cfg.peer, cfg.context) == Desired(s.refs)
  {
    hide Inv, Grows, HoldsAncestry, Namespace, Desired, PullPages, Replace, Listable, KnownHeads, ValidName, Heads, NamesAscend;
  }

  lemma DesiredAt(u: Tables, peer: Name, c: ContextId, refs: seq<AdvertisedRef>, i: nat)
    requires NamesAscend(refs) && i < |refs| && Namespace(u.remoteRefs, peer, c) == Desired(refs)
    ensures RefAt(u, peer, c, refs[i].head)
  {
    hide ValidName, NamesAscend, Desired;
    DesiredHolds(refs, refs[i].name);
    assert refs[i].name in Namespace(u.remoteRefs, peer, c);
    assert Lookup(u.remoteRefs, (peer, c, refs[i].name)) == Some(refs[i].head);
  }

  lemma NothingDiffers(m: map<string, EventId>)
    ensures |Differing(m, m)| == 0
  {
    assert Differing(m, m) == {};
  }

  // ---------------------------------------------------------------- when nothing is fetched

  /** A peer that advertises nothing needs no exchange: in an active context the pull succeeds, empties the
      peer's namespace, counts what was in it, and changes nothing else. */
  lemma EmptyPull(t: Tables, cfg: PullConfig, s: RefSnapshot, replies: seq<Reply>)
    requires Inv(t) && s.context == cfg.context && s.refs == [] && |KnownHeads(t, cfg.peer, cfg.context)| <= MAX_BUNDLE_REFS
    ensures var (u, r) := PullSpec(t, cfg, s, replies); var c := cfg.context;
      if c in t.contexts && t.contexts[c].state == ACTIVE
      then
        && r == Ok(PullReport(0, 0, 0, 0, |Namespace(t.remoteRefs, cfg.peer, c)|))
        && Namespace(u.remoteRefs, cfg.peer, c) == map[]
        && (forall k: RemoteKey :: k.0 != cfg.peer || k.1 != c ==> Lookup(u.remoteRefs, k) == Lookup(t.remoteRefs, k))
        && u == t.(remoteRefs := u.remoteRefs)
      else u == t && r == Err(StoreFailed(ContextUnknown))
  {
    hide Inv, Parsed, Targets, ReplaceSpec, Namespace, ValidName, Listable, KnownHeads;
    SoundIsListable(t, cfg.peer, cfg.context);
    NoHeads();
    ReplaceDecided(t, cfg.peer, cfg.context, []);
    var was := Namespace(t.remoteRefs, cfg.peer, cfg.context);
    assert Desired([]) == map[];
    assert Differing(was, map[]) == was.Keys;
    assert |was| == |was.Keys|;
    if ReplaceSpec(t, cfg.peer, cfg.context, []).Ok? {
      ReplaceSetsNamespace(t, cfg.peer, cfg.context, []);
    }
  }

  lemma NoHeads()
    ensures SortDedup(Heads([])) == []
  {
  }

  /** A sound client refuses before any exchange exactly for a malformed or foreign snapshot, or when it knows
      too many heads; nothing changes. */
  lemma PullRefused(t: Tables, cfg: PullConfig, s: RefSnapshot, replies: seq<Reply>)
    requires Inv(t)
    ensures var tooMany := |KnownHeads(t, cfg.peer, cfg.context)| > MAX_BUNDLE_REFS;
      && (!SnapshotParses(s) || s.context != cfg.context ==> PullSpec(t, cfg, s, replies) == (t, Err(Protocol)))
      && (SnapshotParses(s) && s.context == cfg.context && tooMany ==> PullSpec(t, cfg, s, replies) == (t, Err(PullLimit)))
  {
    hide Inv, Listable, KnownHeads, PullPages, Replace, SnapshotParses, ValidName, Heads;
    SoundIsListable(t, cfg.peer, cfg.context);
  }
}
