/** Pulling from an honest server whose store may grow between pages. */
module Convergence {
  import opened Base
  import opened Sorting
  import opened Graph
  import opened Names
  import opened Tables
  import opened Transitions
  import opened Bundles
  import opened Namespaces
  import opened Runs
  import opened Projections
  import opened Paging
  import opened Export
  import opened Pull

  // ---------------------------------------------------------------- the serving side

  /** What the server answers from snapshot `s`: the page at the cursor's offset, bound to the plan the
      cursor names. */
  ghost predicate HonestPage(s: Tables, c: ContextId, requested: seq<EventId>, known: seq<EventId>, limits: PullLimits,
                             cursor: Option<Cursor>, page: SyncPage, r: Reply)
  {
    var mark := PlanOf(c, requested, page.effectiveKnown, limits.maxEvents, limits.maxBytes);
    && (cursor.Some? ==> cursor.value.At? && cursor.value.mark == mark)
    && IsPage(s, c, requested, known, OffsetOf(cursor), limits.maxEvents, limits.maxBytes, page)
    && r == PageReply(c, HeadsOf(c, requested), page.bundle,
                      if page.nextOffset.Some? then Some(At(page.nextOffset.value, mark)) else None)
  }

  predicate Bound(s: Tables, c: ContextId, requested: seq<EventId>, known: seq<EventId>, limits: PullLimits, mark: PlanPrint) {
    var effective := Effective(s, c, known);
    effective.Ok? && mark == PlanOf(c, requested, effective.value, limits.maxEvents, limits.maxBytes)
  }

  predicate WellAsked(requested: seq<EventId>, known: seq<EventId>, limits: PullLimits) {
    && requested != [] && Ascending(requested) && Ascending(known) && |requested| <= MAX_BUNDLE_REFS && |known| <= MAX_BUNDLE_REFS
    && ValidPageLimits(limits.maxEvents, limits.maxBytes)
  }

  function OffsetOf(cursor: Option<Cursor>): nat
    requires cursor.Some? ==> cursor.value.At?
  {
    if cursor.Some? then cursor.value.offset else 0
  }

  // Canonical bytes a response adds to its bundle, without and with a continuation cursor.
  const LAST_RESPONSE_BYTES := 210
  const NEXT_RESPONSE_BYTES := 271

  function ResponseBytes(page: SyncPage): nat {
    BundleBytes(page.bundle) + if page.nextOffset.None? then LAST_RESPONSE_BYTES else NEXT_RESPONSE_BYTES
  }

  /** The request names a page of the plan that this snapshot defines. */
  ghost predicate Servable(s: Tables, c: ContextId, requested: seq<EventId>, known: seq<EventId>, limits: PullLimits,
                           cursor: Option<Cursor>)
  {
    && WellAsked(requested, known, limits)
    && (cursor.Some? ==> cursor.value.At?)
    && Exportable(s, c, requested, known, OffsetOf(cursor), limits.maxEvents, limits.maxBytes)
    && (cursor.Some? ==> Bound(s, c, requested, known, limits, cursor.value.mark))
  }

  /** When the server answers with a page: there is one to serve, and its response fits the body limit. */
  ghost predicate Answers(s: Tables, c: ContextId, requested: seq<EventId>, known: seq<EventId>, limits: PullLimits, maxBody: nat,
                          cursor: Option<Cursor>)
  {
    && Servable(s, c, requested, known, limits, cursor)
    && forall page :: IsPage(s, c, requested, known, OffsetOf(cursor), limits.maxEvents, limits.maxBytes, page) ==>
         ResponseBytes(page) <= maxBody
  }

  /** A pagination conflict: a cursor that does not decode, one behind the end of this snapshot's
      difference, or one bound to another plan. */
  ghost predicate Conflicts(s: Tables, c: ContextId, requested: seq<EventId>, known: seq<EventId>, limits: PullLimits,
                            cursor: Option<Cursor>)
  {
    && WellAsked(requested, known, limits) && cursor.Some?
    && (cursor.value.At? ==>
          || PastEnd(s, c, requested, known, cursor.value.offset, limits.maxEvents, limits.maxBytes)
          || (&& Exportable(s, c, requested, known, cursor.value.offset, limits.maxEvents, limits.maxBytes)
              && !Bound(s, c, requested, known, limits, cursor.value.mark)))
  }

  method PostExport(s: Tables, c: ContextId, requested: seq<EventId>, known: seq<EventId>, limits: PullLimits, maxBody: nat,
                    cursor: Option<Cursor>)
    returns (r: Reply, ghost page: SyncPage)
    ensures r.PageReply? <==> Answers(s, c, requested, known, limits, maxBody, cursor)
    ensures r.Conflict? <==> Conflicts(s, c, requested, known, limits, cursor)
    ensures r.PageReply? ==> HonestPage(s, c, requested, known, limits, cursor, page, r)
  {
    hide IsPage, Exportable, Effective, HasPlan, Difference, PastEnd;
    page := SyncPage(Page(c, []), [], None);
    if requested == [] || !Ascending(requested) || !Ascending(known) || |requested| > MAX_BUNDLE_REFS || |known| > MAX_BUNDLE_REFS
      || !ValidPageLimits(limits.maxEvents, limits.maxBytes)
    {
      return NoReply, page;
    }
    var offset := 0;
    if cursor.Some? {
      if cursor.value.Garbled? {
        return Conflict, page;
      }
      offset := cursor.value.offset;
    }
    SortOfAscending(requested);
    SortOfAscending(known);
    FirstInside(s, c, requested, known, limits.maxEvents, limits.maxBytes);
    NotBoth(s, c, requested, known, offset, limits.maxEvents, limits.maxBytes);
    var exported := ExportSyncPage(s, c, requested, known, offset, limits.maxEvents, limits.maxBytes);
    if exported.Err? {
      return if exported.error == BundleOrder then Conflict else NoReply, page;
    }
    EffectiveOfPage(s, c, requested, known, offset, limits.maxEvents, limits.maxBytes, exported.value);
    var mark := PlanOf(c, requested, exported.value.effectiveKnown, limits.maxEvents, limits.maxBytes);
    if cursor.Some? && cursor.value.mark != mark {
      return Conflict, page;
    }
    page := exported.value;
    forall other | IsPage(s, c, requested, known, offset, limits.maxEvents, limits.maxBytes, other) ensures other == page {
      PageUnique(s, c, requested, known, offset, limits.maxEvents, limits.maxBytes, other, page);
    }
    if ResponseBytes(exported.value) > maxBody {
      return NoReply, page;
    }
    var next := if exported.value.nextOffset.Some? then Some(At(exported.value.nextOffset.value, mark)) else None;
    r := PageReply(c, HeadsOf(c, requested), exported.value.bundle, next);
  }

  /** A body limit above the bundle cap by a cursor's response never refuses a page. */
  lemma DefaultBodyFits(s: Tables, c: ContextId, requested: seq<EventId>, known: seq<EventId>, limits: PullLimits, maxBody: nat,
                        cursor: Option<Cursor>)
    requires maxBody >= MAX_BUNDLE_CANONICAL_BYTES + NEXT_RESPONSE_BYTES
    ensures Answers(s, c, requested, known, limits, maxBody, cursor) <==> Servable(s, c, requested, known, limits, cursor)
  {
    hide Exportable, Difference, Plan, Effective, ActiveContext, Loaded, WellFormed;
    if Servable(s, c, requested, known, limits, cursor) {
      forall page | IsPage(s, c, requested, known, OffsetOf(cursor), limits.maxEvents, limits.maxBytes, page)
        ensures ResponseBytes(page) <= maxBody
      {
        if page.bundle.events == [] { EmptyPageBytes(c); }
      }
    }
  }

  lemma EmptyPageBytes(c: ContextId)
    ensures BundleBytes(Page(c, [])) == EMPTY_BUNDLE_BYTES
  {
  }

  lemma FirstInside(s: Tables, c: ContextId, requested: seq<EventId>, known: seq<EventId>, maxEvents: nat, maxBytes: nat)
    ensures !PastEnd(s, c, requested, known, 0, maxEvents, maxBytes)
  {
  }

  lemma NotBoth(s: Tables, c: ContextId, requested: seq<EventId>, known: seq<EventId>, offset: nat, maxEvents: nat, maxBytes: nat)
    ensures PastEnd(s, c, requested, known, offset, maxEvents, maxBytes) ==>
      !Exportable(s, c, requested, known, offset, maxEvents, maxBytes)
  {
    hide HasPlan, Difference, Effective, Pageable;
  }

  /** A cursor serves only the plan it was handed out for: the same context, requested heads and limits, and
      a snapshot with the same effective heads.  Any other use is not answered. */
  lemma CursorBindsPlan(s: Tables, c: ContextId, requested: seq<EventId>, known: seq<EventId>, limits: PullLimits,
                        before: Option<Cursor>, page: SyncPage, r: Reply,
                        t: Tables, d: ContextId, asked: seq<EventId>, held: seq<EventId>, others: PullLimits, maxBody: nat)
    requires HonestPage(s, c, requested, known, limits, before, page, r) && r.PageReply? && r.next.Some?
    requires Answers(t, d, asked, held, others, maxBody, r.next)
    ensures d == c && asked == requested && others.maxEvents == limits.maxEvents && others.maxBytes == limits.maxBytes
    ensures Effective(t, d, held) == Ok(page.effectiveKnown) == Effective(s, c, known)
  {
    hide Exportable, IsPage, Effective;
    EffectiveOfPage(s, c, requested, known, OffsetOf(before), limits.maxEvents, limits.maxBytes, page);
  }

  lemma EffectiveOfPage(s: Tables, c: ContextId, requested: seq<EventId>, known: seq<EventId>, offset: nat, maxEvents: nat,
                        maxBytes: nat, page: SyncPage)
    requires IsPage(s, c, requested, known, offset, maxEvents, maxBytes, page)
    ensures Effective(s, c, known) == Ok(page.effectiveKnown)
  {
    hide Effective, Difference, Plan, Loaded, WellFormed;
  }

  function CursorAt(replies: seq<Reply>, i: nat): Option<Cursor>
    requires i <= |replies| && forall k :: 0 <= k < |replies| ==> replies[k].PageReply?
  {
    if i == 0 then None else replies[i - 1].next
  }

  /** A complete exchange: each page is answered from a later or equal snapshot of one growing store. */
  ghost predicate HonestRun(servers: seq<Tables>, c: ContextId, requested: seq<EventId>, known: seq<EventId>, limits: PullLimits,
                            pages: seq<SyncPage>, replies: seq<Reply>)
  {
    && 0 < |replies| == |pages| == |servers|
    && (forall i :: 0 <= i < |servers| ==> Inv(servers[i]))
    && (forall i, j :: 0 <= i && j == i + 1 && j < |servers| ==> Grows(servers[i], servers[j]))
    && (forall i :: 0 <= i < |replies| ==> replies[i].PageReply? && (replies[i].next.None? <==> i == |replies| - 1))
    && (forall i :: 0 <= i < |replies| ==> HonestPage(servers[i], c, requested, known, limits, CursorAt(replies, i), pages[i], replies[i]))
  }

  // ---------------------------------------------------------------- one plan behind all pages

  /** Pages served so far, each for the cursor the one before handed out, and none of them the last. */
  ghost predicate Serving(servers: seq<Tables>, c: ContextId, requested: seq<EventId>, known: seq<EventId>, limits: PullLimits,
                          pages: seq<SyncPage>, replies: seq<Reply>)
  {
    && |replies| == |pages| <= |servers|
    && (forall k :: 0 <= k < |replies| ==> replies[k].PageReply? && replies[k].next.Some?)
    && (forall k :: 0 <= k < |replies| ==> HonestPage(servers[k], c, requested, known, limits, CursorAt(replies, k), pages[k], replies[k]))
  }

  lemma ServedOne(servers: seq<Tables>, c: ContextId, requested: seq<EventId>, known: seq<EventId>, limits: PullLimits,
                  pages: seq<SyncPage>, replies: seq<Reply>, page: SyncPage, r: Reply)
    requires Serving(servers, c, requested, known, limits, pages, replies) && |replies| < |servers| && r.PageReply?
    requires HonestPage(servers[|replies|], c, requested, known, limits, CursorAt(replies, |replies|), page, r)
    ensures r.next.Some? ==> Serving(servers, c, requested, known, limits, pages + [page], replies + [r])
    ensures r.next.None? && (forall i :: 0 <= i < |servers| ==> Inv(servers[i]))
              && (forall i, j :: 0 <= i && j == i + 1 && j < |servers| ==> Grows(servers[i], servers[j])) ==>
      HonestRun(servers[..|replies| + 1], c, requested, known, limits, pages + [page], replies + [r])
  {
    hide Inv, Grows, HonestPage;
    var now := replies + [r];
    forall k | 0 <= k < |now|
      ensures HonestPage(servers[k], c, requested, known, limits, CursorAt(now, k), (pages + [page])[k], now[k])
    {
      assert CursorAt(now, k) == CursorAt(replies, k);
    }
  }

  lemma GraphGrows(s: Tables, u: Tables, c: ContextId)
    requires Inv(s) && Inv(u) && Grows(s, u)
    ensures forall x :: x in ContextGraph(s, c) ==> x in ContextGraph(u, c) && ContextGraph(u, c)[x] == ContextGraph(s, c)[x]
  {
    hide Inv, ContextGraph, Parsed;
    SoundGraph(s, c);
    SoundGraph(u, c);
    ParsedGrows(s, u);
  }

  lemma ParsedGrows(s: Tables, u: Tables)
    requires Grows(s, u)
    ensures forall x :: x in Parsed(s.events) ==> x in Parsed(u.events) && Parsed(u.events)[x] == Parsed(s.events)[x]
  {
  }

  /** Fixed heads have a fixed plan, however the store grows. */
  lemma PlanStable(s: Tables, u: Tables, c: ContextId, heads: seq<EventId>)
    requires Inv(s) && Inv(u) && Grows(s, u) && Plan(s, c, heads).Ordered?
    ensures Plan(u, c, heads) == Plan(s, c, heads)
  {
    hide Inv, Grows, ContextGraph;
    GraphGrows(s, u, c);
    PostOrderStable(ContextGraph(s, c), ContextGraph(u, c), [], heads, []);
  }

  lemma DifferenceStable(s: Tables, u: Tables, c: ContextId, requested: seq<EventId>, effective: seq<EventId>)
    requires Inv(s) && Inv(u) && Grows(s, u) && Plan(s, c, requested).Ordered? && Plan(s, c, effective).Ordered?
    ensures Difference(u, c, requested, effective) == Difference(s, c, requested, effective)
    ensures Plan(u, c, requested) == Plan(s, c, requested) && Plan(u, c, effective) == Plan(s, c, effective)
  {
    hide Inv, Grows, Plan;
    PlanStable(s, u, c, requested);
    PlanStable(s, u, c, effective);
  }

  function Sent(pages: seq<SyncPage>, i: nat): nat
    requires i <= |pages|
  {
    if i == 0 then 0 else Sent(pages, i - 1) + |pages[i - 1].bundle.events|
  }

  lemma {:induction false} GrowsAlong(servers: seq<Tables>, i: nat, j: nat)
    requires i <= j < |servers|
    requires forall k, l :: 0 <= k && l == k + 1 && l < |servers| ==> Grows(servers[k], servers[l])
    ensures Grows(servers[i], servers[j])
    decreases j - i
  {
    if i == j {
      GrowsSelf(servers[i]);
    } else {
      GrowsAlong(servers, i, j - 1);
      var k := j - 1;
      assert 0 <= k && j == k + 1;
      GrowsTrans(servers[i], servers[j - 1], servers[j]);
    }
  }

  /** The page's own facts, read off its contract. */
  lemma PageFacts(s: Tables, c: ContextId, requested: seq<EventId>, known: seq<EventId>, offset: nat, maxEvents: nat,
                  maxBytes: nat, page: SyncPage)
    requires IsPage(s, c, requested, known, offset, maxEvents, maxBytes, page)
    ensures Plan(s, c, requested).Ordered? && Plan(s, c, page.effectiveKnown).Ordered? && Effective(s, c, known) == Ok(page.effectiveKnown)
    ensures var d := Difference(s, c, requested, page.effectiveKnown); var n := |page.bundle.events|;
      && offset + n <= |d| && Ids(page.bundle.events) == d[offset..offset + n] && Loaded(s, page.bundle.events)
      && page.nextOffset == (if offset + n < |d| then Some(offset + n) else None)
      && (n == 0 ==> offset == 0 && d == [])
  {
    hide Plan, Difference, Effective, ActiveContext, LoadVerified, WellFormed, BundleBytes;
  }

  /** The cursor a page hands out binds the next page to the same plan, right after it. */
  lemma PageFollows(s: Tables, t: Tables, c: ContextId, requested: seq<EventId>, known: seq<EventId>, limits: PullLimits,
                    before: Option<Cursor>, first: SyncPage, r: Reply, second: SyncPage, q: Reply)
    requires HonestPage(s, c, requested, known, limits, before, first, r) && r.PageReply? && r.next.Some?
    requires HonestPage(t, c, requested, known, limits, r.next, second, q)
    ensures second.effectiveKnown == first.effectiveKnown
    ensures first.nextOffset.Some? && r.next.value.At? && r.next.value.offset == first.nextOffset.value
  {
    hide IsPage;
  }

  /** Page `i` is its slice of the plan fixed by the first snapshot. */
  ghost predicate Slice(servers: seq<Tables>, c: ContextId, requested: seq<EventId>, pages: seq<SyncPage>,
                        cursor: Option<Cursor>, i: nat)
    requires i < |pages| <= |servers| && (cursor.Some? ==> cursor.value.At?)
  {
    var d := Difference(servers[0], c, requested, pages[0].effectiveKnown);
    var n := |pages[i].bundle.events|;
    && pages[i].effectiveKnown == pages[0].effectiveKnown
    && Difference(servers[i], c, requested, pages[0].effectiveKnown) == d
    && OffsetOf(cursor) == Sent(pages, i)
    && Sent(pages, i) + n <= |d| && Ids(pages[i].bundle.events) == d[Sent(pages, i)..Sent(pages, i) + n]
    && Loaded(servers[i], pages[i].bundle.events)
    && (n == 0 ==> i == 0 && d == [])
    && pages[i].nextOffset == (if Sent(pages, i) + n < |d| then Some(Sent(pages, i) + n) else None)
    && Plan(servers[i], c, requested).Ordered? && Plan(servers[i], c, pages[0].effectiveKnown).Ordered?
  }

  lemma FirstSlice(servers: seq<Tables>, c: ContextId, requested: seq<EventId>, known: seq<EventId>, limits: PullLimits,
                   pages: seq<SyncPage>, r: Reply)
    requires 0 < |pages| <= |servers| && HonestPage(servers[0], c, requested, known, limits, None, pages[0], r)
    ensures Slice(servers, c, requested, pages, None, 0)
  {
    hide IsPage, Difference, Plan, Loaded, Effective, Ids;
    PageFacts(servers[0], c, requested, known, 0, limits.maxEvents, limits.maxBytes, pages[0]);
  }

  lemma NextSlice(servers: seq<Tables>, c: ContextId, requested: seq<EventId>, known: seq<EventId>, limits: PullLimits,
                  pages: seq<SyncPage>, before: Option<Cursor>, r: Reply, q: Reply, k: nat)
    requires k + 1 < |pages| <= |servers| && (before.Some? ==> before.value.At?)
    requires Slice(servers, c, requested, pages, before, k)
    requires HonestPage(servers[k], c, requested, known, limits, before, pages[k], r) && r.PageReply? && r.next.Some?
    requires HonestPage(servers[k + 1], c, requested, known, limits, r.next, pages[k + 1], q)
    requires Inv(servers[k]) && Inv(servers[k + 1]) && Grows(servers[k], servers[k + 1])
    ensures r.next.value.At? && Slice(servers, c, requested, pages, r.next, k + 1)
  {
    hide Inv, IsPage, Grows, Difference, Plan, Loaded, Effective, Ids;
    PageFollows(servers[k], servers[k + 1], c, requested, known, limits, before, pages[k], r, pages[k + 1], q);
    PageFacts(servers[k + 1], c, requested, known, r.next.value.offset, limits.maxEvents, limits.maxBytes, pages[k + 1]);
    DifferenceStable(servers[k], servers[k + 1], c, requested, pages[0].effectiveKnown);
  }

  lemma CursorsDecode(s: Tables, c: ContextId, requested: seq<EventId>, known: seq<EventId>, limits: PullLimits,
                      cursor: Option<Cursor>, page: SyncPage, r: Reply)
    requires HonestPage(s, c, requested, known, limits, cursor, page, r)
    ensures cursor.Some? ==> cursor.value.At?
    ensures r.PageReply? && (r.next.None? <==> page.nextOffset.None?)
  {
    hide IsPage;
  }

  /** Pages of one growing store, each but the last handing its cursor to the next. */
  ghost predicate Chained(servers: seq<Tables>, c: ContextId, requested: seq<EventId>, known: seq<EventId>, limits: PullLimits,
                          pages: seq<SyncPage>, replies: seq<Reply>)
  {
    && |replies| == |pages| <= |servers|
    && (forall i :: 0 <= i < |servers| ==> Inv(servers[i]))
    && (forall i, j :: 0 <= i && j == i + 1 && j < |servers| ==> Grows(servers[i], servers[j]))
    && (forall i :: 0 <= i < |replies| ==> replies[i].PageReply? && (i < |replies| - 1 ==> replies[i].next.Some?))
    && (forall i :: 0 <= i < |replies| ==> HonestPage(servers[i], c, requested, known, limits, CursorAt(replies, i), pages[i], replies[i]))
  }

  lemma {:induction false} SliceOf(servers: seq<Tables>, c: ContextId, requested: seq<EventId>, known: seq<EventId>,
                                   limits: PullLimits, pages: seq<SyncPage>, replies: seq<Reply>, i: nat)
    requires Chained(servers, c, requested, known, limits, pages, replies) && i < |pages|
    ensures var cursor := CursorAt(replies, i); (cursor.Some? ==> cursor.value.At?) && Slice(servers, c, requested, pages, cursor, i)
    decreases i
  {
    hide Inv, Grows, HonestPage, Slice;
    var cursor := CursorAt(replies, i);
    assert HonestPage(servers[i], c, requested, known, limits, cursor, pages[i], replies[i]);
    CursorsDecode(servers[i], c, requested, known, limits, cursor, pages[i], replies[i]);
    if i == 0 {
      FirstSlice(servers, c, requested, known, limits, pages, replies[0]);
    } else {
      var k := i - 1;
      SliceOf(servers, c, requested, known, limits, pages, replies, k);
      assert HonestPage(servers[k], c, requested, known, limits, CursorAt(replies, k), pages[k], replies[k]);
      assert Grows(servers[k], servers[i]);
      NextSlice(servers, c, requested, known, limits, pages, CursorAt(replies, k), replies[k], replies[i], k);
    }
  }

  /** Every page of a run is the next slice of one plan: the difference at the first snapshot, which is
      also the difference at the last. */
  lemma SlicesOfOnePlan(servers: seq<Tables>, c: ContextId, requested: seq<EventId>, known: seq<EventId>,
                        limits: PullLimits, pages: seq<SyncPage>, replies: seq<Reply>, i: nat)
    requires HonestRun(servers, c, requested, known, limits, pages, replies) && i < |pages|
    ensures pages[i].effectiveKnown == pages[0].effectiveKnown
    ensures |replies| == |pages| && forall k :: 0 <= k < |replies| ==> replies[k].PageReply?
    ensures var d := Difference(servers[0], c, requested, pages[0].effectiveKnown); var n := |pages[i].bundle.events|;
      && Difference(servers[i], c, requested, pages[0].effectiveKnown) == d
      && (var cursor := CursorAt(replies, i); (cursor.Some? ==> cursor.value.At?) && OffsetOf(cursor) == Sent(pages, i))
      && Sent(pages, i) + n <= |d| && Ids(pages[i].bundle.events) == d[Sent(pages, i)..Sent(pages, i) + n]
      && Loaded(servers[i], pages[i].bundle.events)
      && (n == 0 ==> i == 0 && d == [])
      && (i == |pages| - 1 ==> Sent(pages, |pages|) == |d|)
  {
    hide *;
    RunIsChained(servers, c, requested, known, limits, pages, replies);
    SliceOf(servers, c, requested, known, limits, pages, replies, i);
    LastPage(servers, c, requested, known, limits, pages, replies, i);
    SliceFacts(servers, c, requested, pages, CursorAt(replies, i), i);
  }

  lemma SliceFacts(servers: seq<Tables>, c: ContextId, requested: seq<EventId>, pages: seq<SyncPage>,
                   cursor: Option<Cursor>, i: nat)
    requires i < |pages| <= |servers| && (cursor.Some? ==> cursor.value.At?)
    requires Slice(servers, c, requested, pages, cursor, i) && (pages[i].nextOffset.None? <==> i == |pages| - 1)
    ensures pages[i].effectiveKnown == pages[0].effectiveKnown
    ensures var d := Difference(servers[0], c, requested, pages[0].effectiveKnown); var n := |pages[i].bundle.events|;
      && Difference(servers[i], c, requested, pages[0].effectiveKnown) == d
      && OffsetOf(cursor) == Sent(pages, i)
      && Sent(pages, i) + n <= |d| && Ids(pages[i].bundle.events) == d[Sent(pages, i)..Sent(pages, i) + n]
      && Loaded(servers[i], pages[i].bundle.events)
      && (n == 0 ==> i == 0 && d == [])
      && (i == |pages| - 1 ==> Sent(pages, |pages|) == |d|)
  {
    hide Difference, Plan, Loaded, Ids;
    assert Sent(pages, i + 1) == Sent(pages, i) + |pages[i].bundle.events|;
  }

  lemma LastPage(servers: seq<Tables>, c: ContextId, requested: seq<EventId>, known: seq<EventId>,
                 limits: PullLimits, pages: seq<SyncPage>, replies: seq<Reply>, i: nat)
    requires HonestRun(servers, c, requested, known, limits, pages, replies) && i < |pages|
    ensures pages[i].nextOffset.None? <==> i == |pages| - 1
    ensures |replies| == |pages| == |servers| && forall k :: 0 <= k < |replies| ==> replies[k].PageReply?
  {
    hide Inv, Grows, HonestPage;
    assert HonestPage(servers[i], c, requested, known, limits, CursorAt(replies, i), pages[i], replies[i]);
    CursorsDecode(servers[i], c, requested, known, limits, CursorAt(replies, i), pages[i], replies[i]);
  }

  lemma RunIsChained(servers: seq<Tables>, c: ContextId, requested: seq<EventId>, known: seq<EventId>,
                     limits: PullLimits, pages: seq<SyncPage>, replies: seq<Reply>)
    requires HonestRun(servers, c, requested, known, limits, pages, replies)
    ensures Chained(servers, c, requested, known, limits, pages, replies)
  {
    hide Inv, Grows, HonestPage;
  }

  // ---------------------------------------------------------------- what an exchange sends

  /** Some page carries the event. */
  predicate Carries(pages: seq<SyncPage>, x: EventId) {
    exists i :: 0 <= i < |pages| && x in Ids(pages[i].bundle.events)
  }

  /** Every position sent so far lies on one page. */
  lemma {:induction false} PositionOnPage(pages: seq<SyncPage>, n: nat, k: nat) returns (i: nat)
    requires n <= |pages| && k < Sent(pages, n)
    ensures i < n && Sent(pages, i) <= k < Sent(pages, i + 1)
    decreases n
  {
    if Sent(pages, n - 1) <= k { i := n - 1; } else { i := PositionOnPage(pages, n - 1, k); }
  }

  /** Over a complete exchange the events sent are exactly the requested ancestry less the ancestry of the
      known heads that the first snapshot holds in the context, and each is sent once. */
  lemma ExchangeSends(servers: seq<Tables>, c: ContextId, requested: seq<EventId>, known: seq<EventId>,
                      limits: PullLimits, pages: seq<SyncPage>, replies: seq<Reply>)
    requires HonestRun(servers, c, requested, known, limits, pages, replies)
    ensures 0 < |servers|
    ensures var g := ContextGraph(servers[0], c); var missing := Anc(g, Elems(requested)) - Anc(g, HeldHeads(servers[0], c, known));
      && (forall x :: Carries(pages, x) <==> x in missing)
      && Sent(pages, |pages|) == |missing|
  {
    hide *;
    RunStarts(servers, c, requested, known, limits, pages, replies);
    var d := Difference(servers[0], c, requested, pages[0].effectiveKnown);
    EffectiveIs(servers[0], c, known);
    DifferenceSet(servers[0], c, requested, pages[0].effectiveKnown);
    DistinctSize(d);
    forall x ensures Carries(pages, x) <==> x in d {
      CarriesIs(servers, c, requested, known, limits, pages, replies, x);
    }
    forall x ensures x in d <==> x in Elems(d) {
      MemberElems(d, x);
    }
    SlicesOfOnePlan(servers, c, requested, known, limits, pages, replies, |pages| - 1);
  }

  lemma RunStarts(servers: seq<Tables>, c: ContextId, requested: seq<EventId>, known: seq<EventId>,
                  limits: PullLimits, pages: seq<SyncPage>, replies: seq<Reply>)
    requires HonestRun(servers, c, requested, known, limits, pages, replies)
    ensures 0 < |servers| == |pages| && Inv(servers[0])
    ensures Plan(servers[0], c, requested).Ordered? && Plan(servers[0], c, pages[0].effectiveKnown).Ordered?
    ensures Effective(servers[0], c, known) == Ok(pages[0].effectiveKnown)
  {
    hide Inv, Grows, IsPage, Plan, Effective, Difference, Loaded, Ids;
    assert HonestPage(servers[0], c, requested, known, limits, CursorAt(replies, 0), pages[0], replies[0]);
    PageFacts(servers[0], c, requested, known, 0, limits.maxEvents, limits.maxBytes, pages[0]);
  }

  lemma CarriesIs(servers: seq<Tables>, c: ContextId, requested: seq<EventId>, known: seq<EventId>,
                  limits: PullLimits, pages: seq<SyncPage>, replies: seq<Reply>, x: EventId)
    requires HonestRun(servers, c, requested, known, limits, pages, replies) && 0 < |servers| == |pages|
    ensures Carries(pages, x) <==> x in Difference(servers[0], c, requested, pages[0].effectiveKnown)
  {
    hide HonestRun, Difference, Loaded, Ids, CursorAt;
    var d := Difference(servers[0], c, requested, pages[0].effectiveKnown);
    if Carries(pages, x) {
      var i :| 0 <= i < |pages| && x in Ids(pages[i].bundle.events);
      SlicesOfOnePlan(servers, c, requested, known, limits, pages, replies, i);
    }
    if x in d {
      var k :| 0 <= k < |d| && d[k] == x;
      SlicesOfOnePlan(servers, c, requested, known, limits, pages, replies, |pages| - 1);
      var i := PositionOnPage(pages, |pages|, k);
      SlicesOfOnePlan(servers, c, requested, known, limits, pages, replies, i);
      var ids := Ids(pages[i].bundle.events);
      assert ids == d[Sent(pages, i)..Sent(pages, i + 1)];
      assert ids[k - Sent(pages, i)] == x;
    }
  }

  // ---------------------------------------------------------------- how long an exchange lasts

  /** Pages that all hand out a cursor each send something and leave something. */
  lemma {:induction false} EveryPageSends(servers: seq<Tables>, c: ContextId, requested: seq<EventId>, known: seq<EventId>,
                                          limits: PullLimits, pages: seq<SyncPage>, replies: seq<Reply>, n: nat)
    requires Chained(servers, c, requested, known, limits, pages, replies) && 0 < n <= |pages| && replies[n - 1].next.Some?
    ensures n <= Sent(pages, n) < |Difference(servers[0], c, requested, pages[0].effectiveKnown)|
    decreases n
  {
    hide Inv, Grows, HonestPage, Slice, Chained;
    var i := n - 1;
    ChainedAt(servers, c, requested, known, limits, pages, replies, i);
    SliceOf(servers, c, requested, known, limits, pages, replies, i);
    CursorsDecode(servers[i], c, requested, known, limits, CursorAt(replies, i), pages[i], replies[i]);
    SliceSends(servers, c, requested, pages, CursorAt(replies, i), i);
    if i > 0 {
      EveryPageSends(servers, c, requested, known, limits, pages, replies, i);
    }
  }

  lemma ChainedAt(servers: seq<Tables>, c: ContextId, requested: seq<EventId>, known: seq<EventId>,
                  limits: PullLimits, pages: seq<SyncPage>, replies: seq<Reply>, i: nat)
    requires Chained(servers, c, requested, known, limits, pages, replies) && i < |pages|
    ensures |replies| == |pages| <= |servers| && (forall k :: 0 <= k < |replies| ==> replies[k].PageReply?)
    ensures HonestPage(servers[i], c, requested, known, limits, CursorAt(replies, i), pages[i], replies[i])
    ensures i > 0 ==> replies[i - 1].next.Some?
  {
    hide Inv, Grows, HonestPage;
  }

  lemma SliceSends(servers: seq<Tables>, c: ContextId, requested: seq<EventId>, pages: seq<SyncPage>,
                   cursor: Option<Cursor>, i: nat)
    requires i < |pages| <= |servers| && (cursor.Some? ==> cursor.value.At?)
    requires Slice(servers, c, requested, pages, cursor, i) && pages[i].nextOffset.Some?
    ensures Sent(pages, i) < Sent(pages, i + 1) < |Difference(servers[0], c, requested, pages[0].effectiveKnown)|
  {
    hide Difference, Plan, Loaded, Ids;
    assert Sent(pages, i + 1) == Sent(pages, i) + |pages[i].bundle.events|;
  }

  /** How many events the first snapshot's difference holds. */
  ghost function TotalToSend(s: Tables, c: ContextId, requested: seq<EventId>, known: seq<EventId>): nat {
    var effective := Effective(s, c, known);
    if effective.Ok? then |Difference(s, c, requested, effective.value)| else 0
  }

  /** While serving goes on there is still more of the difference left than pages were sent. */
  lemma StillServing(servers: seq<Tables>, c: ContextId, requested: seq<EventId>, known: seq<EventId>,
                     limits: PullLimits, pages: seq<SyncPage>, replies: seq<Reply>)
    requires Serving(servers, c, requested, known, limits, pages, replies) && replies != []
    requires forall i :: 0 <= i < |servers| ==> Inv(servers[i])
    requires forall i, j :: 0 <= i && j == i + 1 && j < |servers| ==> Grows(servers[i], servers[j])
    ensures |replies| < TotalToSend(servers[0], c, requested, known)
  {
    hide Inv, Grows, HonestPage, Difference, Effective;
    assert Chained(servers, c, requested, known, limits, pages, replies);
    EveryPageSends(servers, c, requested, known, limits, pages, replies, |pages|);
    assert HonestPage(servers[0], c, requested, known, limits, CursorAt(replies, 0), pages[0], replies[0]);
    FirstFrontier(servers[0], c, requested, known, limits, pages[0], replies[0]);
  }

  lemma FirstFrontier(s: Tables, c: ContextId, requested: seq<EventId>, known: seq<EventId>, limits: PullLimits,
                      page: SyncPage, r: Reply)
    requires HonestPage(s, c, requested, known, limits, None, page, r)
    ensures Effective(s, c, known) == Ok(page.effectiveKnown)
  {
    hide IsPage;
    EffectiveOfPage(s, c, requested, known, 0, limits.maxEvents, limits.maxBytes, page);
  }

  /** Serving page after page from the snapshots of a growing store yields a complete honest exchange,
      after at most as many pages as the first snapshot has events to send (or one), unless some snapshot
      on the way cannot answer. */
  method ServeAll(servers: seq<Tables>, c: ContextId, requested: seq<EventId>, known: seq<EventId>, limits: PullLimits,
                  maxBody: nat)
    returns (replies: seq<Reply>, ghost pages: seq<SyncPage>, complete: bool)
    requires forall i :: 0 <= i < |servers| ==> Inv(servers[i])
    requires forall i, j :: 0 <= i && j == i + 1 && j < |servers| ==> Grows(servers[i], servers[j])
    ensures |replies| <= |servers| && forall k :: 0 <= k < |replies| ==> replies[k].PageReply?
    ensures complete ==> HonestRun(servers[..|replies|], c, requested, known, limits, pages, replies)
    ensures !complete && |replies| < |servers| ==>
      !Answers(servers[|replies|], c, requested, known, limits, maxBody, CursorAt(replies, |replies|))
    ensures |replies| <= 1 || |replies| <= TotalToSend(servers[0], c, requested, known)
    ensures !complete && 0 < |replies| ==> |replies| < TotalToSend(servers[0], c, requested, known)
  {
    hide Inv, Grows, HonestPage, Answers, Conflicts, Ascending, Page, HonestRun, TotalToSend;
    replies, pages, complete := [], [], false;
    var cursor: Option<Cursor> := None;
    while |replies| < |servers|
      invariant Serving(servers, c, requested, known, limits, pages, replies)
      invariant cursor == CursorAt(replies, |replies|)
      invariant replies != [] ==> |replies| < TotalToSend(servers[0], c, requested, known)
      decreases |servers| - |replies|
    {
      var r, page := PostExport(servers[|replies|], c, requested, known, limits, maxBody, cursor);
      if !r.PageReply? {
        return;
      }
      ServedOne(servers, c, requested, known, limits, pages, replies, page, r);
      replies, pages := replies + [r], pages + [page];
      if r.next.None? {
        complete := true;
        return;
      }
      StillServing(servers, c, requested, known, limits, pages, replies);
      cursor := r.next;
    }
  }
}
