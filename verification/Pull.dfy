/** The pull client against an arbitrary server: a state machine over replies. */
module Pull {
  import opened Base
  import opened Sorting
  import opened Graph
  import opened Names
  import opened Tables
  import opened Transitions
  import opened Bundles
  import opened Namespaces
  import opened Runs

  datatype SyncError = Protocol | PullLimit | PaginationConflict | Transport | StoreFailed(error: StoreError)

  // Fingerprints are injective in what they hash; a peer may also send any other value.
  datatype PlanPrint =
    | PlanOf(context: ContextId, requested: seq<EventId>, effective: seq<EventId>, maxEvents: nat, maxBytes: nat)
    | OtherPlan(raw: nat)
  datatype HeadsPrint = HeadsOf(context: ContextId, requested: seq<EventId>) | OtherHeads(raw: nat)
  datatype Cursor = At(offset: nat, mark: PlanPrint) | Garbled

  datatype PullLimits = PullLimits(maxEvents: nat, maxBytes: nat, maxPages: nat)
  datatype PullConfig = PullConfig(peer: Name, context: ContextId, limits: PullLimits)
  datatype RefSnapshot = RefSnapshot(context: ContextId, refs: seq<AdvertisedRef>)

  /** A failed exchange, a pagination conflict, or a page; a page without a cursor is the last. */
  datatype Reply = NoReply | Conflict | PageReply(context: ContextId, heads: HeadsPrint, bundle: Bundle, next: Option<Cursor>)

  datatype PullReport = PullReport(pages: nat, received: nat, inserted: nat, alreadyPresent: nat, remoteRefsUpdated: nat)

  /** What strict parsing of a response guarantees. */
  predicate Parses(r: Reply) {
    r.PageReply? ==> r.bundle.context == r.context && r.bundle.refs == [] && WellFormed(r.bundle)
                     && BundleBytes(r.bundle) <= MAX_BUNDLE_CANONICAL_BYTES
  }

  predicate SnapshotParses(s: RefSnapshot) {
    |s.refs| <= MAX_BUNDLE_REFS && NamesAscend(s.refs)
  }

  function Heads(refs: seq<AdvertisedRef>): seq<EventId> {
    seq(|refs|, i requires 0 <= i < |refs| => refs[i].head)
  }

  /** The heads of the client's own branches and of the peer's recorded ones. */
  function KnownHeads(t: Tables, peer: Name, c: ContextId): set<EventId> {
    (set k | k in t.localRefs && k.0 == c :: t.localRefs[k]) + (set k | k in t.remoteRefs && k.0 == peer && k.1 == c :: t.remoteRefs[k])
  }

  /** Listing refs re-checks every target and name. */
  ghost predicate Listable(t: Tables, peer: Name, c: ContextId) {
    && (forall k :: k in t.localRefs && k.0 == c ==> AuthoritativeContext(t, t.localRefs[k]) == Ok(Some(c)) && ValidName(k.1))
    && (forall k :: k in t.remoteRefs && k.0 == peer && k.1 == c ==> AuthoritativeContext(t, t.remoteRefs[k]) == Ok(Some(c)) && ValidName(k.2))
  }

  /** Where a pull stands between pages. */
  datatype Progress = Progress(offset: nat, mark: Option<PlanPrint>, report: PullReport)

  const STARTED := Progress(0, None, PullReport(0, 0, 0, 0, 0))

  /** The checks one page must pass before it is imported. */
  function CheckPage(cfg: PullConfig, requested: seq<EventId>, at: Progress, r: Reply): Result<(), SyncError> {
    if r.NoReply? then Err(Transport)
    else if r.Conflict? then Err(PaginationConflict)
    else if !Parses(r) then Err(Protocol)
    else if r.context != cfg.context || r.heads != HeadsOf(cfg.context, requested) then Err(Protocol)
    else if r.bundle.events == [] && r.next.Some? then Err(Protocol)
    else if r.next.None? then Ok(())
    else if r.next.value.Garbled? then Err(PaginationConflict)
    else if r.next.value.offset != at.offset + |r.bundle.events| || r.next.value.offset <= at.offset
      || (at.mark.Some? && at.mark.value != r.next.value.mark) then Err(Protocol)
    else Ok(())
  }

  function ImportPage(t: Tables, cfg: PullConfig, b: Bundle): Result<(Tables, ImportReport), StoreError> {
    if BundleBytes(b) > cfg.limits.maxBytes || |b.events| > cfg.limits.maxEvents || !WellFormed(b) then Err(BundleLimitExceeded)
    else ImportSpec(t, cfg.peer, b)
  }

  function Counted(report: PullReport, b: Bundle, i: ImportReport): PullReport {
    report.(pages := report.pages + 1, received := report.received + |b.events|,
            inserted := report.inserted + i.inserted, alreadyPresent := report.alreadyPresent + i.alreadyPresent)
  }

  /** Pages are imported one transaction at a time; a failure keeps the pages already imported. */
  function PullPages(t: Tables, cfg: PullConfig, requested: seq<EventId>, replies: seq<Reply>, at: Progress)
    : (Tables, Result<PullReport, SyncError>)
    decreases |replies|
  {
    if at.report.pages >= cfg.limits.maxPages then (t, Err(PullLimit))
    else if replies == [] then (t, Err(Transport))
    else
      var r := replies[0];
      var checked := CheckPage(cfg, requested, at, r);
      if checked.Err? then (t, Err(checked.error))
      else
        var imported := ImportPage(t, cfg, r.bundle);
        if imported.Err? then (t, Err(StoreFailed(imported.error)))
        else
          var u := imported.value.0;
          var report := Counted(at.report, r.bundle, imported.value.1);
          if r.next.None? then (u, Ok(report))
          else PullPages(u, cfg, requested, replies[1..], Progress(r.next.value.offset, Some(r.next.value.mark), report))
  }

  ghost function Replace(t: Tables, cfg: PullConfig, refs: seq<AdvertisedRef>, report: PullReport): (Tables,
                         Result<PullReport, SyncError>)
  {
    var r := ReplaceSpec(t, cfg.peer, cfg.context, refs);
    if r.Err? then (t, Err(StoreFailed(r.error)))
    else (r.value.0, Ok(report.(remoteRefsUpdated := r.value.1)))
  }

  ghost function PullSpec(t: Tables, cfg: PullConfig, s: RefSnapshot, replies: seq<Reply>): (Tables,
                          Result<PullReport, SyncError>)
  {
    if !SnapshotParses(s) || s.context != cfg.context then (t, Err(Protocol))
    else if !Listable(t, cfg.peer, cfg.context) then (t, Err(StoreFailed(CorruptStorage)))
    else if |KnownHeads(t, cfg.peer, cfg.context)| > MAX_BUNDLE_REFS then (t, Err(PullLimit))
    else
      var requested := SortDedup(Heads(s.refs));
      if requested == [] then Replace(t, cfg, s.refs, STARTED.report)
      else
        var (u, r) := PullPages(t, cfg, requested, replies, STARTED);
        if r.Err? then (u, r) else Replace(u, cfg, s.refs, r.value)
  }

  // ---------------------------------------------------------------- what a successful exchange was

  function Received(replies: seq<Reply>, n: nat): nat
    requires n <= |replies| && forall i :: 0 <= i < n ==> replies[i].PageReply?
  {
    if n == 0 then 0 else Received(replies, n - 1) + |replies[n - 1].bundle.events|
  }

  /** The first `n` replies are pages of the asked context and heads, each within the limits and carrying
      no refs; the offsets they hand on are what has been received so far under one fingerprint, every page
      but the last sends something, and only the last hands on nothing. */
  ghost predicate OneExchange(cfg: PullConfig, requested: seq<EventId>, offset: nat, mark: Option<PlanPrint>,
                              replies: seq<Reply>, n: nat)
  {
    && 0 < n <= |replies|
    && (forall i :: 0 <= i < n ==> replies[i].PageReply? && GoodPage(cfg, requested, replies[i]))
    && (forall i :: 0 <= i < n ==> (replies[i].next.None? <==> i == n - 1))
    && (forall i :: 0 <= i < n - 1 ==> HandsOn(replies[i], offset + Received(replies, i + 1), replies[0].next.value))
    && (mark.Some? && n > 1 ==> replies[0].next.value.At? && replies[0].next.value.mark == mark.value)
  }

  /** A page that sent something and hands on `offset` under the fingerprint of the first cursor. */
  predicate HandsOn(r: Reply, offset: nat, first: Cursor)
    requires r.PageReply? && r.next.Some?
  {
    && r.bundle.events != [] && first.At? && r.next.value.At?
    && r.next.value.offset == offset && r.next.value.mark == first.mark
  }

  ghost predicate GoodPage(cfg: PullConfig, requested: seq<EventId>, r: Reply)
    requires r.PageReply?
  {
    && r.context == cfg.context == r.bundle.context && r.heads == HeadsOf(cfg.context, requested)
    && r.bundle.refs == [] && WellFormed(r.bundle)
    && |r.bundle.events| <= cfg.limits.maxEvents && BundleBytes(r.bundle) <= cfg.limits.maxBytes
  }

  lemma {:induction false} ReceivedRest(replies: seq<Reply>, n: nat)
    requires n < |replies| && forall i :: 0 <= i <= n ==> replies[i].PageReply?
    ensures forall i :: 0 <= i < n ==> replies[1..][i].PageReply?
    ensures Received(replies, n + 1) == |replies[0].bundle.events| + Received(replies[1..], n)
  {
    if n > 0 {
      ReceivedRest(replies, n - 1);
      assert replies[1..][n - 1] == replies[n];
    }
  }

  /** What checking and importing one page establishes. */
  lemma PageAccepted(t: Tables, cfg: PullConfig, requested: seq<EventId>, at: Progress, r: Reply)
    requires CheckPage(cfg, requested, at, r).Ok? && ImportPage(t, cfg, r.bundle).Ok?
    ensures r.PageReply? && GoodPage(cfg, requested, r)
    ensures r.next.Some? ==>
      r.bundle.events != [] && r.next.value.At? && r.next.value.offset == at.offset + |r.bundle.events|
      && (at.mark.Some? ==> r.next.value.mark == at.mark.value)
    ensures var (u, i) := ImportPage(t, cfg, r.bundle).value;
      i.inserted + i.alreadyPresent == |r.bundle.events| && |u.events| == |t.events| + i.inserted
  {
    hide WellFormed, BundleBytes, ImportSpec, NamesAscend;
    ImportCounts(t, cfg.peer, r.bundle);
  }

  /** When the pages succeed, the replies that were used form one exchange, the counts are the sums over
      it, and the store grew by exactly the events reported as inserted. */
  lemma {:induction false} PagesAreOneExchange(t: Tables, cfg: PullConfig, requested: seq<EventId>, replies: seq<Reply>,
                                               at: Progress)
    requires PullPages(t, cfg, requested, replies, at).1.Ok?
    ensures var (u, r) := PullPages(t, cfg, requested, replies, at); var n := r.value.pages - at.report.pages;
      && 0 < n && r.value.pages <= cfg.limits.maxPages
      && OneExchange(cfg, requested, at.offset, at.mark, replies, n)
      && r.value.received == at.report.received + Received(replies, n)
      && r.value.received - at.report.received
           == (r.value.inserted - at.report.inserted) + (r.value.alreadyPresent - at.report.alreadyPresent)
      && |u.events| == |t.events| + (r.value.inserted - at.report.inserted)
    decreases |replies|
  {
    hide CheckPage, ImportPage, GoodPage;
    var r := replies[0];
    PageAccepted(t, cfg, requested, at, r);
    var imported := ImportPage(t, cfg, r.bundle).value;
    assert Received(replies, 1) == Received(replies, 0) + |r.bundle.events|;
    if r.next.Some? {
      var next := Progress(r.next.value.offset, Some(r.next.value.mark), Counted(at.report, r.bundle, imported.1));
      PagesAreOneExchange(imported.0, cfg, requested, replies[1..], next);
      var n := PullPages(imported.0, cfg, requested, replies[1..], next).1.value.pages - next.report.pages;
      Prepended(cfg, requested, at, replies, n);
    }
  }

  lemma Prepended(cfg: PullConfig, requested: seq<EventId>, at: Progress, replies: seq<Reply>, n: nat)
    requires replies != [] && replies[0].PageReply? && GoodPage(cfg, requested, replies[0]) && replies[0].next.Some?
    requires replies[0].bundle.events != [] && replies[0].next.value.At?
    requires replies[0].next.value.offset == at.offset + |replies[0].bundle.events|
    requires at.mark.Some? ==> replies[0].next.value.mark == at.mark.value
    requires OneExchange(cfg, requested, replies[0].next.value.offset, Some(replies[0].next.value.mark), replies[1..], n)
    ensures OneExchange(cfg, requested, at.offset, at.mark, replies, n + 1)
    ensures Received(replies, n + 1) == |replies[0].bundle.events| + Received(replies[1..], n)
  {
    hide GoodPage, HandsOn, OneExchange, Received;
    RestPages(cfg, requested, replies[0].next.value, replies, n);
    ReceivedRest(replies, n);
    forall i | 0 <= i < n ensures HandsOn(replies[i], at.offset + Received(replies, i + 1), replies[0].next.value) {
      RestHandsOn(cfg, requested, at, replies, n, i);
    }
    Assemble(cfg, requested, at, replies, n + 1);
  }

  lemma Assemble(cfg: PullConfig, requested: seq<EventId>, at: Progress, replies: seq<Reply>, n: nat)
    requires 0 < n <= |replies| && forall i :: 0 <= i < n ==> replies[i].PageReply? && GoodPage(cfg, requested, replies[i])
    requires forall i :: 0 <= i < n ==> (replies[i].next.None? <==> i == n - 1)
    requires forall i :: 0 <= i < n - 1 ==> HandsOn(replies[i], at.offset + Received(replies, i + 1), replies[0].next.value)
    requires at.mark.Some? && n > 1 ==> replies[0].next.value.At? && replies[0].next.value.mark == at.mark.value
    ensures OneExchange(cfg, requested, at.offset, at.mark, replies, n)
  {
    hide GoodPage, HandsOn, Received;
  }

  lemma RestPages(cfg: PullConfig, requested: seq<EventId>, first: Cursor, replies: seq<Reply>, n: nat)
    requires replies != [] && replies[0].PageReply? && GoodPage(cfg, requested, replies[0]) && replies[0].next.Some? && first.At?
    requires OneExchange(cfg, requested, first.offset, Some(first.mark), replies[1..], n)
    ensures n < |replies| && forall i :: 0 <= i <= n ==> replies[i].PageReply? && GoodPage(cfg, requested, replies[i])
    ensures forall i :: 0 <= i <= n ==> (replies[i].next.None? <==> i == n)
  {
    hide GoodPage, HandsOn, Received;
    forall i | 0 < i <= n
      ensures replies[i].PageReply? && GoodPage(cfg, requested, replies[i]) && (replies[i].next.None? <==> i == n)
    {
      assert replies[i] == replies[1..][i - 1];
    }
  }

  lemma RestHandsOn(cfg: PullConfig, requested: seq<EventId>, at: Progress, replies: seq<Reply>, n: nat, i: nat)
    requires i < n < |replies| && forall j :: 0 <= j <= n ==> replies[j].PageReply?
    requires replies[0].next.Some? && replies[i].next.Some? && replies[0].bundle.events != [] && replies[0].next.value.At?
    requires replies[0].next.value.offset == at.offset + |replies[0].bundle.events|
    requires OneExchange(cfg, requested, replies[0].next.value.offset, Some(replies[0].next.value.mark), replies[1..], n)
    ensures HandsOn(replies[i], at.offset + Received(replies, i + 1), replies[0].next.value)
  {
    hide GoodPage;
    if i == 0 {
      assert Received(replies, 1) == Received(replies, 0) + |replies[0].bundle.events|;
    } else {
      hide Received;
      ReceivedRest(replies, i);
      assert replies[i] == replies[1..][i - 1];
      assert HandsOn(replies[1..][i - 1], replies[0].next.value.offset + Received(replies[1..], i), replies[1..][0].next.value);
    }
  }

  /** So a successful pull of some head used the replies as one exchange, received what it reports, and
      added exactly the events it reports as inserted. */
  lemma PullIsOneExchange(t: Tables, cfg: PullConfig, s: RefSnapshot, replies: seq<Reply>)
    requires PullSpec(t, cfg, s, replies).1.Ok? && s.refs != []
    ensures var (u, r) := PullSpec(t, cfg, s, replies);
      && OneExchange(cfg, SortDedup(Heads(s.refs)), 0, None, replies, r.value.pages)
      && r.value.received == Received(replies, r.value.pages) == r.value.inserted + r.value.alreadyPresent
      && |u.events| == |t.events| + r.value.inserted
  {
    hide PullPages, OneExchange, ReplaceSpec, Listable, SnapshotParses, Received;
    var requested := SortDedup(Heads(s.refs));
    assert Heads(s.refs)[0] in Elems(requested);
    assert requested != [];
    PagesAreOneExchange(t, cfg, requested, replies, STARTED);
    ReplaceKeepsEvents(PullPages(t, cfg, requested, replies, STARTED).0, cfg.peer, cfg.context, s.refs);
  }

  lemma ReplaceKeepsEvents(t: Tables, peer: Name, c: ContextId, refs: seq<AdvertisedRef>)
    requires ReplaceSpec(t, peer, c, refs).Ok?
    ensures ReplaceSpec(t, peer, c, refs).value.0.events == t.events
  {
    hide ValidName, Namespace, Replaced, ChangeCount, Desired;
  }

  /** The count of remote refs is how many of the peer's names ended up bound differently. */
  lemma PullCountsRefs(t: Tables, cfg: PullConfig, s: RefSnapshot, replies: seq<Reply>)
    requires Inv(t) && PullSpec(t, cfg, s, replies).1.Ok?
    ensures PullSpec(t, cfg, s, replies).1.value.remoteRefsUpdated
         == |Differing(Namespace(t.remoteRefs, cfg.peer, cfg.context), Desired(s.refs))|
  {
    hide Inv, PullPages, ReplaceSpec, Listable, KnownHeads, SnapshotParses, Differing, Desired, Namespace, ValidName, Heads, Grows;
    var requested := SortDedup(Heads(s.refs));
    PagesOnlyAdd(t, cfg, requested, replies, STARTED);
    var v := if requested == [] then t else PullPages(t, cfg, requested, replies, STARTED).0;
    ReplaceCounts(v, cfg.peer, cfg.context, s.refs);
  }

  lemma ReplaceCounts(t: Tables, peer: Name, c: ContextId, refs: seq<AdvertisedRef>)
    ensures ReplaceSpec(t, peer, c, refs).Ok? ==>
      ReplaceSpec(t, peer, c, refs).value.1 == |Differing(Namespace(t.remoteRefs, peer, c), Desired(refs))|
  {
    hide CheckHeads, KnownContext, Namespace, Desired, Replaced, ChangeCount, Differing, ValidName, NamesAscend;
    CountsDifferences(Namespace(t.remoteRefs, peer, c), Desired(refs));
  }

  // ---------------------------------------------------------------- safety against any server

  /** Pages only add events, and touch no ref. */
  lemma {:induction false} PagesOnlyAdd(t: Tables, cfg: PullConfig, requested: seq<EventId>, replies: seq<Reply>, at: Progress)
    requires Inv(t)
    ensures var u := PullPages(t, cfg, requested, replies, at).0;
      Inv(u) && Grows(t, u) && u.localRefs == t.localRefs && u.remoteRefs == t.remoteRefs
    decreases |replies|
  {
    hide Inv, Grows, ImportSpec, WellFormed, BundleBytes, ValidName;
    GrowsSelf(t);
    if at.report.pages < cfg.limits.maxPages && replies != [] && CheckPage(cfg, requested, at, replies[0]).Ok? {
      var r := replies[0];
      var imported := ImportPage(t, cfg, r.bundle);
      if imported.Ok? {
        ImportGrows(t, cfg.peer, r.bundle);
        var u := imported.value.0;
        if r.next.Some? {
          var report := Counted(at.report, r.bundle, imported.value.1);
          var next := Progress(r.next.value.offset, Some(r.next.value.mark), report);
          PagesOnlyAdd(u, cfg, requested, replies[1..], next);
          GrowsTrans(t, u, PullPages(u, cfg, requested, replies[1..], next).0);
        }
      }
    }
  }

  /** Every advertised head and all its ancestors are stored, in the context. */
  ghost predicate HoldsAncestry(t: Tables, c: ContextId, refs: seq<AdvertisedRef>) {
    forall i, x :: 0 <= i < |refs| && Reach(Links(Parsed(t.events)), refs[i].head, x) ==> Targets(Parsed(t.events), c, x)
  }

  lemma TargetsHoldAncestry(t: Tables, c: ContextId, refs: seq<AdvertisedRef>)
    requires Inv(t) && forall i :: 0 <= i < |refs| ==> Targets(Parsed(t.events), c, refs[i].head)
    ensures HoldsAncestry(t, c, refs)
  {
    hide Inv, Parsed, ValidName;
    forall i, x | 0 <= i < |refs| && Reach(Links(Parsed(t.events)), refs[i].head, x) ensures Targets(Parsed(t.events), c, x) {
      AncestorTarget(t, c, refs[i].head, x);
    }
  }

  lemma AncestorTarget(t: Tables, c: ContextId, h: EventId, x: EventId)
    requires Inv(t) && Targets(Parsed(t.events), c, h) && Reach(Links(Parsed(t.events)), h, x)
    ensures Targets(Parsed(t.events), c, x)
  {
    hide RefsOk, Cyclic, AuthorsOk, GenesisOk, ContextsOk, RowsOk, EdgesOk, RefKeys, CoreKeys, Parsed;
    var p :| IsPath(Links(Parsed(t.events)), h, p, x);
    PathContext(Parsed(t.events), p);
  }

  /** Local refs are untouched, events only grow, and the store stays sound.  Success means the full
      ancestry of every advertised head is held and the peer's namespace is the snapshot; failure means
      no remote ref changed. */
  ghost predicate Safe(t: Tables, cfg: PullConfig, refs: seq<AdvertisedRef>, u: Tables, r: Result<PullReport, SyncError>) {
    && Inv(u) && Grows(t, u) && u.localRefs == t.localRefs
    && (r.Err? ==> u.remoteRefs == t.remoteRefs)
    && (r.Ok? ==>
          && HoldsAncestry(u, cfg.context, refs)
          && Namespace(u.remoteRefs, cfg.peer, cfg.context) == Desired(refs)
          && forall k: RemoteKey :: k.0 != cfg.peer || k.1 != cfg.context ==> Lookup(u.remoteRefs, k) == Lookup(t.remoteRefs, k))
  }

  lemma ReplaceIsSafe(t: Tables, cfg: PullConfig, refs: seq<AdvertisedRef>, report: PullReport)
    requires Inv(t)
    ensures var (u, r) := Replace(t, cfg, refs, report); Safe(t, cfg, refs, u, r)
  {
    hide Inv, Grows, ReplaceSpec, Namespace, Desired, HoldsAncestry, ValidName;
    GrowsSelf(t);
    var r := ReplaceSpec(t, cfg.peer, cfg.context, refs);
    if r.Ok? {
      ReplaceInv(t, cfg.peer, cfg.context, refs);
      ReplaceSetsNamespace(t, cfg.peer, cfg.context, refs);
      RefsDoNotMatter(t, t, r.value.0);
      ReplacedTargets(t, cfg.peer, cfg.context, refs);
      TargetsHoldAncestry(r.value.0, cfg.context, refs);
    }
  }

  lemma SafeAfter(t: Tables, before: Tables, cfg: PullConfig, refs: seq<AdvertisedRef>, u: Tables,
                  r: Result<PullReport, SyncError>)
    requires Grows(t, before) && before.localRefs == t.localRefs && before.remoteRefs == t.remoteRefs && Safe(before, cfg, refs, u, r)
    ensures Safe(t, cfg, refs, u, r)
  {
    hide Inv, Grows, Namespace, Desired, HoldsAncestry, ValidName;
    GrowsTrans(t, before, u);
  }

  /** A pull is safe against whatever the server sends. */
  lemma PullIsSafe(t: Tables, cfg: PullConfig, s: RefSnapshot, replies: seq<Reply>)
    requires Inv(t)
    ensures var (u, r) := PullSpec(t, cfg, s, replies); Safe(t, cfg, s.refs, u, r)
  {
    hide Inv, Grows, PullPages, Replace, Safe, Listable, SnapshotParses, ValidName, Heads;
    var requested := SortDedup(Heads(s.refs));
    NothingDone(t, cfg, s.refs);
    ReplaceIsSafe(t, cfg, s.refs, STARTED.report);
    PagesOnlyAdd(t, cfg, requested, replies, STARTED);
    var (before, r) := PullPages(t, cfg, requested, replies, STARTED);
    NothingDone(before, cfg, s.refs);
    if r.Err? {
      SafeAfter(t, before, cfg, s.refs, before, r);
    } else {
      ReplaceIsSafe(before, cfg, s.refs, r.value);
      var (u, q) := Replace(before, cfg, s.refs, r.value);
      SafeAfter(t, before, cfg, s.refs, u, q);
    }
  }

  lemma NothingDone(t: Tables, cfg: PullConfig, refs: seq<AdvertisedRef>)
    requires Inv(t)
    ensures forall r: Result<PullReport, SyncError> :: r.Err? ==> Safe(t, cfg, refs, t, r)
  {
    hide Inv, Grows, Namespace, Desired, HoldsAncestry, ValidName;
    GrowsSelf(t);
  }

  lemma ReplacedTargets(t: Tables, peer: Name, c: ContextId, refs: seq<AdvertisedRef>)
    requires Inv(t) && ReplaceSpec(t, peer, c, refs).Ok?
    ensures forall i :: 0 <= i < |refs| ==> Targets(Parsed(ReplaceSpec(t, peer, c, refs).value.0.events), c, refs[i].head)
  {
    hide Inv, Parsed, Targets, ValidName, Namespace, Replaced, ChangeCount, Desired;
    HeadsChecked(t, c, refs);
  }
}
