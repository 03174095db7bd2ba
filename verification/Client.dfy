/** The pull client as it runs: one transaction per page against a live store. */
module Client {
  import opened Base
  import opened Sorting
  import opened Names
  import opened Tables
  import opened Transitions
  import opened Bundles
  import opened Namespaces
  import opened Runs
  import opened Pull
  import opened Store

  class PullClient {
    const db: Database
    const cfg: PullConfig

    constructor (db: Database, cfg: PullConfig)
      ensures this.db == db && this.cfg == cfg
    {
      this.db, this.cfg := db, cfg;
    }

    /** Heads of the local branches, each re-checked as listing does. */
    method LocalHeads() returns (ok: bool, heads: set<EventId>)
      ensures ok <==> forall k :: k in db.localRefs && k.0 == cfg.context ==>
                AuthoritativeContext(db.Snap(), db.localRefs[k]) == Ok(Some(cfg.context)) && ValidName(k.1)
      ensures ok ==> heads == set k | k in db.localRefs && k.0 == cfg.context :: db.localRefs[k]
    {
      hide ValidName, AuthoritativeContext;
      var all := set k | k in db.localRefs && k.0 == cfg.context;
      var rest := all;
      heads := {};
      while rest != {}
        invariant rest <= all && heads == set k | k in all && k !in rest :: db.localRefs[k]
        invariant forall k :: k in all && k !in rest ==>
          AuthoritativeContext(db.Snap(), db.localRefs[k]) == Ok(Some(cfg.context)) && ValidName(k.1)
        decreases rest
      {
        var k: LocalKey :| k in rest;
        var hc := AuthoritativeContext(db.Snap(), db.localRefs[k]);
        var named := ValidateName(k.1);
        if hc != Ok(Some(cfg.context)) || !named {
          return false, heads;
        }
        heads := heads + {db.localRefs[k]};
        rest := rest - {k};
      }
      ok := true;
    }

    method RemoteHeads() returns (ok: bool, heads: set<EventId>)
      ensures ok <==> forall k :: k in db.remoteRefs && k.0 == cfg.peer && k.1 == cfg.context ==>
                AuthoritativeContext(db.Snap(), db.remoteRefs[k]) == Ok(Some(cfg.context)) && ValidName(k.2)
      ensures ok ==> heads == set k | k in db.remoteRefs && k.0 == cfg.peer && k.1 == cfg.context :: db.remoteRefs[k]
    {
      hide ValidName, AuthoritativeContext;
      var all := set k | k in db.remoteRefs && k.0 == cfg.peer && k.1 == cfg.context;
      var rest := all;
      heads := {};
      while rest != {}
        invariant rest <= all && heads == set k | k in all && k !in rest :: db.remoteRefs[k]
        invariant forall k :: k in all && k !in rest ==>
          AuthoritativeContext(db.Snap(), db.remoteRefs[k]) == Ok(Some(cfg.context)) && ValidName(k.2)
        decreases rest
      {
        var k: RemoteKey :| k in rest;
        var hc := AuthoritativeContext(db.Snap(), db.remoteRefs[k]);
        var named := ValidateName(k.2);
        if hc != Ok(Some(cfg.context)) || !named {
          return false, heads;
        }
        heads := heads + {db.remoteRefs[k]};
        rest := rest - {k};
      }
      ok := true;
    }

    /** The checks on one response, in the order they are made. */
    method PageOk(requested: seq<EventId>, expectedOffset: nat, mark: Option<PlanPrint>, report: PullReport, r: Reply)
      returns (ok: Result<(), SyncError>)
      ensures ok == CheckPage(cfg, requested, Progress(expectedOffset, mark, report), r)
    {
      hide Parses, ValidName;
      if r.NoReply? {
        return Err(Transport);
      }
      if r.Conflict? {
        return Err(PaginationConflict);
      }
      if !Parses(r) || r.context != cfg.context || r.heads != HeadsOf(cfg.context, requested) {
        return Err(Protocol);
      }
      if r.bundle.events == [] && r.next.Some? {
        return Err(Protocol);
      }
      if r.next.Some? {
        if r.next.value.Garbled? {
          return Err(PaginationConflict);
        }
        var nextOffset := r.next.value.offset;
        if nextOffset != expectedOffset + |r.bundle.events| || nextOffset <= expectedOffset
          || (mark.Some? && mark.value != r.next.value.mark) {
          return Err(Protocol);
        }
      }
      ok := Ok(());
    }

    method ImportBundle(b: Bundle) returns (r: Result<ImportReport, StoreError>)
      modifies db
      ensures var s := ImportPage(old(db.Snap()), cfg, b);
        if s.Ok? then r == Ok(s.value.1) && db.Snap() == s.value.0 else r == Err(s.error) && db.Snap() == old(db.Snap())
    {
      hide WellFormed, ImportSpec, Inv, BundleBytes, ValidName;
      if BundleBytes(b) > cfg.limits.maxBytes || |b.events| > cfg.limits.maxEvents || !WellFormed(b) {
        return Err(BundleLimitExceeded);
      }
      r := db.ImportValue(cfg.peer, b);
    }

    method PullAll(requested: seq<EventId>, replies: seq<Reply>) returns (r: Result<PullReport, SyncError>)
      modifies db
      ensures (db.Snap(), r) == PullPages(old(db.Snap()), cfg, requested, replies, STARTED)
    {
      hide CheckPage, ImportPage, ValidName;
      var report := PullReport(0, 0, 0, 0, 0);
      var expectedOffset: nat, mark := 0, None;
      var i := 0;
      while true
        invariant 0 <= i <= |replies|
        invariant PullPages(old(db.Snap()), cfg, requested, replies, STARTED)
               == PullPages(db.Snap(), cfg, requested, replies[i..], Progress(expectedOffset, mark, report))
        decreases |replies| - i
      {
        if report.pages >= cfg.limits.maxPages {
          return Err(PullLimit);
        }
        if i == |replies| {
          return Err(Transport);
        }
        var response := replies[i];
        assert replies[i..][0] == response && replies[i..][1..] == replies[i + 1..];
        var ok := PageOk(requested, expectedOffset, mark, report, response);
        if ok.Err? {
          return Err(ok.error);
        }
        Accepted(cfg, requested, Progress(expectedOffset, mark, report), response);
        var imported := ImportBundle(response.bundle);
        if imported.Err? {
          return Err(StoreFailed(imported.error));
        }
        report := Counted(report, response.bundle, imported.value);
        if response.next.None? {
          return Ok(report);
        }
        expectedOffset, mark := response.next.value.offset, Some(response.next.value.mark);
        i := i + 1;
      }
    }

    method ReplaceNamespace(refs: seq<AdvertisedRef>, report: PullReport) returns (r: Result<PullReport, SyncError>)
      modifies db
      ensures (db.Snap(), r) == Replace(old(db.Snap()), cfg, refs, report)
    {
      hide ReplaceSpec, Inv, ValidName;
      var updated := db.ReplaceRemoteRefSnapshot(cfg.peer, cfg.context, refs);
      r := if updated.Err? then Err(StoreFailed(updated.error)) else Ok(report.(remoteRefsUpdated := updated.value));
    }

    /** Does exactly what the state machine says; so against any server a pull is safe. */
    method Pull(s: RefSnapshot, replies: seq<Reply>) returns (r: Result<PullReport, SyncError>)
      modifies db
      ensures (db.Snap(), r) == PullSpec(old(db.Snap()), cfg, s, replies)
      ensures Inv(old(db.Snap())) ==> Safe(old(db.Snap()), cfg, s.refs, db.Snap(), r)
    {
      hide Inv, Safe, PullPages, Replace, NamesAscend, ValidName, AuthoritativeContext;
      ghost var t := db.Snap();
      if Inv(t) { PullIsSafe(t, cfg, s, replies); }
      if !SnapshotParses(s) || s.context != cfg.context {
        return Err(Protocol);
      }
      var requested := SortDedup(Heads(s.refs));
      var localOk, local := LocalHeads();
      var remoteOk, remote := RemoteHeads();
      if !localOk || !remoteOk {
        return Err(StoreFailed(CorruptStorage));
      }
      if |local + remote| > MAX_BUNDLE_REFS {
        return Err(PullLimit);
      }
      if requested == [] {
        r := ReplaceNamespace(s.refs, PullReport(0, 0, 0, 0, 0));
        return;
      }
      r := PullAll(requested, replies);
      if r.Ok? {
        r := ReplaceNamespace(s.refs, r.value);
      }
    }
  }

  lemma Accepted(cfg: PullConfig, requested: seq<EventId>, at: Progress, r: Reply)
    requires CheckPage(cfg, requested, at, r).Ok?
    ensures r.PageReply? && (r.next.Some? ==> r.next.value.At?)
  {
    hide Parses, ValidName;
  }
}
