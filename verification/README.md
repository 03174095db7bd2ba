# contextmesh verification model

contextmesh keeps content-addressed, signed events in a transactional store, moves branch heads by
compare-and-swap, synchronizes stores by paged pulls, checks a whole store for corruption, and builds
recipient-aware handoffs on top. This project models that logic in Dafny and proves what it keeps.

One event universe runs through every module: an identifier is a number whose order is the canonical text
order, and an envelope carries context, parents, kind, author and sizes. Nothing is assumed about cycles;
that stored parents form an acyclic graph is proved from admission order.

## Layout

| files | what they hold |
|---|---|
| `Base`, `Sorting`, `Weights`, `Names` | identifiers, events, errors; canonical sequences; byte totals; ref names |
| `Graph`, `Walker` | ancestry, cycles, the recursive parent-first order, and the explicit-stack walk that refines it |
| `Tables`, `Transitions`, `Bundles`, `Namespaces`, `Runs` | the six tables, the store invariant, each transaction as a function, and all runs of them |
| `Store`, `Client` | the store and the pull client as classes that change tables in place and roll back |
| `Commits` | when each transaction succeeds and everything it then changes |
| `Branches`, `Provider`, `Recordings`, `Invocations`, `Recovery` | interleaved writers, recorded invocations and their outcomes, crash-window queries and whose requests they list |
| `Projections`, `RawRows`, `Cycles`, `Verify`, `Represented`, `Reachable` | projection, the full-store verifier over arbitrary rows, and what reachable stores answer |
| `Paging`, `Export`, `Capped`, `Cursors`, `Convergence`, `Pull`, `Transfer`, `HonestPull` | page selection, a store it refuses to serve, cursors, the serving side under growth, the pull state machine, convergence |
| `Lineages`, `CloseOver`, `Closures`, `Deltas`, `Handoffs`, `Repairs`, `Minimality` | closure, delta, negotiation, repair, sufficiency claims |
| `Samples` | small reachable stores built by real transactions, for concrete instances |
| `HeaderGuard`, `Calendar`, `Timestamps` | the chunked header detector, the civil calendar, RFC 3339 timestamps (section 5.6) |

Each transaction is a function from tables to tables or an error. The classes in `Store` and `Client` perform
it step by step on fields, and their contracts equate the outcome with that function; whole-run theorems are
about the functions. The walks over explicit stacks share `Walker`, which gives every stack a meaning: what the
recursion would still do from it.

Parameters stand for what comes from outside: the events other parties sign, the replies a server sends, the
outcome a provider returns, the answers of a repair driver, and the transactions other writers run in between.

## What the main results say

* Every store reachable by any sequence of transactions satisfies the invariant; the verifier decides that
  invariant exactly, over arbitrary rows, and reports exactly the defects.
* Each transaction succeeds exactly under stated conditions and then changes exactly what is stated.
* A branch never loses a head under interleaved writers, and of the writers that expect its head exactly the first
  admissible one wins.
* A pull is safe against every server. Against an honest server that keeps growing it transfers one fixed
  ancestry difference, exactly what the client lacks, and ends with the server's own projection; pulling again
  fetches nothing.
* An invocation is refused exactly when its head does not project or its request cannot be committed; a provider
  result, once signed, is always stored above its request.
* Closure, delta and negotiation compute the stated ancestry sets; the cases where the code does less than its
  comments are stated with the exact condition and a concrete instance.

Places where code and documentation differ, all modelled as the code is, each with an instance on a reachable
store or input and the condition under which the promise holds:

* `BundleV1::to_wire` fails above the hard cap and the page search propagates that failure
  (`Capped.CapRefusesExport`; exactly when: `Paging.SearchPage`, with `Paging.SmallRestSearches`).
* The pending query computes but does not use the branch (`Recovery.PendingIgnoresBranch`, and on a replica that
  pulled a request `Recovery.ImportedRequestStrays`; exactly when it does no harm, on any sound store:
  `Recovery.PendingOnBranchWhen`).
* Critical events are added without ancestors and without rechecking limits (`Closures.CriticalLeavesGap`; exactly
  when: `Closures.CriticalParentsNeeded`, `Closures.LimitsKeptWhen`). While they are appended the searched vector is no
  longer sorted, so the report of additions may also name an event of the ancestry (`Closures.ReportNamesAncestor`;
  not when: `Closures.AdditionsExact`).
* A follow-up need not contain what was carried or re-included (`Handoffs.FollowUpForgets`; exactly what it keeps:
  `Handoffs.FollowUpKeeps`, over whole sessions `Handoffs.SessionLosesNothing`).
* The first handoff of a repair is not checked against the byte bound (`Repairs.FirstOfferUnchecked`; exactly when:
  `Repairs.BoundKeptWhen`).
* Of nodes with one identifier the last wins (`CloseOver.DuplicateHidesDangling`; exactly when nothing is hidden:
  `CloseOver.DanglingReportedWhen`).
* A timestamp with an impossible day is accepted (`Timestamps.AcceptsImpossibleDay`; exactly the other accepted texts
  are rendered times: `Timestamps.AcceptedIsRenderedWhen`).

## Model

| member | source | states |
|---|---|---|
| Graph.PostOrderExact | src/store/dag.rs:307-374 | The recursive parent-first order of some heads exists exactly when no ancestor is missing or on a cycle, and then lists exactly the ancestors, each once, every parent earlier. |
| Graph.PostOrderCycle | src/store/dag.rs:332-334 | A reported cycle is a real one reachable from the heads. |
| Graph.PostOrderMissing | src/store/dag.rs:292-305 | A reported missing event is absent and reachable from the heads. |
| Graph.ExtendAcyclic | src/store.rs:326-357 | An absent event inserted above stored parents leaves the graph closed and acyclic, so acyclicity follows from admission order. |
| Walker.Descend | src/store/dag.rs:355-363 | Pushing an exit frame and the parents keeps the meaning of the Enter/Exit stack: resuming from it still yields the recursive order. |
| Walker.SeenWithinResult | src/store/dag.rs:344-354 | Everything coloured so far belongs to the final ancestry, so a limit hit on the way is one the whole ancestry breaks. |
| Projections.ProjectOn | src/store/dag.rs:307-374 | The stack walk refines the recursive order: it succeeds exactly when the ancestry is complete, acyclic and within both limits, returns that order and the exact byte total, and its cycle and missing-parent errors are real. |
| Projections.SoundPlan | src/store/dag.rs:307-374 | On a sound store the walk from heads of the context always completes. |
| Projections.SameHeadsSameProjection | src/store/dag.rs:283-290 | Two stores whose shared events have the same bodies project the same heads to the same sequence. |
| Tables.InvLoads | src/store.rs:784-811 | In a sound store every event re-validates and loads as the signed envelope in its row. |
| Tables.DescendsFromGenesis | src/store/verify.rs:390-424 | In a sound store every event descends from the expected genesis of its context. |
| Names.ValidateName | src/store.rs:548-567 | The flag loop accepts exactly the names with a leading letter, letters and digits, and single inner separators. |
| Transitions.AdmitInv | src/store.rs:304-381 | Admission keeps the store invariant and leaves the event stored in its context; it reports an insertion only for an event that was absent. |
| Transitions.ProvisionInv | src/store.rs:250-270 | Provisioning and joining keep the store invariant. |
| Transitions.CreateContextInv | src/store/dag.rs:80-115 | Creating a context keeps the store invariant. |
| Transitions.RefStepsInv | src/store/dag.rs:164-210 | Creating a branch or setting a remote ref keeps the store invariant. |
| Transitions.ParentsChecked | src/store.rs:332-335 | In a sound store the parent check passes exactly when every parent is stored in the context. |
| Transitions.StoreEventInv | src/store.rs:315-363 | An admissible absent event is the pending genesis or a child with stored parents; an identical stored one re-validates and changes nothing. |
| Commits.ChildAdmitsWhen | src/store.rs:304-381 | On a sound store an event that is not genesis-shaped is admitted exactly when its parents are events of its context, its author is authorized and no other envelope has its identifier; then it is held and nothing else is new. |
| Commits.SwapWhen | src/store.rs:830-883 | With a compare-and-swap it is admitted exactly when, moreover, the branch is at the expected head or at the event already; then the branch is at the event and nothing else is different, and elsewhere the current head is reported. |
| Commits.StatusSays | src/store.rs:377-379 | An admission reports applied exactly when the branch was at the event, present exactly when otherwise the event was stored, and inserted exactly when it was new. |
| Commits.AppendDecided | src/store/dag.rs:134-161 | Appending an ordinary event succeeds exactly when the event is ready and the branch is at its single parent, or at the event already; then the branch is at the event, above the old head, and every other ref and table is as before. A ready event on a branch that is elsewhere gets the current head, and a reserved kind is refused. |
| Commits.SecondAppendStale | src/store/dag.rs:134-161 | Of two appends that expect the same head the second is stale and is told the first one's event. |
| Commits.MergeDecided | src/store/dag.rs:213-245 | Merging succeeds exactly for two to sixty-four distinct parents, the expected head among them, when the merge event is ready and the branch is at the expected head or at the event already; then the branch is at the event, above every parent, and everything else is as before. |
| Commits.ChildRefused | src/store.rs:315-363 | A refused child is told the first thing in its way: the unknown or pending context, then its author, then its first bad parent, absent or of another context, then the collision. |
| Commits.GenesisAdmitsWhen | src/store.rs:315-375 | The genesis of a pending context is admitted exactly when its author is authorized and nothing has its identifier; then the context is active with it and nothing else is new. |
| Commits.ProvisionDecided | src/store.rs:250-270 | Provisioning succeeds exactly for a proper author list and a context that is new or was provisioned alike, joining only while pending; then exactly those authors are authorized, every other context is as before, and repeating it changes nothing. |
| Commits.AuthorizeDecided | src/store.rs:273-291 | Authorizing succeeds exactly for a known context and adds exactly that author, reporting whether it was new. |
| Commits.CreateContextDecided | src/store/dag.rs:80-115 | A context is created exactly when neither it nor its genesis is there; then it is active with that genesis, its one author and its one branch, and everything else is as before. |
| Commits.CreateBranchDecided | src/store/dag.rs:164-210 | A branch is created exactly at an event of the context and under a name that is free or already there; a taken name is refused and nothing but the one ref changes. |
| Commits.SetRemoteDecided | src/store.rs:481-497 | A remote ref is bound exactly to an event of the context, whatever it was, and nothing else changes. |
| Runs.StepInv | src/store.rs:528-545 | Every transaction, successful or not, keeps the store invariant. |
| Runs.ReachableIsSound | src/store.rs:60-121 | Every store reachable from the empty one is sound, acyclic and parent-closed. |
| Runs.RunGrows | src/store.rs:104-120 | No run updates or deletes an event, an edge, an author or an activated context. |
| Reachable.ReachableProjects | src/store/dag.rs:307-374 | After any run a projection of stored heads never reports a cycle or a missing parent and fails only for its request or its limits. |
| Reachable.ReachableVerifies | src/store/verify.rs:168-524 | After any run the verifier's verdict depends only on whether every ref's ancestry fits the projection limits. |
| Represented.EveryStoreHasRows | src/store/verify.rs:182-347 | Every typed state is the decoding of some well-keyed rows, so verdicts about rows cover every reachable store. |
| Store.Database.constructor | src/store.rs:232-247 | A new store is the empty sound one. |
| Store.Database.ProvisionContext | src/store.rs:250-270 | The in-place transaction does what the provision step says, or rolls back. |
| Store.Database.AuthorizeAuthor | src/store.rs:273-291 | Adds the author of a known context and reports whether it was new. |
| Store.Database.CheckRow | src/store.rs:315-335 | Genesis policy, authorization and parents are checked in that order with those errors. |
| Store.Database.StoreRow | src/store.rs:337-375 | Inserts an absent event with its edges or re-validates the identical one, then activates a pending context. |
| Store.Database.Admit | src/store.rs:304-381 | Admission is atomic: its result and its new tables are those of the admission step, and an error at any point leaves the tables as they were. |
| Store.Database.ApplyRef | src/store.rs:830-883 | The compare-and-swap moves the ref only from the expected state, and otherwise reports the current head or that it is already applied. |
| Store.Database.Append | src/store/dag.rs:134-161 | Appending is one admission that expects the single signed parent as head; reserved kinds are refused. |
| Store.Database.Merge | src/store/dag.rs:213-245 | Merging is one admission over two to sixty-four distinct parents that include the expected head. |
| Store.Database.CreateContext | src/store/dag.rs:80-115 | Provisioning, genesis, activation and branch appear together or not at all. |
| Store.Database.CreateBranch | src/store/dag.rs:164-210 | A branch is created at a stored head of the context, is idempotent at the same head and never overwrites another. |
| Store.Database.SetRemoteRef | src/store.rs:481-497 | Binds one remote ref to a stored head of the context and nothing else. |
| Store.Database.ImportValue | src/store/bundle.rs:327-368 | The per-event loop over mutable tables ends in exactly the state and counts of the import step, or rolls back. |
| Store.Database.ReplaceRemoteRefSnapshot | src/store/sync.rs:168-242 | Deleting and re-inserting the namespace row by row ends in exactly the replaced namespace, or rolls back. |
| Store.Database.ApplyAll | src/store.rs:528-545 | A store driven by any sequence of transactions is in the state the run says. |
| Bundles.FromParts | src/store/bundle.rs:146-182 | Accepts exactly bundles within the limits whose ids are distinct, events in one context with parents first, and refs in strict name order. |
| Bundles.ImportIsAdmissions | src/store/bundle.rs:327-368 | Import succeeds exactly when admitting the events one by one does and every advertised head is then stored; the result is those admissions followed by the ref overwrites. |
| Bundles.ImportCounts | src/store/bundle.rs:333-361 | Every event of an import counts once, as inserted or as present, and the store grows by exactly the inserted ones. |
| Bundles.RefsUpdated | src/store/bundle.rs:362-366 | An import counts as updated exactly the refs it binds to another head than before. |
| Bundles.ReimportIsNoOp | src/store/bundle.rs:345-366 | A bundle already held imports with nothing inserted, nothing moved and exactly that report. |
| Bundles.ImportTwice | src/store/bundle.rs:327-368 | After any successful import the same import changes nothing. |
| Namespaces.NoChangeMeansEqual | src/store/sync.rs:245-261 | The change count is zero exactly when the namespace already is the requested one. |
| Namespaces.CountsDifferences | src/store/sync.rs:245-261 | The change count is how many names end up bound differently, deleted ones included. |
| Namespaces.ReplaceSetsNamespace | src/store/sync.rs:168-242 | Afterwards the namespace is the requested one, everything else is as before, and zero changes mean it already was. |
| HonestPull.ReplaceDecided | src/store/sync.rs:168-242 | On a sound store a namespace is replaced exactly in an active context and by a proper list of heads that are events of it, with those errors otherwise. |
| Branches.StepMovesOnlyBySwap | src/store.rs:830-883 | One transaction changes an existing branch only by a winning compare-and-swap that expected its current head. |
| Branches.AppendAndMergeDescend | src/store/dag.rs:134-161 | Append and merge submit only swaps whose expected head is a parent of the event: the one hypothesis on writers under which Branches.BranchHistoryKept and the winner theorems hold, so those cover every run of appends and merges. |
| Branches.BranchHistoryKept | src/store.rs:830-883 | Under every interleaving of such writers each earlier head stays in the branch's ancestry forever. |
| Branches.AtMostOneWinner | src/store.rs:830-883 | In any run from any sound store at most one of the writers that expected the same head of a branch wins. |
| Branches.FirstWriterWins | src/store.rs:830-883 | From a state whose branch is at the expected head, a writer of a run wins exactly when its swap is admissible by itself and no earlier one was, whatever other transactions run in between. |
| Branches.ExactlyOneWinner | src/store.rs:830-883 | Among the writers that expect the current head there is exactly one winner as soon as one of them is admissible, and none otherwise. |
| Branches.LoserLeavesNothing | src/store.rs:304-381 | After a win, a later writer with the same expectation changes no table: it fails, or finds its own event already the head. |
| Verify.Findings.Push | src/store/verify.rs:125-142 | Findings are kept up to the bound and truncation is remembered, so a clean record means no inconsistency was found or dropped. |
| Cycles.AbsentParentsIrrelevant | src/store/verify.rs:526-564 | Ignoring absent parents neither hides nor invents a cycle. |
| Cycles.GraphHasCycle | src/store/verify.rs:526-564 | The colour-map walk answers true exactly when the stored parent graph is cyclic. |
| RawRows.ExactMeansChildEdges | src/store/verify.rs:330-388 | Comparing a child's ordered edge rows with its signed parents is exactly the declarative edge rule. |
| Verify.ScanContexts | src/store/verify.rs:182-229 | The context pass decodes every row and is clean exactly when all rows are decodable and consistent. |
| Verify.ScanEvents | src/store/verify.rs:258-328 | The event pass is clean exactly when every row is decodable, canonical, authorized and equal to its signed body. |
| Verify.ScanEdges | src/store/verify.rs:330-388 | The edge pass is clean exactly when edges equal the signed parents and every parent is stored in the context. |
| Verify.ScanGenesis | src/store/verify.rs:390-424 | The genesis pass is clean exactly when contexts and their genesis events agree. |
| Verify.VerifyOn | src/store/verify.rs:168-524 | Over arbitrary rows the report is valid exactly when the rows decode, the store invariant holds and every ref projects within the limits; only real defects are reported, with their own category and identifiers, and unless the record was truncated every defect is; findings respect their bound and counts are exact. |
| Verify.SoundStoreVerifies | src/store/verify.rs:430-515 | A sound store verifies exactly when every ref's ancestry fits the limits. |
| Paging.SearchPage | src/store/sync.rs:124-160 | The binary search returns the longest prefix within both limits; it fails exactly when the first event does not fit or when a probe renders above the hard cap. |
| Paging.SmallRestSearches | src/store/sync.rs:124-160 | When everything that may go on the page renders within the hard cap, the search never meets the cap. |
| Paging.FirstTryDefeats | src/store/sync.rs:124-160 | When already the first halfway try renders above the hard cap, the search fails, however small the first event. |
| Capped.CapRefusesExport | src/store/bundle.rs:185-201 | After a run that creates a context and chains forty megabyte notes, exporting the last of them fails although the request is valid, its ancestry projects and its first event fits the page. |
| Export.WithoutKeepsOrder | src/store/sync.rs:95-123 | Removing a known ancestry from a parent-first order leaves it parent-first, and a parent that is gone was known. |
| Export.ExportSyncPage | src/store/sync.rs:66-165 | Answers exactly when the request, context, projections, offset and sizes allow a page; the page is the maximal slice of the ancestry difference at the offset, with the offset that follows. |
| Export.PageUnique | src/store/sync.rs:66-165 | Request, limits and offset determine the page. |
| Export.EffectiveIs | src/store/sync.rs:102-108 | On a sound store the effective known heads are exactly the known heads that the store holds in the context, in order. |
| Export.PageKnows | src/store/sync.rs:102-130 | So a page names as effective exactly those. |
| Export.DifferenceSet | src/store/sync.rs:109-123 | What is to be sent is the requested ancestry less the effective one, each event once. |
| Export.NothingToSend | src/store/sync.rs:124-135 | A client whose known heads have every requested head in their ancestry gets the empty page. |
| Convergence.PostExport | src/http.rs:590-667 | The server answers exactly when the request is well formed, the page exportable, the cursor bound to the plan of this snapshot and the response within the body limit; it reports a pagination conflict exactly for a well-formed request whose cursor does not decode, lies behind the end of the difference, or is bound to another plan. |
| Convergence.DefaultBodyFits | src/http.rs:656 | A body limit of the bundle cap plus 271 bytes, as by default, never refuses a page. |
| Convergence.CursorBindsPlan | src/http.rs:626-639 | A cursor is answered only for the context, requested heads and limits it was handed out for, at a snapshot with the same effective heads. |
| Convergence.ServeAll | src/http.rs:602-647 | Serving page after page, each for the cursor the last one handed out, from snapshots of a growing store is a complete honest exchange once a page carries no cursor. There are at most as many pages as the first snapshot has events to send, or one, and fewer while the exchange goes on; it stops early only where a snapshot cannot answer its cursor. |
| Convergence.PlanStable | src/store/sync.rs:95-123 | A server that keeps growing never changes an ancestry order it has already served. |
| Convergence.SlicesOfOnePlan | src/http.rs:602-647 | Across concurrent server appends every page of a completed exchange is the next slice of one fixed difference, and together they are all of it. |
| Convergence.ExchangeSends | src/http.rs:602-647 | Over a complete exchange the events sent are exactly the requested ancestry less that of the known heads the first snapshot holds in the context, each once. |
| Cursors.CursorRoundTrip | src/sync.rs:550-594 | Over all texts, one decodes to an offset and fingerprint exactly when it is what they encode to, down to the prefix and the unpadded base64 alphabet. |
| Cursors.SpareBitsRefused | src/sync.rs:569-584 | Of the texts that read as the same forty bytes only the canonical one is accepted, even by a base64 decoder that ignores spare bits. |
| Pull.PagesOnlyAdd | src/sync.rs:444-508 | Importing pages only adds events and touches no ref. |
| Pull.PagesAreOneExchange | src/sync.rs:444-508 | When the page loop succeeds, the replies it used are pages of the asked context and heads within the limits, their offsets are the running totals under one fingerprint, each but the last sends something and only the last ends; the counts are the sums over them and the store grew by exactly the reported insertions. |
| Pull.PullIsOneExchange | src/sync.rs:390-519 | So a successful pull received what it reports, split into inserted and already present, and added exactly the former. |
| Pull.PullCountsRefs | src/sync.rs:509-517 | The count of remote refs is how many of the peer's names ended up bound differently. |
| Pull.PullIsSafe | src/sync.rs:390-519 | Against any server: success means the full ancestry of every advertised head is held and the peer namespace is the snapshot; failure leaves remote refs as they were; local refs, growth and the invariant hold either way. |
| Client.PullClient.Pull | src/sync.rs:390-519 | The client loop over a live store ends in exactly the state and report of the pull state machine, and so is safe. |
| Transfer.HonestEventAdmits | src/store/bundle.rs:333-361 | An event of a sound server admits at any client that trusts its author and holds its parents, also as a pending client's genesis. |
| Transfer.PlanParents | src/store/sync.rs:95-123 | A parent of a plan event is an earlier plan event or in the known ancestry. |
| HonestPull.DifferenceImportable | src/sync.rs:444-508 | The plan is importable at the client in order: no page import can miss a parent or meet a wrong genesis. |
| HonestPull.PagesImport | src/sync.rs:444-508 | From any page on, every honest page passes the checks and imports, and the pull ends with the whole plan stored. |
| HonestPull.PullConverges | src/sync.rs:390-519 | A pull answered honestly throughout succeeds: the client gains exactly the plan and then projects the requested heads to the server's own sequence. |
| HonestPull.PullFetches | src/sync.rs:390-519 | The client then has gained exactly the requested ancestry less that of its known heads the server held, and received as many events. |
| HonestPull.KnownFetchesNothing | src/sync.rs:400-418 | A pull of heads at which the client has branches or the peer's recorded refs receives nothing and adds nothing. |
| HonestPull.SecondPullFetchesNothing | src/sync.rs:390-519 | Pulling a snapshot again after a successful pull of it receives nothing and changes no ref. |
| HonestPull.EmptyPull | src/sync.rs:419-435 | A peer that advertises nothing needs no exchange: in an active context the pull succeeds, empties the peer's namespace, counts what was in it and changes nothing else; in any other it fails and changes nothing. |
| HonestPull.PullRefused | src/sync.rs:390-418 | A malformed or foreign snapshot, or too many known heads, is refused with its error before anything changes. |
| Provider.RecordInvocation | src/provider.rs:132-246 | The step sequence over a live store, with other writers in every gap, ends in the state and outcome of the invocation protocol. |
| Provider.ChildAdmits | src/provider.rs:228-237 | An authorized result over a stored request always admits without a ref move. |
| Provider.SwapDecided | src/provider.rs:209-232 | The result's swap fails only as stale, exactly when the branch is at neither the request nor the result. |
| Provider.InvocationSettles | src/provider.rs:132-246 | Whatever others write, a committed request stays on its branch and a signed result is never lost: it is the branch head, or stored beside a branch whose reported head is a proper descendant of the request. |
| Recordings.RefusedWhen | src/provider.rs:141-188 | An invocation is refused exactly when its expected head does not project within the default limits, or when at its turn the author is not authorized, the request is forged, or the branch is at neither the expected head nor the request. |
| Recordings.RequestMoves | src/provider.rs:176-188 | The request's commit moves the branch to the request and changes nothing else. |
| Recordings.OutcomeDecided | src/provider.rs:189-246 | One that is not refused is rejected without a result, recorded with the branch at the result when the branch is still at the request, and otherwise a conflict that reports the head it met and stores the result without moving a ref. |
| Recordings.UndisturbedRecords | src/provider.rs:132-246 | Alone on a healthy branch an invocation is recorded: the branch is at the result, above the request, above the expected head, and nothing else is new. |
| Invocations.InvocationRows | src/store/invocation.rs:67-144 | Over sound snapshots the rows are every request and result of the context exactly once, with exact branch and link flags, and the query answers exactly when its limits allow. |
| Invocations.PendingInvocations | src/store/invocation.rs:36-49 | Answers exactly when the scan fits its limits, with exactly the context's requests without a sole-parent result, each once. |
| Invocations.DetachedResults | src/store/invocation.rs:52-65 | Answers exactly when the scan fits its limits, with exactly the context's results outside the branch ancestry, each once. |
| Invocations.RequestIsPending | src/provider.rs:162-176 | A freshly committed request is pending until its result is stored. |
| Invocations.AnsweredNeverPending | src/provider.rs:209-242 | Once the result is stored the request is never pending again in any run. |
| Invocations.FallbackIsDetached | src/provider.rs:228-240 | A result stored by the fallback is in no branch's ancestry and is reported as detached. |
| Recovery.PendingIgnoresBranch | src/store/invocation.rs:35-49 | Contrary to its documentation the pending query answers with a request that only another branch holds: on a concrete reachable store its answer for one branch is a request off that branch. |
| Recovery.ImportedRequestStrays | src/store/invocation.rs:35-49 | So it does on a replica without any other branch: after importing a page that carries a request, the answer for the main branch is that request, which lies on no branch. |
| Recovery.PendingOnBranchWhen | src/store/invocation.rs:35-49 | Over any two sound snapshots the answer stays on the named branch, as documented, exactly when no other branch of the context holds an unanswered request off it and no unanswered request off it lies on no branch. |
| Recovery.MergedBranchKeepsPromise | src/store/invocation.rs:35-49 | When the named branch has every branch head of the context in its ancestry, the answer stays on it exactly when every unanswered request is on some branch. |
| Recovery.HomedRun | src/provider.rs:162-176 | In every run in which requests enter by admissions that move a branch, each request stays on some branch of its context. |
| Recovery.RecordedRequestsAgree | src/provider.rs:162-176 | So after such a run no request strays, and the answer stays on the named branch exactly when no other branch holds an unanswered request off it. |
| Lineages.WalkAncestry | src/closure.rs:438-510 | Loads exactly the ancestors of the starts, each once with its parents, exactly when the ancestry is complete, acyclic and within both limits; every other error names a real defect. |
| Lineages.SoundLineage | src/closure.rs:438-510 | On a sound store the walk sees the projection's own context graph and completes. |
| CloseOver.CloseOverNodes | src/closure.rs:191-260 | Within bounds the closed set is all node ids, the dangling list exactly the edges to absent parents, and the flag true exactly when the present subgraph is cyclic; the bound is exceeded exactly when there are more ids than it allows. In every case the report is what one fixed walk over the node table has seen. |
| CloseOver.ReportIgnoresOrder | src/closure.rs:191-260 | A report, truncated or not, is invariant under permuting nodes and parent lists. |
| CloseOver.DanglingReportedWhen | src/closure.rs:197-202 | Within the bound every absent parent of every supplied node is reported exactly when, of several nodes with one id, the last has all the absent parents of the others. |
| CloseOver.DuplicateHidesDangling | src/closure.rs:197-202 | Of two nodes with one id only the last counts: the first one's absent parent is never reported. |
| CloseOver.CloseCheck | src/closure.rs:266-284 | Fails first for a cycle, then for the bound, then for a dangling edge, and succeeds exactly on a sound node table. |
| Closures.BinarySearch | src/closure.rs:384-388 | Answers what halving answers on any sequence: a hit is a member, and in an ascending one every member is hit. |
| Closures.SecondPassAccepts | src/closure.rs:367-381 | The second pass never rejects what the first one loaded and closes exactly the ancestry. |
| Closures.CloseSelection | src/closure.rs:348-428 | Succeeds exactly when the limits, the ancestry and every candidate allow; references are the ancestors and all critical candidates in canonical order with their byte total; the additions are exactly the critical candidates the search missed while the vector grew, which includes all those beyond the ancestry. |
| Closures.AncestryOnly | src/closure.rs:348-428 | Without critical additions the references are exactly the ancestors in canonical order, a parent-closed set. |
| Closures.CriticalParentsNeeded | src/closure.rs:384-406 | With additions the set is parent-closed exactly when every critical candidate's parents are covered. |
| Closures.LimitsKeptWhen | src/closure.rs:384-418 | A closed selection respects its event limit exactly when the critical candidates outside the ancestry fit the room the ancestry leaves, and its byte limit exactly when their payloads do. |
| Closures.CriticalLeavesGap | src/closure.rs:384-418 | On a reachable store a critical event enters without its parent and pushes the selection over its event limit. |
| Closures.AdditionsExact | src/closure.rs:384-406 | The report of additions is exactly the critical candidates beyond the ancestry when no critical candidate lies in the ancestry, and also when all those beyond it come after it in order. |
| Closures.ReportNamesAncestor | src/closure.rs:384-406 | On a reachable store the report names an event of the ancestry as an addition, because a pushed event left the searched vector out of order. |
| Deltas.AtHead | src/delta.rs:124-208 | The recipient state is the head's whole verified ancestry in canonical order, derived exactly when the head reads in the context and its ancestry fits; an unknown head is reported as such. |
| Deltas.FromClosure | src/delta.rs:217-239 | A stated closure is accepted exactly within the bound and when it holds the stated head. |
| Deltas.DeltaOver | src/delta.rs:282-299 | Splits a selection into what lies outside and inside the closure, both in canonical order. |
| Deltas.ComputeDelta | src/delta.rs:388-437 | Succeeds exactly when contexts agree, the head reads and the bounds hold; the record carries exactly the references outside the closure. |
| Deltas.DeltaPartitions | src/delta.rs:282-299 | Delta and known are disjoint, make up the selection, and the delta avoids the recipient closure. |
| Deltas.DeltaCompletesHistory | src/delta.rs:388-437 | When nothing critical was added, the delta is the selection's ancestry less the head's, and together with the known history holds every parent. |
| Deltas.AdvancingShrinksDelta | src/delta.rs:388-437 | A recipient advanced to a descendant head gets exactly the old delta less the new closure, and that delta always computes. |
| Handoffs.FromDelta | src/handoff.rs:229-241 | Binds a delta exactly when its recorded head is in its recorded closure, with nothing omitted. |
| Handoffs.WithOmission | src/handoff.rs:345-365 | Lists an event exactly when it is not carried and is listed already or there is room; the list stays sorted, distinct and apart from what is carried, and relisting changes nothing. |
| Handoffs.WithUncertainty | src/handoff.rs:374-386 | Adds a note exactly when it is nonempty, short enough, and in the list already or there is room; the list stays sorted and free of duplicates. |
| Handoffs.ValidExactlyAtHead | src/handoff.rs:283-318 | A handoff is deliverable exactly while the recipient is at its head and that head is an event of the context; two known heads that differ are stale. |
| Handoffs.FollowUp | src/handoff.rs:442-488 | A follow-up carries the challenged event, keeps every other omission it does not carry, records the challenge, and is refused only for the listed reasons. |
| Handoffs.FollowUpKeeps | src/handoff.rs:459-488 | No omission is dropped without being carried, and a carried event is kept exactly when the supplied selection less the recipient's history holds it. |
| Handoffs.Negotiate | src/handoff.rs:345-488 | Listing an omission, adding a note and following up are each the step the negotiation theorems are about, and each yields a sound handoff. |
| Handoffs.NegotiationSound | src/handoff.rs:229-488 | Over every negotiation from a sound handoff omissions and notes stay sorted, distinct and bounded, and omissions stay disjoint from carried events. |
| Handoffs.MoveRecords | src/handoff.rs:345-488 | Each move leaves its own mark: an omission with its reason, a note, or a re-inclusion naming its challenge; omissions keep their reasons unless carried. |
| Handoffs.RecordsKept | src/handoff.rs:442-488 | Over a whole negotiation no note and no re-inclusion is taken back, and the record grows by one entry for each follow-up. |
| Handoffs.NothingDisappears | src/handoff.rs:442-488 | If each supplied selection contains what was carried and each recipient's history avoids it, nothing ever carried or omitted leaves both the delta and the omission list. |
| Handoffs.ReIncludedStays | src/handoff.rs:184-192 | In such a negotiation every re-included source is still carried at the end. |
| Handoffs.SessionLosesNothing | src/handoff.rs:442-488 | For a recipient that stays at its head while the store grows, containment of each supplied selection in the next alone suffices: nothing carried or omitted disappears and every re-included source stays carried. |
| Handoffs.SameHeadSameHistory | src/delta.rs:124-208 | Histories derived at one head of a growing store are equal, so the recipient's closure does not change during a negotiation. |
| Handoffs.FollowUpForgets | src/handoff.rs:459-488 | On a reachable store two follow-ups over unrelated closed selections drop the event the first handoff carried and list it nowhere, and then drop a source the record still names as re-included. |
| Repairs.RepairHistory.Append | src/repair.rs:283-291 | Records are numbered by position and never rewritten. |
| Repairs.Took | src/repair.rs:378-424 | Each re-inclusion takes a listed omission off the list for good and keeps the handoff within the byte bound, so no source is ever taken twice. |
| Repairs.StopExplained | src/repair.rs:350-452 | Where a run stops decides its verdict, its reason and its count, and no other reason fits. |
| Repairs.FollowUpDecided | src/handoff.rs:442-488 | A follow-up is refused only when there is none, and its size is determined by what was asked. |
| Repairs.RunRepair | src/repair.rs:320-452 | Each iteration may see a later store. A completed run appends consecutive records, each describing the handoff it offered with the driver's note, and one terminal record, the last; each next handoff is the follow-up of the one before; re-included sources are distinct original omissions within the bounds. It converges exactly on the driver's success, names a failure, a spent budget or an oversized follow-up exactly when that stopped it, with its own note or count, and then returns the original. It fails after it began only when a requested source was refused. |
| Repairs.BoundKeptWhen | src/repair.rs:25-31 | Every handoff a completed run offered, and every record, is within the byte bound exactly when the first handoff is. |
| Repairs.FirstOfferUnchecked | src/repair.rs:25-31 | A handoff built on a reachable store exceeds the bound in the first record of every run that completes with it. |
| Minimality.Simulate | src/eval.rs:428-450 | Completed means every critical event is carried; the missing ones are split by whether they are listed as omitted. |
| Minimality.MissingIs | src/eval.rs:428-450 | The missing events reported as noticed are exactly the critical ones not carried and listed as omitted, each as often as asked for, and those reported as hidden the unlisted ones. |
| Minimality.MissingInOrder | src/eval.rs:428-450 | They come in the order they were asked for. |
| Minimality.CheckSufficiency | src/selection.rs:656-672 | Computes exactly when recipient and delta fit, and claims sufficiency exactly when the critical events are references beyond the genesis history. |
| Minimality.SufficiencyMonotone | src/selection.rs:656-672 | A larger selection of a sufficient one is sufficient. |
| Minimality.OneRemovalDecides | src/selection.rs:678-710 | No proper subset is sufficient exactly when no single removal is. |
| Minimality.EvaluableWhen | src/selection.rs:690-703 | A removal can be evaluated exactly when its events and the genesis read in the context and both ancestries fit the limits; the bounds of the delta never add to that. |
| Minimality.CheckMinimality | src/selection.rs:678-710 | Answers exactly when every removal up to and including the first sufficient one reads and fits the limits, as does the genesis history; then minimal means exactly that no proper subset of the selection is sufficient. |
| HeaderGuard.Position | src/http.rs:1025 | Finds the first blank-line window or none. |
| HeaderGuard.HeaderGuardStream.Observe | src/http.rs:1013-1044 | After each chunk the guard is complete, failed or pending exactly as the whole stream so far decides, and while pending the tail buffer holds its last three bytes or all of them. |
| HeaderGuard.VerdictStands | src/http.rs:1013-1044 | A verdict once reached is final for every continuation. |
| HeaderGuard.ReadAll | src/http.rs:1013-1044 | However a stream is cut into chunks the outcome is the verdict on the concatenation. |
| Calendar.YearFound | src/receipt.rs:783-785 | The corrected estimate finds the year and day of the year for every day of an era. |
| Calendar.CivilStep | src/receipt.rs:779-795 | Every day number is a valid date and the next number is the next calendar day. |
| Calendar.CivilIsCalendar | src/receipt.rs:779-795 | From any day number the conversion follows the proleptic Gregorian calendar counted day by day. |
| Calendar.CivilOrdered | src/receipt.rs:779-795 | Later days have later dates, so the conversion is injective. |
| Calendar.CivilReaches | src/receipt.rs:779-795 | Every valid date from the epoch on is the date of some day number. |
| Calendar.CivilSinceEpoch | src/receipt.rs:779-795 | Day zero is the first of January 1970 and later days count on from it. |
| Timestamps.ValidUtcTimestamp | src/receipt.rs:798-836 | The digit loops accept exactly the fixed shape with fields in range. |
| Timestamps.RenderedIsValid | src/receipt.rs:764-776 | A rendered time is accepted exactly before the year 10000, and every field then reads back. |
| Timestamps.AcceptedIsRenderedWhen | src/receipt.rs:798-836 | An accepted text, whose year is between 1970 and 9999, is the rendering of some time before the year 10000 exactly when its day exists in its month. |
| Timestamps.AcceptsImpossibleDay | src/receipt.rs:798-836 | The validator accepts a thirty-first of February, which no day number yields. |

## Left out

- Signatures, hashing and canonical JSON: parsing yields an event or nothing, fingerprints are injective, and a bundle's length is a constant plus event lengths plus separators. Identifiers are numbers that do not bind a body: two envelopes with one identifier are possible in the model, a store detects the collision, and where a theorem about two parties needs the hash to bind, that is its hypothesis (SharedWires, Unforged).
- SQL, connections, locks, timeouts and I/O errors: a transaction is one atomic step. Primary and foreign keys, the unique genesis column and the append-only rules are facts about the tables; decoding failures appear only in the verifier's rows.
- HTTP routing, tokens, permits and the command line: plumbing around the modelled calls. Statuses other than success and pagination conflict reach the client as one failed exchange.
- Checked additions on machine integers: counts are unbounded, so the overflow errors of the counters do not occur.
- Identifier order: identifiers are compared by their canonical text everywhere, as the source's ordering does; raw byte order is not distinguished.
- Which of several corruptions a ref listing meets first: a pull over an unlistable namespace fails as corrupt storage without saying which row.
- Order of findings: which defect is listed first, and which of the projection errors names a ref that fails to project for a reason other than a cycle, are not stated.
- Other writers on the client during one pull: the client store changes only by the pull itself; the server may grow between pages.
- HonestPull.PullConverges: needs a byte limit of at least 103 bytes, because the page of an already complete client is an empty bundle of that length and the client applies the limit to it.
- Separate snapshots within one closure or delta: each computation reads one snapshot; the tables are append-only, so a later read of the same event agrees. The iterations of a repair and the moves of a negotiation each have their own.
- Closures.CloseSelection: models the library's search of a vector that is out of order as plain halving, because the library leaves its answer there unspecified; on sorted vectors every search agrees.
- Closures.AdditionsExact: gives two sufficient conditions; outside them the exact report is the one Closures.CloseSelection computes.
- The recorded metric of a minimality claim, selection scoring, tokenizing, capability notes, summaries and the compiler: short pure functions or direct consequences of closure and delta.
- Reading a repair history file back and its write errors: the history is the sequence of its records.
- Subprocess providers and text sanitizing: a provider is an arbitrary outcome.
- Limit constructors, event and receipt field lists, fixtures and schema migration: finite checks.
