/** The bounded repair loop and its append-only history. */
module Repairs {
  import opened Base
  import opened Sorting
  import opened Tables
  import opened Runs
  import opened Samples
  import opened Lineages
  import opened CloseOver
  import opened Closures
  import opened Deltas
  import opened Handoffs

  datatype RepairBounds = RepairBounds(maxIterations: nat, maxReIncluded: nat, maxDeltaBytes: nat) {
    predicate Positive() {
      maxIterations > 0 && maxReIncluded > 0 && maxDeltaBytes > 0
    }
  }

  /** The driver's answer to the handoff it was shown. */
  datatype TaskOutcome = Success | NeedsSource(event: EventId, note: string, closed: ClosedSelection) | Failure(note: string)

  datatype NonConvergence =
    | IterationBudgetExceeded(iterations: nat)
    | ReInclusionBudgetExceeded(reIncluded: nat)
    | ByteBudgetExceeded(bytes: nat)
    | OutcomeFailure(note: string)

  datatype TerminalRecord = Converged | NonConverged(reason: NonConvergence)

  datatype RepairAttempt = RepairAttempt(sequence: nat, iteration: nat, reIncluded: Option<EventId>, note: Option<string>,
                                         events: seq<EventId>, omissions: seq<EventId>, bytes: nat, terminal: Option<TerminalRecord>)

  datatype RepairReport = RepairReport(converged: bool, iterations: nat, reIncluded: seq<EventId>,
                                       nonConvergence: Option<NonConvergence>, handoff: Handoff)

  datatype RepairError = InvalidRepair | HandoffFailed(error: HandoffError)

  /** Records are numbered by their position and never rewritten. */
  class RepairHistory {
    var records: seq<RepairAttempt>
    var sequence: nat

    predicate Valid()
      reads this
    {
      sequence == |records|
    }

    /** Reopening a file continues its numbering. */
    constructor (existing: seq<RepairAttempt>)
      ensures Valid() && records == existing
    {
      records := existing;
      sequence := |existing|;
    }

    method Append(attempt: RepairAttempt)
      requires Valid()
      modifies this
      ensures Valid() && records == old(records) + [attempt.(sequence := |old(records)|)]
    {
      var numbered := attempt.(sequence := sequence);
      sequence := sequence + 1;
      records := records + [numbered];
    }
  }

  function OmissionEvents(omissions: seq<Omission>): seq<EventId> {
    seq(|omissions|, i requires 0 <= i < |omissions| => omissions[i].event)
  }

  /** The record of offering a handoff at one iteration. */
  function Attempted(h: Handoff, iteration: nat): RepairAttempt {
    RepairAttempt(0, iteration, None, None, RefIds(h.delta.references), OmissionEvents(h.omissions), h.delta.totalBytes, None)
  }

  predicate Describes(a: RepairAttempt, h: Handoff) {
    a.events == RefIds(h.delta.references) && a.omissions == OmissionEvents(h.omissions) && a.bytes == h.delta.totalBytes
  }

  /** The re-inclusions so far: numbered and iterated consecutively, none of them terminal, each describing
      the handoff that was offered.  Every offer after the first is within the byte bound. */
  predicate Trail(h: Handoff, bounds: RepairBounds, base: nat, trail: seq<RepairAttempt>, taken: seq<EventId>,
                  offered: seq<Handoff>)
  {
    && |trail| == |taken| && |offered| == |taken| + 1 && offered[0] == h
    && (forall i :: 0 <= i < |trail| ==>
          && trail[i].sequence == base + i && trail[i].iteration == i && trail[i].terminal.None?
          && trail[i].reIncluded == Some(taken[i]) && Describes(trail[i], offered[i]))
    && (forall i :: 1 <= i < |offered| ==> offered[i].delta.totalBytes <= bounds.maxDeltaBytes)
  }

  /** Each offer after the first is the follow-up of the one before for the source its driver asked for,
      against the store as it then was. */
  ghost predicate Negotiated(stores: seq<Tables>, recipient: RecipientState, outcomes: seq<TaskOutcome>,
                             taken: seq<EventId>, offered: seq<Handoff>)
  {
    && |offered| == |taken| + 1 && |taken| <= |outcomes| && |taken| <= |stores|
    && forall i, j :: 0 <= i < |taken| && j == i + 1 ==> Answers(stores[i], recipient, outcomes[i], taken[i], offered[i], offered[j])
  }

  /** The next offer answers what the driver asked of this one. */
  ghost predicate Answers(t: Tables, recipient: RecipientState, outcome: TaskOutcome, event: EventId, h: Handoff, next: Handoff) {
    && outcome.NeedsSource? && outcome.event == event && event in Omitted(h)
    && outcome.note != "" && |outcome.note| <= MAX_NOTE_BYTES
    && FollowedUp(t, h, outcome.closed, recipient, OmissionChallenge(event, outcome.note), Ok(next))
  }

  /** What the current handoff keeps of the first: the taken sources were distinct omissions of it and
      are omissions no longer. */
  ghost predicate Advanced(h: Handoff, bounds: RepairBounds, taken: seq<EventId>, current: Handoff) {
    && Distinct(taken) && Elems(taken) <= Omitted(h) && |taken| <= bounds.maxReIncluded
    && Omitted(current) <= Omitted(h) && Omitted(current) !! Elems(taken)
    && |current.reIncluded| == |h.reIncluded| + |taken|
    && (forall i :: 0 <= i < |taken| ==> current.reIncluded[|h.reIncluded| + i].event == taken[i])
    && (taken == [] ==> current == h)
    && (taken != [] ==> current.delta.totalBytes <= bounds.maxDeltaBytes)
    && (SoundHandoff(h) ==> SoundHandoff(current))
  }

  function Verdict(reason: Option<NonConvergence>): TerminalRecord {
    if reason.Some? then NonConverged(reason.value) else Converged
  }

  /** A completed run: the trail of its re-inclusions and then its one terminal record.  Only a
      convergent run offers anything but the original handoff. */
  ghost predicate Completed(h: Handoff, bounds: RepairBounds, base: nat, added: seq<RepairAttempt>, r: RepairReport,
                            offered: seq<Handoff>)
  {
    var n := |r.reIncluded|;
    && |added| == n + 1
    && Trail(h, bounds, base, added[..n], r.reIncluded, offered)
    && added[n].sequence == base + n && added[n].iteration == n && added[n].reIncluded.None? && Describes(added[n], offered[n])
    && added[n].terminal == Some(Verdict(r.nonConvergence)) && (r.converged <==> r.nonConvergence.None?)
    && Distinct(r.reIncluded) && Elems(r.reIncluded) <= Omitted(h) && n <= bounds.maxReIncluded
    && (r.iterations == n + 1 <= bounds.maxIterations || (r.iterations == n == bounds.maxIterations && !r.converged))
    && (if r.converged then Advanced(h, bounds, r.reIncluded, r.handoff) && r.handoff == offered[n] else r.handoff == h)
  }

  /** The driver asked for a source while there was room, and its follow-up of this offer is too large. */
  ghost predicate Overflows(stores: seq<Tables>, recipient: RecipientState, bounds: RepairBounds, outcomes: seq<TaskOutcome>,
                            n: nat, current: Handoff, bytes: nat)
    requires n < |outcomes| && n < |stores|
  {
    exists next :: Answers(stores[n], recipient, outcomes[n], AskedFor(outcomes[n]), current, next)
                   && next.delta.totalBytes == bytes > bounds.maxDeltaBytes
  }

  function AskedFor(outcome: TaskOutcome): EventId {
    if outcome.NeedsSource? then outcome.event else 0
  }

  function NoteOf(outcome: TaskOutcome): Option<string> {
    match outcome
    case Success => None
    case NeedsSource(_, note, _) => Some(note)
    case Failure(note) => Some(note)
  }

  /** What the report says is what the driver last answered: the run converges exactly on its success, and
      each reason for stopping is given exactly when it is the reason, with its own count. */
  ghost predicate Explained(stores: seq<Tables>, recipient: RecipientState, bounds: RepairBounds, outcomes: seq<TaskOutcome>,
                            r: RepairReport, current: Handoff)
    requires bounds.maxIterations <= |outcomes| && bounds.maxIterations <= |stores|
  {
    var n := |r.reIncluded|;
    var reason := r.nonConvergence;
    var answered := n < bounds.maxIterations;
    && (r.converged <==> answered && outcomes[n].Success?)
    && (r.converged <==> reason == None)
    && (forall note :: reason == Some(OutcomeFailure(note)) <==> answered && outcomes[n] == Failure(note))
    && (forall k :: reason == Some(IterationBudgetExceeded(k)) <==> n == k == bounds.maxIterations)
    && (forall k :: reason == Some(ReInclusionBudgetExceeded(k)) <==>
          answered && outcomes[n].NeedsSource? && n == k == bounds.maxReIncluded)
    && (forall bytes :: reason == Some(ByteBudgetExceeded(bytes)) <==>
          && answered && outcomes[n].NeedsSource? && n < bounds.maxReIncluded
          && Overflows(stores, recipient, bounds, outcomes, n, current, bytes))
    && r.iterations == (if answered then n + 1 else n)
  }

  /** Every record carries the driver's note of its iteration. */
  predicate Noted(bounds: RepairBounds, outcomes: seq<TaskOutcome>, records: seq<RepairAttempt>)
    requires bounds.maxIterations <= |outcomes|
  {
    forall i :: 0 <= i < |records| ==> records[i].note == if i < bounds.maxIterations then NoteOf(outcomes[i]) else None
  }

  /** The driver asked for a source while there was room, and the negotiation refused it. */
  ghost predicate Refuses(t: Tables, recipient: RecipientState, bounds: RepairBounds, outcome: TaskOutcome, n: nat, current: Handoff) {
    && outcome.NeedsSource? && n < bounds.maxReIncluded
    && forall next :: !Answers(t, recipient, outcome, outcome.event, current, next)
  }

  /** A follow-up is refused only when there is none, and when there is one its delta is determined. */
  lemma FollowUpDecided(t: Tables, h: Handoff, closed: ClosedSelection, recipient: RecipientState, challenge: OmissionChallenge,
                        r: Result<Handoff, HandoffError>, next: Handoff)
    requires FollowedUp(t, h, closed, recipient, challenge, r) && FollowedUp(t, h, closed, recipient, challenge, Ok(next))
    requires Ascending(RefIds(closed.references)) && Ascending(recipient.closure)
    ensures r.Ok? && r.value.delta.totalBytes == next.delta.totalBytes
  {
    hide VerifyValid, RefIds, Ascending, Kept, TotalBytes, HeadKnown, Omitted;
    DeltaShape(t, closed, recipient, next.delta);
  }

  /** Where a run stops decides what it reports. */
  lemma StopExplained(stores: seq<Tables>, recipient: RecipientState, bounds: RepairBounds, outcomes: seq<TaskOutcome>,
                      r: RepairReport, current: Handoff, next: Handoff)
    requires bounds.maxIterations <= |outcomes| && bounds.maxIterations <= |stores| && Ascending(recipient.closure)
    requires forall i :: 0 <= i < |outcomes| && outcomes[i].NeedsSource? ==> Ascending(RefIds(outcomes[i].closed.references))
    requires |r.reIncluded| <= bounds.maxReIncluded && |r.reIncluded| <= bounds.maxIterations
    requires r.converged <==> r.nonConvergence == None
    requires r.iterations == if |r.reIncluded| < bounds.maxIterations then |r.reIncluded| + 1 else |r.reIncluded|
    requires var n := |r.reIncluded|;
      if n == bounds.maxIterations then r.nonConvergence == Some(IterationBudgetExceeded(n))
      else match outcomes[n]
        case Success => r.nonConvergence == None
        case Failure(note) => r.nonConvergence == Some(OutcomeFailure(note))
        case NeedsSource(event, _, _) =>
          if n == bounds.maxReIncluded then r.nonConvergence == Some(ReInclusionBudgetExceeded(n))
          else
            && Answers(stores[n], recipient, outcomes[n], event, current, next)
            && next.delta.totalBytes > bounds.maxDeltaBytes && r.nonConvergence == Some(ByteBudgetExceeded(next.delta.totalBytes))
    ensures Explained(stores, recipient, bounds, outcomes, r, current)
  {
    hide FollowedUp, Omitted, RefIds, Ascending;
    var n := |r.reIncluded|;
    if n < bounds.maxIterations && outcomes[n].NeedsSource? && n < bounds.maxReIncluded {
      forall other | Answers(stores[n], recipient, outcomes[n], outcomes[n].event, current, other)
        ensures other.delta.totalBytes == next.delta.totalBytes
      {
        FollowUpDecided(stores[n], current, outcomes[n].closed, recipient, OmissionChallenge(outcomes[n].event, outcomes[n].note), Ok(next), other);
      }
      assert Overflows(stores, recipient, bounds, outcomes, n, current, next.delta.totalBytes);
    }
  }

  lemma RequestRefused(t: Tables, recipient: RecipientState, bounds: RepairBounds, outcome: TaskOutcome, n: nat, current: Handoff,
                       r: Result<Handoff, HandoffError>)
    requires outcome.NeedsSource? && n < bounds.maxReIncluded && r.Err?
    requires Ascending(RefIds(outcome.closed.references)) && Ascending(recipient.closure)
    requires Challenge(current, outcome.event, outcome.note).Ok? ==>
      FollowedUp(t, current, outcome.closed, recipient, OmissionChallenge(outcome.event, outcome.note), r)
    ensures Refuses(t, recipient, bounds, outcome, n, current)
  {
    hide FollowedUp, Omitted, RefIds, Ascending;
    forall next ensures !Answers(t, recipient, outcome, outcome.event, current, next) {
      if Answers(t, recipient, outcome, outcome.event, current, next) {
        FollowUpDecided(t, current, outcome.closed, recipient, OmissionChallenge(outcome.event, outcome.note), r, next);
      }
    }
  }

  lemma Began(h: Handoff, bounds: RepairBounds, base: nat, stores: seq<Tables>, recipient: RecipientState,
              outcomes: seq<TaskOutcome>)
    ensures Trail(h, bounds, base, [], [], [h]) && Advanced(h, bounds, [], h) && Negotiated(stores, recipient, outcomes, [], [h])
  {
    assert Elems<EventId>([]) == {};
  }

  /** One more re-inclusion: the source was a listed omission, so it was never taken before. */
  lemma Took(t: Tables, h: Handoff, bounds: RepairBounds, taken: seq<EventId>, current: Handoff,
             closed: ClosedSelection, recipient: RecipientState, challenge: OmissionChallenge, next: Handoff)
    requires Advanced(h, bounds, taken, current) && |taken| < bounds.maxReIncluded
    requires FollowedUp(t, current, closed, recipient, challenge, Ok(next)) && challenge.event in Omitted(current)
    requires SoundHandoff(current) ==> SoundHandoff(next)
    requires next.delta.totalBytes <= bounds.maxDeltaBytes
    ensures Advanced(h, bounds, taken + [challenge.event], next)
  {
    hide VerifyValid, Computed, Carried, Omitted, SoundHandoff, Remaining;
    RemainingIs(current.omissions, Carried(next));
    assert Omitted(next) == Omitted(current) - Carried(next) by { OmittedIs(next); OmittedIs(current); }
    var now := taken + [challenge.event];
    assert Elems(now) == Elems(taken) + {challenge.event};
    forall i | 0 <= i < |taken| ensures taken[i] != challenge.event {
      assert taken[i] in Elems(taken);
    }
  }

  lemma TrailGrows(h: Handoff, bounds: RepairBounds, base: nat, trail: seq<RepairAttempt>, taken: seq<EventId>,
                   offered: seq<Handoff>, a: RepairAttempt, x: EventId, next: Handoff)
    requires Trail(h, bounds, base, trail, taken, offered) && Describes(a, offered[|taken|])
    requires next.delta.totalBytes <= bounds.maxDeltaBytes
    requires a.sequence == base + |trail| && a.iteration == |taken| && a.terminal.None? && a.reIncluded == Some(x)
    ensures Trail(h, bounds, base, trail + [a], taken + [x], offered + [next])
  {
    hide Describes;
  }

  lemma NegotiatedGrows(stores: seq<Tables>, recipient: RecipientState, outcomes: seq<TaskOutcome>, taken: seq<EventId>,
                        offered: seq<Handoff>, x: EventId, next: Handoff)
    requires Negotiated(stores, recipient, outcomes, taken, offered) && |taken| < |outcomes| && |taken| < |stores|
    requires Answers(stores[|taken|], recipient, outcomes[|taken|], x, offered[|taken|], next)
    ensures Negotiated(stores, recipient, outcomes, taken + [x], offered + [next])
  {
    hide Answers;
    var now, offers := taken + [x], offered + [next];
    forall i, j | 0 <= i < |now| && j == i + 1 ensures Answers(stores[i], recipient, outcomes[i], now[i], offers[i], offers[j]) {
      if i < |taken| {
        assert Answers(stores[i], recipient, outcomes[i], taken[i], offered[i], offered[j]);
      }
    }
  }

  lemma OmittedIs(h: Handoff)
    ensures Omitted(h) == OmittedBy(h.omissions)
  {
  }

  /** What a run is given. */
  datatype Setting = Setting(stores: seq<Tables>, h: Handoff, recipient: RecipientState, bounds: RepairBounds,
                             outcomes: seq<TaskOutcome>, base: nat)
  {
    predicate Proper() {
      && |outcomes| >= bounds.maxIterations && |stores| >= bounds.maxIterations && Ascending(recipient.closure)
      && forall i :: 0 <= i < |outcomes| && outcomes[i].NeedsSource? ==> Ascending(RefIds(outcomes[i].closed.references))
    }
  }

  /** Where a run stands between iterations. */
  ghost predicate Running(s: Setting, trail: seq<RepairAttempt>, taken: seq<EventId>, offered: seq<Handoff>, current: Handoff)
    requires s.Proper()
  {
    && Trail(s.h, s.bounds, s.base, trail, taken, offered) && Negotiated(s.stores, s.recipient, s.outcomes, taken, offered)
    && Noted(s.bounds, s.outcomes, trail) && Advanced(s.h, s.bounds, taken, current)
    && |taken| <= s.bounds.maxReIncluded && |trail| == |taken| && |offered| == |taken| + 1 && offered[|taken|] == current
  }

  /** A run that reports: its records, its negotiation and its reason. */
  ghost predicate Reported(s: Setting, added: seq<RepairAttempt>, r: RepairReport, offered: seq<Handoff>)
    requires s.Proper()
  {
    && Completed(s.h, s.bounds, s.base, added, r, offered)
    && Negotiated(s.stores, s.recipient, s.outcomes, r.reIncluded, offered)
    && |r.reIncluded| < |offered| && Explained(s.stores, s.recipient, s.bounds, s.outcomes, r, offered[|r.reIncluded|])
    && Noted(s.bounds, s.outcomes, added)
  }

  /** A run that fails after it began: the trail so far, and then a refused request. */
  ghost predicate Halted(s: Setting, added: seq<RepairAttempt>, offered: seq<Handoff>, taken: seq<EventId>)
    requires s.Proper()
  {
    var n := |taken|;
    && Trail(s.h, s.bounds, s.base, added, taken, offered) && Negotiated(s.stores, s.recipient, s.outcomes, taken, offered)
    && Noted(s.bounds, s.outcomes, added)
    && n < s.bounds.maxIterations && Refuses(s.stores[n], s.recipient, s.bounds, s.outcomes[n], n, offered[n])
  }

  lemma Starts(s: Setting)
    requires s.Proper()
    ensures Running(s, [], [], [s.h], s.h)
  {
    hide Trail, Advanced, Negotiated, Noted;
    Began(s.h, s.bounds, s.base, s.stores, s.recipient, s.outcomes);
    NotedNone(s.bounds, s.outcomes);
  }

  /** The last record and its report. */
  lemma Finishes(s: Setting, trail: seq<RepairAttempt>, taken: seq<EventId>, offered: seq<Handoff>, current: Handoff,
                 last: RepairAttempt, r: RepairReport, next: Handoff)
    requires s.Proper() && Running(s, trail, taken, offered, current) && |taken| <= s.bounds.maxIterations
    requires Describes(last, current) && last.sequence == s.base + |taken| && last.iteration == |taken| && last.reIncluded.None?
    requires last.terminal == Some(Verdict(r.nonConvergence)) && (r.converged <==> r.nonConvergence.None?)
    requires last.note == if |taken| < s.bounds.maxIterations then NoteOf(s.outcomes[|taken|]) else None
    requires r.reIncluded == taken && r.handoff == if r.converged then current else s.h
    requires r.iterations == if |taken| < s.bounds.maxIterations then |taken| + 1 else |taken|
    requires var n := |taken|;
      if n == s.bounds.maxIterations then r.nonConvergence == Some(IterationBudgetExceeded(n))
      else match s.outcomes[n]
        case Success => r.nonConvergence == None
        case Failure(note) => r.nonConvergence == Some(OutcomeFailure(note))
        case NeedsSource(event, _, _) =>
          if n == s.bounds.maxReIncluded then r.nonConvergence == Some(ReInclusionBudgetExceeded(n))
          else
            && Answers(s.stores[n], s.recipient, s.outcomes[n], event, current, next)
            && next.delta.totalBytes > s.bounds.maxDeltaBytes && r.nonConvergence == Some(ByteBudgetExceeded(next.delta.totalBytes))
    ensures Reported(s, trail + [last], r, offered)
  {
    hide Trail, Advanced, Negotiated, Noted, Describes, Answers, Completed, Explained, RefIds, Ascending;
    Concluded(s.h, s.bounds, s.base, trail, taken, offered, last, r);
    NotedNext(s.bounds, s.outcomes, trail, last);
    StopExplained(s.stores, s.recipient, s.bounds, s.outcomes, r, current, next);
  }

  /** One more record, and the follow-up takes the offer's place. */
  lemma Continues(s: Setting, trail: seq<RepairAttempt>, taken: seq<EventId>, offered: seq<Handoff>, current: Handoff,
                  kept: RepairAttempt, event: EventId, next: Handoff)
    requires s.Proper() && Running(s, trail, taken, offered, current) && |taken| < s.bounds.maxIterations
    requires |taken| < s.bounds.maxReIncluded && next.delta.totalBytes <= s.bounds.maxDeltaBytes
    requires Describes(kept, current) && kept.sequence == s.base + |taken| && kept.iteration == |taken| && kept.terminal.None?
    requires kept.reIncluded == Some(event) && kept.note == NoteOf(s.outcomes[|taken|])
    requires Answers(s.stores[|taken|], s.recipient, s.outcomes[|taken|], event, current, next)
    requires SoundHandoff(current) ==> SoundHandoff(next)
    ensures Running(s, trail + [kept], taken + [event], offered + [next], next)
  {
    hide Trail, Advanced, Negotiated, Noted, Describes, SoundHandoff, FollowedUp, Omitted, RefIds, Ascending;
    var o := s.outcomes[|taken|];
    Took(s.stores[|taken|], s.h, s.bounds, taken, current, o.closed, s.recipient, OmissionChallenge(event, o.note), next);
    TrailGrows(s.h, s.bounds, s.base, trail, taken, offered, kept, event, next);
    NotedNext(s.bounds, s.outcomes, trail, kept);
    NegotiatedGrows(s.stores, s.recipient, s.outcomes, taken, offered, event, next);
  }

  lemma Fails(s: Setting, trail: seq<RepairAttempt>, taken: seq<EventId>, offered: seq<Handoff>, current: Handoff, r: Result<Handoff, HandoffError>)
    requires s.Proper() && Running(s, trail, taken, offered, current) && |taken| < s.bounds.maxIterations
    requires var o := s.outcomes[|taken|];
      && o.NeedsSource? && |taken| < s.bounds.maxReIncluded && r.Err?
      && (Challenge(current, o.event, o.note).Ok? ==>
            FollowedUp(s.stores[|taken|], current, o.closed, s.recipient, OmissionChallenge(o.event, o.note), r))
    ensures Halted(s, trail, offered, taken)
  {
    hide Trail, Advanced, Negotiated, Noted, FollowedUp, Challenge, RefIds, Ascending, Refuses;
    RequestRefused(s.stores[|taken|], s.recipient, s.bounds, s.outcomes[|taken|], |taken|, current, r);
  }

  lemma TrailNotes(s: Setting, trail: seq<RepairAttempt>, taken: seq<EventId>, offered: seq<Handoff>, current: Handoff)
    requires s.Proper() && Running(s, trail, taken, offered, current)
    ensures |trail| == |taken| <= s.bounds.maxReIncluded && |offered| == |taken| + 1 && offered[|taken|] == current
  {
  }

  /** `outcomes` is whatever the driver answers and `stores` what the store holds, iteration by iteration. */
  method RunRepair(stores: seq<Tables>, h: Handoff, recipient: RecipientState, bounds: RepairBounds,
                   outcomes: seq<TaskOutcome>, history: RepairHistory)
    returns (r: Result<RepairReport, RepairError>, ghost offered: seq<Handoff>)
    requires history.Valid() && Setting(stores, h, recipient, bounds, outcomes, |history.records|).Proper()
    modifies history
    ensures history.Valid() && old(history.records) <= history.records
    ensures !bounds.Positive() ==> r == Err(InvalidRepair) && history.records == old(history.records)
    ensures var s := Setting(stores, h, recipient, bounds, outcomes, |old(history.records)|); var added := history.records[s.base..];
      && (r.Ok? ==> Reported(s, added, r.value, offered))
      && (r.Err? && bounds.Positive() ==> r.error.HandoffFailed? && exists taken :: Halted(s, added, offered, taken))
    ensures bounds.Positive() && outcomes[0].Success? ==> r == Ok(RepairReport(true, 1, [], None, h))
  {
    hide VerifyValid, FollowedUp, Carried, Omitted, SoundHandoff, Remaining, RefIds, OmissionEvents, Running, Reported, Halted,
         Answers, Challenge, Ascending, Attempted;
    ghost var s := Setting(stores, h, recipient, bounds, outcomes, |history.records|);
    offered := [h];
    Starts(s);
    assert history.records[s.base..] == [];
    if !bounds.Positive() {
      return Err(InvalidRepair), offered;
    }
    var current := h;
    var taken: seq<EventId> := [];
    for iteration := 0 to bounds.maxIterations
      invariant history.Valid() && old(history.records) <= history.records
      invariant |taken| == iteration && |history.records| == s.base + iteration
      invariant Running(s, history.records[s.base..], taken, offered, current)
      invariant if iteration == 0 then current == h else !outcomes[0].Success?
    {
      var outcome := outcomes[iteration];
      var attempt := Attempted(current, iteration);
      AttemptedIs(current, iteration);
      ghost var trail := history.records[s.base..];
      TrailNotes(s, trail, taken, offered, current);
      match outcome {
        case Success =>
          var last := attempt.(terminal := Some(Converged));
          history.Append(last);
          assert history.records[s.base..] == trail + [last.(sequence := s.base + iteration)];
          r := Ok(RepairReport(true, iteration + 1, taken, None, current));
          Finishes(s, trail, taken, offered, current, last.(sequence := s.base + iteration), r.value, current);
          return;
        case Failure(note) =>
          var reason := OutcomeFailure(note);
          var last := attempt.(note := Some(note), terminal := Some(NonConverged(reason)));
          history.Append(last);
          assert history.records[s.base..] == trail + [last.(sequence := s.base + iteration)];
          r := Ok(RepairReport(false, iteration + 1, taken, Some(reason), h));
          Finishes(s, trail, taken, offered, current, last.(sequence := s.base + iteration), r.value, current);
          return;
        case NeedsSource(event, note, closed) =>
          if |taken| >= bounds.maxReIncluded {
            var reason := ReInclusionBudgetExceeded(|taken|);
            var last := attempt.(note := Some(note), terminal := Some(NonConverged(reason)));
            history.Append(last);
            assert history.records[s.base..] == trail + [last.(sequence := s.base + iteration)];
            r := Ok(RepairReport(false, iteration + 1, taken, Some(reason), h));
            Finishes(s, trail, taken, offered, current, last.(sequence := s.base + iteration), r.value, current);
            return;
          }
          var challenge := Challenge(current, event, note);
          ChallengeIs(current, event, note);
          if challenge.Err? {
            Fails(s, trail, taken, offered, current, Err(challenge.error));
            return Err(HandoffFailed(challenge.error)), offered;
          }
          var followUp := FollowUp(stores[iteration], current, closed, recipient, challenge.value);
          if followUp.Err? {
            Fails(s, trail, taken, offered, current, followUp);
            return Err(HandoffFailed(followUp.error)), offered;
          }
          AskedAnswered(stores[iteration], recipient, outcome, current, followUp.value);
          if followUp.value.delta.totalBytes > bounds.maxDeltaBytes {
            var reason := ByteBudgetExceeded(followUp.value.delta.totalBytes);
            var last := attempt.(note := Some(note), terminal := Some(NonConverged(reason)));
            history.Append(last);
            assert history.records[s.base..] == trail + [last.(sequence := s.base + iteration)];
            r := Ok(RepairReport(false, iteration + 1, taken, Some(reason), h));
            Finishes(s, trail, taken, offered, current, last.(sequence := s.base + iteration), r.value, followUp.value);
            return;
          }
          var kept := attempt.(reIncluded := Some(event), note := Some(note));
          history.Append(kept);
          assert history.records[s.base..] == trail + [kept.(sequence := s.base + iteration)];
          Continues(s, trail, taken, offered, current, kept.(sequence := s.base + iteration), event, followUp.value);
          taken := taken + [event];
          offered := offered + [followUp.value];
          current := followUp.value;
      }
    }
    ghost var trail := history.records[s.base..];
    var reason := IterationBudgetExceeded(bounds.maxIterations);
    var attempt := Attempted(current, bounds.maxIterations);
    AttemptedIs(current, bounds.maxIterations);
    var last := attempt.(terminal := Some(NonConverged(reason)));
    history.Append(last);
    assert history.records[s.base..] == trail + [last.(sequence := s.base + bounds.maxIterations)];
    r := Ok(RepairReport(false, bounds.maxIterations, taken, Some(reason), h));
    Finishes(s, trail, taken, offered, current, last.(sequence := s.base + bounds.maxIterations), r.value, current);
  }

  lemma AttemptedIs(h: Handoff, iteration: nat)
    ensures var a := Attempted(h, iteration);
      && a.iteration == iteration && a.reIncluded.None? && a.note.None? && a.terminal.None?
      && a.events == RefIds(h.delta.references) && a.omissions == OmissionEvents(h.omissions) && a.bytes == h.delta.totalBytes
  {
  }

  lemma ChallengeIs(h: Handoff, event: EventId, note: string)
    ensures Challenge(h, event, note).Ok? ==> Challenge(h, event, note).value == OmissionChallenge(event, note)
  {
    hide Omitted;
  }

  lemma NotedNone(bounds: RepairBounds, outcomes: seq<TaskOutcome>)
    requires bounds.maxIterations <= |outcomes|
    ensures Noted(bounds, outcomes, [])
  {
  }

  lemma NotedNext(bounds: RepairBounds, outcomes: seq<TaskOutcome>, trail: seq<RepairAttempt>, a: RepairAttempt)
    requires bounds.maxIterations <= |outcomes| && Noted(bounds, outcomes, trail)
    requires a.note == if |trail| < bounds.maxIterations then NoteOf(outcomes[|trail|]) else None
    ensures Noted(bounds, outcomes, trail + [a])
  {
  }

  lemma AskedAnswered(t: Tables, recipient: RecipientState, outcome: TaskOutcome, current: Handoff, next: Handoff)
    requires outcome.NeedsSource? && Challenge(current, outcome.event, outcome.note).Ok?
    requires FollowedUp(t, current, outcome.closed, recipient, OmissionChallenge(outcome.event, outcome.note), Ok(next))
    ensures Answers(t, recipient, outcome, outcome.event, current, next)
  {
    hide FollowedUp, Omitted;
  }

  lemma Concluded(h: Handoff, bounds: RepairBounds, base: nat, trail: seq<RepairAttempt>, taken: seq<EventId>,
                  offered: seq<Handoff>, last: RepairAttempt, r: RepairReport)
    requires Trail(h, bounds, base, trail, taken, offered) && Advanced(h, bounds, taken, offered[|taken|])
    requires Describes(last, offered[|taken|]) && last.sequence == base + |taken| && last.iteration == |taken| && last.reIncluded.None?
    requires last.terminal == Some(Verdict(r.nonConvergence)) && (r.converged <==> r.nonConvergence.None?)
    requires r.reIncluded == taken && r.handoff == if r.converged then offered[|taken|] else h
    requires r.iterations == |taken| + 1 <= bounds.maxIterations || (r.iterations == |taken| == bounds.maxIterations && !r.converged)
    ensures Completed(h, bounds, base, trail + [last], r, offered)
  {
    hide SoundHandoff, Omitted, RefIds, OmissionEvents, Describes;
    assert (trail + [last])[..|taken|] == trail;
  }

  // ---------------------------------------------------------------- the byte bound

  /** The bound promised for every handoff of a run holds, in the records and in the offers, exactly when
      the given handoff meets it: nothing checks the first one. */
  lemma BoundKeptWhen(h: Handoff, bounds: RepairBounds, base: nat, added: seq<RepairAttempt>, r: RepairReport,
                      offered: seq<Handoff>)
    requires Completed(h, bounds, base, added, r, offered)
    ensures (forall i :: 0 <= i < |added| ==> added[i].bytes <= bounds.maxDeltaBytes) <==> h.delta.totalBytes <= bounds.maxDeltaBytes
    ensures (forall i :: 0 <= i < |offered| ==> offered[i].delta.totalBytes <= bounds.maxDeltaBytes)
            <==> h.delta.totalBytes <= bounds.maxDeltaBytes
  {
    hide SoundHandoff, Omitted, RefIds, OmissionEvents, Advanced;
    var n := |r.reIncluded|;
    forall i | 0 <= i < |added| ensures added[i].bytes == offered[i].delta.totalBytes {
      if i < n { assert Describes(added[..n][i], offered[i]); }
    }
  }

  /** On a reachable store a handoff of four payload bytes completes every run it can complete under a bound
      of three, and the first record already exceeds that bound. */
  lemma FirstOfferUnchecked(closed: Result<ClosedSelection, LineageError>, d: Result<Delta, LineageError>,
                            bounds: RepairBounds, base: nat,
                            added: seq<RepairAttempt>, r: RepairReport, offered: seq<Handoff>)
    requires SelectionCloses(Run(EMPTY, SampleOps(FAN)), 0, [2], [2], ["risk"], ROOMY, closed)
    requires closed.Ok? ==> Computed(Run(EMPTY, SampleOps(FAN)), closed.value, ColdStart(0), d)
    requires bounds.maxDeltaBytes == 3 && (d.Ok? ==> Completed(Offered(d.value), bounds, base, added, r, offered))
    ensures d.Ok? && SoundHandoff(Offered(d.value)) && added[0].bytes == 4 > bounds.maxDeltaBytes
  {
    hide *;
    FanCloses(2, closed);
    OfferedIs(Run(EMPTY, SampleOps(FAN)), closed.value, d);
    OfferedRecord(d.value);
    FirstRecord(Offered(d.value), bounds, base, added, r, offered);
  }

  lemma FirstRecord(h: Handoff, bounds: RepairBounds, base: nat, added: seq<RepairAttempt>, r: RepairReport,
                    offered: seq<Handoff>)
    requires Completed(h, bounds, base, added, r, offered)
    ensures |added| > 0 && added[0].bytes == h.delta.totalBytes
  {
    hide SoundHandoff, Omitted, RefIds, OmissionEvents, Advanced;
    if |r.reIncluded| > 0 { assert Describes(added[..|r.reIncluded|][0], offered[0]); }
  }
}
