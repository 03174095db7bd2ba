/** State-bound handoffs and their negotiation. */
module Handoffs {
  import opened Base
  import opened Sorting
  import opened Weights
  import opened Graph
  import opened Names
  import opened Tables
  import opened Runs
  import opened Projections
  import opened Convergence
  import opened Lineages
  import opened CloseOver
  import opened Invocations
  import opened Samples
  import opened Closures
  import opened Deltas

  const MAX_OMISSIONS := 4096
  const MAX_UNCERTAINTY_NOTES := 64
  const MAX_NOTE_BYTES := 1024

  datatype OmissionReason = NotSelected | Deliberate | CapabilityMismatch
  datatype Omission = Omission(event: EventId, reason: OmissionReason)

  // One character of a note stands for one byte.
  datatype OmissionChallenge = OmissionChallenge(event: EventId, note: string)
  datatype ReIncluded = ReIncluded(event: EventId, challenge: OmissionChallenge)
  datatype Handoff = Handoff(delta: Delta, omissions: seq<Omission>, uncertainty: seq<string>, reIncluded: seq<ReIncluded>)

  datatype HandoffError =
    | Stale(computed: Option<EventId>, current: Option<EventId>)
    | HeadUnknown(head: EventId)
    | HeadOutside(event: EventId)
    | Invalid
    | StoreUnreadable(error: StoreError)
    | UnknownOmission(event: EventId)
    | DeltaFailed(cause: LineageError)

  function Carried(h: Handoff): set<EventId> {
    Elems(RefIds(h.delta.references))
  }

  function OmittedBy(omissions: seq<Omission>): set<EventId> {
    set o | o in omissions :: o.event
  }

  function Omitted(h: Handoff): set<EventId> {
    OmittedBy(h.omissions)
  }

  predicate OmissionsAscend(s: seq<Omission>) {
    forall i, j :: 0 <= i < j < |s| ==> s[i].event < s[j].event
  }

  predicate NotesAscend(s: seq<string>) {
    forall i, j :: 0 <= i < j < |s| ==> Before(s[i], s[j])
  }

  /** Carried references and the recipient's history are in canonical order. */
  predicate Canonical(d: Delta) {
    Ascending(RefIds(d.references)) && Ascending(d.recipientClosure)
  }

  /** Omissions are sorted, distinct and never carried; the recorded head is known to the recipient. */
  ghost predicate SoundHandoff(h: Handoff) {
    && Canonical(h.delta)
    && OmissionsAscend(h.omissions) && |h.omissions| <= MAX_OMISSIONS
    && Omitted(h) !! Carried(h)
    && NotesAscend(h.uncertainty) && |h.uncertainty| <= MAX_UNCERTAINTY_NOTES
    && (h.delta.recipientHead.Some? ==> h.delta.recipientHead.value in h.delta.recipientClosure)
  }

  // ---------------------------------------------------------------- building

  method FromDelta(d: Delta) returns (r: Result<Handoff, HandoffError>)
    requires Canonical(d)
    ensures r.Ok? <==> (d.recipientHead.Some? ==> d.recipientHead.value in d.recipientClosure)
    ensures r.Ok? ==> r.value == Handoff(d, [], [], []) && SoundHandoff(r.value)
    ensures r.Err? ==> r.error == Invalid
  {
    hide RefIds, Ascending;
    if d.recipientHead.Some? {
      var found := BinarySearch(d.recipientClosure, d.recipientHead.value);
      if !found {
        return Err(Invalid);
      }
    }
    r := Ok(Handoff(d, [], [], []));
  }

  /** Pushes a record and restores the order by event. */
  function InsertOmission(s: seq<Omission>, x: Omission): (r: seq<Omission>)
    ensures |r| == |s| + 1 && forall y :: y in r <==> y == x || y in s
  {
    if s == [] || s[|s| - 1].event < x.event then s + [x]
    else
      var init := s[..|s| - 1];
      assert forall y :: y in s <==> y in init || y == s[|s| - 1];
      InsertOmission(init, x) + [s[|s| - 1]]
  }

  lemma InsertionMembers(s: seq<Omission>, x: Omission)
    ensures OmittedBy(InsertOmission(s, x)) == OmittedBy(s) + {x.event}
  {
    hide InsertOmission;
  }

  lemma {:induction false} InsertionSorts(s: seq<Omission>, x: Omission)
    requires OmissionsAscend(s) && forall o :: o in s ==> o.event != x.event
    ensures OmissionsAscend(InsertOmission(s, x))
  {
    if s != [] && s[|s| - 1].event >= x.event {
      var init := s[..|s| - 1];
      InsertionSorts(init, x);
      var t := InsertOmission(init, x);
      forall i | 0 <= i < |t| ensures t[i].event < s[|s| - 1].event {
        assert t[i] in t;
        assert s[|s| - 1] in s;
      }
    }
  }

  lemma InsertionOrder(s: seq<Omission>, x: Omission)
    requires OmissionsAscend(s) && x.event !in OmittedBy(s)
    ensures OmissionsAscend(InsertOmission(s, x)) && OmittedBy(InsertOmission(s, x)) == OmittedBy(s) + {x.event}
  {
    hide InsertOmission, OmissionsAscend;
    InsertionSorts(s, x);
    InsertionMembers(s, x);
  }

  /** Listing an event that is already listed changes nothing. */
  function Listed(s: seq<Omission>, event: EventId, reason: OmissionReason): seq<Omission> {
    if event in OmittedBy(s) then s else InsertOmission(s, Omission(event, reason))
  }

  /** Lists a source the handoff does not carry; listing it again changes nothing. */
  method WithOmission(h: Handoff, event: EventId, reason: OmissionReason) returns (r: Result<Handoff, HandoffError>)
    requires SoundHandoff(h)
    ensures r.Ok? <==> event !in Carried(h) && (event in Omitted(h) || |h.omissions| < MAX_OMISSIONS)
    ensures r.Ok? ==> SoundHandoff(r.value) && Omitted(r.value) == Omitted(h) + {event}
    ensures r.Ok? ==> r.value == h.(omissions := Listed(h.omissions, event, reason))
  {
    hide RefIds, NotesAscend, Ascending, OmissionsAscend, InsertOmission;
    var carried := BinarySearch(RefIds(h.delta.references), event);
    MemberElems(RefIds(h.delta.references), event);
    if carried {
      return Err(Invalid);
    }
    if event in OmittedBy(h.omissions) {
      return Ok(h);
    }
    if |h.omissions| >= MAX_OMISSIONS {
      return Err(Invalid);
    }
    InsertionOrder(h.omissions, Omission(event, reason));
    r := Ok(h.(omissions := InsertOmission(h.omissions, Omission(event, reason))));
  }

  lemma {:induction false} BeforeTotal(a: string, b: string)
    ensures a == b || Before(a, b) || Before(b, a)
    decreases |a|
  {
    if a != "" && b != "" && a[0] == b[0] {
      BeforeTotal(a[1..], b[1..]);
      if a[1..] == b[1..] {
        assert a == [a[0]] + a[1..] && b == [b[0]] + b[1..];
      }
    }
  }

  /** Pushes a note, restores the order and drops a repetition. */
  function InsertNote(s: seq<string>, x: string): (r: seq<string>)
    ensures |s| <= |r| <= |s| + 1 && forall y :: y in r <==> y == x || y in s
  {
    if s == [] then [x]
    else
      var last := s[|s| - 1];
      var init := s[..|s| - 1];
      assert forall y :: y in s <==> y in init || y == last;
      if last == x then s
      else if Before(last, x) then s + [x]
      else InsertNote(init, x) + [last]
  }

  lemma {:induction false} NoteOrder(s: seq<string>, x: string)
    requires NotesAscend(s)
    ensures NotesAscend(InsertNote(s, x)) && |InsertNote(s, x)| == |s| + if x in s then 0 else 1
  {
    hide Before;
    if s != [] {
      var last := s[|s| - 1];
      var init := s[..|s| - 1];
      if last != x {
        BeforeTotal(x, last);
        NoteOrder(init, x);
        var t := InsertNote(init, x);
        forall i | 0 <= i < |init| ensures Before(last, x) ==> Before(init[i], x) {
          BeforeStrict(init[i], last, x);
        }
        forall i | 0 <= i < |t| ensures Before(x, last) ==> Before(t[i], last) {
          assert t[i] in t;
        }
        if x in s && Before(last, x) {
          var i :| 0 <= i < |init| && init[i] == x;
          BeforeStrict(x, x, x);
        }
      }
    }
  }

  /** Records one marker; the list stays sorted, duplicate-free and bounded. */
  method WithUncertainty(h: Handoff, note: string) returns (r: Result<Handoff, HandoffError>)
    requires SoundHandoff(h)
    ensures r.Ok? <==> note != "" && |note| <= MAX_NOTE_BYTES && (note in h.uncertainty || |h.uncertainty| < MAX_UNCERTAINTY_NOTES)
    ensures r.Ok? ==> SoundHandoff(r.value) && r.value == h.(uncertainty := InsertNote(h.uncertainty, note))
  {
    hide RefIds, Ascending, InsertNote, NotesAscend;
    if note == "" || |note| > MAX_NOTE_BYTES {
      return Err(Invalid);
    }
    NoteOrder(h.uncertainty, note);
    var notes := InsertNote(h.uncertainty, note);
    if |notes| > MAX_UNCERTAINTY_NOTES {
      return Err(Invalid);
    }
    r := Ok(h.(uncertainty := notes));
  }

  // ---------------------------------------------------------------- validity

  function HeadReads(t: Tables, c: ContextId, head: Option<EventId>): Result<(), HandoffError> {
    if head.None? then Ok(())
    else
      match ReadEvent(t, head.value)
      case Err(e) => Err(StoreUnreadable(e))
      case Ok(None) => Err(HeadUnknown(head.value))
      case Ok(Some(e)) => if e.body.context == c then Ok(()) else Err(HeadOutside(head.value))
  }

  function VerifyValid(t: Tables, h: Handoff, current: Option<EventId>): Result<(), HandoffError> {
    var c := h.delta.context;
    var _ :- HeadReads(t, c, h.delta.recipientHead);
    var _ :- HeadReads(t, c, current);
    if h.delta.recipientHead != current then Err(Stale(h.delta.recipientHead, current)) else Ok(())
  }

  /** A handoff is deliverable exactly to a recipient still at its head, when that head is an event of
      the context; otherwise two known heads that differ are reported as stale. */
  lemma ValidExactlyAtHead(t: Tables, h: Handoff, current: Option<EventId>)
    ensures VerifyValid(t, h, current).Ok? <==> current == h.delta.recipientHead && HeadKnown(t, h.delta.context, current)
    ensures HeadKnown(t, h.delta.context, current) && HeadKnown(t, h.delta.context, h.delta.recipientHead) && current != h.delta.recipientHead ==>
      VerifyValid(t, h, current) == Err(Stale(h.delta.recipientHead, current))
  {
    hide ReadEvent;
  }

  // ---------------------------------------------------------------- negotiation

  function Challenge(h: Handoff, event: EventId, note: string): Result<OmissionChallenge, HandoffError> {
    if note == "" || |note| > MAX_NOTE_BYTES then Err(Invalid)
    else if event !in Omitted(h) then Err(UnknownOmission(event))
    else Ok(OmissionChallenge(event, note))
  }

  function Remaining(s: seq<Omission>, carried: set<EventId>): seq<Omission> {
    if s == [] then []
    else
      var o := s[|s| - 1];
      Remaining(s[..|s| - 1], carried) + if o.event in carried then [] else [o]
  }

  lemma {:induction false} RemainingFrom(s: seq<Omission>, carried: set<EventId>)
    ensures |Remaining(s, carried)| <= |s|
    ensures forall o :: o in Remaining(s, carried) <==> o in s && o.event !in carried
  {
    if s != [] {
      var init := s[..|s| - 1];
      RemainingFrom(init, carried);
      assert s == init + [s[|s| - 1]];
    }
  }

  lemma {:induction false} RemainingOrder(s: seq<Omission>, carried: set<EventId>)
    requires OmissionsAscend(s)
    ensures OmissionsAscend(Remaining(s, carried))
  {
    if s != [] {
      var init := s[..|s| - 1];
      RemainingOrder(init, carried);
      RemainingFrom(init, carried);
      var k := Remaining(init, carried);
      forall i | 0 <= i < |k| ensures k[i].event < s[|s| - 1].event {
        assert k[i] in init;
      }
    }
  }

  lemma RemainingIs(s: seq<Omission>, carried: set<EventId>)
    ensures OmittedBy(Remaining(s, carried)) == OmittedBy(s) - carried
    ensures |Remaining(s, carried)| <= |s| && forall o :: o in Remaining(s, carried) ==> o in s
    ensures OmissionsAscend(s) ==> OmissionsAscend(Remaining(s, carried))
  {
    hide Remaining, OmissionsAscend;
    RemainingFrom(s, carried);
    if OmissionsAscend(s) { RemainingOrder(s, carried); }
  }

  method KeepOmissions(s: seq<Omission>, events: seq<EventId>) returns (kept: seq<Omission>)
    requires Ascending(events)
    ensures kept == Remaining(s, Elems(events))
  {
    hide Ascending;
    kept := [];
    for i := 0 to |s|
      invariant kept == Remaining(s[..i], Elems(events))
    {
      assert s[..i + 1][..i] == s[..i];
      var found := BinarySearch(events, s[i].event);
      MemberElems(events, s[i].event);
      if !found {
        kept := kept + [s[i]];
      }
    }
    assert s[..|s|] == s;
  }

  /** Everything the follow-up of one challenged omission is, and exactly when there is one. */
  ghost predicate FollowedUp(t: Tables, h: Handoff, closed: ClosedSelection, recipient: RecipientState,
                             challenge: OmissionChallenge, r: Result<Handoff, HandoffError>)
  {
    && (r.Ok? ==>
          && VerifyValid(t, h, recipient.head).Ok? && challenge.event in Omitted(h)
          && Computed(t, closed, recipient, Ok(r.value.delta))
          && challenge.event in Carried(r.value)
          && r.value.omissions == Remaining(h.omissions, Carried(r.value))
          && (recipient.head.Some? ==> recipient.head.value in recipient.closure)
          && r.value.uncertainty == h.uncertainty
          && r.value.reIncluded == h.reIncluded + [ReIncluded(challenge.event, challenge)])
    && (r.Err? ==>
          || VerifyValid(t, h, recipient.head).Err?
          || challenge.event !in Omitted(h)
          || challenge.event !in Elems(RefIds(closed.references)) - Elems(recipient.closure)
          || (exists e :: Computed(t, closed, recipient, Err(e)))
          || (recipient.head.Some? && recipient.head.value !in recipient.closure))
  }

  method FollowUp(t: Tables, h: Handoff, closed: ClosedSelection, recipient: RecipientState, challenge: OmissionChallenge)
    returns (r: Result<Handoff, HandoffError>)
    requires Ascending(RefIds(closed.references)) && Ascending(recipient.closure)
    ensures FollowedUp(t, h, closed, recipient, challenge, r)
    ensures r.Ok? && SoundHandoff(h) ==> SoundHandoff(r.value)
    ensures r.Ok? ==> Canonical(r.value.delta)
  {
    hide RefIds, Ascending, VerifyValid, Computed, Remaining, NotesAscend, OmissionsAscend, OmittedBy;
    var valid := VerifyValid(t, h, recipient.head);
    if valid.Err? {
      return Err(valid.error);
    }
    if challenge.event !in OmittedBy(h.omissions) {
      return Err(UnknownOmission(challenge.event));
    }
    var selected := SortDedup(RefIds(closed.references));
    var supplied := BinarySearch(selected, challenge.event);
    MemberElems(selected, challenge.event);
    if !supplied {
      return Err(Invalid);
    }
    var delta := ComputeDelta(t, closed, recipient);
    if delta.Err? {
      return Err(DeltaFailed(delta.error));
    }
    DeltaShape(t, closed, recipient, delta.value);
    var events := RefIds(delta.value.references);
    var landed := BinarySearch(events, challenge.event);
    MemberElems(events, challenge.event);
    if !landed {
      return Err(Invalid);
    }
    var bound := FromDelta(delta.value);
    if bound.Err? {
      return Err(bound.error);
    }
    var omissions := KeepOmissions(h.omissions, events);
    RemainingIs(h.omissions, Elems(events));
    r := Ok(bound.value.(omissions := omissions, uncertainty := h.uncertainty,
                         reIncluded := h.reIncluded + [ReIncluded(challenge.event, challenge)]));
  }

  lemma DeltaShape(t: Tables, closed: ClosedSelection, recipient: RecipientState, d: Delta)
    requires Computed(t, closed, recipient, Ok(d)) && Ascending(RefIds(closed.references)) && Ascending(recipient.closure)
    ensures Canonical(d) && d.recipientHead == recipient.head && d.recipientClosure == recipient.closure
    ensures Elems(RefIds(d.references)) == Elems(RefIds(closed.references)) - Elems(recipient.closure)
  {
    hide RefIds, Ascending, Kept, TotalBytes;
    KeptIs(closed.references, Elems(recipient.closure));
  }

  // ---------------------------------------------------------------- what a negotiation keeps

  /** A follow-up drops no omission without carrying it, and forgets a carried event exactly when the
      supplied selection, less the recipient's history, leaves it out. */
  lemma FollowUpKeeps(t: Tables, h: Handoff, closed: ClosedSelection, recipient: RecipientState,
                      challenge: OmissionChallenge, n: Handoff)
    requires SoundHandoff(h) && FollowedUp(t, h, closed, recipient, challenge, Ok(n))
    requires Ascending(RefIds(closed.references)) && Ascending(recipient.closure)
    ensures Omitted(h) <= Carried(n) + Omitted(n) && Omitted(n) <= Omitted(h)
    ensures challenge.event in Carried(n) && challenge.event !in Omitted(n)
    ensures Carried(n) == Elems(RefIds(closed.references)) - Elems(recipient.closure)
    ensures Carried(h) <= Carried(n) + Omitted(n) <==> Carried(h) <= Elems(RefIds(closed.references)) - Elems(recipient.closure)
  {
    hide RefIds, Ascending, VerifyValid, Computed, Remaining, NotesAscend, OmissionsAscend;
    DeltaShape(t, closed, recipient, n.delta);
    RemainingIs(h.omissions, Carried(n));
  }

  datatype Move =
    | Omit(event: EventId, reason: OmissionReason)
    | Note(note: string)
    | Follow(closed: ClosedSelection, recipient: RecipientState, challenge: OmissionChallenge)

  /** One successful negotiation step, against the store as it then is. */
  ghost predicate Negotiates(t: Tables, h: Handoff, move: Move, n: Handoff) {
    match move
    case Omit(event, reason) =>
      && event !in Carried(h) && (event in Omitted(h) || |h.omissions| < MAX_OMISSIONS)
      && n == h.(omissions := Listed(h.omissions, event, reason))
    case Note(note) =>
      && (note in h.uncertainty || |h.uncertainty| < MAX_UNCERTAINTY_NOTES)
      && n == h.(uncertainty := InsertNote(h.uncertainty, note))
    case Follow(closed, recipient, challenge) =>
      && Ascending(RefIds(closed.references)) && Ascending(recipient.closure)
      && FollowedUp(t, h, closed, recipient, challenge, Ok(n))
  }

  /** Makes one move by the operation it names. */
  method Negotiate(t: Tables, h: Handoff, move: Move) returns (r: Result<Handoff, HandoffError>)
    requires SoundHandoff(h)
    requires move.Follow? ==> Ascending(RefIds(move.closed.references)) && Ascending(move.recipient.closure)
    ensures r.Ok? ==> Negotiates(t, h, move, r.value) && SoundHandoff(r.value)
  {
    hide SoundHandoff, FollowedUp, Ascending, RefIds, Listed, InsertNote;
    match move {
      case Omit(event, reason) => r := WithOmission(h, event, reason);
      case Note(note) => r := WithUncertainty(h, note);
      case Follow(closed, recipient, challenge) => r := FollowUp(t, h, closed, recipient, challenge);
    }
  }

  /** The supplied selection holds what the handoff carries, for a recipient with the same history. */
  predicate Contains(h: Handoff, move: Move) {
    move.Follow? ==>
      && Carried(h) <= Elems(RefIds(move.closed.references))
      && Elems(move.recipient.closure) !! Carried(h)
  }

  ghost predicate Negotiation(ts: seq<Tables>, hs: seq<Handoff>, moves: seq<Move>) {
    && |hs| == |moves| + 1 && |ts| == |moves|
    && SoundHandoff(hs[0])
    && forall i, j :: 0 <= i && j == i + 1 && j < |hs| ==> Negotiates(ts[i], hs[i], moves[i], hs[j])
  }

  lemma NegotiatesSound(t: Tables, h: Handoff, move: Move, n: Handoff)
    requires SoundHandoff(h) && Negotiates(t, h, move, n)
    ensures SoundHandoff(n)
    ensures Omitted(h) <= Carried(n) + Omitted(n)
    ensures Contains(h, move) ==> Carried(h) <= Carried(n)
  {
    hide RefIds, Ascending, VerifyValid, Computed, Remaining, NotesAscend, OmissionsAscend, OmittedBy, InsertOmission, InsertNote;
    match move {
      case Omit(event, reason) =>
        if event !in Omitted(h) { InsertionOrder(h.omissions, Omission(event, reason)); }
      case Note(note) => NoteOrder(h.uncertainty, note);
      case Follow(closed, recipient, challenge) =>
        FollowUpKeeps(t, h, closed, recipient, challenge, n);
        DeltaShape(t, closed, recipient, n.delta);
        RemainingIs(h.omissions, Carried(n));
    }
  }

  /** Over every negotiation omissions stay sorted, distinct and apart from what is carried. */
  lemma {:induction false} NegotiationSound(ts: seq<Tables>, hs: seq<Handoff>, moves: seq<Move>, k: nat)
    requires Negotiation(ts, hs, moves) && k < |hs|
    ensures SoundHandoff(hs[k])
  {
    hide SoundHandoff, Negotiates;
    if k > 0 {
      NegotiationSound(ts, hs, moves, k - 1);
      assert Negotiates(ts[k - 1], hs[k - 1], moves[k - 1], hs[k]);
      NegotiatesSound(ts[k - 1], hs[k - 1], moves[k - 1], hs[k]);
    }
  }

  /** What one move records: omissions keep their reasons unless carried, notes and the re-inclusion record
      only grow, and each move leaves its own mark. */
  lemma MoveRecords(t: Tables, h: Handoff, move: Move, n: Handoff)
    requires Negotiates(t, h, move, n)
    ensures forall o :: o in h.omissions ==> o in n.omissions || o.event in Carried(n)
    ensures h.reIncluded <= n.reIncluded && forall y :: y in h.uncertainty ==> y in n.uncertainty
    ensures match move
      case Omit(event, reason) => (event in Omitted(h) || Omission(event, reason) in n.omissions) && n.reIncluded == h.reIncluded
      case Note(note) => note in n.uncertainty && n.reIncluded == h.reIncluded
      case Follow(_, _, challenge) => n.reIncluded == h.reIncluded + [ReIncluded(challenge.event, challenge)] && n.uncertainty == h.uncertainty
  {
    hide RefIds, Ascending, VerifyValid, Computed, Remaining, NotesAscend, OmissionsAscend, InsertOmission, InsertNote, Carried;
    if move.Follow? {
      RemainingFrom(h.omissions, Carried(n));
    }
  }

  /** Over a whole negotiation no note and no re-inclusion is ever taken back, and the record grows by one
      entry for each follow-up. */
  lemma {:induction false} RecordsKept(ts: seq<Tables>, hs: seq<Handoff>, moves: seq<Move>, i: nat, j: nat)
    requires Negotiation(ts, hs, moves) && i <= j < |hs|
    ensures hs[i].reIncluded <= hs[j].reIncluded && forall y :: y in hs[i].uncertainty ==> y in hs[j].uncertainty
    ensures |hs[j].reIncluded| == |hs[i].reIncluded| + FollowUps(moves[i..j])
    decreases j - i
  {
    hide SoundHandoff, Negotiates;
    if i < j {
      var m := j - 1;
      RecordsKept(ts, hs, moves, i, m);
      assert Negotiates(ts[m], hs[m], moves[m], hs[j]);
      MoveRecords(ts[m], hs[m], moves[m], hs[j]);
      assert moves[i..j][..|moves[i..j]| - 1] == moves[i..m];
    }
  }

  function FollowUps(moves: seq<Move>): nat {
    if moves == [] then 0 else FollowUps(moves[..|moves| - 1]) + if moves[|moves| - 1].Follow? then 1 else 0
  }

  /** If every follow-up's selection contains what was carried, nothing ever carried or omitted
      disappears: what was carried stays carried, what was omitted stays listed or becomes carried. */
  lemma {:induction false} NothingDisappears(ts: seq<Tables>, hs: seq<Handoff>, moves: seq<Move>, i: nat, j: nat)
    requires Negotiation(ts, hs, moves) && i <= j < |hs|
    requires forall k :: 0 <= k < |moves| ==> Contains(hs[k], moves[k])
    ensures Carried(hs[i]) <= Carried(hs[j])
    ensures Carried(hs[i]) + Omitted(hs[i]) <= Carried(hs[j]) + Omitted(hs[j])
    decreases j - i
  {
    hide SoundHandoff, Negotiates, Contains;
    if i < j {
      var m := j - 1;
      NothingDisappears(ts, hs, moves, i, m);
      NegotiationSound(ts, hs, moves, m);
      assert Contains(hs[m], moves[m]);
      assert Negotiates(ts[m], hs[m], moves[m], hs[j]);
      NegotiatesSound(ts[m], hs[m], moves[m], hs[j]);
    }
  }

  /** In such a negotiation every re-included source is still carried at the end. */
  lemma ReIncludedStays(ts: seq<Tables>, hs: seq<Handoff>, moves: seq<Move>, i: nat, j: nat)
    requires Negotiation(ts, hs, moves) && i < j < |hs| && moves[i].Follow?
    requires forall k :: 0 <= k < |moves| ==> Contains(hs[k], moves[k])
    ensures moves[i].challenge.event in Carried(hs[j])
  {
    hide SoundHandoff, FollowedUp, Contains, Ascending, RefIds;
    assert Negotiates(ts[i], hs[i], moves[i], hs[i + 1]);
    assert moves[i].challenge.event in Carried(hs[i + 1]) by { Landed(ts[i], hs[i], moves[i], hs[i + 1]); }
    NothingDisappears(ts, hs, moves, i + 1, j);
  }

  lemma Landed(t: Tables, h: Handoff, move: Move, n: Handoff)
    requires move.Follow? && FollowedUp(t, h, move.closed, move.recipient, move.challenge, Ok(n))
    ensures move.challenge.event in Carried(n)
  {
    hide Computed, VerifyValid;
  }

  // ---------------------------------------------------------------- the recipient's history

  /** A history derived at the same head of a growing store is the same history. */
  lemma SameHeadSameHistory(t: Tables, u: Tables, c: ContextId, head: EventId, a: RecipientState, b: RecipientState)
    requires Inv(t) && Inv(u) && Grows(t, u)
    requires KnownAt(t, c, head, a) && KnownAt(u, c, head, b) && Targets(Parsed(t.events), c, head)
    ensures a.closure == b.closure
  {
    hide Inv, Grows, Ascending, ReadGraph, Anc, Weight, Closed, Cyclic, Parsed, ContextGraph;
    assert forall h: EventId :: h in [head] ==> h == head;
    SoundLineage(t, c, [head]);
    SoundLineage(u, c, [head]);
    PlanStable(t, u, c, [head]);
    PostOrderExact(ReadGraph(t, c), [head]);
    PostOrderExact(ReadGraph(u, c), [head]);
    assert Elems([head]) == {head};
    AscendingUnique(a.closure, b.closure);
  }

  // ---------------------------------------------------------------- whole sessions

  /** A recipient as `at_head` or `cold_start` builds it. */
  ghost predicate Derived(t: Tables, r: RecipientState) {
    if r.head.None? then r.closure == []
    else KnownAt(t, r.context, r.head.value, r) && Reads(t, r.context, r.head.value)
  }

  /** The references last supplied before move `k`. */
  function Supplied(first: ClosedSelection, moves: seq<Move>, k: nat): set<EventId>
    requires k <= |moves|
  {
    if k == 0 then Elems(RefIds(first.references))
    else if moves[k - 1].Follow? then Elems(RefIds(moves[k - 1].closed.references))
    else Supplied(first, moves, k - 1)
  }

  /** A handoff computed on a sound store and then negotiated while the store grows, for recipients
      derived from it. */
  ghost predicate Session(ts: seq<Tables>, hs: seq<Handoff>, moves: seq<Move>, first: ClosedSelection,
                          recipient: RecipientState)
  {
    && |ts| == |hs| == |moves| + 1
    && (forall i :: 0 <= i < |ts| ==> Inv(ts[i]))
    && (forall i, j :: 0 <= i && j == i + 1 && j < |ts| ==> Grows(ts[i], ts[j]))
    && Derived(ts[0], recipient) && Ascending(RefIds(first.references)) && Ascending(recipient.closure)
    && Computed(ts[0], first, recipient, Ok(hs[0].delta)) && hs[0] == Handoff(hs[0].delta, [], [], [])
    && (forall i, j :: 0 <= i && j == i + 1 && j < |hs| ==> Negotiates(ts[j], hs[i], moves[i], hs[j]))
    && (forall i :: 0 <= i < |moves| && moves[i].Follow? ==> Derived(ts[i + 1], moves[i].recipient))
  }

  /** Each supplied selection contains the one supplied before. */
  predicate Containing(first: ClosedSelection, moves: seq<Move>) {
    forall k :: 0 <= k < |moves| && moves[k].Follow? ==> Supplied(first, moves, k) <= Elems(RefIds(moves[k].closed.references))
  }

  lemma ReadsGrow(t: Tables, u: Tables, c: ContextId, d: ContextId, head: EventId)
    requires Inv(t) && Inv(u) && Grows(t, u) && Reads(t, c, head) && Reads(u, d, head)
    ensures c == d && Targets(Parsed(t.events), c, head)
  {
    hide Inv, LoadVerified, Parsed, Closed, Cyclic, PostOrder, ContextGraph;
    SoundLineage(t, c, []);
    SoundLineage(u, d, []);
    ReadIs(t, c, head);
    ReadIs(u, d, head);
    ParsedGrows(t, u);
  }

  /** A recipient at the same head of a later store has the same history. */
  lemma DerivedStays(t: Tables, u: Tables, a: RecipientState, b: RecipientState)
    requires Inv(t) && Inv(u) && Grows(t, u) && Derived(t, a) && Derived(u, b) && a.head == b.head
    ensures a.closure == b.closure
  {
    hide Inv, Grows, KnownAt, Reads, Parsed, Targets;
    if a.head.Some? {
      ReadsGrow(t, u, a.context, b.context, a.head.value);
      SameHeadSameHistory(t, u, a.context, a.head.value, a, b);
    }
  }

  lemma DerivedHolds(t: Tables, r: RecipientState)
    requires Derived(t, r)
    ensures r.head.Some? ==> r.head.value in r.closure
  {
    hide Reads, Anc, Ascending, Weight;
    if r.head.Some? {
      ReadIs(t, r.context, r.head.value);
      AncHeads(ReadGraph(t, r.context), {r.head.value});
      MemberElems(r.closure, r.head.value);
    }
  }

  /** The state of a session before move `k`. */
  ghost predicate Standing(h: Handoff, recipient: RecipientState, supplied: set<EventId>) {
    && SoundHandoff(h)
    && h.delta.recipientHead == recipient.head && h.delta.recipientClosure == recipient.closure
    && Carried(h) == supplied - Elems(recipient.closure)
  }

  lemma SessionStarts(t: Tables, h: Handoff, first: ClosedSelection, recipient: RecipientState)
    requires Derived(t, recipient) && Ascending(RefIds(first.references)) && Ascending(recipient.closure)
    requires Computed(t, first, recipient, Ok(h.delta)) && h == Handoff(h.delta, [], [], [])
    ensures Standing(h, recipient, Elems(RefIds(first.references)))
  {
    hide RefIds, Ascending, Computed, Derived;
    DeltaShape(t, first, recipient, h.delta);
    DerivedHolds(t, recipient);
  }

  lemma SessionMoves(t0: Tables, t: Tables, h: Handoff, move: Move, n: Handoff, recipient: RecipientState, supplied: set<EventId>)
    requires Inv(t0) && Inv(t) && Grows(t0, t) && Derived(t0, recipient)
    requires Standing(h, recipient, supplied) && Negotiates(t, h, move, n)
    requires move.Follow? ==> Derived(t, move.recipient) && supplied <= Elems(RefIds(move.closed.references))
    ensures Contains(h, move)
    ensures Standing(n, recipient, if move.Follow? then Elems(RefIds(move.closed.references)) else supplied)
  {
    hide Inv, Grows, RefIds, Ascending, Computed, Derived, Remaining, SoundHandoff, Listed, InsertNote, HeadReads;
    NegotiatesSound(t, h, move, n);
    if move.Follow? {
      DerivedStays(t0, t, recipient, move.recipient);
      DeltaShape(t, move.closed, move.recipient, n.delta);
    }
  }

  lemma {:induction false} SessionStands(ts: seq<Tables>, hs: seq<Handoff>, moves: seq<Move>, first: ClosedSelection,
                                         recipient: RecipientState, k: nat)
    requires Session(ts, hs, moves, first, recipient) && Containing(first, moves) && k < |hs|
    ensures Standing(hs[k], recipient, Supplied(first, moves, k))
    ensures k > 0 ==> Contains(hs[k - 1], moves[k - 1])
  {
    hide Inv, Grows, RefIds, Ascending, Computed, Derived, Standing, Negotiates, Contains;
    if k == 0 {
      SessionStarts(ts[0], hs[0], first, recipient);
    } else {
      SessionStands(ts, hs, moves, first, recipient, k - 1);
      GrowsAlong(ts, 0, k);
      assert Negotiates(ts[k], hs[k - 1], moves[k - 1], hs[k]);
      SessionMoves(ts[0], ts[k], hs[k - 1], moves[k - 1], hs[k], recipient, Supplied(first, moves, k - 1));
    }
  }

  lemma SessionNegotiates(ts: seq<Tables>, hs: seq<Handoff>, moves: seq<Move>, first: ClosedSelection, recipient: RecipientState)
    requires Session(ts, hs, moves, first, recipient) && SoundHandoff(hs[0])
    ensures Negotiation(ts[1..], hs, moves)
  {
    hide Inv, Grows, RefIds, Ascending, Computed, Derived, Negotiates, SoundHandoff;
    forall i, j | 0 <= i && j == i + 1 && j < |hs| ensures Negotiates(ts[1..][i], hs[i], moves[i], hs[j]) {
      assert ts[1..][i] == ts[j];
    }
  }

  /** In a session whose supplied selections each contain the one before, nothing ever carried, omitted or
      re-included disappears from both the delta and the omission list. */
  lemma SessionLosesNothing(ts: seq<Tables>, hs: seq<Handoff>, moves: seq<Move>, first: ClosedSelection,
                            recipient: RecipientState, i: nat, j: nat)
    requires Session(ts, hs, moves, first, recipient) && Containing(first, moves) && i <= j < |hs|
    ensures Carried(hs[i]) <= Carried(hs[j])
    ensures Carried(hs[i]) + Omitted(hs[i]) <= Carried(hs[j]) + Omitted(hs[j])
    ensures forall k :: i <= k < j && moves[k].Follow? ==> moves[k].challenge.event in Carried(hs[j])
  {
    hide *;
    SessionShape(ts, hs, moves, first, recipient);
    SessionStands(ts, hs, moves, first, recipient, 0);
    StandingIsSound(hs[0], recipient, Supplied(first, moves, 0));
    SessionNegotiates(ts, hs, moves, first, recipient);
    forall k | 0 <= k < |moves| ensures Contains(hs[k], moves[k]) {
      SessionStands(ts, hs, moves, first, recipient, k + 1);
    }
    NothingDisappears(ts[1..], hs, moves, i, j);
    forall k | i <= k < j && moves[k].Follow? ensures moves[k].challenge.event in Carried(hs[j]) {
      ReIncludedStays(ts[1..], hs, moves, k, j);
    }
  }

  lemma SessionShape(ts: seq<Tables>, hs: seq<Handoff>, moves: seq<Move>, first: ClosedSelection, recipient: RecipientState)
    requires Session(ts, hs, moves, first, recipient)
    ensures |ts| == |hs| == |moves| + 1
  {
  }

  lemma StandingIsSound(h: Handoff, recipient: RecipientState, supplied: set<EventId>)
    requires Standing(h, recipient, supplied)
    ensures SoundHandoff(h)
  {
  }

  // ---------------------------------------------------------------- what a follow-up may forget

  /** Three notes above one genesis. */
  const FAN: seq<Event> := [Child(2, 1, "note", 2, 300), Child(3, 1, "note", 2, 300), Child(4, 1, "note", 2, 300)]
  const ROOMY := ClosureLimits(10, 1000)

  function FanEvents(): map<EventId, Event> {
    map[1 := ROOT, 2 := FAN[0], 3 := FAN[1], 4 := FAN[2]]
  }

  lemma FanGrows()
    ensures Growable(FAN) && SampleEvents(FAN) == FanEvents()
  {
    assert |GENESIS_KIND| != |"note"|;
    assert FAN[..2][..1][..0] == [] && FAN[..2][..1] == [FAN[0]] && FAN[..2] == [FAN[0], FAN[1]];
    assert SampleEvents([]) == map[1 := ROOT] && Growable([]);
    assert FAN[..1] == [FAN[0]] && FAN[..1][..0] == [];
    assert SampleEvents(FAN[..1]) == map[1 := ROOT, 2 := FAN[0]] && Growable(FAN[..1]);
    assert SampleEvents(FAN[..2]) == map[1 := ROOT, 2 := FAN[0], 3 := FAN[1]] && Growable(FAN[..2]);
  }

  lemma FanReads() returns (t: Tables)
    ensures t == Run(EMPTY, SampleOps(FAN)) && Inv(t)
    ensures ReadGraph(t, 0) == map[1 := [], 2 := [1], 3 := [1], 4 := [1]]
    ensures Payloads(t, 0) == map[1 := 2, 2 := 2, 3 := 2, 4 := 2]
    ensures forall x :: 1 <= x <= 4 ==> Targets(Parsed(t.events), 0, x)
    ensures forall x :: !Critical(t, 0, ["risk"], x)
  {
    hide *;
    t := Run(EMPTY, SampleOps(FAN));
    FanGrows();
    SampleIs(FAN);
    SampleReads(t, FanEvents());
    SampleSound(t, FanEvents());
    FanLinks();
    NoRisk(t);
  }

  lemma NoRisk(t: Tables)
    requires forall id :: id in FanEvents() ==> ReadEvent(t, id) == Ok(Some(FanEvents()[id]))
    requires forall id :: Reads(t, 0, id) <==> id in FanEvents()
    ensures forall x :: !Critical(t, 0, ["risk"], x)
  {
    hide ReadEvent, Reads, FanEvents;
    forall x ensures !Critical(t, 0, ["risk"], x) {
      if x in FanEvents() {
        NoteIsNoRisk(x);
      }
    }
  }

  lemma NoteIsNoRisk(x: EventId)
    requires x in FanEvents()
    ensures FanEvents()[x].body.kind !in ["risk"]
  {
    assert |GENESIS_KIND| != |"risk"| && "note"[0] != "risk"[0];
  }

  lemma FanLinks()
    ensures Links(FanEvents()) == map[1 := [], 2 := [1], 3 := [1], 4 := [1]]
    ensures (map id | id in FanEvents() :: FanEvents()[id].body.payloadBytes) == map[1 := 2, 2 := 2, 3 := 2, 4 := 2]
    ensures forall x :: 1 <= x <= 4 ==> x in FanEvents()
  {
  }

  lemma FanAncestry(g: Graph, w: map<EventId, nat>, id: EventId)
    requires 2 <= id <= 4 && g == map[1 := [], 2 := [1], 3 := [1], 4 := [1]] && w == map[1 := 2, 2 := 2, 3 := 2, 4 := 2]
    ensures Anc(g, {id}) == {1, id} && Weight(w, {1, id}) == 4
  {
    ReachSelf(g, id);
    ReachEdge(g, id, 1);
    assert ReachFrom(g, {id}, id) && ReachFrom(g, {id}, 1);
    forall x | ReachFrom(g, {id}, x) ensures x == 1 || x == id {
      ReachWithin(g, {1, id}, id, x);
    }
    WeightAdd(w, {}, 1);
    WeightAdd(w, {1}, id);
    WeightNone(w);
    assert {} + {1} == {1} && {1} + {id} == {1, id};
  }

  /** Closing one note of the fan yields it and the genesis. */
  lemma FanCloses(id: EventId, r: Result<ClosedSelection, LineageError>)
    requires 2 <= id <= 4 && SelectionCloses(Run(EMPTY, SampleOps(FAN)), 0, [id], [id], ["risk"], ROOMY, r)
    ensures r.Ok? && Ascending(RefIds(r.value.references)) && Elems(RefIds(r.value.references)) == {1, id}
    ensures r.value.context == 0 && TotalBytes(r.value.references) == 4
  {
    hide Inv, Run, Selection, Anc, ReadGraph, Reads, Critical, Weight, Ascending, Payloads, Parsed, Targets, TotalBytes,
         RefIds, Links;
    var t := FanReads();
    FanAncestry(ReadGraph(t, 0), Payloads(t, 0), id);
    assert Elems<EventId>([id]) == {id};
    assert |{1, id}| == 2;
    assert ROOMY.Checked() && |Elems<EventId>([id])| <= MAX_CLOSURE_CANDIDATES;
    assert Within(t, 0, Anc(ReadGraph(t, 0), Elems([id])), ROOMY);
    SoundSelectionCloses(t, 0, [id], [id], ["risk"], ROOMY, r);
    AncestryOnly(t, 0, [id], [id], ["risk"], ROOMY, r.value);
    SelectionBytes(t, 0, [id], [id], ["risk"], ROOMY, r.value);
    assert ClosureIds(t, 0, [id], [id], ["risk"]) == {1, id};
  }

  lemma SelectionBytes(t: Tables, c: ContextId, selected: seq<EventId>, candidates: seq<EventId>, policy: CriticalPolicy,
                       limits: ClosureLimits, s: ClosedSelection)
    requires Selection(t, c, selected, candidates, policy, limits, s)
    ensures s.context == c && TotalBytes(s.references) == Weight(Payloads(t, c), ClosureIds(t, c, selected, candidates, policy))
  {
    hide ReadEvent, Ascending, Weight, TotalBytes, Referenced, ReadGraph, Anc, Critical, Added, Payloads, ClosureIds;
    var all := ClosureIds(t, c, selected, candidates, policy);
    var ids: seq<EventId> :| Ascending(ids) && Elems(ids) == all && Referenced(t, c, ids, s.references);
    ReferencedSizes(t, c, ids, s.references);
  }

  /** The delta of such a selection for a cold recipient is all of it. */
  lemma FanDelta(t: Tables, id: EventId, s: ClosedSelection, r: Result<Delta, LineageError>)
    requires Ascending(RefIds(s.references)) && Elems(RefIds(s.references)) == {1, id} && s.context == 0 && TotalBytes(s.references) == 4
    requires Computed(t, s, ColdStart(0), r)
    ensures r.Ok? && r.value.references == s.references && r.value.recipientHead == None && r.value.context == 0 && r.value.totalBytes == 4
  {
    hide ReadEvent, Ascending, RefIds, TotalBytes;
    assert Elems<EventId>([]) == {};
    KeptNothing(s.references);
    assert |{1, id}| <= 2;
  }

  lemma FanFollows(t: Tables, h: Handoff, id: EventId, s: ClosedSelection, challenge: OmissionChallenge,
                   r: Result<Handoff, HandoffError>)
    requires Ascending(RefIds(s.references)) && Elems(RefIds(s.references)) == {1, id} && s.context == 0 && TotalBytes(s.references) == 4
    requires SoundHandoff(h) && h.delta.recipientHead == None && id in Omitted(h) && challenge.event == id
    requires FollowedUp(t, h, s, ColdStart(0), challenge, r)
    ensures r.Ok? && SoundHandoff(r.value) && r.value.delta.recipientHead == None && Carried(r.value) == {1, id}
    ensures Omitted(r.value) <= Omitted(h) && Omitted(h) <= Carried(r.value) + Omitted(r.value)
    ensures r.value.reIncluded == h.reIncluded + [ReIncluded(id, challenge)]
  {
    hide Ascending, RefIds, TotalBytes, Computed, SoundHandoff, Omitted, ReadEvent, Remaining;
    assert Elems<EventId>([]) == {};
    assert Ascending([]) by { NoneAscends(); }
    forall e ensures !Computed(t, s, ColdStart(0), Err(e)) {
      if Computed(t, s, ColdStart(0), Err(e)) { FanDelta(t, id, s, Err(e)); }
    }
    FollowUpKeeps(t, h, s, ColdStart(0), challenge, r.value);
    NegotiatesSound(t, h, Follow(s, ColdStart(0), challenge), r.value);
    DeltaShape(t, s, ColdStart(0), r.value.delta);
  }

  lemma NoneAscends()
    ensures Ascending([])
  {
  }

  /** A handoff of note 2 for a cold recipient, with notes 3 and 4 withheld. */
  function Offered(d: Delta): Handoff {
    Handoff(d, [Omission(3, Deliberate), Omission(4, Deliberate)], [], [])
  }

  lemma OfferedIs(t: Tables, s: ClosedSelection, d: Result<Delta, LineageError>)
    requires Ascending(RefIds(s.references)) && Elems(RefIds(s.references)) == {1, 2} && s.context == 0 && TotalBytes(s.references) == 4
    requires Computed(t, s, ColdStart(0), d)
    ensures d.Ok? && SoundHandoff(Offered(d.value)) && Carried(Offered(d.value)) == {1, 2} && Omitted(Offered(d.value)) == {3, 4}
    ensures d.value.recipientHead == None && d.value.totalBytes == 4
  {
    hide RefIds, TotalBytes, Computed;
    FanDelta(t, 2, s, d);
    DeltaShape(t, s, ColdStart(0), d.value);
    var h := Offered(d.value);
    assert h.omissions[0] in h.omissions && h.omissions[1] in h.omissions;
  }

  /** On a reachable store: the follow-up that re-includes note 3 over a selection of its own drops note 2
      and lists it nowhere; the next one, for note 4, drops note 3, which its record still names as
      re-included. */
  lemma FollowUpForgets(two: Result<ClosedSelection, LineageError>, three: Result<ClosedSelection, LineageError>,
                        four: Result<ClosedSelection, LineageError>,
                        d: Result<Delta, LineageError>, r: Result<Handoff, HandoffError>, q: Result<Handoff, HandoffError>)
    requires SelectionCloses(Run(EMPTY, SampleOps(FAN)), 0, [2], [2], ["risk"], ROOMY, two)
    requires SelectionCloses(Run(EMPTY, SampleOps(FAN)), 0, [3], [3], ["risk"], ROOMY, three)
    requires SelectionCloses(Run(EMPTY, SampleOps(FAN)), 0, [4], [4], ["risk"], ROOMY, four)
    requires two.Ok? ==> Computed(Run(EMPTY, SampleOps(FAN)), two.value, ColdStart(0), d)
    requires d.Ok? && three.Ok? ==>
      FollowedUp(Run(EMPTY, SampleOps(FAN)), Offered(d.value), three.value, ColdStart(0), OmissionChallenge(3, "why"), r)
    requires r.Ok? && four.Ok? ==> FollowedUp(Run(EMPTY, SampleOps(FAN)), r.value, four.value, ColdStart(0), OmissionChallenge(4, "why"), q)
    ensures d.Ok? && r.Ok? && q.Ok?
    ensures SoundHandoff(Offered(d.value)) && 2 in Carried(Offered(d.value)) && 2 !in Carried(r.value) + Omitted(r.value)
    ensures |q.value.reIncluded| == 2 && q.value.reIncluded[0].event == 3 && 3 !in Carried(q.value) + Omitted(q.value)
  {
    hide *;
    var t := Run(EMPTY, SampleOps(FAN));
    FanCloses(2, two);
    FanCloses(3, three);
    FanCloses(4, four);
    OfferedIs(t, two.value, d);
    var h := Offered(d.value);
    OfferedRecord(d.value);
    FanFollows(t, h, 3, three.value, OmissionChallenge(3, "why"), r);
    NotOmittedTwice(r.value);
    FanFollows(t, r.value, 4, four.value, OmissionChallenge(4, "why"), q);
  }

  lemma OfferedRecord(d: Delta)
    ensures Offered(d).reIncluded == [] && Offered(d).delta == d
  {
  }

  /** What a sound handoff carries it does not list. */
  lemma NotOmittedTwice(h: Handoff)
    requires SoundHandoff(h)
    ensures forall x :: x in Carried(h) ==> x !in Omitted(h)
  {
    hide Carried, Omitted;
  }
}
