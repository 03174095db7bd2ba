/** Identifiers, signed events and failure values shared by every module. */
module Base {

  // Identifiers are opaque 32-byte values.  They are modelled by their position in the
  // canonical text order, so `<` below is the order of `EventId::cmp`.
  type EventId = nat
  type ContextId = nat
  type AuthorId = nat

  datatype Option<+T> = None | Some(value: T)

  datatype Result<+T, +E> = Ok(value: T) | Err(error: E) {
    predicate IsFailure() {
      Err?
    }

    function PropagateFailure<U>(): Result<U, E>
      requires Err?
    {
      Err(error)
    }

    function Extract(): T
      requires Ok?
    {
      value
    }
  }

  const GENESIS_KIND := "context.genesis"
  const MERGE_KIND := "context.merge"
  const MAX_PARENTS := 64

  /** The signed body.  `content` stands for the payload, whose canonical length is `payloadBytes`;
      `wireBytes` is the length of the canonical envelope, which the body determines because
      identifiers and signatures have a fixed width. */
  datatype Body = Body(context: ContextId, parents: seq<EventId>, kind: string, author: AuthorId,
                       content: nat, payloadBytes: nat, wireBytes: nat)

  /** Two envelopes may share a body, and so an identifier, and differ in the signature. */
  datatype SignedBody = SignedBody(id: EventId, body: Body, signature: nat) {
    predicate Verifies() {
      Ascending(body.parents) && |body.parents| <= MAX_PARENTS
    }
  }

  predicate Ascending(s: seq<nat>) {
    forall i, j :: 0 <= i < j < |s| ==> s[i] < s[j]
  }

  /** A value of this type has passed strict parsing or was just signed. */
  type Event = e: SignedBody | e.Verifies() witness SignedBody(0, Body(0, [], "", 0, 0, 0, 0), 0)

  /** Stored envelope bytes: unparsable, or an event with `slack` bytes beyond the canonical form. */
  datatype Wire = Malformed(raw: nat) | Encoded(event: Event, slack: nat)

  function ToWire(e: Event): Wire {
    Encoded(e, 0)
  }

  function FromWire(w: Wire): Option<Event> {
    if w.Encoded? then Some(w.event) else None
  }

  datatype StoreError =
    | ContextUnknown
    | ContextProvisionMismatch
    | GenesisMismatch
    | UnauthorizedAuthor
    | ParentMissing(id: EventId)
    | ParentContextMismatch(id: EventId)
    | EventCollision
    | CorruptStorage
    | DatabaseUnavailable
    | StaleHead(current: Option<EventId>)
    | RefMutationMismatch
    | RefAlreadyExists
    | InvalidRefName
    | InvalidMerge
    | ReservedEventKind
    | LimitExceeded
    | ProjectionCycle
    | ProjectionLimitExceeded
    | BundleLimitExceeded
    | BundleOrder
    | BundleMalformed
    | BundleRefInvalid
    | RefMissing
}
