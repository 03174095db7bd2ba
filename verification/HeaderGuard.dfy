/** Bounded detection of the end of an HTTP header in a chunked byte stream. */
module HeaderGuard {

  type Byte = b: nat | b < 256

  const CR: Byte := 13
  const LF: Byte := 10
  const MAX_HTTP_HEADER_BYTES := 16 * 1024

  datatype Verdict = Pending | Complete | Rejected

  predicate MatchAt(s: seq<Byte>, p: nat) {
    p + 4 <= |s| && s[p] == CR && s[p + 1] == LF && s[p + 2] == CR && s[p + 3] == LF
  }

  predicate FirstMatch(s: seq<Byte>, p: nat) {
    MatchAt(s, p) && forall q: nat :: q < p ==> !MatchAt(s, q)
  }

  /** The verdict on a whole stream: the header ends with the first blank line, and must end in bounds. */
  ghost function Decide(s: seq<Byte>): Verdict {
    if p: nat :| FirstMatch(s, p) then if p + 4 > MAX_HTTP_HEADER_BYTES then Rejected else Complete
    else if |s| > MAX_HTTP_HEADER_BYTES then Rejected
    else Pending
  }

  lemma {:induction false} FirstExists(s: seq<Byte>, p: nat)
    requires MatchAt(s, p)
    ensures exists q: nat :: q <= p && FirstMatch(s, q)
  {
    if q: nat :| q < p && MatchAt(s, q) {
      FirstExists(s, q);
    } else {
      assert FirstMatch(s, p);
    }
  }

  lemma Decided(s: seq<Byte>)
    ensures forall p: nat :: FirstMatch(s, p) ==> Decide(s) == if p + 4 > MAX_HTTP_HEADER_BYTES then Rejected else Complete
    ensures (forall p: nat :: !MatchAt(s, p)) ==> Decide(s) == if |s| > MAX_HTTP_HEADER_BYTES then Rejected else Pending
    ensures Decide(s) == Pending ==> forall p: nat :: !MatchAt(s, p)
  {
    forall p: nat, q: nat | FirstMatch(s, p) && FirstMatch(s, q) ensures p == q {}
    if p: nat :| MatchAt(s, p) {
      FirstExists(s, p);
    }
  }

  /** A verdict once reached is final. */
  lemma VerdictStands(s: seq<Byte>, more: seq<Byte>)
    ensures Decide(s) != Pending ==> Decide(s + more) == Decide(s)
  {
    Decided(s);
    Decided(s + more);
    if p: nat :| FirstMatch(s, p) {
      SameMatches(s, more, p);
      assert FirstMatch(s + more, p);
    } else if p: nat :| MatchAt(s + more, p) {
      FirstExists(s + more, p);
      var q: nat :| FirstMatch(s + more, q);
      if q + 4 <= |s| {
        SameMatches(s, more, q);
        FirstExists(s, q);
      }
    }
  }

  lemma SameMatches(s: seq<Byte>, more: seq<Byte>, p: nat)
    ensures forall q: nat :: q + 4 <= |s| ==> (MatchAt(s, q) <==> MatchAt(s + more, q))
  {
  }

  /** First window holding the blank line. */
  method Position(s: seq<Byte>) returns (found: bool, position: nat)
    ensures found ==> FirstMatch(s, position)
    ensures !found ==> forall p: nat :: !MatchAt(s, p)
  {
    position := 0;
    while position + 4 <= |s|
      invariant forall q: nat :: q < position ==> !MatchAt(s, q)
    {
      if s[position] == CR && s[position + 1] == LF && s[position + 2] == CR && s[position + 3] == LF {
        return true, position;
      }
      position := position + 1;
    }
    found := false;
  }

  function Min(a: nat, b: nat): nat {
    if a < b then a else b
  }

  class HeaderGuardStream {
    var headerBytes: nat
    const tail: array<Byte>
    var tailLen: nat
    var complete: bool
    // Everything observed so far.
    ghost var seen: seq<Byte>

    /** Until the header ends the tail buffer holds the last min(3, total) bytes. */
    ghost predicate Valid()
      reads this, tail
    {
      && tail.Length == 3 && tailLen <= 3
      && (if complete then Decide(seen) == Complete else
            && Decide(seen) == Pending
            && headerBytes == |seen|
            && tailLen == Min(3, |seen|)
            && tail[..tailLen] == seen[|seen| - tailLen..])
    }

    constructor ()
      ensures Valid() && seen == [] && fresh(tail)
    {
      headerBytes, tailLen, complete, seen := 0, 0, false, [];
      tail := new Byte[3](_ => 0);
      new;
      Decided([]);
    }

    /** The state after a chunk is the verdict on everything seen; an error is exactly a rejection. */
    method Observe(bytes: seq<Byte>) returns (ok: bool)
      requires Valid()
      modifies this, tail
      ensures seen == old(seen) + bytes
      ensures ok <==> Decide(seen) != Rejected
      ensures ok ==> Valid()
      ensures ok ==> (complete <==> Decide(seen) == Complete)
    {
      hide Decide, MatchAt, FirstMatch;
      ghost var was := seen;
      VerdictStands(was, bytes);
      seen := seen + bytes;
      if complete {
        return true;
      }
      var before := headerBytes;
      headerBytes := headerBytes + |bytes|;
      var combined := tail[..tailLen] + bytes;
      Decided(was);
      var found, position := Position(combined);
      if found {
        var end := before - tailLen + position + 4;
        FoundDecides(was, tailLen, bytes, combined, position);
        if end > MAX_HTTP_HEADER_BYTES {
          return false;
        }
        complete := true;
        return true;
      }
      NoneDecides(was, tailLen, bytes, combined);
      if headerBytes > MAX_HTTP_HEADER_BYTES {
        return false;
      }
      tailLen := Min(3, |combined|);
      CopyTail(combined[|combined| - tailLen..]);
      LastBytes(was, bytes, combined, tailLen);
      ok := true;
    }

    method CopyTail(source: seq<Byte>)
      requires |source| <= tail.Length
      modifies tail
      ensures tail[..|source|] == source
    {
      for i := 0 to |source|
        invariant tail[..i] == source[..i]
      {
        tail[i] := source[i];
      }
    }
  }

  /** Keeping three bytes is enough: new matches are exactly the matches in the kept tail and the chunk. */
  lemma CombinedMatches(was: seq<Byte>, k: nat, bytes: seq<Byte>, combined: seq<Byte>, p: nat)
    requires k == Min(3, |was|) && combined == was[|was| - k..] + bytes && !MatchAt(was, p)
    ensures p < |was| - k ==> !MatchAt(was + bytes, p)
    ensures p >= |was| - k ==> (MatchAt(was + bytes, p) <==> MatchAt(combined, p - (|was| - k)))
  {
    assert forall i :: 0 <= i < |combined| ==> combined[i] == (was + bytes)[|was| - k + i];
    assert forall i :: 0 <= i < |was| ==> was[i] == (was + bytes)[i];
  }

  lemma FoundDecides(was: seq<Byte>, k: nat, bytes: seq<Byte>, combined: seq<Byte>, position: nat)
    requires k == Min(3, |was|) && combined == was[|was| - k..] + bytes
    requires (forall p: nat :: !MatchAt(was, p)) && FirstMatch(combined, position)
    ensures Decide(was + bytes) == if |was| - k + position + 4 > MAX_HTTP_HEADER_BYTES then Rejected else Complete
  {
    hide MatchAt, Decide;
    var s := was + bytes;
    var end: nat := |was| - k + position;
    assert !MatchAt(was, end);
    CombinedMatches(was, k, bytes, combined, end);
    forall q: nat | q < end ensures !MatchAt(s, q) {
      assert !MatchAt(was, q);
      CombinedMatches(was, k, bytes, combined, q);
    }
    assert FirstMatch(s, end);
    Decided(s);
  }

  lemma NoneDecides(was: seq<Byte>, k: nat, bytes: seq<Byte>, combined: seq<Byte>)
    requires k == Min(3, |was|) && combined == was[|was| - k..] + bytes
    requires (forall p: nat :: !MatchAt(was, p)) && forall p: nat :: !MatchAt(combined, p)
    ensures Decide(was + bytes) == if |was + bytes| > MAX_HTTP_HEADER_BYTES then Rejected else Pending
  {
    hide MatchAt, Decide;
    forall q: nat ensures !MatchAt(was + bytes, q) {
      assert !MatchAt(was, q);
      CombinedMatches(was, k, bytes, combined, q);
    }
    Decided(was + bytes);
  }

  lemma LastBytes(was: seq<Byte>, bytes: seq<Byte>, combined: seq<Byte>, n: nat)
    requires combined == was[|was| - Min(3, |was|)..] + bytes && n == Min(3, |combined|)
    ensures n == Min(3, |was + bytes|) && combined[|combined| - n..] == (was + bytes)[|was + bytes| - n..]
  {
    hide MatchAt, FirstMatch, Decide;
    var cut := |was| - Min(3, |was|);
    assert was == was[..cut] + was[cut..];
    assert was + bytes == was[..cut] + combined;
  }

  // ---------------------------------------------------------------- any chunking

  function Joined(chunks: seq<seq<Byte>>): seq<Byte> {
    if chunks == [] then [] else Joined(chunks[..|chunks| - 1]) + chunks[|chunks| - 1]
  }

  lemma {:induction false} JoinedFrom(chunks: seq<seq<Byte>>, i: nat)
    requires i <= |chunks|
    ensures exists more :: Joined(chunks) == Joined(chunks[..i]) + more
    decreases |chunks|
  {
    if i == |chunks| {
      assert chunks[..i] == chunks && Joined(chunks) == Joined(chunks) + [];
    } else {
      var init := chunks[..|chunks| - 1];
      JoinedFrom(init, i);
      assert init[..i] == chunks[..i];
      var more :| Joined(init) == Joined(chunks[..i]) + more;
      assert Joined(chunks) == Joined(chunks[..i]) + (more + chunks[|chunks| - 1]);
    }
  }

  /** However the stream is cut into chunks, the outcome is the verdict on the concatenation. */
  method ReadAll(chunks: seq<seq<Byte>>) returns (v: Verdict)
    ensures v == Decide(Joined(chunks))
  {
    var guard := new HeaderGuardStream();
    for i := 0 to |chunks|
      invariant guard.Valid() && fresh(guard) && fresh(guard.tail)
      invariant guard.seen == Joined(chunks[..i])
    {
      assert chunks[..i + 1][..i] == chunks[..i];
      var ok := guard.Observe(chunks[i]);
      if !ok {
        JoinedFrom(chunks, i + 1);
        var more :| Joined(chunks) == Joined(chunks[..i + 1]) + more;
        VerdictStands(guard.seen, more);
        return Rejected;
      }
    }
    assert chunks[..|chunks|] == chunks;
    v := if guard.complete then Complete else Pending;
  }
}
