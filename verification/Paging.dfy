/** Choosing the size of one synchronization page by binary search over rendered lengths. */
module Paging {
  import opened Base
  import opened Sorting
  import opened Bundles

  function Page(c: ContextId, events: seq<Event>): Bundle {
    Bundle(c, events, [])
  }

  /** Rendered length of a page holding the first `n` of the remaining events. */
  function PageBytes(rest: seq<Event>, n: nat): nat
    requires n <= |rest|
  {
    BundleBytes(Page(0, rest[..n]))
  }

  lemma {:induction false} LongerIsLarger(rest: seq<Event>, m: nat, n: nat)
    requires m <= n <= |rest|
    ensures PageBytes(rest, m) <= PageBytes(rest, n)
    decreases n
  {
    if m < n {
      LongerIsLarger(rest, m, n - 1);
      assert rest[..n][..n - 1] == rest[..n - 1];
    }
  }

  lemma {:induction false} PageBytesIs(c: ContextId, rest: seq<Event>, n: nat)
    requires n <= |rest|
    ensures BundleBytes(Page(c, rest[..n])) == PageBytes(rest, n)
  {
  }

  /** The longest prefix within a byte limit, among the first `n`. */
  function Longest(rest: seq<Event>, n: nat, maxBytes: nat): nat
    requires n <= |rest|
  {
    if n == 0 || PageBytes(rest, n) <= maxBytes then n else Longest(rest, n - 1, maxBytes)
  }

  lemma {:induction false} LongestIs(rest: seq<Event>, n: nat, maxBytes: nat)
    requires n <= |rest|
    ensures var k := Longest(rest, n, maxBytes);
      && k <= n
      && (k > 0 ==> PageBytes(rest, k) <= maxBytes)
      && forall m :: k < m <= n ==> PageBytes(rest, m) > maxBytes
  {
    if n > 0 && PageBytes(rest, n) > maxBytes {
      LongestIs(rest, n - 1, maxBytes);
    }
  }

  /** The counts the search tries while every try fits: repeated halving towards `high`. */
  ghost predicate Rung(low: nat, high: nat, m: nat)
    decreases high - low
  {
    low <= high && (m == low + (high - low) / 2 || Rung(low + (high - low) / 2 + 1, high, m))
  }

  lemma {:induction false} RungInside(low: nat, high: nat, m: nat)
    requires Rung(low, high, m)
    ensures low <= m <= high
    decreases high - low
  {
    if m != low + (high - low) / 2 {
      RungInside(low + (high - low) / 2 + 1, high, m);
    }
  }

  /** The search meets no bundle above the hard cap: all candidates fit, or some rung is over the byte
      limit without being over the cap. */
  ghost predicate Searchable(rest: seq<Event>, low: nat, upper: nat, maxBytes: nat)
    requires upper <= |rest|
  {
    var k := Longest(rest, upper, maxBytes);
    k == upper || exists m: nat :: Rung(low, upper, m) && k < m <= upper && PageBytes(rest, m) <= MAX_BUNDLE_CANONICAL_BYTES
  }

  lemma PrefixWellFormed(c: ContextId, rest: seq<Event>, upper: nat, n: nat)
    requires n <= upper <= |rest| && WellFormed(Page(c, rest[..upper]))
    ensures WellFormed(Page(c, rest[..n]))
  {
    var big := rest[..upper];
    var small := rest[..n];
    assert forall i :: 0 <= i < n ==> small[i] == big[i];
    assert Ids(small) == Ids(big)[..n];
    forall i | 0 <= i < n
      ensures forall p :: p in small[i].body.parents && p in Ids(small) ==> p in Ids(small)[..i]
    {
      assert Ids(small)[..i] == Ids(big)[..i];
      assert forall p :: p in Ids(small) ==> p in Ids(big);
    }
    forall i, j | 0 <= i < j < n ensures Ids(small)[i] != Ids(small)[j] {
      assert Ids(big)[i] != Ids(big)[j];
    }
  }

  /** Returns the longest page within both limits, or fails: exactly when the first event does not
      fit, or when a try on the way renders above the hard cap. */
  method SearchPage(c: ContextId, rest: seq<Event>, upper: nat, maxBytes: nat) returns (r: Result<(nat, Bundle), StoreError>)
    requires 1 <= upper <= |rest| && maxBytes <= MAX_BUNDLE_CANONICAL_BYTES && WellFormed(Page(c, rest[..upper]))
    ensures r.Ok? <==> PageBytes(rest, 1) <= maxBytes && Searchable(rest, 1, upper, maxBytes)
    ensures r.Ok? ==> r.value.0 == Longest(rest, upper, maxBytes) && r.value.0 >= 1 && r.value.1 == Page(c, rest[..r.value.0])
    ensures r.Err? ==> r.error == BundleLimitExceeded
  {
    hide WellFormed, BundleBytes;
    ghost var k := Longest(rest, upper, maxBytes);
    LongestIs(rest, upper, maxBytes);
    var low := 1;
    var high := upper;
    var best: Option<(nat, Bundle)> := None;
    while low <= high
      invariant 1 <= low && high <= upper && low <= k + 1 && k <= high
      invariant if low == 1 then best == None else best == Some((low - 1, Page(c, rest[..low - 1]))) && PageBytes(rest, low - 1) <= maxBytes
      invariant high == upper ==> (Searchable(rest, 1, upper, maxBytes) <==> Searchable(rest, low, upper, maxBytes))
      invariant high < upper ==> Searchable(rest, 1, upper, maxBytes) && PageBytes(rest, high + 1) <= MAX_BUNDLE_CANONICAL_BYTES
      decreases high + 1 - low
    {
      var count := low + (high - low) / 2;
      PrefixWellFormed(c, rest, upper, count);
      var parts := FromParts(c, rest[..count], []);
      var bundle := parts.value;
      PageBytesIs(c, rest, count);
      var length := WireLength(bundle);
      if length.Err? {
        OverCap(rest, low, high, upper, maxBytes, count);
        return Err(BundleLimitExceeded);
      }
      if length.value <= maxBytes {
        FitsBelow(rest, upper, maxBytes, count);
        if high == upper { Climb(rest, low, upper, maxBytes, count); }
        best := Some((count, bundle));
        low := count + 1;
      } else {
        if count <= k { LongerIsLarger(rest, count, k); }
        if high == upper { assert Rung(low, upper, count); }
        high := count - 1;
      }
    }
    FirstFits(rest, upper, maxBytes);
    if best.None? {
      return Err(BundleLimitExceeded);
    }
    LongerIsLarger(rest, 1, k);
    r := Ok(best.value);
  }

  lemma FirstFits(rest: seq<Event>, upper: nat, maxBytes: nat)
    requires 1 <= upper <= |rest|
    ensures PageBytes(rest, 1) <= maxBytes ==> 1 <= Longest(rest, upper, maxBytes)
  {
    hide PageBytes, Longest;
    if PageBytes(rest, 1) <= maxBytes { FitsBelow(rest, upper, maxBytes, 1); }
  }

  lemma FitsBelow(rest: seq<Event>, upper: nat, maxBytes: nat, count: nat)
    requires count <= upper <= |rest| && PageBytes(rest, count) <= maxBytes
    ensures count <= Longest(rest, upper, maxBytes)
  {
    LongestIs(rest, upper, maxBytes);
  }

  lemma Climb(rest: seq<Event>, low: nat, upper: nat, maxBytes: nat, count: nat)
    requires 1 <= low <= upper <= |rest| && count == low + (upper - low) / 2 && count <= Longest(rest, upper, maxBytes)
    ensures Searchable(rest, low, upper, maxBytes) <==> Searchable(rest, count + 1, upper, maxBytes)
  {
    var k := Longest(rest, upper, maxBytes);
    forall m: nat | k < m ensures Rung(low, upper, m) <==> Rung(count + 1, upper, m) {
    }
  }

  lemma OverCap(rest: seq<Event>, low: nat, high: nat, upper: nat, maxBytes: nat, count: nat)
    requires 1 <= low <= high <= upper <= |rest| && count == low + (high - low) / 2
    requires PageBytes(rest, count) > MAX_BUNDLE_CANONICAL_BYTES >= maxBytes
    requires high == upper ==> (Searchable(rest, 1, upper, maxBytes) <==> Searchable(rest, low, upper, maxBytes))
    requires high < upper ==> PageBytes(rest, high + 1) <= MAX_BUNDLE_CANONICAL_BYTES
    ensures !Searchable(rest, 1, upper, maxBytes)
  {
    hide BundleBytes;
    var k := Longest(rest, upper, maxBytes);
    LongestIs(rest, upper, maxBytes);
    if high < upper {
      LongerIsLarger(rest, count, high + 1);
    } else {
      if k >= count { LongerIsLarger(rest, count, k); }
      forall m: nat | Rung(low, upper, m) && k < m <= upper ensures PageBytes(rest, m) > MAX_BUNDLE_CANONICAL_BYTES {
        RungFrom(low, upper, m);
        LongerIsLarger(rest, count, m);
      }
    }
  }

  lemma RungFrom(low: nat, high: nat, m: nat)
    requires low <= high && Rung(low, high, m)
    ensures m >= low + (high - low) / 2
  {
    if m != low + (high - low) / 2 {
      RungInside(low + (high - low) / 2 + 1, high, m);
    }
  }

  lemma {:induction false} TopRung(low: nat, high: nat)
    requires low <= high
    ensures Rung(low, high, high)
    decreases high - low
  {
    var mid := low + (high - low) / 2;
    if mid != high { TopRung(mid + 1, high); }
  }

  /** When everything that may go on the page renders within the hard cap, the search cannot be defeated. */
  lemma SmallRestSearches(rest: seq<Event>, upper: nat, maxBytes: nat)
    requires 1 <= upper <= |rest| && PageBytes(rest, upper) <= MAX_BUNDLE_CANONICAL_BYTES
    ensures Searchable(rest, 1, upper, maxBytes)
  {
    hide PageBytes, Longest;
    LongestIs(rest, upper, maxBytes);
    TopRung(1, upper);
  }

  /** When even the first halfway try renders above the cap, the search fails, unless everything fits. */
  lemma FirstTryDefeats(rest: seq<Event>, upper: nat, maxBytes: nat)
    requires 1 <= upper <= |rest| && maxBytes <= MAX_BUNDLE_CANONICAL_BYTES
    requires PageBytes(rest, 1 + (upper - 1) / 2) > MAX_BUNDLE_CANONICAL_BYTES
    ensures !Searchable(rest, 1, upper, maxBytes)
  {
    hide PageBytes, Longest;
    var first := 1 + (upper - 1) / 2;
    LongestIs(rest, upper, maxBytes);
    LongerIsLarger(rest, first, upper);
    forall m: nat | Rung(1, upper, m) && m <= upper ensures PageBytes(rest, m) > MAX_BUNDLE_CANONICAL_BYTES {
      RungFrom(1, upper, m);
      LongerIsLarger(rest, first, m);
    }
  }
}
