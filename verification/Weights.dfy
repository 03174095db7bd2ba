/** Byte totals over finite sets of events. */
module Weights {
  import opened Base
  import opened Sorting

  function Size(w: map<EventId, nat>, x: EventId): nat {
    if x in w then w[x] else 0
  }

  /** Total over a sequence, in order. */
  function SeqWeight(w: map<EventId, nat>, s: seq<EventId>): nat {
    if s == [] then 0 else SeqWeight(w, s[..|s| - 1]) + Size(w, s[|s| - 1])
  }

  ghost function Weight(w: map<EventId, nat>, s: set<EventId>): nat {
    if s == {} then 0 else var x :| x in s; Weight(w, s - {x}) + Size(w, x)
  }

  lemma {:induction false} WeightAdd(w: map<EventId, nat>, s: set<EventId>, x: EventId)
    requires x !in s
    ensures Weight(w, s + {x}) == Weight(w, s) + Size(w, x)
    decreases |s|
  {
    var t := s + {x};
    var y :| y in t && Weight(w, t) == Weight(w, t - {y}) + Size(w, y);
    if y == x {
      assert t - {y} == s;
    } else {
      WeightAdd(w, s - {y}, x);
      assert t - {y} == (s - {y}) + {x};
      WeightAdd(w, s - {y}, y);
      assert (s - {y}) + {y} == s;
    }
  }

  lemma WeightNone(w: map<EventId, nat>)
    ensures Weight(w, {}) == 0
  {
  }

  lemma {:induction false} WeightUnion(w: map<EventId, nat>, s: set<EventId>, t: set<EventId>)
    requires forall x :: x in t ==> x !in s
    ensures Weight(w, s + t) == Weight(w, s) + Weight(w, t)
    decreases |t|
  {
    hide *;
    if t == {} {
      WeightNone(w);
      assert s + t == s;
    } else {
      var x :| x in t;
      var rest := t - {x};
      assert rest + {x} == t;
      assert s + t == (s + rest) + {x};
      WeightUnion(w, s, rest);
      WeightAdd(w, s + rest, x);
      WeightAdd(w, rest, x);
    }
  }

  lemma {:induction false} WeightMonotone(w: map<EventId, nat>, s: set<EventId>, t: set<EventId>)
    requires s <= t
    ensures Weight(w, s) <= Weight(w, t)
    decreases |t - s|
  {
    if s != t {
      assert exists x :: x in t && x !in s by {
        assert t <= s || exists x :: x in t && x !in s;
      }
      var x :| x in t && x !in s;
      WeightAdd(w, s, x);
      assert t - (s + {x}) < t - s;
      WeightMonotone(w, s + {x}, t);
    }
  }

  lemma {:induction false} SeqWeightIsWeight(w: map<EventId, nat>, s: seq<EventId>)
    requires Distinct(s)
    ensures SeqWeight(w, s) == Weight(w, Elems(s))
  {
    if s != [] {
      var t := s[..|s| - 1];
      SeqWeightIsWeight(w, t);
      assert s == t + [s[|s| - 1]];
      assert Elems(s) == Elems(t) + {s[|s| - 1]};
      WeightAdd(w, Elems(t), s[|s| - 1]);
    }
  }

  lemma {:induction false} WeightAgrees(v: map<EventId, nat>, w: map<EventId, nat>, s: set<EventId>)
    requires forall x :: x in s ==> Size(v, x) == Size(w, x)
    ensures Weight(v, s) == Weight(w, s)
    decreases |s|
  {
    if s != {} {
      var x :| x in s;
      WeightAgrees(v, w, s - {x});
      WeightAdd(v, s - {x}, x);
      WeightAdd(w, s - {x}, x);
      assert (s - {x}) + {x} == s;
    }
  }
}
