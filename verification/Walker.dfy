/** The explicit-stack Enter/Exit walk with three colours, as a refinement of recursive post-order.

    The stack's top is its last element.  The walk is tied to `PostOrder` by giving each stack a
    meaning: what remains to be done when the walk resumes from it. */
module Walker {
  import opened Base
  import opened Sorting
  import opened Graph

  datatype Frame = Enter(id: EventId, child: Option<EventId>) | Exit(id: EventId)

  const IN_PROGRESS := 1
  const FINISHED := 2

  /** Pushes in reverse, so that `ids[0]` is entered first. */
  function PushEnters(stack: seq<Frame>, ids: seq<EventId>, child: Option<EventId>): seq<Frame> {
    if ids == [] then stack else PushEnters(stack, ids[1..], child) + [Enter(ids[0], child)]
  }

  /** The events in progress, outermost first. */
  ghost function Exits(stack: seq<Frame>): seq<EventId> {
    if stack == [] then []
    else
      var rest := Exits(stack[..|stack| - 1]);
      if stack[|stack| - 1].Exit? then rest + [stack[|stack| - 1].id] else rest
  }

  ghost function Resume(g: Graph, stack: seq<Frame>, done: seq<EventId>): Walk {
    if stack == [] then Ordered(done)
    else
      var rest := stack[..|stack| - 1];
      match stack[|stack| - 1]
      case Exit(id) => Resume(g, rest, done + [id])
      case Enter(id, _) =>
        match PostOrder(g, Exits(rest), [id], done)
        case Ordered(d) => Resume(g, rest, d)
        case w => w
  }

  /** The loop invariant shared by every walker: resuming yields the recursive result, and the
      colours say exactly which events are finished and which are in progress. */
  ghost predicate Walking(g: Graph, heads: seq<EventId>, stack: seq<Frame>, state: map<EventId, nat>, done: seq<EventId>) {
    && Resume(g, stack, done) == PostOrder(g, [], heads, [])
    && Distinct(done) && Distinct(Exits(stack)) && Disjoint(Exits(stack), done)
    && (forall x :: x in Exits(stack) || x in done ==> x in g)
    && (forall x :: x in state <==> x in done || x in Exits(stack))
    && (forall x :: x in done ==> state[x] == FINISHED)
    && (forall x :: x in Exits(stack) ==> state[x] == IN_PROGRESS)
  }

  lemma PostOrderHead(g: Graph, path: seq<EventId>, ids: seq<EventId>, done: seq<EventId>)
    requires ids != []
    ensures PostOrder(g, path, ids, done) ==
      match PostOrder(g, path, ids[..1], done)
      case Ordered(d) => PostOrder(g, path, ids[1..], d)
      case w => w
  {
    var one := ids[..1];
    assert one[0] == ids[0] && one[1..] == [];
    assert forall d :: PostOrder(g, path, [], d) == Ordered(d);
  }

  lemma {:induction false} ResumePush(g: Graph, base: seq<Frame>, ids: seq<EventId>, child: Option<EventId>, done: seq<EventId>)
    ensures Exits(PushEnters(base, ids, child)) == Exits(base)
    ensures Resume(g, PushEnters(base, ids, child), done) ==
      match PostOrder(g, Exits(base), ids, done)
      case Ordered(d) => Resume(g, base, d)
      case w => w
    decreases |ids|
  {
    if ids != [] {
      var stack := PushEnters(base, ids, child);
      var rest := PushEnters(base, ids[1..], child);
      assert stack[..|stack| - 1] == rest;
      ResumePush(g, base, ids[1..], child, done);
      PostOrderHead(g, Exits(base), ids, done);
      assert ids[..1] == [ids[0]];
      var w := PostOrder(g, Exits(base), ids[..1], done);
      if w.Ordered? {
        ResumePush(g, base, ids[1..], child, w.order);
      }
    }
  }

  lemma Start(g: Graph, heads: seq<EventId>)
    ensures Walking(g, heads, PushEnters([], heads, None), map[], [])
  {
    ResumePush(g, [], heads, None, []);
    var w := PostOrder(g, [], heads, []);
    assert w.Ordered? ==> Resume(g, [], w.order) == w;
  }

  lemma Skip(g: Graph, heads: seq<EventId>, stack: seq<Frame>, state: map<EventId, nat>, done: seq<EventId>)
    requires Walking(g, heads, stack, state, done) && stack != [] && stack[|stack| - 1].Enter?
    requires stack[|stack| - 1].id in state && state[stack[|stack| - 1].id] == FINISHED
    ensures Walking(g, heads, stack[..|stack| - 1], state, done)
  {
    var id := stack[|stack| - 1].id;
    assert PostOrder(g, Exits(stack), [id], done) == PostOrder(g, Exits(stack), [id][1..], done);
  }

  /** Meeting an event in progress, or one that cannot be loaded, is what the recursion reports. */
  lemma Stuck(g: Graph, heads: seq<EventId>, stack: seq<Frame>, state: map<EventId, nat>, done: seq<EventId>)
    requires Walking(g, heads, stack, state, done) && stack != [] && stack[|stack| - 1].Enter?
    ensures var id := stack[|stack| - 1].id;
      && (id in state && state[id] == IN_PROGRESS ==> PostOrder(g, [], heads, []) == CycleAt(id))
      && (id !in state && id !in g ==> PostOrder(g, [], heads, []) == MissingAt(id))
  {
  }

  lemma ResumeDescend(g: Graph, stack: seq<Frame>, done: seq<EventId>)
    requires stack != [] && stack[|stack| - 1].Enter?
    requires var id := stack[|stack| - 1].id; id in g && id !in done && id !in Exits(stack)
    ensures var id := stack[|stack| - 1].id;
      Resume(g, PushEnters(stack[..|stack| - 1] + [Exit(id)], g[id], Some(id)), done) == Resume(g, stack, done)
  {
    var id := stack[|stack| - 1].id;
    var rest := stack[..|stack| - 1];
    var base := rest + [Exit(id)];
    assert base[..|base| - 1] == rest;
    var path := Exits(rest) + [id];
    assert Exits(base) == path;
    ResumePush(g, base, g[id], Some(id), done);
    var w := PostOrder(g, path, g[id], done);
    var v := PostOrder(g, Exits(rest), [id], done);
    if w.Ordered? {
      assert [id][1..] == [];
      assert v == PostOrder(g, Exits(rest), [], w.order + [id]) == Ordered(w.order + [id]);
      assert Resume(g, base, w.order) == Resume(g, rest, w.order + [id]);
    } else {
      assert v == w;
    }
  }

  lemma Descend(g: Graph, heads: seq<EventId>, stack: seq<Frame>, state: map<EventId, nat>, done: seq<EventId>)
    requires Walking(g, heads, stack, state, done) && stack != [] && stack[|stack| - 1].Enter?
    requires stack[|stack| - 1].id !in state && stack[|stack| - 1].id in g
    ensures var id := stack[|stack| - 1].id;
      Walking(g, heads, PushEnters(stack[..|stack| - 1] + [Exit(id)], g[id], Some(id)), state[id := IN_PROGRESS], done)
  {
    var id := stack[|stack| - 1].id;
    var rest := stack[..|stack| - 1];
    var base := rest + [Exit(id)];
    assert base[..|base| - 1] == rest;
    assert Exits(base) == Exits(rest) + [id];
    ResumePush(g, base, g[id], Some(id), done);
    ResumeDescend(g, stack, done);
    forall x | x in Exits(rest) ensures x in state && x != id {
      assert x in Exits(stack);
    }
    var path := Exits(base);
    forall i, j | 0 <= i < j < |path| ensures path[i] != path[j] {
      assert i < |Exits(rest)| && Exits(rest)[i] in Exits(rest);
    }
  }

  lemma Leave(g: Graph, heads: seq<EventId>, stack: seq<Frame>, state: map<EventId, nat>, done: seq<EventId>)
    requires Walking(g, heads, stack, state, done) && stack != [] && stack[|stack| - 1].Exit?
    ensures var id := stack[|stack| - 1].id;
      && id in state && state[id] == IN_PROGRESS
      && Walking(g, heads, stack[..|stack| - 1], state[id := FINISHED], done + [id])
  {
    var id := stack[|stack| - 1].id;
    var rest := stack[..|stack| - 1];
    assert Exits(stack) == Exits(rest) + [id];
    assert id in Exits(stack);
    forall x | x in Exits(rest) ensures x != id && x in Exits(stack) {
      var k :| 0 <= k < |Exits(rest)| && Exits(rest)[k] == x;
      assert Exits(stack)[k] == x && Exits(stack)[|Exits(rest)|] == id;
    }
    forall i, j | 0 <= i < j < |Exits(rest)| ensures Exits(rest)[i] != Exits(rest)[j] {
      assert Exits(stack)[i] != Exits(stack)[j];
    }
  }

  lemma {:induction false} PostOrderGrows(g: Graph, path: seq<EventId>, ids: seq<EventId>, done: seq<EventId>)
    ensures var w := PostOrder(g, path, ids, done);
      w.Ordered? ==> done <= w.order && forall x :: x in ids ==> x in w.order
    decreases g.Keys - Elems(path), |ids|
  {
    var w := PostOrder(g, path, ids, done);
    if w.Ordered? && ids != [] {
      var id := ids[0];
      assert ids == [id] + ids[1..];
      if id in done {
        PostOrderGrows(g, path, ids[1..], done);
      } else {
        assert id !in Elems(path) && id in Elems(path + [id]);
        PostOrderGrows(g, path + [id], g[id], done);
        var d := PostOrder(g, path + [id], g[id], done).order + [id];
        PostOrderGrows(g, path, ids[1..], d);
        assert id in d;
      }
    }
  }

  lemma {:induction false} ResumeHolds(g: Graph, stack: seq<Frame>, done: seq<EventId>)
    ensures var w := Resume(g, stack, done);
      w.Ordered? ==> done <= w.order && forall k :: 0 <= k < |stack| ==> stack[k].id in w.order
    decreases |stack|
  {
    var w := Resume(g, stack, done);
    if w.Ordered? && stack != [] {
      var f := stack[|stack| - 1];
      var rest := stack[..|stack| - 1];
      var d := done + [f.id];
      if f.Enter? {
        PostOrderGrows(g, Exits(rest), [f.id], done);
        d := PostOrder(g, Exits(rest), [f.id], done).order;
      }
      ResumeHolds(g, rest, d);
      assert f.id in d && d <= w.order;
      forall k | 0 <= k < |stack| ensures stack[k].id in w.order {
        if k < |stack| - 1 { assert stack[k] == rest[k]; }
      }
    }
  }

  lemma {:induction false} ExitsOnStack(stack: seq<Frame>, x: EventId)
    requires x in Exits(stack)
    ensures exists k :: 0 <= k < |stack| && stack[k].id == x
  {
    var rest := stack[..|stack| - 1];
    if stack[|stack| - 1].id != x {
      assert Exits(stack) == Exits(rest) + [stack[|stack| - 1].id] || Exits(stack) == Exits(rest);
      ExitsOnStack(rest, x);
      var k :| 0 <= k < |rest| && rest[k].id == x;
      assert stack[k].id == x;
    }
  }

  /** Everything coloured so far, and the event being entered, belongs to the final order: a bound
      hit on the way is a bound the whole ancestry breaks. */
  lemma SeenWithinResult(g: Graph, heads: seq<EventId>, stack: seq<Frame>, state: map<EventId, nat>, done: seq<EventId>)
    requires Walking(g, heads, stack, state, done) && stack != []
    requires PostOrder(g, [], heads, []).Ordered?
    ensures state.Keys + {stack[|stack| - 1].id} <= Elems(PostOrder(g, [], heads, []).order)
    ensures Elems(PostOrder(g, [], heads, []).order) == Anc(g, Elems(heads))
  {
    PostOrderExact(g, heads);
    ResumeHolds(g, stack, done);
    var r := PostOrder(g, [], heads, []).order;
    forall x | x in state ensures x in r {
      if x in Exits(stack) {
        ExitsOnStack(stack, x);
      } else {
        assert x in done;
      }
    }
  }
}
