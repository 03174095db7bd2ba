/** Whole-graph cycle detection over the events that are present. */
module Cycles {
  import opened Base
  import opened Sorting
  import opened Graph
  import opened Walker
  import opened Tables

  function Present(ev: map<EventId, Event>, parents: seq<EventId>): (r: seq<EventId>)
    ensures forall p :: p in r <==> p in parents && p in ev
  {
    if parents == [] then []
    else
      var rest := Present(ev, parents[1..]);
      if parents[0] in ev then [parents[0]] + rest else rest
  }

  function PresentLinks(ev: map<EventId, Event>): Graph {
    map id | id in ev :: Present(ev, ev[id].body.parents)
  }

  /** Edges to absent parents lie on no cycle. */
  lemma AbsentParentsIrrelevant(ev: map<EventId, Event>)
    ensures Cyclic(PresentLinks(ev)) <==> Cyclic(Links(ev))
  {
    var g := PresentLinks(ev);
    var h := Links(ev);
    SubgraphCycles(g, h);
    if Cyclic(h) {
      var p :| IsCycle(h, p);
      assert p[|p| - 1] in h by { assert Edge(h, p[0], p[1]); }
      forall i, j | 0 <= i && j == i + 1 && j < |p| ensures Edge(g, p[i], p[j]) {
        assert Edge(h, p[i], p[j]);
        assert p[j] in ev by {
          if j < |p| - 1 {
            var k := j + 1;
            assert 0 <= j && k == j + 1 && Edge(h, p[j], p[k]);
          }
        }
      }
      assert IsCycle(g, p);
    }
  }

  lemma {:induction false} PostOrderSnoc(g: Graph, path: seq<EventId>, ids: seq<EventId>, x: EventId, done: seq<EventId>)
    ensures PostOrder(g, path, ids + [x], done) ==
      match PostOrder(g, path, ids, done)
      case Ordered(d) => PostOrder(g, path, [x], d)
      case w => w
    decreases |ids|
  {
    if ids == [] {
      assert ids + [x] == [x];
    } else {
      var all := ids + [x];
      assert all[1..] == ids[1..] + [x] && all[..1] == ids[..1];
      PostOrderHead(g, path, all, done);
      PostOrderHead(g, path, ids, done);
      var w := PostOrder(g, path, ids[..1], done);
      if w.Ordered? {
        PostOrderSnoc(g, path, ids[1..], x, w.order);
      }
    }
  }

  /** A finished walk continues with one more root on the same colours. */
  lemma NextRoot(g: Graph, heads: seq<EventId>, state: map<EventId, nat>, done: seq<EventId>, x: EventId)
    requires Walking(g, heads, [], state, done)
    ensures Walking(g, heads + [x], [Enter(x, None)], state, done)
  {
    PostOrderSnoc(g, [], heads, x, []);
    var stack := [Enter(x, None)];
    assert stack[..0] == [];
    assert Exits(stack) == [] && Exits([]) == [];
    var w := PostOrder(g, [], [x], done);
    assert w.Ordered? ==> Resume(g, [], w.order) == w;
  }

  lemma CycleFound(g: Graph, heads: seq<EventId>, stack: seq<Frame>, state: map<EventId, nat>, done: seq<EventId>)
    requires Walking(g, heads, stack, state, done) && stack != [] && stack[|stack| - 1].Enter?
    requires stack[|stack| - 1].id in state && state[stack[|stack| - 1].id] == IN_PROGRESS
    ensures Cyclic(g)
  {
    hide Walking;
    Stuck(g, heads, stack, state, done);
    PostOrderCycle(g, Elems(heads), [], heads, []);
  }

  lemma NothingMissing(g: Graph, heads: seq<EventId>, stack: seq<Frame>, state: map<EventId, nat>, done: seq<EventId>)
    requires Closed(g) && Elems(heads) <= g.Keys
    requires Walking(g, heads, stack, state, done) && stack != [] && stack[|stack| - 1].Enter? && stack[|stack| - 1].id !in state
    ensures stack[|stack| - 1].id in g
  {
    hide Walking;
    if stack[|stack| - 1].id !in g {
      Stuck(g, heads, stack, state, done);
      PostOrderMissing(g, [], heads, []);
      ReachPresent(g, Elems(heads), stack[|stack| - 1].id);
    }
  }

  lemma NoCycleLeft(g: Graph, heads: seq<EventId>, state: map<EventId, nat>, done: seq<EventId>)
    requires Walking(g, heads, [], state, done) && Elems(heads) == g.Keys
    ensures !Cyclic(g)
  {
    PostOrderExact(g, heads);
    forall p ensures !IsCycle(g, p) {
      if |p| >= 2 && Edge(g, p[0], p[1]) {
        ReachSelf(g, p[0]);
        assert ReachFrom(g, Elems(heads), p[0]);
      }
    }
  }

  /** Decides whether any event is its own proper ancestor. */
  method GraphHasCycle(ev: map<EventId, Event>) returns (cyclic: bool)
    ensures cyclic <==> Cyclic(Links(ev))
  {
    hide Walking, Cyclic, Closed, Links, Ascending, PushEnters;
    ghost var g := PresentLinks(ev);
    AbsentParentsIrrelevant(ev);
    PresentIsClosed(ev);
    var ids := SortedKeys(ev.Keys);
    var state: map<EventId, nat> := map[];
    ghost var done: seq<EventId> := [];
    EmptyWalk(g);
    for k := 0 to |ids|
      invariant Walking(g, ids[..k], [], state, done)
    {
      var root := ids[k];
      NextRoot(g, ids[..k], state, done, root);
      ghost var heads := ids[..k + 1];
      assert heads == ids[..k] + [root];
      assert Elems(heads) <= g.Keys by { forall x | x in heads ensures x in Elems(ids) {} }
      var stack := [Enter(root, None)];
      if root in state && state[root] == FINISHED {
        Skip(g, heads, stack, state, done);
        assert stack[..0] == [];
        continue;
      }
      while stack != []
        invariant Walking(g, heads, stack, state, done)
        decreases g.Keys - state.Keys, |stack|
      {
        var frame := stack[|stack| - 1];
        var id := frame.id;
        if frame.Enter? {
          if id in state && state[id] == FINISHED {
            Skip(g, heads, stack, state, done);
            stack := stack[..|stack| - 1];
          } else if id in state && state[id] == IN_PROGRESS {
            CycleFound(g, heads, stack, state, done);
            return true;
          } else {
            Uncoloured(g, heads, stack, state, done, id);
            NothingMissing(g, heads, stack, state, done);
            Descend(g, heads, stack, state, done);
            assert id in g.Keys - state.Keys && g.Keys - state[id := IN_PROGRESS].Keys < g.Keys - state.Keys;
            stack := PushEnters(stack[..|stack| - 1] + [Exit(id)], Present(ev, ev[id].body.parents), Some(id));
            state := state[id := IN_PROGRESS];
          }
        } else {
          Leave(g, heads, stack, state, done);
          assert state[id := FINISHED].Keys == state.Keys;
          done := done + [id];
          state := state[id := FINISHED];
          stack := stack[..|stack| - 1];
        }
      }
    }
    assert ids[..|ids|] == ids;
    NoCycleLeft(g, ids, state, done);
    cyclic := false;
  }

  lemma PresentIsClosed(ev: map<EventId, Event>)
    ensures Closed(PresentLinks(ev))
  {
  }

  lemma EmptyWalk(g: Graph)
    ensures Walking(g, [], [], map[], [])
  {
  }

  lemma Uncoloured(g: Graph, heads: seq<EventId>, stack: seq<Frame>, state: map<EventId, nat>, done: seq<EventId>, id: EventId)
    requires Walking(g, heads, stack, state, done)
    ensures id in state ==> state[id] == IN_PROGRESS || state[id] == FINISHED
  {
  }
}
