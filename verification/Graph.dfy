/** Parent graphs, ancestry, cycles, and the recursive post-order that the iterative walkers refine. */
module Graph {
  import opened Base
  import opened Sorting

  // Each present event with its parents, in signed order.
  type Graph = map<EventId, seq<EventId>>

  predicate Edge(g: Graph, child: EventId, parent: EventId) {
    child in g && parent in g[child]
  }

  ghost predicate Chain(g: Graph, p: seq<EventId>) {
    forall i, j :: 0 <= i && j == i + 1 && j < |p| ==> Edge(g, p[i], p[j])
  }

  ghost predicate IsPath(g: Graph, a: EventId, p: seq<EventId>, b: EventId) {
    |p| > 0 && p[0] == a && p[|p| - 1] == b && Chain(g, p)
  }

  /** `b` is `a` itself or one of its ancestors. */
  ghost predicate Reach(g: Graph, a: EventId, b: EventId) {
    exists p :: IsPath(g, a, p, b)
  }

  ghost predicate ReachFrom(g: Graph, heads: set<EventId>, x: EventId) {
    exists h :: h in heads && Reach(g, h, x)
  }

  /** The present events reachable from the heads. */
  ghost function Anc(g: Graph, heads: set<EventId>): set<EventId> {
    set x | x in g.Keys && ReachFrom(g, heads, x)
  }

  ghost predicate Closed(g: Graph) {
    forall c, p :: Edge(g, c, p) ==> p in g
  }

  /** `p` is a nonempty walk along parent edges back to its first event. */
  ghost predicate IsCycle(g: Graph, p: seq<EventId>) {
    |p| >= 2 && Chain(g, p) && p[0] == p[|p| - 1]
  }

  ghost predicate Cyclic(g: Graph) {
    exists p :: IsCycle(g, p)
  }

  ghost predicate CyclicFrom(g: Graph, heads: set<EventId>) {
    exists p :: IsCycle(g, p) && ReachFrom(g, heads, p[0])
  }

  ghost predicate Agree(g: Graph, h: Graph) {
    forall x :: x in g && x in h ==> g[x] == h[x]
  }

  // ---------------------------------------------------------------- reachability

  lemma ReachSelf(g: Graph, a: EventId)
    ensures Reach(g, a, a)
  {
    assert IsPath(g, a, [a], a);
  }

  lemma PathJoin(g: Graph, a: EventId, p: seq<EventId>, b: EventId, q: seq<EventId>, c: EventId)
    requires IsPath(g, a, p, b) && IsPath(g, b, q, c)
    ensures IsPath(g, a, p + q[1..], c)
  {
    var r := p + q[1..];
    forall i, j | 0 <= i && j == i + 1 && j < |r|
      ensures Edge(g, r[i], r[j])
    {
      if j < |p| {
        assert Edge(g, p[i], p[j]);
      } else {
        assert r[j] == q[j - |p| + 1];
        assert r[i] == q[i - |p| + 1];
        assert Edge(g, q[i - |p| + 1], q[j - |p| + 1]);
      }
    }
  }

  lemma ReachTrans(g: Graph, a: EventId, b: EventId, c: EventId)
    requires Reach(g, a, b) && Reach(g, b, c)
    ensures Reach(g, a, c)
  {
    var p :| IsPath(g, a, p, b);
    var q :| IsPath(g, b, q, c);
    PathJoin(g, a, p, b, q, c);
  }

  lemma ReachEdge(g: Graph, a: EventId, b: EventId)
    requires Edge(g, a, b)
    ensures Reach(g, a, b)
  {
    assert IsPath(g, a, [a, b], b);
  }

  /** A set that holds the start and every parent of its members holds everything reachable. */
  lemma {:induction false} ClosedUnder(g: Graph, s: set<EventId>, p: seq<EventId>)
    requires |p| > 0 && p[0] in s && Chain(g, p)
    requires forall c, q :: c in s && Edge(g, c, q) ==> q in s
    ensures p[|p| - 1] in s
  {
    if |p| > 1 {
      assert Edge(g, p[0], p[1]);
      forall i, j | 0 <= i && j == i + 1 && j < |p[1..]| ensures Edge(g, p[1..][i], p[1..][j]) {
        assert Edge(g, p[i + 1], p[j + 1]);
      }
      ClosedUnder(g, s, p[1..]);
    }
  }

  lemma ReachWithin(g: Graph, s: set<EventId>, a: EventId, b: EventId)
    requires Reach(g, a, b) && a in s
    requires forall c, q :: c in s && Edge(g, c, q) ==> q in s
    ensures b in s
  {
    var p :| IsPath(g, a, p, b);
    ClosedUnder(g, s, p);
  }

  /** In a parent-closed graph nothing reachable from present heads is missing. */
  lemma ReachPresent(g: Graph, heads: set<EventId>, x: EventId)
    requires Closed(g) && heads <= g.Keys && ReachFrom(g, heads, x)
    ensures x in g
  {
    var h :| h in heads && Reach(g, h, x);
    ReachWithin(g, g.Keys, h, x);
  }

  lemma AncClosed(g: Graph, heads: set<EventId>, c: EventId, p: EventId)
    requires Closed(g) && c in Anc(g, heads) && Edge(g, c, p)
    ensures p in Anc(g, heads)
  {
    var h :| h in heads && Reach(g, h, c);
    ReachEdge(g, c, p);
    ReachTrans(g, h, c, p);
    assert ReachFrom(g, heads, p);
  }

  lemma AncHeads(g: Graph, heads: set<EventId>)
    ensures heads * g.Keys <= Anc(g, heads)
  {
    forall h | h in heads && h in g ensures h in Anc(g, heads) {
      ReachSelf(g, h);
      assert ReachFrom(g, heads, h);
    }
  }

  /** Ancestry is monotone in its heads, and ancestors of ancestors are ancestors. */
  lemma AncMonotone(g: Graph, a: set<EventId>, b: set<EventId>)
    requires forall x :: x in a ==> ReachFrom(g, b, x)
    ensures Anc(g, a) <= Anc(g, b)
  {
    forall x | x in Anc(g, a) ensures x in Anc(g, b) {
      var h :| h in a && Reach(g, h, x);
      var k :| k in b && Reach(g, k, h);
      ReachTrans(g, k, h, x);
      assert ReachFrom(g, b, x);
    }
  }

  lemma AncUnion(g: Graph, a: set<EventId>, b: set<EventId>)
    ensures Anc(g, a + b) == Anc(g, a) + Anc(g, b)
  {
    forall x | x in g.Keys
      ensures ReachFrom(g, a + b, x) <==> ReachFrom(g, a, x) || ReachFrom(g, b, x)
    {
      if ReachFrom(g, a + b, x) {
        var h :| h in a + b && Reach(g, h, x);
        assert h in a || h in b;
      }
      if ReachFrom(g, a, x) {
        var h :| h in a && Reach(g, h, x);
        assert h in a + b;
      }
      if ReachFrom(g, b, x) {
        var h :| h in b && Reach(g, h, x);
        assert h in a + b;
      }
    }
  }

  // ---------------------------------------------------------------- recursive post-order

  datatype Walk = Ordered(order: seq<EventId>) | CycleAt(id: EventId) | MissingAt(id: EventId)

  /** Visits `ids` left to right, parents before children, skipping what `done` already holds.
      `path` is the chain of events being visited, outermost first. */
  function PostOrder(g: Graph, path: seq<EventId>, ids: seq<EventId>, done: seq<EventId>): Walk
    decreases g.Keys - Elems(path), |ids|
  {
    if ids == [] then Ordered(done)
    else
      var id := ids[0];
      if id in done then PostOrder(g, path, ids[1..], done)
      else if id in path then CycleAt(id)
      else if id !in g then MissingAt(id)
      else
        assert id !in Elems(path) && id in Elems(path + [id]);
        match PostOrder(g, path + [id], g[id], done)
        case Ordered(d) => PostOrder(g, path, ids[1..], d + [id])
        case w => w
  }

  ghost predicate Topo(g: Graph, s: seq<EventId>) {
    && Distinct(s)
    && forall i :: 0 <= i < |s| ==> s[i] in g && forall p :: p in g[s[i]] ==> p in s[..i]
  }

  ghost predicate Disjoint(a: seq<EventId>, b: seq<EventId>) {
    forall x :: x in a ==> x !in b
  }

  lemma TopoAppend(g: Graph, s: seq<EventId>, x: EventId)
    requires Topo(g, s) && x !in s && x in g && forall p :: p in g[x] ==> p in s
    ensures Topo(g, s + [x])
  {
    var t := s + [x];
    forall i | 0 <= i < |t| ensures t[i] in g && forall p :: p in g[t[i]] ==> p in t[..i] {
      if i < |s| {
        assert t[..i] == s[..i];
      } else {
        assert t[..i] == s;
      }
    }
  }

  /** An ordered walk extends `done`, lists parents first without repeats, holds every start,
      stays off the current path, and adds only what the starts reach. */
  lemma {:induction false} PostOrderSound(g: Graph, path: seq<EventId>, ids: seq<EventId>, done: seq<EventId>)
    requires Topo(g, done) && Disjoint(path, done)
    ensures var w := PostOrder(g, path, ids, done);
      w.Ordered? ==>
        && done <= w.order
        && Topo(g, w.order)
        && Disjoint(path, w.order)
        && (forall x :: x in ids ==> x in w.order)
        && (forall x :: x in w.order && x !in done ==> ReachFrom(g, Elems(ids), x))
    decreases g.Keys - Elems(path), |ids|
  {
    var w := PostOrder(g, path, ids, done);
    if w.Ordered? && ids != [] {
      var id := ids[0];
      var d := done;
      if id !in done {
        assert id !in Elems(path) && id in Elems(path + [id]);
        d := PostOrder(g, path + [id], g[id], done).order;
        PostOrderSound(g, path + [id], g[id], done);
        assert id !in d by { assert id in path + [id]; }
        TopoAppend(g, d, id);
        forall x | x in d + [id] && x !in done ensures Reach(g, id, x) {
          if x == id {
            ReachSelf(g, id);
          } else {
            var h :| h in Elems(g[id]) && Reach(g, h, x);
            ReachEdge(g, id, h);
            ReachTrans(g, id, h, x);
          }
        }
        assert Disjoint(path, d) by {
          forall x | x in path ensures x !in d { assert x in path + [id]; }
        }
        d := d + [id];
      }
      PostOrderSound(g, path, ids[1..], d);
      assert ids == [id] + ids[1..];
      assert id in d && d <= w.order;
      forall x | x in w.order && x !in done ensures ReachFrom(g, Elems(ids), x) {
        if x in d {
          assert id in Elems(ids);
        } else {
          var h :| h in Elems(ids[1..]) && Reach(g, h, x);
          assert h in Elems(ids);
        }
      }
    }
  }

  /** Reported cycles are real and reachable from the heads. */
  lemma {:induction false} PostOrderCycle(g: Graph, heads: set<EventId>, path: seq<EventId>, ids: seq<EventId>,
                                          done: seq<EventId>)
    requires Chain(g, path)
    requires path != [] ==> path[0] in heads && forall x :: x in ids ==> Edge(g, path[|path| - 1], x)
    requires path == [] ==> Elems(ids) <= heads
    ensures PostOrder(g, path, ids, done).CycleAt? ==> CyclicFrom(g, heads)
    decreases g.Keys - Elems(path), |ids|
  {
    if ids != [] {
      var id := ids[0];
      assert ids == [id] + ids[1..];
      assert id in ids && id in Elems(ids);
      assert forall x :: x in ids[1..] ==> x in ids;
      assert Chain(g, path + [id]);
      if id in done {
        PostOrderCycle(g, heads, path, ids[1..], done);
      } else if id in path {
        var k :| 0 <= k < |path| && path[k] == id;
        var p := path[k..] + [id];
        forall i, j | 0 <= i && j == i + 1 && j < |p| ensures Edge(g, p[i], p[j]) {
          assert p[i] == (path + [id])[k + i] && p[j] == (path + [id])[k + j];
        }
        assert IsCycle(g, p);
        assert IsPath(g, path[0], path[..k + 1], id);
      } else if id in g {
        assert id !in Elems(path) && id in Elems(path + [id]);
        PostOrderCycle(g, heads, path + [id], g[id], done);
        var w := PostOrder(g, path + [id], g[id], done);
        if w.Ordered? {
          PostOrderCycle(g, heads, path, ids[1..], w.order + [id]);
        }
      }
    }
  }

  /** Reported missing events are absent and reachable from the starts. */
  lemma {:induction false} PostOrderMissing(g: Graph, path: seq<EventId>, ids: seq<EventId>, done: seq<EventId>)
    ensures var w := PostOrder(g, path, ids, done);
      w.MissingAt? ==> w.id !in g && ReachFrom(g, Elems(ids), w.id)
    decreases g.Keys - Elems(path), |ids|
  {
    var w := PostOrder(g, path, ids, done);
    if w.MissingAt? {
      var id := ids[0];
      assert ids == [id] + ids[1..];
      assert id in Elems(ids);
      if id in done {
        PostOrderMissing(g, path, ids[1..], done);
        var h :| h in Elems(ids[1..]) && Reach(g, h, w.id);
        assert h in Elems(ids);
      } else if id !in g {
        ReachSelf(g, id);
      } else {
        assert id !in Elems(path) && id in Elems(path + [id]);
        PostOrderMissing(g, path + [id], g[id], done);
        var v := PostOrder(g, path + [id], g[id], done);
        if v.Ordered? {
          PostOrderMissing(g, path, ids[1..], v.order + [id]);
          var h :| h in Elems(ids[1..]) && Reach(g, h, w.id);
          assert h in Elems(ids);
        } else {
          var h :| h in Elems(g[id]) && Reach(g, h, w.id);
          ReachEdge(g, id, h);
          ReachTrans(g, id, h, w.id);
        }
      }
    }
  }

  /** Positions strictly fall along parent edges, so a parent-first sequence meets no cycle. */
  lemma {:induction false} TopoDescends(g: Graph, s: seq<EventId>, p: seq<EventId>, k: nat)
    requires Topo(g, s) && |p| > 0 && Chain(g, p) && k < |s| && s[k] == p[0]
    ensures exists j :: 0 <= j <= k && s[j] == p[|p| - 1] && (|p| > 1 ==> j < k)
    decreases |p|
  {
    if |p| > 1 {
      assert Edge(g, p[0], p[1]);
      assert p[1] in s[..k];
      var m :| 0 <= m < k && s[m] == p[1];
      var q := p[1..];
      forall i, j | 0 <= i && j == i + 1 && j < |q| ensures Edge(g, q[i], q[j]) {
        assert Edge(g, p[i + 1], p[j + 1]);
      }
      TopoDescends(g, s, q, m);
    }
  }

  lemma TopoNoCycle(g: Graph, s: seq<EventId>, p: seq<EventId>)
    requires Topo(g, s) && IsCycle(g, p)
    ensures p[0] !in s
  {
    if p[0] in s {
      var k :| 0 <= k < |s| && s[k] == p[0];
      TopoDescends(g, s, p, k);
    }
  }

  lemma TopoHoldsAncestors(g: Graph, s: seq<EventId>, a: EventId, b: EventId)
    requires Topo(g, s) && a in s && Reach(g, a, b)
    ensures b in s
  {
    var p :| IsPath(g, a, p, b);
    var k :| 0 <= k < |s| && s[k] == a;
    TopoDescends(g, s, p, k);
  }

  /** The top-level walk orders exactly the ancestors of the heads, and fails exactly when some
      ancestor is missing or lies on a cycle. */
  lemma PostOrderExact(g: Graph, ids: seq<EventId>)
    ensures var w := PostOrder(g, [], ids, []);
      && (w.Ordered? ==> Topo(g, w.order) && Elems(w.order) == Anc(g, Elems(ids)) && |w.order| == |Anc(g, Elems(ids))|)
      && (w.Ordered? <==> !CyclicFrom(g, Elems(ids)) && forall x :: ReachFrom(g, Elems(ids), x) ==> x in g)
  {
    var w := PostOrder(g, [], ids, []);
    PostOrderSound(g, [], ids, []);
    PostOrderCycle(g, Elems(ids), [], ids, []);
    PostOrderMissing(g, [], ids, []);
    if w.Ordered? {
      forall x | ReachFrom(g, Elems(ids), x) ensures x in w.order {
        var h :| h in Elems(ids) && Reach(g, h, x);
        TopoHoldsAncestors(g, w.order, h, x);
      }
      forall p | IsCycle(g, p) ensures !ReachFrom(g, Elems(ids), p[0]) {
        TopoNoCycle(g, w.order, p);
      }
      DistinctSize(w.order);
    }
  }

  /** On a parent-closed acyclic graph the walk from present heads always succeeds. */
  lemma PostOrderTotal(g: Graph, ids: seq<EventId>)
    requires Closed(g) && !Cyclic(g) && Elems(ids) <= g.Keys
    ensures PostOrder(g, [], ids, []).Ordered?
  {
    PostOrderExact(g, ids);
    forall x | ReachFrom(g, Elems(ids), x) ensures x in g {
      ReachPresent(g, Elems(ids), x);
    }
  }

  /** Two graphs that agree on shared events order the same heads identically. */
  lemma {:induction false} PostOrderAgree(g: Graph, h: Graph, path: seq<EventId>, ids: seq<EventId>, done: seq<EventId>)
    requires Agree(g, h)
    requires PostOrder(g, path, ids, done).Ordered? && PostOrder(h, path, ids, done).Ordered?
    ensures PostOrder(g, path, ids, done) == PostOrder(h, path, ids, done)
    decreases g.Keys - Elems(path), |ids|
  {
    if ids != [] {
      var id := ids[0];
      if id in done {
        PostOrderAgree(g, h, path, ids[1..], done);
      } else {
        assert id !in Elems(path) && id in Elems(path + [id]);
        PostOrderAgree(g, h, path + [id], g[id], done);
        var d := PostOrder(g, path + [id], g[id], done).order + [id];
        PostOrderAgree(g, h, path, ids[1..], d);
      }
    }
  }

  /** Events added elsewhere never change an ordering already obtained. */
  lemma {:induction false} PostOrderStable(g: Graph, h: Graph, path: seq<EventId>, ids: seq<EventId>, done: seq<EventId>)
    requires forall x :: x in g ==> x in h && h[x] == g[x]
    requires PostOrder(g, path, ids, done).Ordered?
    ensures PostOrder(h, path, ids, done) == PostOrder(g, path, ids, done)
    decreases g.Keys - Elems(path), |ids|
  {
    if ids != [] {
      var id := ids[0];
      if id in done {
        PostOrderStable(g, h, path, ids[1..], done);
      } else {
        assert id !in Elems(path) && id in Elems(path + [id]);
        PostOrderStable(g, h, path + [id], g[id], done);
        var d := PostOrder(g, path + [id], g[id], done).order + [id];
        PostOrderStable(g, h, path, ids[1..], d);
      }
    }
  }

  /** Adding an absent event above a parent-closed acyclic graph keeps it closed and acyclic. */
  lemma ExtendAcyclic(g: Graph, x: EventId, parents: seq<EventId>)
    requires Closed(g) && !Cyclic(g) && x !in g && Elems(parents) <= g.Keys
    ensures Closed(g[x := parents]) && !Cyclic(g[x := parents])
  {
    var h := g[x := parents];
    forall c, p | Edge(h, c, p) ensures p in g {
      if c == x { assert p in Elems(parents); } else { assert Edge(g, c, p); }
    }
    forall p | IsCycle(h, p) ensures false {
      forall j | 1 <= j < |p| ensures p[j] in g {
        var i := j - 1;
        assert 0 <= i && j == i + 1 && Edge(h, p[i], p[j]);
      }
      forall i, j | 0 <= i && j == i + 1 && j < |p| ensures Edge(g, p[i], p[j]) {
        assert Edge(h, p[i], p[j]);
      }
      assert IsCycle(g, p);
    }
  }

  lemma SubgraphCycles(g: Graph, h: Graph)
    requires forall a, b :: Edge(g, a, b) ==> Edge(h, a, b)
    ensures Cyclic(g) ==> Cyclic(h)
  {
    if Cyclic(g) {
      var p :| IsCycle(g, p);
      forall i, j | 0 <= i && j == i + 1 && j < |p| ensures Edge(h, p[i], p[j]) {
        assert Edge(g, p[i], p[j]);
      }
      assert IsCycle(h, p);
    }
  }

  /** No event of an acyclic graph is a proper ancestor of itself. */
  lemma AcyclicAntisymmetric(g: Graph, a: EventId, b: EventId)
    requires !Cyclic(g) && Reach(g, a, b) && Reach(g, b, a)
    ensures a == b
  {
    if a != b {
      var p :| IsPath(g, a, p, b);
      var q :| IsPath(g, b, q, a);
      PathJoin(g, a, p, b, q, a);
      assert IsCycle(g, p + q[1..]);
    }
  }
}
