/** Walks in a finite directed graph, as the search follows them: from a node to its blockers. */
module Reachability {
  import opened NodeOrder

  type Graph = map<NodeId, set<NodeId>>

  predicate Edge(g: Graph, a: NodeId, b: NodeId) {
    a in g && b in g[a]
  }

  /** The nodes an edge leads to, none for a node without an entry. */
  function Blockers(g: Graph, a: NodeId): set<NodeId> {
    if a in g then g[a] else {}
  }

  /** `p` lists the nodes after `a` on a walk from `a` to `b`. */
  ghost predicate Walk(g: Graph, p: seq<NodeId>, a: NodeId, b: NodeId) {
    if p == [] then a == b else Edge(g, a, p[0]) && Walk(g, p[1..], p[0], b)
  }

  ghost predicate Reach(g: Graph, a: NodeId, b: NodeId) {
    exists p :: Walk(g, p, a, b)
  }

  ghost predicate Mutual(g: Graph, a: NodeId, b: NodeId) {
    Reach(g, a, b) && Reach(g, b, a)
  }

  /** A walk of at least one edge from the node back to itself. */
  ghost predicate OnCycle(g: Graph, n: NodeId) {
    exists m :: Edge(g, n, m) && Reach(g, m, n)
  }

  lemma ReachSelf(g: Graph, a: NodeId)
    ensures Reach(g, a, a)
  {
    assert Walk(g, [], a, a);
  }

  lemma ReachEdge(g: Graph, a: NodeId, b: NodeId)
    requires Edge(g, a, b)
    ensures Reach(g, a, b)
  {
    assert Walk(g, [b][1..], b, b);
    assert Walk(g, [b], a, b);
  }

  lemma {:induction false} WalkAppend(g: Graph, p: seq<NodeId>, q: seq<NodeId>, a: NodeId, b: NodeId, c: NodeId)
    requires Walk(g, p, a, b) && Walk(g, q, b, c)
    ensures Walk(g, p + q, a, c)
  {
    if p == [] {
      assert p + q == q;
    } else {
      WalkAppend(g, p[1..], q, p[0], b, c);
      assert (p + q)[1..] == p[1..] + q;
    }
  }

  lemma ReachTrans(g: Graph, a: NodeId, b: NodeId, c: NodeId)
    requires Reach(g, a, b) && Reach(g, b, c)
    ensures Reach(g, a, c)
  {
    var p :| Walk(g, p, a, b);
    var q :| Walk(g, q, b, c);
    WalkAppend(g, p, q, a, b, c);
  }

  /** Nothing but itself is reached from a node without blockers. */
  lemma SinkReaches(g: Graph, a: NodeId, b: NodeId)
    requires Blockers(g, a) == {} && Reach(g, a, b)
    ensures b == a
  {
    var p :| Walk(g, p, a, b);
  }

  /** A walk that leaves a set does so across some edge. */
  lemma {:induction false} LeavingEdge(g: Graph, p: seq<NodeId>, a: NodeId, b: NodeId, inside: set<NodeId>)
    returns (u: NodeId, v: NodeId)
    requires Walk(g, p, a, b) && a in inside && b !in inside
    ensures u in inside && v !in inside && Edge(g, u, v)
    ensures Reach(g, a, u) && Reach(g, v, b)
    decreases |p|
  {
    if p[0] in inside {
      u, v := LeavingEdge(g, p[1..], p[0], b, inside);
      ReachEdge(g, a, p[0]);
      ReachTrans(g, a, p[0], u);
    } else {
      u, v := a, p[0];
      ReachSelf(g, a);
    }
  }

  /** What is closed under edges is closed under reachability. */
  lemma ClosedUnderReach(g: Graph, inside: set<NodeId>, a: NodeId, b: NodeId)
    requires forall u, v :: u in inside && Edge(g, u, v) ==> v in inside
    requires a in inside && Reach(g, a, b)
    ensures b in inside
  {
    if b !in inside {
      var p :| Walk(g, p, a, b);
      var u, v := LeavingEdge(g, p, a, b, inside);
    }
  }

  /** A node is on a cycle exactly when it blocks itself or shares a component with another node. */
  lemma CycleIsSharedComponent(g: Graph, n: NodeId)
    ensures OnCycle(g, n) <==> Edge(g, n, n) || exists m :: m != n && Mutual(g, n, m)
  {
    if OnCycle(g, n) {
      var m :| Edge(g, n, m) && Reach(g, m, n);
      ReachEdge(g, n, m);
      assert m != n ==> Mutual(g, n, m);
    }
    if Edge(g, n, n) {
      ReachSelf(g, n);
    }
    if m :| m != n && Mutual(g, n, m) {
      var p :| Walk(g, p, n, m);
      assert Walk(g, p[1..], p[0], m);
      ReachTrans(g, p[0], m, n);
      assert Edge(g, n, p[0]);
    }
  }

  lemma {:induction false} WalkMonotone(g: Graph, h: Graph, p: seq<NodeId>, a: NodeId, b: NodeId)
    requires forall u, v :: Edge(g, u, v) ==> Edge(h, u, v)
    requires Walk(g, p, a, b)
    ensures Walk(h, p, a, b)
  {
    if p != [] {
      WalkMonotone(g, h, p[1..], p[0], b);
    }
  }

  /** Fewer edges, fewer walks. */
  lemma ReachMonotone(g: Graph, h: Graph, a: NodeId, b: NodeId)
    requires forall u, v :: Edge(g, u, v) ==> Edge(h, u, v)
    requires Reach(g, a, b)
    ensures Reach(h, a, b)
  {
    var p :| Walk(g, p, a, b);
    WalkMonotone(g, h, p, a, b);
  }
}
