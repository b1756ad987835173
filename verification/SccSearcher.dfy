/**
 * The hand-written Tarjan search over the blocking graph, recursive as in the source.
 * Its fields change step by step; the invariants are stated on a snapshot of them.
 */
module StrongComponents {
  import opened NodeOrder
  import opened Reachability

  /** A snapshot of the searcher's fields. */
  datatype Search = Search(
    next: nat,
    indices: map<NodeId, nat>,
    lowlinks: map<NodeId, nat>,
    stack: seq<NodeId>,
    onStack: set<NodeId>,
    components: seq<seq<NodeId>>
  )

  /** Every field agrees with the others; the stack is in visiting order. */
  ghost predicate Consistent(s: Search, all: set<NodeId>) {
    && s.indices.Keys == s.lowlinks.Keys
    && s.indices.Keys <= all
    && (forall v :: v in s.indices ==> s.indices[v] < s.next)
    && (forall v :: v in s.onStack <==> v in s.stack)
    && (forall v :: v in s.onStack ==> v in s.indices)
    && (forall i, j :: 0 <= i < j < |s.stack| ==> s.indices[s.stack[i]] < s.indices[s.stack[j]])
  }

  /** An earlier stack entry reaches every later one. */
  ghost predicate StackConnected(g: Graph, s: Search) {
    forall i, j {:trigger Reach(g, s.stack[i], s.stack[j])} ::
      0 <= i <= j < |s.stack| ==> Reach(g, s.stack[i], s.stack[j])
  }

  /** A visited node whose call has returned has only visited blockers. */
  ghost predicate FinishedClosed(g: Graph, s: Search, active: set<NodeId>) {
    forall v {:trigger Blockers(g, v)} :: v in s.indices && v !in active ==> Blockers(g, v) <= s.indices.Keys
  }

  ghost predicate Anchors(g: Graph, s: Search, y: NodeId, x: NodeId) {
    x in s.indices && y in s.indices && s.indices[x] <= s.indices[y] && Reach(g, y, x)
  }

  /** The node reaches an earlier node whose call is still running. */
  ghost predicate HasAnchor(g: Graph, s: Search, active: set<NodeId>, y: NodeId) {
    exists x :: x in active && Anchors(g, s, y, x)
  }

  ghost predicate Anchored(g: Graph, s: Search, active: set<NodeId>) {
    && active <= s.onStack
    && forall y {:trigger HasAnchor(g, s, active, y)} :: y in s.onStack ==> HasAnchor(g, s, active, y)
  }

  /** A strongly connected component: non-empty, and its members are exactly the mutual reach of each. */
  ghost predicate IsComponent(g: Graph, c: seq<NodeId>) {
    && c != []
    && Ascending(c)
    && forall v, w {:trigger Mutual(g, v, w)} :: v in c ==> (w in c <==> Mutual(g, v, w))
  }

  /** The node is in one of the first `n` components. */
  ghost predicate Filed(components: seq<seq<NodeId>>, n: nat, w: NodeId) {
    exists j :: 0 <= j < n && j < |components| && w in components[j]
  }

  /** An edge out of a component stays in it or leads into one filed before it. */
  ghost predicate BlockersFirst(g: Graph, components: seq<seq<NodeId>>) {
    forall i, v, w :: 0 <= i < |components| && v in components[i] && Edge(g, v, w) ==> Filed(components, i + 1, w)
  }

  /** The blockers of `d` that wait on nothing and are smaller than `z` are filed. */
  ghost predicate SmallerSinksFiled(g: Graph, d: NodeId, z: NodeId, components: seq<seq<NodeId>>) {
    forall y {:trigger Edge(g, d, y)} ::
      Edge(g, d, y) && Blockers(g, y) == {} && Before(y, z) ==> Filed(components, |components|, y)
  }

  ghost predicate Introduces(g: Graph, root: NodeId, d: NodeId, z: NodeId, components: seq<seq<NodeId>>) {
    Reach(g, root, d) && Edge(g, d, z) && SmallerSinksFiled(g, d, z, components)
  }

  /** The search from `root` comes to `z` with these components filed: as its start, or as a blocker in its turn. */
  ghost predicate Introduced(g: Graph, root: NodeId, z: NodeId, components: seq<seq<NodeId>>) {
    z == root || exists d :: Introduces(g, root, d, z, components)
  }

  /** Every node that waits on nothing and was filed at or after `base` was come to in this way. */
  ghost predicate SinksInOrder(g: Graph, root: NodeId, base: nat, components: seq<seq<NodeId>>) {
    forall i, z :: base <= i < |components| && z in components[i] && Blockers(g, z) == {}
                   ==> Introduced(g, root, z, components[..i])
  }

  /** The components hold each visited node that has left the stack, exactly once. */
  ghost predicate ComponentsDone(g: Graph, s: Search) {
    && (forall i :: 0 <= i < |s.components| ==> IsComponent(g, s.components[i]))
    && (forall i, v :: 0 <= i < |s.components| && v in s.components[i] ==> v in s.indices && v !in s.onStack)
    && (forall i, j, v :: 0 <= i < j < |s.components| && v in s.components[i] ==> v !in s.components[j])
    && (forall v :: v in s.indices && v !in s.onStack ==> exists i :: 0 <= i < |s.components| && v in s.components[i])
  }

  ghost predicate Invariant(g: Graph, all: set<NodeId>, s: Search, active: set<NodeId>) {
    && Consistent(s, all)
    && StackConnected(g, s)
    && FinishedClosed(g, s, active)
    && Anchored(g, s, active)
    && ComponentsDone(g, s)
    && BlockersFirst(g, s.components)
  }

  /** Nothing recorded before is changed: indices stay, the old stack is a prefix of the new. */
  ghost predicate Extends(before: Search, after: Search) {
    && before.next <= after.next
    && (forall v :: v in before.indices ==> v in after.indices && after.indices[v] == before.indices[v])
    && (forall v :: v in before.lowlinks ==> v in after.lowlinks && after.lowlinks[v] == before.lowlinks[v])
    && (forall v :: v in after.indices && v !in before.indices ==> before.next <= after.indices[v])
    && before.stack <= after.stack
    && before.components <= after.components
  }

  /** An edge from the stack at or above `height` into its first `base` entries forces `low` down to its target. */
  ghost predicate LowCovers(g: Graph, s: Search, base: nat, height: nat, low: nat) {
    base <= height <= |s.stack| &&
    forall k, j {:trigger Edge(g, s.stack[k], s.stack[j])} ::
      height <= k < |s.stack| && 0 <= j < base && Edge(g, s.stack[k], s.stack[j])
      ==> s.stack[j] in s.indices && low <= s.indices[s.stack[j]]
  }

  ghost predicate Witness(g: Graph, s: Search, node: NodeId, y: NodeId) {
    && y in s.onStack && y in s.indices && node in s.lowlinks
    && s.indices[y] == s.lowlinks[node] && Reach(g, node, y)
  }

  /** The link of `node` is the index of some stacked node it reaches. */
  ghost predicate LinkWitnessed(g: Graph, s: Search, node: NodeId) {
    exists y :: Witness(g, s, node, y)
  }

  /** Whatever was visited since `before` is reached from `node`. */
  ghost predicate VisitedFrom(g: Graph, before: Search, now: Search, node: NodeId) {
    forall v {:trigger Reach(g, node, v)} :: v in now.indices && v !in before.indices ==> Reach(g, node, v)
  }

  /** What one call of `Connect` leaves behind. */
  ghost predicate Connected(g: Graph, before: Search, after: Search, node: NodeId) {
    && Extends(before, after)
    && VisitedFrom(g, before, after, node)
    && node in after.indices && node in after.lowlinks
    && (after.stack == before.stack ==> after.lowlinks[node] == after.indices[node])
    && (after.stack != before.stack ==> after.lowlinks[node] < before.next && LinkWitnessed(g, after, node))
    && LowCovers(g, after, |before.stack|, |before.stack|, after.lowlinks[node])
  }

  /** The blockers outside `todo` are visited, and stacked ones are reflected in the link. */
  ghost predicate BlockersSeen(g: Graph, before: Search, now: Search, node: NodeId, todo: set<NodeId>) {
    node in now.lowlinks &&
    forall v {:trigger Edge(g, node, v)} :: Edge(g, node, v) && v !in todo ==>
      && v in now.indices
      && (v in before.stack ==> now.lowlinks[node] <= now.indices[v])
  }

  /** The state of `Connect`'s loop: the blockers in `todo` are still to be looked at. */
  ghost predicate Exploring(g: Graph, before: Search, now: Search, node: NodeId, todo: set<NodeId>) {
    && Extends(before, now)
    && before.stack + [node] <= now.stack
    && node !in before.indices && node !in before.lowlinks
    && node in now.indices && node in now.lowlinks
    && now.indices[node] == before.next
    && now.lowlinks[node] <= before.next
    && VisitedFrom(g, before, now, node)
    && LinkWitnessed(g, now, node)
    && LowCovers(g, now, |before.stack|, |before.stack| + 1, now.lowlinks[node])
    && BlockersSeen(g, before, now, node, todo)
  }

  /** The whole loop state: the invariant with `node` running, and the progress of its loop. */
  ghost predicate Running(g: Graph, all: set<NodeId>, before: Search, now: Search,
                          active: set<NodeId>, node: NodeId, todo: set<NodeId>) {
    Invariant(g, all, now, active + {node}) && Exploring(g, before, now, node, todo)
  }

  /** The whole state after the call: the invariant as before it, and what the call did. */
  ghost predicate Returned(g: Graph, all: set<NodeId>, before: Search, after: Search,
                           active: set<NodeId>, node: NodeId) {
    Invariant(g, all, after, active) && Connected(g, before, after, node)
  }

  function Entered(s: Search, node: NodeId): Search {
    Search(s.next + 1, s.indices[node := s.next], s.lowlinks[node := s.next],
           s.stack + [node], s.onStack + {node}, s.components)
  }

  lemma EnterConsistent(s: Search, all: set<NodeId>, node: NodeId)
    requires Consistent(s, all) && node in all && node !in s.indices
    ensures Consistent(Entered(s, node), all)
  {
  }

  lemma EnterStackConnected(g: Graph, s: Search, node: NodeId)
    requires StackConnected(g, s)
    requires forall y :: y in s.stack ==> Reach(g, y, node)
    ensures StackConnected(g, Entered(s, node))
  {
    ReachSelf(g, node);
  }

  lemma EnterAnchored(g: Graph, all: set<NodeId>, s: Search, active: set<NodeId>, node: NodeId)
    requires Consistent(s, all) && node !in s.indices
    requires Anchored(g, s, active)
    requires forall x :: x in active ==> Reach(g, x, node)
    ensures Anchored(g, Entered(s, node), active + {node})
    ensures forall y :: y in s.onStack ==> Reach(g, y, node)
  {
    var now := Entered(s, node);
    forall y | y in now.onStack
      ensures HasAnchor(g, now, active + {node}, y)
      ensures Reach(g, y, node)
    {
      if y == node {
        ReachSelf(g, node);
        assert Anchors(g, now, node, node);
      } else {
        assert HasAnchor(g, s, active, y);
        var x :| x in active && Anchors(g, s, y, x);
        ReachTrans(g, y, x, node);
        assert Anchors(g, now, y, x);
      }
    }
  }

  lemma EnterComponentsDone(g: Graph, s: Search, node: NodeId)
    requires ComponentsDone(g, s) && node !in s.indices
    ensures ComponentsDone(g, Entered(s, node))
  {
  }

  lemma EnterExploring(g: Graph, all: set<NodeId>, s: Search, node: NodeId)
    requires Consistent(s, all) && node !in s.indices
    ensures Exploring(g, s, Entered(s, node), node, Blockers(g, node))
  {
    ReachSelf(g, node);
    assert Witness(g, Entered(s, node), node, node);
  }

  /** Pushing an unvisited node that every running call reaches starts its exploration. */
  lemma EnterKeeps(g: Graph, all: set<NodeId>, s: Search, active: set<NodeId>, node: NodeId)
    requires Invariant(g, all, s, active)
    requires node in all && node !in s.indices
    requires forall x :: x in active ==> Reach(g, x, node)
    ensures Running(g, all, s, Entered(s, node), active, node, Blockers(g, node))
  {
    EnterExploring(g, all, s, node);
    EnterConsistent(s, all, node);
    EnterAnchored(g, all, s, active, node);
    EnterStackConnected(g, s, node);
    EnterComponentsDone(g, s, node);
  }

  // ---------- one blocker ----------

  function Relaxed(s: Search, node: NodeId, candidate: nat): Search {
    if node in s.lowlinks && candidate < s.lowlinks[node]
    then s.(lowlinks := s.lowlinks[node := candidate])
    else s
  }

  lemma RelaxKeeps(g: Graph, all: set<NodeId>, s: Search, active: set<NodeId>, node: NodeId, candidate: nat)
    requires Invariant(g, all, s, active)
    ensures Invariant(g, all, Relaxed(s, node, candidate), active)
  {
    var r := Relaxed(s, node, candidate);
    assert r.lowlinks.Keys == s.lowlinks.Keys;
    forall y | y in r.onStack ensures HasAnchor(g, r, active, y) {
      assert HasAnchor(g, s, active, y);
      var x :| x in active && Anchors(g, s, y, x);
      assert Anchors(g, r, y, x);
    }
    forall v | v in r.indices && v !in active ensures Blockers(g, v) <= r.indices.Keys {
      assert Blockers(g, v) <= s.indices.Keys;
    }
  }

  /** A blocker already on the stack lowers the link to its index. */
  lemma StackedStep(g: Graph, all: set<NodeId>, before: Search, now: Search, active: set<NodeId>, node: NodeId,
                    todo: set<NodeId>, w: NodeId)
    requires Running(g, all, before, now, active, node, todo)
    requires Edge(g, node, w) && w in now.indices && w in now.onStack
    ensures Running(g, all, before, Relaxed(now, node, now.indices[w]), active, node, todo - {w})
  {
    RelaxKeeps(g, all, now, active + {node}, node, now.indices[w]);
    StackedExploring(g, all, before, now, node, todo, w);
  }

  lemma StackedExploring(g: Graph, all: set<NodeId>, before: Search, now: Search, node: NodeId,
                         todo: set<NodeId>, w: NodeId)
    requires Exploring(g, before, now, node, todo) && Consistent(now, all)
    requires Edge(g, node, w) && w in now.onStack
    ensures Exploring(g, before, Relaxed(now, node, now.indices[w]), node, todo - {w})
  {
    var r := Relaxed(now, node, now.indices[w]);
    ReachEdge(g, node, w);
    assert LinkWitnessed(g, r, node) by {
      var y :| Witness(g, now, node, y);
      assert Witness(g, r, node, if r == now then y else w);
    }
  }

  /** A blocker whose component is complete changes nothing. */
  lemma CompletedStep(g: Graph, all: set<NodeId>, before: Search, now: Search, active: set<NodeId>, node: NodeId,
                      todo: set<NodeId>, w: NodeId)
    requires Running(g, all, before, now, active, node, todo)
    requires w in now.indices && w !in now.onStack
    ensures Running(g, all, before, now, active, node, todo - {w})
  {
    assert w in before.stack ==> w in now.stack;
  }

  lemma ChildWitness(g: Graph, all: set<NodeId>, now: Search, after: Search, node: NodeId, w: NodeId)
    requires Consistent(now, all) && Consistent(after, all) && node in now.lowlinks
    requires LinkWitnessed(g, now, node)
    requires w !in now.indices && Reach(g, node, w)
    requires Connected(g, now, after, w)
    ensures LinkWitnessed(g, Relaxed(after, node, after.lowlinks[w]), node)
  {
    var r := Relaxed(after, node, after.lowlinks[w]);
    var y :| Witness(g, now, node, y);
    if r.lowlinks[node] == now.lowlinks[node] {
      assert y in now.stack && y in after.stack;
      assert Witness(g, r, node, y);
    } else {
      var z :| Witness(g, after, w, z);
      ReachTrans(g, node, w, z);
      assert Witness(g, r, node, z);
    }
  }

  lemma ChildVisited(g: Graph, before: Search, now: Search, after: Search, node: NodeId, w: NodeId)
    requires VisitedFrom(g, before, now, node) && VisitedFrom(g, now, after, w) && Reach(g, node, w)
    ensures VisitedFrom(g, before, after, node)
  {
    forall v | v in after.indices && v !in before.indices ensures Reach(g, node, v) {
      if v !in now.indices {
        assert Reach(g, w, v);
        ReachTrans(g, node, w, v);
      } else {
        assert Reach(g, node, v);
      }
    }
  }

  lemma ChildCovers(g: Graph, now: Search, after: Search, base: nat, height: nat, low: nat, childLow: nat)
    requires Extends(now, after) && height <= |now.stack|
    requires LowCovers(g, now, base, height, low)
    requires LowCovers(g, after, |now.stack|, |now.stack|, childLow)
    ensures LowCovers(g, after, base, height, if childLow < low then childLow else low)
  {
    forall k, j | height <= k < |after.stack| && 0 <= j < base && Edge(g, after.stack[k], after.stack[j])
      ensures after.stack[j] in after.indices
      ensures (if childLow < low then childLow else low) <= after.indices[after.stack[j]]
    {
      assert after.stack[j] == now.stack[j];
      if k < |now.stack| {
        assert Edge(g, now.stack[k], now.stack[j]);
      }
    }
  }

  lemma ChildBlockers(g: Graph, before: Search, now: Search, after: Search, node: NodeId,
                      todo: set<NodeId>, w: NodeId)
    requires BlockersSeen(g, before, now, node, todo) && before.stack <= now.stack
    requires Extends(now, after) && node in after.lowlinks && w in after.lowlinks
    requires w in after.indices && w !in before.stack
    ensures BlockersSeen(g, before, Relaxed(after, node, after.lowlinks[w]), node, todo - {w})
  {
  }

  lemma ChildExtends(before: Search, now: Search, after: Search, node: NodeId, candidate: nat)
    requires Extends(before, now) && Extends(now, after) && node !in before.lowlinks
    ensures Extends(before, Relaxed(after, node, candidate))
  {
  }

  /** An unvisited blocker is searched first, then its link is taken over. */
  lemma ChildStep(g: Graph, all: set<NodeId>, before: Search, now: Search, after: Search, active: set<NodeId>,
                  node: NodeId, todo: set<NodeId>, w: NodeId)
    requires Running(g, all, before, now, active, node, todo)
    requires Edge(g, node, w) && w !in now.indices
    requires Returned(g, all, now, after, active + {node}, w)
    ensures w in after.lowlinks
    ensures Running(g, all, before, Relaxed(after, node, after.lowlinks[w]), active, node, todo - {w})
  {
    RelaxKeeps(g, all, after, active + {node}, node, after.lowlinks[w]);
    ChildExploring(g, all, before, now, after, node, todo, w);
  }

  lemma ChildExploring(g: Graph, all: set<NodeId>, before: Search, now: Search, after: Search, node: NodeId,
                       todo: set<NodeId>, w: NodeId)
    requires Exploring(g, before, now, node, todo) && Consistent(now, all) && Consistent(after, all)
    requires Edge(g, node, w) && w !in now.indices
    requires Connected(g, now, after, w)
    ensures Exploring(g, before, Relaxed(after, node, after.lowlinks[w]), node, todo - {w})
  {
    ReachEdge(g, node, w);
    ChildVisited(g, before, now, after, node, w);
    ChildWitness(g, all, now, after, node, w);
    assert w in before.stack ==> w in now.stack;
    ChildBlockers(g, before, now, after, node, todo, w);
    ChildExtends(before, now, after, node, after.lowlinks[w]);
    ChildCovers(g, now, after, |before.stack|, |before.stack| + 1, now.lowlinks[node], after.lowlinks[w]);
  }

  // ---------- the call returns ----------

  /** Once all blockers are seen, only the anchors can still name `node`. */
  lemma FinishClosed(g: Graph, before: Search, now: Search, active: set<NodeId>, node: NodeId)
    requires FinishedClosed(g, now, active + {node}) && BlockersSeen(g, before, now, node, {})
    ensures FinishedClosed(g, now, active)
  {
    forall v | v in now.indices && v !in active ensures Blockers(g, v) <= now.indices.Keys {
      if v == node {
        forall w | w in Blockers(g, v) ensures w in now.indices.Keys { assert Edge(g, node, w); }
      }
    }
  }

  /** A node that is no root hands its dependants to an earlier running call. */
  lemma KeepAnchored(g: Graph, now: Search, active: set<NodeId>, node: NodeId)
    requires Anchored(g, now, active + {node}) && LinkWitnessed(g, now, node)
    requires node in now.lowlinks && node in now.indices && now.lowlinks[node] < now.indices[node]
    ensures Anchored(g, now, active)
  {
    var x0 := EarlierCall(g, now, active, node);
    forall y | y in now.onStack ensures HasAnchor(g, now, active, y) {
      assert HasAnchor(g, now, active + {node}, y);
      var x :| x in active + {node} && Anchors(g, now, y, x);
      if x == node {
        ReachTrans(g, y, node, x0);
        assert Anchors(g, now, y, x0);
      } else {
        assert Anchors(g, now, y, x);
      }
    }
  }

  lemma EarlierCall(g: Graph, now: Search, active: set<NodeId>, node: NodeId) returns (x: NodeId)
    requires Anchored(g, now, active + {node}) && LinkWitnessed(g, now, node)
    requires node in now.lowlinks && node in now.indices && now.lowlinks[node] < now.indices[node]
    ensures x in active && x in now.indices && now.indices[x] < now.indices[node] && Reach(g, node, x)
  {
    var z :| Witness(g, now, node, z);
    assert HasAnchor(g, now, active + {node}, z);
    x :| x in active + {node} && Anchors(g, now, z, x);
    ReachTrans(g, node, z, x);
  }

  lemma KeepCovers(g: Graph, before: Search, now: Search, node: NodeId)
    requires Exploring(g, before, now, node, {})
    requires forall v :: v in before.stack ==> v in before.indices
    ensures LowCovers(g, now, |before.stack|, |before.stack|, now.lowlinks[node])
  {
    forall k, j | |before.stack| <= k < |now.stack| && 0 <= j < |before.stack| && Edge(g, now.stack[k], now.stack[j])
      ensures now.stack[j] in now.indices && now.lowlinks[node] <= now.indices[now.stack[j]]
    {
      assert now.stack[j] == before.stack[j];
      if k == |before.stack| { assert now.stack[k] == node && Edge(g, node, now.stack[j]); }
    }
  }

  /** A non-root leaves its part of the stack in place. */
  lemma KeepStacked(g: Graph, all: set<NodeId>, before: Search, now: Search, active: set<NodeId>, node: NodeId)
    requires Invariant(g, all, before, active) && Running(g, all, before, now, active, node, {})
    requires now.lowlinks[node] != now.indices[node]
    ensures Returned(g, all, before, now, active, node)
  {
    FinishClosed(g, before, now, active, node);
    KeepAnchored(g, now, active, node);
    KeepCovers(g, before, now, node);
  }

  function Elements(s: seq<NodeId>): set<NodeId> {
    set x | x in s
  }

  /** A root takes its part of the stack off as one sorted component. */
  function Completed(s: Search, height: nat): Search
    requires height <= |s.stack|
  {
    s.(stack := s.stack[..height],
       onStack := s.onStack - Elements(s.stack[height..]),
       components := s.components + [Listing(Elements(s.stack[height..]))])
  }

  lemma StackParts(stack: seq<NodeId>, height: nat, v: NodeId)
    requires height <= |stack|
    ensures v in stack <==> v in stack[..height] || v in stack[height..]
  {
    assert stack == stack[..height] + stack[height..];
  }

  lemma PartsDisjoint(s: Search, all: set<NodeId>, height: nat, v: NodeId)
    requires Consistent(s, all) && height <= |s.stack| && v in s.stack[..height]
    ensures v !in s.stack[height..]
  {
    var i := IndexBelow(s, height, v);
    forall k | 0 <= k < |s.stack[height..]| ensures s.stack[height..][k] != v {
      assert s.indices[s.stack[i]] < s.indices[s.stack[height + k]];
    }
  }

  lemma CompletedMembers(s: Search, all: set<NodeId>, height: nat)
    requires Consistent(s, all) && height <= |s.stack|
    ensures forall v :: v in s.stack[..height] ==> v !in s.stack[height..]
    ensures forall v :: v in Completed(s, height).onStack <==> v in s.stack[..height]
  {
    forall v | v in s.stack[..height] ensures v !in s.stack[height..] {
      hide Consistent;
      PartsDisjoint(s, all, height, v);
    }
    forall v ensures v in Completed(s, height).onStack <==> v in s.stack[..height] {
      StackParts(s.stack, height, v);
    }
  }

  lemma CompletedConsistent(s: Search, all: set<NodeId>, height: nat)
    requires Consistent(s, all) && height <= |s.stack|
    ensures Consistent(Completed(s, height), all)
    ensures forall v :: v in s.stack[..height] ==> v !in s.stack[height..]
  {
    hide Elements;
    CompletedMembers(s, all, height);
  }

  lemma IndexAbove(s: Search, height: nat, v: NodeId) returns (j: nat)
    requires height <= |s.stack| && v in s.stack[height..]
    ensures height <= j < |s.stack| && s.stack[j] == v
  {
    var i :| 0 <= i < |s.stack[height..]| && s.stack[height..][i] == v;
    j := height + i;
  }

  lemma IndexBelow(s: Search, height: nat, v: NodeId) returns (j: nat)
    requires height <= |s.stack| && v in s.stack[..height]
    ensures j < height && s.stack[j] == v
  {
    j :| 0 <= j < |s.stack[..height]| && s.stack[..height][j] == v;
  }

  /** Above a root, every stacked node reaches the root and is reached by it. */
  lemma RootMutual(g: Graph, s: Search, active: set<NodeId>, node: NodeId, height: nat, v: NodeId)
    requires StackConnected(g, s) && Anchored(g, s, active + {node})
    requires forall y :: y in s.stack ==> y in s.onStack
    requires height < |s.stack| && s.stack[height] == node
    requires forall x :: x in active ==> x in s.stack[..height]
    requires v in s.stack[height..]
    ensures Mutual(g, node, v)
  {
    var i := IndexAbove(s, height, v);
    assert Reach(g, s.stack[height], s.stack[i]);
    assert HasAnchor(g, s, active + {node}, v);
    var x :| x in active + {node} && Anchors(g, s, v, x);
    if x != node {
      var k := IndexBelow(s, height, x);
      assert Reach(g, s.stack[k], s.stack[height]);
      ReachTrans(g, v, x, node);
    }
  }

  /** An edge out of the part above a root stays there or ends in a completed component. */
  lemma RootEdges(g: Graph, all: set<NodeId>, s: Search, active: set<NodeId>, height: nat, u: NodeId, v: NodeId)
    requires Consistent(s, all) && FinishedClosed(g, s, active) && height < |s.stack|
    requires forall x :: x in active ==> x in s.stack[..height]
    requires LowCovers(g, s, height, height, s.indices[s.stack[height]])
    requires u in s.stack[height..] && Edge(g, u, v)
    ensures u in s.onStack && v in s.indices && (v in s.onStack ==> v in s.stack[height..])
  {
    CompletedConsistent(s, all, height);
    var k := IndexAbove(s, height, u);
    assert v in Blockers(g, u);
    if v in s.onStack {
      TargetAbove(g, s, all, height, k, v);
    }
  }

  lemma TargetAbove(g: Graph, s: Search, all: set<NodeId>, height: nat, k: nat, v: NodeId)
    requires Consistent(s, all) && height <= k < |s.stack| && v in s.stack
    requires LowCovers(g, s, height, height, s.indices[s.stack[height]])
    requires Edge(g, s.stack[k], v)
    ensures v in s.stack[height..]
  {
    var j := StackIndex(s, all, v);
    EdgeStaysAbove(g, s, height, k, j);
    assert v == s.stack[height..][j - height];
  }

  lemma StackIndex(s: Search, all: set<NodeId>, v: NodeId) returns (j: nat)
    requires Consistent(s, all) && v in s.stack
    ensures j < |s.stack| && s.stack[j] == v && v in s.onStack && v in s.indices
  {
    j :| 0 <= j < |s.stack| && s.stack[j] == v;
  }

  lemma EdgeStaysAbove(g: Graph, s: Search, height: nat, k: nat, j: nat)
    requires height <= k < |s.stack| && j < |s.stack|
    requires forall v :: v in s.stack ==> v in s.indices
    requires forall i, j :: 0 <= i < j < |s.stack| ==> s.indices[s.stack[i]] < s.indices[s.stack[j]]
    requires LowCovers(g, s, height, height, s.indices[s.stack[height]])
    requires Edge(g, s.stack[k], s.stack[j])
    ensures height <= j
  {
  }

  /** A component absorbs every node on a closed walk through one of its members. */
  lemma ComponentAbsorbs(g: Graph, c: seq<NodeId>, u: NodeId, v: NodeId, node: NodeId, w: NodeId)
    requires IsComponent(g, c) && v in c
    requires Edge(g, u, v) && Reach(g, v, w) && Reach(g, w, node) && Reach(g, node, u)
    ensures u in c
  {
    ReachTrans(g, v, w, node);
    ReachTrans(g, v, node, u);
    ReachEdge(g, u, v);
    assert Mutual(g, v, u);
  }

  /** Whatever shares a component with a root is stacked above it. */
  lemma RootMaximal(g: Graph, all: set<NodeId>, s: Search, active: set<NodeId>, node: NodeId, height: nat, w: NodeId)
    requires Consistent(s, all) && ComponentsDone(g, s) && FinishedClosed(g, s, active)
    requires height < |s.stack| && s.stack[height] == node
    requires forall x :: x in active ==> x in s.stack[..height]
    requires LowCovers(g, s, height, height, s.indices[node])
    requires Mutual(g, node, w)
    ensures w in s.stack[height..]
  {
    var top := Elements(s.stack[height..]);
    if w !in top {
      var p :| Walk(g, p, node, w);
      assert node == s.stack[height..][0];
      var u, v := LeavingEdge(g, p, node, w, top);
      RootEdges(g, all, s, active, height, u, v);
      var c :| 0 <= c < |s.components| && v in s.components[c];
      ComponentAbsorbs(g, s.components[c], u, v, node, w);
    }
  }

  lemma RootIsComponent(g: Graph, all: set<NodeId>, s: Search, active: set<NodeId>, node: NodeId, height: nat)
    requires Invariant(g, all, s, active + {node}) && FinishedClosed(g, s, active)
    requires height < |s.stack| && s.stack[height] == node
    requires forall x :: x in active ==> x in s.stack[..height]
    requires LowCovers(g, s, height, height, s.indices[node])
    ensures IsComponent(g, Listing(Elements(s.stack[height..])))
  {
    var c := Listing(Elements(s.stack[height..]));
    assert s.stack[height..][0] == node && node in c;
    forall v, w | v in c ensures w in c <==> Mutual(g, v, w) {
      RootMutual(g, s, active, node, height, v);
      if w in c {
        RootMutual(g, s, active, node, height, w);
        ReachTrans(g, v, node, w);
        ReachTrans(g, w, node, v);
      }
      if Mutual(g, v, w) {
        ReachTrans(g, node, v, w);
        ReachTrans(g, w, v, node);
        RootMaximal(g, all, s, active, node, height, w);
      }
    }
  }

  lemma AppendComponent(g: Graph, s: Search, r: Search, c: seq<NodeId>)
    requires ComponentsDone(g, s) && IsComponent(g, c)
    requires forall v :: v in c ==> v in s.onStack && v in s.indices
    requires r.indices == s.indices && r.components == s.components + [c]
    requires forall v :: v in r.onStack <==> v in s.onStack && v !in c
    ensures ComponentsDone(g, r)
  {
    forall v | v in r.indices && v !in r.onStack ensures exists i :: 0 <= i < |r.components| && v in r.components[i] {
      if v in s.onStack {
        assert v in r.components[|s.components|];
      } else {
        var i :| 0 <= i < |s.components| && v in s.components[i];
        assert v in r.components[i];
      }
    }
  }

  lemma CompletedComponents(g: Graph, all: set<NodeId>, s: Search, height: nat)
    requires Consistent(s, all) && ComponentsDone(g, s) && height <= |s.stack|
    requires IsComponent(g, Listing(Elements(s.stack[height..])))
    ensures ComponentsDone(g, Completed(s, height))
  {
    var c := Listing(Elements(s.stack[height..]));
    forall v | v in c ensures v in s.onStack && v in s.indices {
      assert v in s.stack;
    }
    AppendComponent(g, s, Completed(s, height), c);
  }

  /** Below a root every anchor is a call that still runs after it. */
  lemma BelowAnchored(g: Graph, all: set<NodeId>, s: Search, active: set<NodeId>, node: NodeId, height: nat, y: NodeId)
    requires Consistent(s, all) && Anchored(g, s, active + {node})
    requires height < |s.stack| && s.stack[height] == node && y in s.stack[..height]
    ensures HasAnchor(g, s, active, y)
  {
    hide Consistent;
    BelowIsStacked(s, all, height, y);
    BelowComesFirst(s, all, height, y);
    assert HasAnchor(g, s, active + {node}, y);
    var x :| x in active + {node} && Anchors(g, s, y, x);
  }

  lemma SameAnchor(g: Graph, s: Search, c: Search, active: set<NodeId>, y: NodeId)
    requires HasAnchor(g, s, active, y) && c.indices == s.indices
    ensures HasAnchor(g, c, active, y)
  {
    var x :| x in active && Anchors(g, s, y, x);
    assert Anchors(g, c, y, x);
  }

  lemma CompletedAnchored(g: Graph, all: set<NodeId>, s: Search, active: set<NodeId>, node: NodeId, height: nat)
    requires Consistent(s, all) && Anchored(g, s, active + {node})
    requires height < |s.stack| && s.stack[height] == node
    requires forall x :: x in active ==> x in s.stack[..height]
    ensures Anchored(g, Completed(s, height), active)
  {
    hide Consistent, Elements, HasAnchor;
    var c := Completed(s, height);
    CompletedMembers(s, all, height);
    forall y | y in c.onStack ensures HasAnchor(g, c, active, y) {
      BelowAnchored(g, all, s, active, node, height, y);
      SameAnchor(g, s, c, active, y);
    }
  }

  lemma BelowIsStacked(s: Search, all: set<NodeId>, height: nat, y: NodeId)
    requires Consistent(s, all) && height <= |s.stack| && y in s.stack[..height]
    ensures y in s.onStack
  {
    StackParts(s.stack, height, y);
  }

  lemma BelowComesFirst(s: Search, all: set<NodeId>, height: nat, y: NodeId)
    requires Consistent(s, all) && height < |s.stack| && y in s.stack[..height]
    ensures y in s.indices && s.stack[height] in s.indices && s.indices[y] < s.indices[s.stack[height]]
  {
    var i := IndexBelow(s, height, y);
  }

  lemma FiledWithin(components: seq<seq<NodeId>>, more: seq<seq<NodeId>>, n: nat, m: nat, w: NodeId)
    requires Filed(components, n, w) && components <= more && n <= m
    ensures Filed(more, m, w)
  {
    var j :| 0 <= j < n && j < |components| && w in components[j];
    assert w in more[j];
  }

  /** The edges of a new component lead into it or into those filed before. */
  lemma NewEdgesFiled(g: Graph, all: set<NodeId>, s: Search, active: set<NodeId>, height: nat, v: NodeId, w: NodeId)
    requires Consistent(s, all) && ComponentsDone(g, s)
    requires FinishedClosed(g, s, active) && height < |s.stack|
    requires forall x :: x in active ==> x in s.stack[..height]
    requires LowCovers(g, s, height, height, s.indices[s.stack[height]])
    requires v in s.stack[height..] && Edge(g, v, w)
    ensures Filed(Completed(s, height).components, |s.components| + 1, w)
  {
    RootEdges(g, all, s, active, height, v, w);
    var found := Completed(s, height).components;
    if w in s.stack[height..] {
      assert w in found[|s.components|];
    } else {
      var j :| 0 <= j < |s.components| && w in s.components[j];
      assert w in found[j];
    }
  }

  lemma CompletedBlockersFirst(g: Graph, all: set<NodeId>, s: Search, active: set<NodeId>, height: nat)
    requires Consistent(s, all) && ComponentsDone(g, s) && BlockersFirst(g, s.components)
    requires FinishedClosed(g, s, active) && height < |s.stack|
    requires forall x :: x in active ==> x in s.stack[..height]
    requires LowCovers(g, s, height, height, s.indices[s.stack[height]])
    ensures BlockersFirst(g, Completed(s, height).components)
  {
    hide Consistent, ComponentsDone, FinishedClosed, LowCovers, Filed;
    var found := Completed(s, height).components;
    forall i, v, w | 0 <= i < |found| && v in found[i] && Edge(g, v, w) ensures Filed(found, i + 1, w) {
      if i < |s.components| {
        assert found[i] == s.components[i];
        FiledWithin(s.components, found, i + 1, i + 1, w);
      } else {
        NewEdgesFiled(g, all, s, active, height, v, w);
      }
    }
  }

  lemma RootSetting(g: Graph, before: Search, now: Search, active: set<NodeId>, node: NodeId)
    requires forall v :: v in before.onStack <==> v in before.stack
    requires forall v :: v in before.stack ==> v in before.indices
    requires active <= before.onStack && Exploring(g, before, now, node, {})
    requires FinishedClosed(g, now, active + {node})
    requires now.lowlinks[node] == now.indices[node]
    ensures var height := |before.stack|;
            && height < |now.stack| && now.stack[height] == node && now.stack[..height] == before.stack
            && (forall x :: x in active ==> x in now.stack[..height])
            && FinishedClosed(g, now, active)
            && LowCovers(g, now, height, height, now.indices[node])
  {
    FinishClosed(g, before, now, active, node);
    KeepCovers(g, before, now, node);
  }

  lemma RootInvariant(g: Graph, all: set<NodeId>, now: Search, active: set<NodeId>, node: NodeId, height: nat)
    requires Invariant(g, all, now, active + {node}) && FinishedClosed(g, now, active)
    requires height < |now.stack| && now.stack[height] == node
    requires forall x :: x in active ==> x in now.stack[..height]
    requires LowCovers(g, now, height, height, now.indices[node])
    ensures Invariant(g, all, Completed(now, height), active)
  {
    RootIsComponent(g, all, now, active, node, height);
    CompletedComponents(g, all, now, height);
    CompletedBlockersFirst(g, all, now, active, height);
    CompletedConsistent(now, all, height);
    CompletedAnchored(g, all, now, active, node, height);
    CompletedConnected(g, now, active, height);
  }

  lemma RootConnected(g: Graph, before: Search, now: Search, node: NodeId)
    requires Exploring(g, before, now, node, {}) && now.stack[..|before.stack|] == before.stack
    requires now.lowlinks[node] == now.indices[node]
    ensures Connected(g, before, Completed(now, |before.stack|), node)
  {
  }

  /** A root's part of the stack becomes one component, and the stack is as before the call. */
  lemma RootCompletes(g: Graph, all: set<NodeId>, before: Search, now: Search, active: set<NodeId>, node: NodeId)
    requires Invariant(g, all, before, active) && Running(g, all, before, now, active, node, {})
    requires now.lowlinks[node] == now.indices[node]
    ensures Returned(g, all, before, Completed(now, |before.stack|), active, node)
  {
    RootSetting(g, before, now, active, node);
    RootInvariant(g, all, now, active, node, |before.stack|);
    RootConnected(g, before, now, node);
  }

  lemma CompletedConnected(g: Graph, s: Search, active: set<NodeId>, height: nat)
    requires StackConnected(g, s) && FinishedClosed(g, s, active) && height <= |s.stack|
    ensures StackConnected(g, Completed(s, height)) && FinishedClosed(g, Completed(s, height), active)
  {
    var c := Completed(s, height);
    forall i, j | 0 <= i <= j < |c.stack| ensures Reach(g, c.stack[i], c.stack[j]) {
      assert Reach(g, s.stack[i], s.stack[j]);
    }
    forall v | v in c.indices && v !in active ensures Blockers(g, v) <= c.indices.Keys {
      assert Blockers(g, v) <= s.indices.Keys;
    }
  }

  // ---------- the searcher ----------

  /** Everything reached from some seed. */
  ghost predicate ReachedFrom(g: Graph, seeds: set<NodeId>, v: NodeId) {
    exists seed :: seed in seeds && Reach(g, seed, v)
  }

  /**
   * A partition of what the seeds reach into strongly connected components, each strictly sorted;
   * since distinct components share no node and a component is sorted, no node appears twice.
   */
  ghost predicate Partition(g: Graph, seeds: set<NodeId>, components: seq<seq<NodeId>>) {
    && (forall i :: 0 <= i < |components| ==> IsComponent(g, components[i]))
    && (forall i, j, v :: 0 <= i < j < |components| && v in components[i] ==> v !in components[j])
    && (forall v :: ReachedFrom(g, seeds, v) <==> exists i :: 0 <= i < |components| && v in components[i])
  }

  /** Component i was filed by the outermost call on seed `roots[i]`; the seeds are taken in ascending order. */
  ghost predicate SeedsTaken(g: Graph, seeds: set<NodeId>, components: seq<seq<NodeId>>, roots: seq<NodeId>) {
    && |roots| == |components|
    && (forall i :: 0 <= i < |roots| ==> roots[i] in seeds)
    && (forall i, v :: 0 <= i < |components| && v in components[i] ==> Reach(g, roots[i], v))
    && (forall i, j :: 0 <= i < j < |roots| ==> !Before(roots[j], roots[i]))
    && (forall i, v :: 0 <= i < |components| && v in components[i] && v in seeds ==> !Before(v, roots[i]))
  }

  /** Each node that waits on nothing was come to, by the search that filed it, after its smaller siblings. */
  ghost predicate SinksTaken(g: Graph, components: seq<seq<NodeId>>, roots: seq<NodeId>) {
    forall i, z :: 0 <= i < |components| && i < |roots| && z in components[i] && Blockers(g, z) == {}
                   ==> Introduced(g, roots[i], z, components[..i])
  }

  ghost predicate InSeedOrder(g: Graph, seeds: set<NodeId>, components: seq<seq<NodeId>>) {
    exists roots :: SeedsTaken(g, seeds, components, roots) && SinksTaken(g, components, roots)
  }

  /** What the search emits: the partition, blockers before what they block, by ascending seeds. */
  ghost predicate Emitted(g: Graph, seeds: set<NodeId>, components: seq<seq<NodeId>>) {
    && Partition(g, seeds, components)
    && BlockersFirst(g, components)
    && InSeedOrder(g, seeds, components)
  }

  class SccSearcher {
    var nextIndex: nat
    var indices: map<NodeId, nat>
    var lowlinks: map<NodeId, nat>
    var stack: seq<NodeId>
    var onStack: set<NodeId>
    var components: seq<seq<NodeId>>

    constructor ()
      ensures View() == Search(0, map[], map[], [], {}, [])
    {
      nextIndex, indices, lowlinks, stack, onStack, components := 0, map[], map[], [], {}, [];
    }

    ghost function View(): Search
      reads this
    {
      Search(nextIndex, indices, lowlinks, stack, onStack, components)
    }

    method RelaxLowlink(node: NodeId, candidate: nat)
      modifies this`lowlinks
      ensures View() == Relaxed(old(View()), node, candidate)
    {
      if node in lowlinks && candidate < lowlinks[node] {
        lowlinks := lowlinks[node := candidate];
      }
    }

    /** Takes the stack down to and including `node` and files it as one sorted component. */
    method PopComponent(node: NodeId, ghost height: nat)
      requires height < |stack| && stack[height] == node
      requires forall i :: height < i < |stack| ==> stack[i] != node
      modifies this`stack, this`onStack, this`components
      ensures View() == Completed(old(View()), height)
    {
      hide Elements, Listing;
      ghost var full := stack;
      NoElements(full);
      var component := [];
      var popping := true;
      while popping && stack != []
        invariant height <= |stack| <= |full| && stack == full[..|stack|]
        invariant popping <==> height < |stack|
        invariant components == old(components)
        invariant onStack == old(onStack) - Elements(full[|stack|..])
        invariant Elements(component) == Elements(full[|stack|..])
        decreases popping, |stack|
      {
        var top := stack[|stack| - 1];
        PopElements(full, |stack| - 1, component);
        stack := stack[..|stack| - 1];
        onStack := onStack - {top};
        component := component + [top];
        popping := top != node;
      }
      components := components + [Listing(Elements(component))];
    }

    /** The closing steps of `Connect`: a root takes its component off the stack. */
    method Conclude(node: NodeId, ghost edges: Graph, ghost all: set<NodeId>, ghost before: Search,
                    ghost active: set<NodeId>, ghost root: NodeId, ghost base: nat)
      requires Invariant(edges, all, before, active) && Running(edges, all, before, View(), active, node, {})
      requires SinksInOrder(edges, root, base, components) && Introduced(edges, root, node, before.components)
      modifies this`stack, this`onStack, this`components
      ensures Returned(edges, all, before, View(), active, node)
      ensures SinksInOrder(edges, root, base, components)
    {
      hide SinksInOrder, Introduced;
      if lowlinks[node] == indices[node] {
        RootCompletes(edges, all, before, View(), active, node);
        RootOnTop(all, View(), |before.stack|);
        RootIntroduced(edges, all, before, View(), active, node, root, base);
        PopComponent(node, |before.stack|);
      } else {
        KeepStacked(edges, all, before, View(), active, node);
      }
    }

    method Connect(node: NodeId, edges: Graph, ghost all: set<NodeId>, ghost active: set<NodeId>,
                   ghost root: NodeId, ghost base: nat)
      requires Invariant(edges, all, View(), active)
      requires node in all && node !in indices
      requires forall v :: v in all ==> Blockers(edges, v) <= all
      requires forall x :: x in active ==> Reach(edges, x, node)
      requires Reach(edges, root, node) && Introduced(edges, root, node, components)
      requires SinksInOrder(edges, root, base, components)
      modifies this
      ensures Returned(edges, all, old(View()), View(), active, node)
      ensures SinksInOrder(edges, root, base, components)
      decreases all - indices.Keys
    {
      hide Consistent, StackConnected, FinishedClosed, Anchored, ComponentsDone, BlockersFirst;
      hide VisitedFrom, LinkWitnessed, LowCovers, BlockersSeen, SinksInOrder, Introduced;
      ghost var before := View();
      EnterKeeps(edges, all, before, active, node);
      indices := indices[node := nextIndex];
      lowlinks := lowlinks[node := nextIndex];
      nextIndex := nextIndex + 1;
      stack := stack + [node];
      onStack := onStack + {node};
      assert View() == Entered(before, node);

      var successors := Blockers(edges, node);
      while successors != {}
        invariant successors <= Blockers(edges, node)
        invariant Running(edges, all, before, View(), active, node, successors)
        invariant SinksInOrder(edges, root, base, components)
        decreases successors
      {
        var successor := Least(successors);
        ghost var now := View();
        if successor !in indices {
          CallersReach(edges, active, node, successor);
          SuccessorIntroduced(edges, all, before, now, active, node, successors, successor, root);
          Connect(successor, edges, all, active + {node}, root, base);
          ChildStep(edges, all, before, now, View(), active, node, successors, successor);
          RelaxLowlink(node, lowlinks[successor]);
        } else if successor in onStack {
          StackedStep(edges, all, before, now, active, node, successors, successor);
          RelaxLowlink(node, indices[successor]);
        } else {
          CompletedStep(edges, all, before, now, active, node, successors, successor);
        }
        successors := successors - {successor};
      }

      Conclude(node, edges, all, before, active, root, base);
    }

    /** The components of everything the seeds reach, in the order in which they are filed. */
    method Components(nodes: set<NodeId>, edges: Graph, ghost all: set<NodeId>) returns (found: seq<seq<NodeId>>)
      requires View() == Search(0, map[], map[], [], {}, [])
      requires nodes <= all && forall v :: v in all ==> Blockers(edges, v) <= all
      modifies this
      ensures Emitted(edges, nodes, found)
      ensures components == []
    {
      var todo := nodes;
      ghost var roots: seq<NodeId> := [];
      SeedingStarts(edges, all, nodes);
      while todo != {}
        invariant Seeding(edges, all, nodes, todo, View(), roots)
        decreases todo
      {
        var node := Least(todo);
        ghost var before := View();
        if node !in indices {
          SearchStarts(edges, node, components);
          Connect(node, edges, all, {}, node, |components|);
          SeedSearched(edges, all, nodes, todo, before, View(), roots, node);
          roots := Attributed(roots, View().components, node);
        } else {
          SeedSkipped(edges, all, nodes, todo, before, roots, node);
        }
        todo := todo - {node};
      }
      SearchComplete(edges, all, View(), nodes, roots);
      found := components;
      components := [];
    }
  }

  /** The roots with `node` for each component filed since. */
  ghost function Attributed(roots: seq<NodeId>, components: seq<seq<NodeId>>, node: NodeId): (r: seq<NodeId>)
    ensures |roots| <= |components| ==> |r| == |components|
    ensures forall i {:trigger r[i]} :: 0 <= i < |r| ==> r[i] == if i < |roots| then roots[i] else node
  {
    roots + seq(if |roots| <= |components| then |components| - |roots| else 0, _ => node)
  }

  /** The seeds not in `todo` are visited, and nothing but what the seeds reach is. */
  ghost predicate SeedsVisited(g: Graph, seeds: set<NodeId>, todo: set<NodeId>, indices: map<NodeId, nat>) {
    && seeds - todo <= indices.Keys
    && forall v {:trigger ReachedFrom(g, seeds, v)} :: v in indices ==> ReachedFrom(g, seeds, v)
  }

  /** The seeds not in `todo` come before those in it, and only they have been searched from. */
  ghost predicate SeedsAscend(seeds: set<NodeId>, todo: set<NodeId>, roots: seq<NodeId>) {
    && todo <= seeds
    && (forall x, y :: x in seeds - todo && y in todo ==> Before(x, y))
    && (forall i :: 0 <= i < |roots| ==> roots[i] in seeds - todo)
  }

  /** The state of the outermost loop: the seeds in `todo` are still to be taken. */
  ghost predicate Seeding(g: Graph, all: set<NodeId>, seeds: set<NodeId>, todo: set<NodeId>, s: Search,
                          roots: seq<NodeId>) {
    && todo <= all
    && Invariant(g, all, s, {})
    && SeedsVisited(g, seeds, todo, s.indices)
    && SeedsAscend(seeds, todo, roots)
    && SeedsTaken(g, seeds, s.components, roots)
    && SinksTaken(g, s.components, roots)
  }

  lemma SeedingStarts(g: Graph, all: set<NodeId>, seeds: set<NodeId>)
    requires seeds <= all
    ensures Seeding(g, all, seeds, seeds, Search(0, map[], map[], [], {}, []), [])
  {
  }

  lemma SeedTaken(seeds: set<NodeId>, todo: set<NodeId>, roots: seq<NodeId>, components: seq<seq<NodeId>>, node: NodeId)
    requires SeedsAscend(seeds, todo, roots)
    requires node in todo && forall x :: x in todo && x != node ==> Before(node, x)
    ensures SeedsAscend(seeds, todo - {node}, Attributed(roots, components, node))
    ensures SeedsAscend(seeds, todo - {node}, roots)
  {
  }

  lemma SeedSkipped(g: Graph, all: set<NodeId>, seeds: set<NodeId>, todo: set<NodeId>, s: Search,
                    roots: seq<NodeId>, node: NodeId)
    requires Seeding(g, all, seeds, todo, s, roots)
    requires node in todo && node in s.indices && forall x :: x in todo && x != node ==> Before(node, x)
    ensures Seeding(g, all, seeds, todo - {node}, s, roots)
  {
    SeedTaken(seeds, todo, roots, s.components, node);
  }

  /** What was visited before a call is filed among the components known before it. */
  lemma EarlierFiled(g: Graph, before: Search, after: Search, v: NodeId) returns (j: nat)
    requires ComponentsDone(g, before) && before.onStack == {}
    requires before.components <= after.components && v in before.indices
    ensures j < |before.components| && v in after.components[j]
  {
    j :| 0 <= j < |before.components| && v in before.components[j];
  }

  /** Whatever a call files was not visited before it. */
  lemma NewlyFiled(g: Graph, before: Search, after: Search, i: nat, v: NodeId)
    requires ComponentsDone(g, before) && before.onStack == {} && ComponentsDone(g, after)
    requires before.components <= after.components && |before.components| <= i < |after.components|
    requires v in after.components[i]
    ensures v in after.indices && v !in before.indices
  {
    if v in before.indices {
      var j := EarlierFiled(g, before, after, v);
    }
  }

  /** The components from `n` on are reached from `node`, and it is the first of the seeds among them. */
  ghost predicate ReachedFirst(g: Graph, seeds: set<NodeId>, n: nat, components: seq<seq<NodeId>>, node: NodeId) {
    forall i, v :: n <= i < |components| && v in components[i]
                   ==> Reach(g, node, v) && (v in seeds ==> !Before(v, node))
  }

  lemma NewlyReached(g: Graph, seeds: set<NodeId>, todo: set<NodeId>, before: Search, after: Search, node: NodeId)
    requires ComponentsDone(g, before) && before.onStack == {} && ComponentsDone(g, after)
    requires before.components <= after.components && VisitedFrom(g, before, after, node)
    requires SeedsVisited(g, seeds, todo, before.indices)
    requires node in todo && forall x :: x in todo && x != node ==> Before(node, x)
    ensures ReachedFirst(g, seeds, |before.components|, after.components, node)
  {
    forall i, v | |before.components| <= i < |after.components| && v in after.components[i]
      ensures Reach(g, node, v) && (v in seeds ==> !Before(v, node))
    {
      NewlyFiled(g, before, after, i, v);
      assert v in seeds ==> v in todo;
    }
  }

  lemma SeedExtends(g: Graph, seeds: set<NodeId>, todo: set<NodeId>, earlier: seq<seq<NodeId>>,
                    later: seq<seq<NodeId>>, roots: seq<NodeId>, node: NodeId)
    requires earlier <= later && node in todo
    requires SeedsTaken(g, seeds, earlier, roots) && SeedsAscend(seeds, todo, roots)
    requires ReachedFirst(g, seeds, |earlier|, later, node)
    ensures SeedsTaken(g, seeds, later, Attributed(roots, later, node))
  {
    var more := Attributed(roots, later, node);
    forall i, v | 0 <= i < |later| && v in later[i]
      ensures Reach(g, more[i], v) && (v in seeds ==> !Before(v, more[i]))
    {
      assert i < |earlier| ==> v in earlier[i];
    }
  }

  lemma SinksExtend(g: Graph, earlier: seq<seq<NodeId>>, later: seq<seq<NodeId>>, roots: seq<NodeId>, node: NodeId)
    requires earlier <= later && |roots| == |earlier|
    requires SinksTaken(g, earlier, roots) && SinksInOrder(g, node, |earlier|, later)
    ensures SinksTaken(g, later, Attributed(roots, later, node))
  {
    hide Introduced;
    var more := Attributed(roots, later, node);
    forall i, z | 0 <= i < |later| && z in later[i] && Blockers(g, z) == {}
      ensures Introduced(g, more[i], z, later[..i])
    {
      if i < |earlier| {
        assert z in earlier[i] && later[..i] == earlier[..i];
      }
    }
  }

  lemma SearchStarts(g: Graph, node: NodeId, components: seq<seq<NodeId>>)
    ensures Reach(g, node, node) && Introduced(g, node, node, components)
    ensures SinksInOrder(g, node, |components|, components)
  {
    ReachSelf(g, node);
  }

  /** What a node is come to with is still filed later. */
  lemma StillIntroduced(g: Graph, root: NodeId, z: NodeId, earlier: seq<seq<NodeId>>, later: seq<seq<NodeId>>)
    requires Introduced(g, root, z, earlier) && earlier <= later
    ensures Introduced(g, root, z, later)
  {
    if d :| Introduces(g, root, d, z, earlier) {
      forall y | Edge(g, d, y) && Blockers(g, y) == {} && Before(y, z) ensures Filed(later, |later|, y) {
        FiledWithin(earlier, later, |earlier|, |later|, y);
      }
      assert Introduces(g, root, d, z, later);
    }
  }

  /** A visited node that waits on nothing is filed, unless it is the one whose call is running. */
  lemma SinkIsFiled(g: Graph, s: Search, active: set<NodeId>, node: NodeId, y: NodeId)
    requires Anchored(g, s, active + {node}) && ComponentsDone(g, s)
    requires forall x :: x in active ==> Reach(g, x, node)
    requires y in s.indices && Blockers(g, y) == {} && y != node
    ensures Filed(s.components, |s.components|, y)
  {
    if y in s.onStack {
      assert HasAnchor(g, s, active + {node}, y);
      var x :| x in active + {node} && Anchors(g, s, y, x);
      SinkReaches(g, y, x);
      SinkReaches(g, y, node);
    }
  }

  /** The least blocker still to be looked at is come to after its smaller siblings. */
  lemma SuccessorIntroduced(g: Graph, all: set<NodeId>, before: Search, now: Search, active: set<NodeId>, node: NodeId,
                            todo: set<NodeId>, w: NodeId, root: NodeId)
    requires Running(g, all, before, now, active, node, todo) && todo <= Blockers(g, node)
    requires w in todo && forall x :: x in todo && x != w ==> Before(w, x)
    requires Reach(g, root, node) && forall x :: x in active ==> Reach(g, x, node)
    ensures Reach(g, root, w) && Introduced(g, root, w, now.components)
  {
    ReachEdge(g, node, w);
    ReachTrans(g, root, node, w);
    forall y | Edge(g, node, y) && Blockers(g, y) == {} && Before(y, w)
      ensures Filed(now.components, |now.components|, y)
    {
      SeenSibling(g, before, now, node, todo, w, y);
      SinkIsFiled(g, now, active, node, y);
    }
    assert Introduces(g, root, node, w, now.components);
  }

  lemma SeenSibling(g: Graph, before: Search, now: Search, node: NodeId, todo: set<NodeId>, w: NodeId, y: NodeId)
    requires Exploring(g, before, now, node, todo)
    requires w in todo && forall x :: x in todo && x != w ==> Before(w, x)
    requires Edge(g, node, y) && Blockers(g, y) == {} && Before(y, w)
    ensures y in now.indices && y != node
  {
    assert y !in todo;
  }

  lemma SinksAppended(g: Graph, root: NodeId, base: nat, components: seq<seq<NodeId>>, c: seq<NodeId>, node: NodeId)
    requires SinksInOrder(g, root, base, components) && Introduced(g, root, node, components)
    requires IsComponent(g, c) && node in c
    ensures SinksInOrder(g, root, base, components + [c])
  {
    hide Introduced, IsComponent;
    var more, n := components + [c], |components|;
    forall i, z | base <= i < |more| && z in more[i] && Blockers(g, z) == {}
      ensures Introduced(g, root, z, more[..i])
    {
      if i == n {
        SinkIsAlone(g, c, z, node);
        assert more[..n] == components;
      } else {
        assert more[i] == components[i] && more[..i] == components[..i];
      }
    }
  }

  lemma RootIsFiled(s: Search, height: nat)
    requires height < |s.stack|
    ensures var c := Listing(Elements(s.stack[height..]));
            s.stack[height] in c && Completed(s, height).components == s.components + [c]
  {
    assert s.stack[height..][0] == s.stack[height];
  }

  lemma LastIsComponent(g: Graph, s: Search)
    requires ComponentsDone(g, s) && s.components != []
    ensures IsComponent(g, s.components[|s.components| - 1])
  {
  }

  /** A root that waits on nothing is filed as it was come to. */
  lemma RootIntroduced(g: Graph, all: set<NodeId>, before: Search, now: Search, active: set<NodeId>, node: NodeId,
                       root: NodeId, base: nat)
    requires Exploring(g, before, now, node, {})
    requires Returned(g, all, before, Completed(now, |before.stack|), active, node)
    requires SinksInOrder(g, root, base, now.components) && Introduced(g, root, node, before.components)
    ensures SinksInOrder(g, root, base, Completed(now, |before.stack|).components)
  {
    hide Introduced, SinksInOrder, IsComponent, Completed, Consistent, StackConnected, FinishedClosed, Anchored;
    hide ComponentsDone, BlockersFirst, VisitedFrom, LinkWitnessed, LowCovers, BlockersSeen, Listing, Elements;
    StillIntroduced(g, root, node, before.components, now.components);
    RootIsFiled(now, |before.stack|);
    LastIsComponent(g, Completed(now, |before.stack|));
    SinksAppended(g, root, base, now.components, Listing(Elements(now.stack[|before.stack|..])), node);
  }

  lemma SinkIsAlone(g: Graph, c: seq<NodeId>, z: NodeId, node: NodeId)
    requires IsComponent(g, c) && z in c && node in c && Blockers(g, z) == {}
    ensures z == node
  {
    assert Mutual(g, z, node);
    SinkReaches(g, z, node);
  }

  lemma SeedVisits(g: Graph, seeds: set<NodeId>, todo: set<NodeId>, before: Search, after: Search, node: NodeId)
    requires SeedsVisited(g, seeds, todo, before.indices) && Extends(before, after)
    requires node in seeds && node in after.indices && VisitedFrom(g, before, after, node)
    ensures SeedsVisited(g, seeds, todo - {node}, after.indices)
  {
    forall v | v in after.indices ensures ReachedFrom(g, seeds, v) {
      assert v in before.indices || Reach(g, node, v);
    }
  }

  lemma SeedSearched(g: Graph, all: set<NodeId>, seeds: set<NodeId>, todo: set<NodeId>, before: Search, after: Search,
                     roots: seq<NodeId>, node: NodeId)
    requires Seeding(g, all, seeds, todo, before, roots)
    requires node in todo && forall x :: x in todo && x != node ==> Before(node, x)
    requires Returned(g, all, before, after, {}, node)
    requires SinksInOrder(g, node, |before.components|, after.components)
    ensures Seeding(g, all, seeds, todo - {node}, after, Attributed(roots, after.components, node))
  {
    IdleStackEmpty(g, before);
    NewlyReached(g, seeds, todo, before, after, node);
    SeedExtends(g, seeds, todo, before.components, after.components, roots, node);
    SinksExtend(g, before.components, after.components, roots, node);
    SeedVisits(g, seeds, todo, before, after, node);
    SeedTaken(seeds, todo, roots, after.components, node);
  }

  lemma NoElements(full: seq<NodeId>)
    ensures Elements([]) == {} && Elements(full[|full|..]) == {}
  {
  }

  lemma PopElements(full: seq<NodeId>, n: nat, component: seq<NodeId>)
    requires n < |full|
    ensures Elements(full[n..]) == Elements(full[n + 1..]) + {full[n]}
    ensures Elements(component + [full[n]]) == Elements(component) + {full[n]}
  {
    assert full[n..] == [full[n]] + full[n + 1..];
  }

  lemma RootOnTop(all: set<NodeId>, s: Search, height: nat)
    requires Consistent(s, all) && height < |s.stack|
    ensures forall i :: height < i < |s.stack| ==> s.stack[i] != s.stack[height]
  {
    forall i | height < i < |s.stack| ensures s.stack[i] != s.stack[height] {
      assert s.indices[s.stack[height]] < s.indices[s.stack[i]];
    }
  }

  lemma CallersReach(g: Graph, active: set<NodeId>, node: NodeId, successor: NodeId)
    requires forall x :: x in active ==> Reach(g, x, node)
    requires Edge(g, node, successor)
    ensures forall x :: x in active + {node} ==> Reach(g, x, successor)
  {
    ReachEdge(g, node, successor);
    forall x | x in active ensures Reach(g, x, successor) {
      ReachTrans(g, x, node, successor);
    }
  }

  /** With no call running nothing is stacked. */
  lemma IdleStackEmpty(g: Graph, s: Search)
    requires Anchored(g, s, {})
    ensures s.onStack == {}
  {
    forall y ensures y !in s.onStack {
      assert y in s.onStack ==> HasAnchor(g, s, {}, y);
    }
  }

  lemma VisitedAllReached(g: Graph, s: Search, seeds: set<NodeId>, v: NodeId)
    requires FinishedClosed(g, s, {}) && seeds <= s.indices.Keys && ReachedFrom(g, seeds, v)
    ensures v in s.indices
  {
    var seed :| seed in seeds && Reach(g, seed, v);
    forall u, w | u in s.indices.Keys && Edge(g, u, w) ensures w in s.indices.Keys {
      assert w in Blockers(g, u);
    }
    ClosedUnderReach(g, s.indices.Keys, seed, v);
  }

  lemma AllComponents(g: Graph, s: Search, seeds: set<NodeId>)
    requires ComponentsDone(g, s) && s.onStack == {}
    requires forall v :: v in s.indices <==> ReachedFrom(g, seeds, v)
    ensures Partition(g, seeds, s.components)
  {
  }

  /** When the outermost loop ends, the components hold exactly what was reached. */
  lemma SearchComplete(g: Graph, all: set<NodeId>, s: Search, seeds: set<NodeId>, roots: seq<NodeId>)
    requires Seeding(g, all, seeds, {}, s, roots)
    ensures Emitted(g, seeds, s.components)
  {
    IdleStackEmpty(g, s);
    forall v | ReachedFrom(g, seeds, v) ensures v in s.indices {
      VisitedAllReached(g, s, seeds, v);
    }
    AllComponents(g, s, seeds);
  }
}
