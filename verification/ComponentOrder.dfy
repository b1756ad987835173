/**
 * The order in which the search files components: blockers before what they block, and not in general
 * by smallest member. When everything reached is a seed, the edges alone say whether it is.
 */
module ComponentOrder {
  import opened NodeOrder
  import opened Reachability
  import opened StrongComponents

  /** The component of `w` has a member that is after no member of the component of `v`. */
  ghost predicate LeadsDown(g: Graph, v: NodeId, w: NodeId) {
    exists u {:trigger Mutual(g, w, u)} ::
      Mutual(g, w, u) && forall x {:trigger Mutual(g, v, x)} :: Mutual(g, v, x) ==> !Before(x, u)
  }

  /** No edge among what the seeds reach leads into a component whose smallest member is larger. */
  ghost predicate Downhill(g: Graph, seeds: set<NodeId>) {
    forall v, w :: ReachedFrom(g, seeds, v) && Edge(g, v, w) ==> LeadsDown(g, v, w)
  }

  lemma ReachedIsFiled(g: Graph, seeds: set<NodeId>, found: seq<seq<NodeId>>, v: NodeId) returns (i: nat)
    requires Partition(g, seeds, found) && ReachedFrom(g, seeds, v)
    ensures i < |found| && v in found[i] && IsComponent(g, found[i])
  {
    i :| 0 <= i < |found| && v in found[i];
  }

  /** A component's first member is in it, mutual with every other and after none. */
  lemma HeadIsLeast(g: Graph, c: seq<NodeId>, v: NodeId)
    requires IsComponent(g, c) && v in c
    ensures c[0] in c && Mutual(g, v, c[0]) && !Before(v, c[0])
  {
    assert c[0] in c;
  }

  lemma EdgeFiledEarlier(g: Graph, found: seq<seq<NodeId>>, i: nat, v: NodeId, w: NodeId) returns (j: nat)
    requires BlockersFirst(g, found) && i < |found| && v in found[i] && Edge(g, v, w)
    ensures j <= i && w in found[j]
  {
    assert Filed(found, i + 1, w);
    j :| 0 <= j < i + 1 && w in found[j];
  }

  lemma {:induction false} WalkFiledEarlier(g: Graph, found: seq<seq<NodeId>>, p: seq<NodeId>,
                                            i: nat, v: NodeId, w: NodeId)
    returns (j: nat)
    requires BlockersFirst(g, found) && i < |found| && v in found[i] && Walk(g, p, v, w)
    ensures j <= i && w in found[j]
    decreases |p|
  {
    if p == [] {
      j := i;
    } else {
      var k := EdgeFiledEarlier(g, found, i, v, p[0]);
      j := WalkFiledEarlier(g, found, p[1..], k, p[0], w);
    }
  }

  /** Nothing in a component waits, however indirectly, on a component filed after it. */
  lemma NothingWaitsOnLater(g: Graph, seeds: set<NodeId>, found: seq<seq<NodeId>>, i: nat, v: NodeId, j: nat, w: NodeId)
    requires Emitted(g, seeds, found) && i < j < |found| && v in found[i] && w in found[j]
    ensures !Reach(g, v, w)
  {
    if Reach(g, v, w) {
      var p :| Walk(g, p, v, w);
      var k := WalkFiledEarlier(g, found, p, i, v, w);
    }
  }

  lemma LowerHeadLeadsDown(g: Graph, c: seq<NodeId>, v: NodeId, d: seq<NodeId>, w: NodeId)
    requires IsComponent(g, c) && v in c && IsComponent(g, d) && w in d && !Before(c[0], d[0])
    ensures LeadsDown(g, v, w)
  {
    HeadIsLeast(g, d, w);
    forall x | Mutual(g, v, x) ensures !Before(x, d[0]) {
      HeadIsLeast(g, c, x);
    }
  }

  /** In an order by smallest member no edge leads up. */
  lemma OrderedLeadsDown(g: Graph, seeds: set<NodeId>, found: seq<seq<NodeId>>, v: NodeId, w: NodeId)
    requires Partition(g, seeds, found) && BlockersFirst(g, found) && ByHead(found)
    requires ReachedFrom(g, seeds, v) && Edge(g, v, w)
    ensures LeadsDown(g, v, w)
  {
    var i := ReachedIsFiled(g, seeds, found, v);
    var j := EdgeFiledEarlier(g, found, i, v, w);
    LowerHeadLeadsDown(g, found[i], v, found[j], w);
  }

  lemma ByHeadNeedsDownhill(g: Graph, seeds: set<NodeId>, found: seq<seq<NodeId>>)
    requires Emitted(g, seeds, found) && ByHead(found)
    ensures Downhill(g, seeds)
  {
    forall v, w | ReachedFrom(g, seeds, v) && Edge(g, v, w) ensures LeadsDown(g, v, w) {
      OrderedLeadsDown(g, seeds, found, v, w);
    }
  }

  lemma EdgeDescends(g: Graph, seeds: set<NodeId>, found: seq<seq<NodeId>>, i: nat, v: NodeId, j: nat, w: NodeId)
    requires Partition(g, seeds, found) && Downhill(g, seeds)
    requires i < |found| && v in found[i] && j < |found| && w in found[j] && Edge(g, v, w)
    ensures found[i] != [] && found[j] != [] && !Before(found[i][0], found[j][0])
  {
    assert ReachedFrom(g, seeds, v) && LeadsDown(g, v, w);
    var u :| Mutual(g, w, u) && forall x :: Mutual(g, v, x) ==> !Before(x, u);
    HeadIsLeast(g, found[i], v);
    HeadIsLeast(g, found[j], u);
  }

  /** Along a walk the smallest members never grow. */
  lemma {:induction false} WalkDescends(g: Graph, seeds: set<NodeId>, found: seq<seq<NodeId>>, p: seq<NodeId>,
                                        i: nat, v: NodeId, j: nat, w: NodeId)
    requires Partition(g, seeds, found) && Downhill(g, seeds) && Walk(g, p, v, w)
    requires i < |found| && v in found[i] && j < |found| && w in found[j]
    ensures found[i] != [] && found[j] != [] && !Before(found[i][0], found[j][0])
    decreases |p|
  {
    if p == [] {
      assert i == j;
      HeadIsLeast(g, found[i], v);
    } else {
      ReachedOn(g, seeds, v, p[0]);
      var k := ReachedIsFiled(g, seeds, found, p[0]);
      EdgeDescends(g, seeds, found, i, v, k, p[0]);
      WalkDescends(g, seeds, found, p[1..], k, p[0], j, w);
    }
  }

  lemma ReachedOn(g: Graph, seeds: set<NodeId>, v: NodeId, w: NodeId)
    requires ReachedFrom(g, seeds, v) && Edge(g, v, w)
    ensures ReachedFrom(g, seeds, w)
  {
    var seed :| seed in seeds && Reach(g, seed, v);
    ReachEdge(g, v, w);
    ReachTrans(g, seed, v, w);
  }

  lemma HeadIsReached(g: Graph, seeds: set<NodeId>, found: seq<seq<NodeId>>, i: nat)
    requires Partition(g, seeds, found) && i < |found|
    ensures found[i] != [] && found[i][0] in found[i] && ReachedFrom(g, seeds, found[i][0])
    ensures IsComponent(g, found[i])
  {
  }

  lemma HeadIsRoot(g: Graph, seeds: set<NodeId>, found: seq<seq<NodeId>>, roots: seq<NodeId>, i: nat)
    requires Partition(g, seeds, found) && Downhill(g, seeds) && SeedsTaken(g, seeds, found, roots)
    requires i < |found| && (found[i] != [] ==> found[i][0] in seeds)
    ensures found[i] != [] && found[i][0] == roots[i]
  {
    var h := found[i][0];
    assert h in found[i] && ReachedFrom(g, seeds, h);
    ReachSelf(g, roots[i]);
    assert ReachedFrom(g, seeds, roots[i]);
    var k := ReachedIsFiled(g, seeds, found, roots[i]);
    assert Reach(g, roots[i], h);
    var p :| Walk(g, p, roots[i], h);
    WalkDescends(g, seeds, found, p, k, roots[i], i, h);
    HeadIsLeast(g, found[k], roots[i]);
  }

  lemma DownhillGivesByHead(g: Graph, seeds: set<NodeId>, found: seq<seq<NodeId>>)
    requires Emitted(g, seeds, found) && Downhill(g, seeds)
    requires forall v :: ReachedFrom(g, seeds, v) ==> v in seeds
    ensures ByHead(found)
  {
    var roots :| SeedsTaken(g, seeds, found, roots) && SinksTaken(g, found, roots);
    forall i, j | 0 <= i < j < |found| ensures found[i] != [] && found[j] != [] && Before(found[i][0], found[j][0]) {
      HeadIsReached(g, seeds, found, i);
      HeadIsReached(g, seeds, found, j);
      HeadIsRoot(g, seeds, found, roots, i);
      HeadIsRoot(g, seeds, found, roots, j);
      assert found[i][0] in found[i] && found[j][0] in found[j];
    }
  }

  /** When everything reached is a seed, the order is by smallest member exactly when no edge leads up. */
  lemma ByHeadExactly(g: Graph, seeds: set<NodeId>, found: seq<seq<NodeId>>)
    requires Emitted(g, seeds, found)
    requires forall v :: ReachedFrom(g, seeds, v) ==> v in seeds
    ensures ByHead(found) <==> Downhill(g, seeds)
  {
    if ByHead(found) {
      ByHeadNeedsDownhill(g, seeds, found);
    }
    if Downhill(g, seeds) {
      DownhillGivesByHead(g, seeds, found);
    }
  }

  // ---------- with unrecorded blockers ----------

  /** What is reached without being a seed waits on nothing, as in the graph that the search is given. */
  ghost predicate UnrecordedAreSinks(g: Graph, seeds: set<NodeId>) {
    forall v {:trigger ReachedFrom(g, seeds, v)} :: ReachedFrom(g, seeds, v) && v !in seeds ==> Blockers(g, v) == {}
  }

  ghost predicate Alone(g: Graph, v: NodeId) {
    forall x {:trigger Mutual(g, v, x)} :: Mutual(g, v, x) ==> x == v
  }

  /** No member of a cycle waits on an unrecorded node. */
  ghost predicate WaitersAlone(g: Graph, seeds: set<NodeId>) {
    forall v, z :: v in seeds && Edge(g, v, z) && z !in seeds ==> Alone(g, v)
  }

  ghost predicate LeastOfComponent(g: Graph, v: NodeId) {
    forall x {:trigger Mutual(g, v, x)} :: Mutual(g, v, x) ==> !Before(x, v)
  }

  ghost predicate WaitedFor(g: Graph, seeds: set<NodeId>, z: NodeId) {
    exists v :: v in seeds && Edge(g, v, z)
  }

  ghost predicate BeforeWaiters(g: Graph, seeds: set<NodeId>, s: NodeId, z: NodeId) {
    forall v :: v in seeds && Edge(g, v, z) ==> Before(s, v)
  }

  /** An unrecorded blocker is larger than every seed that heads its component before all who wait on the blocker. */
  ghost predicate UnrecordedInPlace(g: Graph, seeds: set<NodeId>) {
    forall z, s {:trigger BeforeWaiters(g, seeds, s, z)} ::
      && z !in seeds && WaitedFor(g, seeds, z)
      && s in seeds && LeastOfComponent(g, s) && BeforeWaiters(g, seeds, s, z)
      ==> Before(s, z)
  }

  lemma MemberOfOne(g: Graph, seeds: set<NodeId>, found: seq<seq<NodeId>>, i: nat, j: nat, v: NodeId)
    requires Partition(g, seeds, found) && i < |found| && j < |found| && v in found[i] && v in found[j]
    ensures i == j
  {
  }

  /** The seed whose search filed a component is the least that waits on a member of it. */
  lemma RootIsLeastWaiter(g: Graph, seeds: set<NodeId>, found: seq<seq<NodeId>>, roots: seq<NodeId>, i: nat,
                          z: NodeId, u: NodeId)
    requires Partition(g, seeds, found) && BlockersFirst(g, found) && SeedsTaken(g, seeds, found, roots)
    requires i < |found| && z in found[i] && u in seeds && Edge(g, u, z)
    ensures !Before(u, roots[i])
  {
    hide BlockersFirst;
    ReachSelf(g, u);
    assert ReachedFrom(g, seeds, u);
    var k := ReachedIsFiled(g, seeds, found, u);
    var j := EdgeFiledEarlier(g, found, k, u, z);
    MemberOfOne(g, seeds, found, i, j, z);
    assert i < k ==> !Before(roots[k], roots[i]);
  }

  /** What is reached from a seed that is alone in its component is not larger than it. */
  lemma ReachDescends(g: Graph, seeds: set<NodeId>, found: seq<seq<NodeId>>, v: NodeId, w: NodeId)
    requires Partition(g, seeds, found) && Downhill(g, seeds)
    requires ReachedFrom(g, seeds, v) && Reach(g, v, w) && Alone(g, w)
    ensures !Before(v, w)
  {
    ReachedAgain(g, seeds, v, w);
    var i := ReachedIsFiled(g, seeds, found, v);
    var j := ReachedIsFiled(g, seeds, found, w);
    var p :| Walk(g, p, v, w);
    WalkDescends(g, seeds, found, p, i, v, j, w);
    HeadIsLeast(g, found[i], v);
    HeadIsLeast(g, found[j], w);
  }

  lemma ReachedAgain(g: Graph, seeds: set<NodeId>, v: NodeId, w: NodeId)
    requires ReachedFrom(g, seeds, v) && Reach(g, v, w)
    ensures ReachedFrom(g, seeds, w)
  {
    var seed :| seed in seeds && Reach(g, seed, v);
    ReachTrans(g, seed, v, w);
  }

  lemma SinkAlone(g: Graph, z: NodeId)
    requires Blockers(g, z) == {}
    ensures Alone(g, z)
  {
    forall x | Mutual(g, z, x) ensures x == z { SinkReaches(g, z, x); }
  }

  /** An unrecorded blocker is filed by the least seed that waits on it, after its smaller unrecorded siblings. */
  lemma UnrecordedIsIntroduced(g: Graph, seeds: set<NodeId>, found: seq<seq<NodeId>>, roots: seq<NodeId>, i: nat)
    requires Partition(g, seeds, found) && BlockersFirst(g, found) && Downhill(g, seeds)
    requires SeedsTaken(g, seeds, found, roots) && SinksTaken(g, found, roots)
    requires UnrecordedAreSinks(g, seeds) && WaitersAlone(g, seeds)
    requires i < |found| && found[i] != [] && found[i][0] !in seeds
    ensures var z := found[i][0];
            && Edge(g, roots[i], z) && Before(z, roots[i]) && Blockers(g, z) == {} && Alone(g, roots[i])
            && SmallerSinksFiled(g, roots[i], z, found[..i])
  {
    hide Downhill, BlockersFirst, SmallerSinksFiled;
    var z, r := found[i][0], roots[i];
    HeadIsReached(g, seeds, found, i);
    assert Introduced(g, r, z, found[..i]);
    var d :| Introduces(g, r, d, z, found[..i]);
    ReachSelf(g, r);
    assert ReachedFrom(g, seeds, r) && ReachedFrom(g, seeds, d);
    assert z in Blockers(g, d) && d in seeds;
    RootIsLeastWaiter(g, seeds, found, roots, i, z, d);
    assert Alone(g, d);
    ReachDescends(g, seeds, found, r, d);
    assert d == r;
    ReachEdge(g, r, z);
    SinkAlone(g, z);
    ReachDescends(g, seeds, found, r, z);
  }

  /** Between a seed's component and an unrecorded blocker filed after it the condition decides. */
  lemma UnrecordedAfterSeed(g: Graph, seeds: set<NodeId>, found: seq<seq<NodeId>>, roots: seq<NodeId>,
                            s: NodeId, j: nat)
    requires Partition(g, seeds, found) && BlockersFirst(g, found) && SeedsTaken(g, seeds, found, roots)
    requires UnrecordedInPlace(g, seeds) && s in seeds && LeastOfComponent(g, s)
    requires j < |found| && found[j] != [] && found[j][0] !in seeds
    requires Edge(g, roots[j], found[j][0]) && Before(s, roots[j])
    ensures Before(s, found[j][0])
  {
    hide BlockersFirst;
    var z := found[j][0];
    assert z in found[j] && WaitedFor(g, seeds, z);
    forall u | u in seeds && Edge(g, u, z) ensures Before(s, u) {
      RootIsLeastWaiter(g, seeds, found, roots, j, z, u);
    }
    assert BeforeWaiters(g, seeds, s, z);
  }

  /** Of two components filed by different seeds, that of the smaller seed comes first. */
  lemma SmallerSeedFirst(g: Graph, seeds: set<NodeId>, found: seq<seq<NodeId>>, roots: seq<NodeId>, i: nat, j: nat)
    requires SeedsTaken(g, seeds, found, roots) && i < |found| && j < |found| && Before(roots[i], roots[j])
    ensures i < j
  {
  }

  lemma HeadIsLeastOfComponent(g: Graph, c: seq<NodeId>)
    requires IsComponent(g, c)
    ensures LeastOfComponent(g, c[0])
  {
    assert c[0] in c;
    forall x | Mutual(g, c[0], x) ensures !Before(x, c[0]) { HeadIsLeast(g, c, x); }
  }

  /** The setting of the exact theorem. */
  ghost predicate Placeable(g: Graph, seeds: set<NodeId>, found: seq<seq<NodeId>>, roots: seq<NodeId>) {
    && Partition(g, seeds, found) && BlockersFirst(g, found) && Downhill(g, seeds)
    && SeedsTaken(g, seeds, found, roots) && SinksTaken(g, found, roots)
    && UnrecordedAreSinks(g, seeds) && WaitersAlone(g, seeds)
  }

  lemma HeadsDistinct(g: Graph, seeds: set<NodeId>, found: seq<seq<NodeId>>, i: nat, j: nat)
    requires Partition(g, seeds, found) && i < j < |found|
    ensures found[i] != [] && found[j] != [] && found[i][0] != found[j][0]
  {
    HeadIsReached(g, seeds, found, i);
    HeadIsReached(g, seeds, found, j);
  }

  lemma SeedHeadNext(g: Graph, seeds: set<NodeId>, found: seq<seq<NodeId>>, roots: seq<NodeId>, i: nat, j: nat)
    requires Placeable(g, seeds, found, roots) && i < j < |found|
    requires found[i] != [] && found[j] != [] && found[j][0] in seeds
    ensures Before(found[i][0], found[j][0])
  {
    hide Downhill, BlockersFirst, SinksTaken, UnrecordedAreSinks, WaitersAlone;
    HeadsDistinct(g, seeds, found, i, j);
    HeadIsRoot(g, seeds, found, roots, j);
    if found[i][0] in seeds {
      HeadIsRoot(g, seeds, found, roots, i);
    } else {
      UnrecordedIsIntroduced(g, seeds, found, roots, i);
    }
  }

  lemma UnrecordedHeadNext(g: Graph, seeds: set<NodeId>, found: seq<seq<NodeId>>, roots: seq<NodeId>, i: nat, j: nat)
    requires Placeable(g, seeds, found, roots) && UnrecordedInPlace(g, seeds) && i < j < |found|
    requires found[i] != [] && found[j] != [] && found[j][0] !in seeds
    ensures Before(found[i][0], found[j][0])
  {
    hide Downhill, BlockersFirst, SinksTaken, UnrecordedAreSinks, WaitersAlone, UnrecordedInPlace;
    UnrecordedIsIntroduced(g, seeds, found, roots, j);
    if found[i][0] in seeds {
      SeedThenUnrecorded(g, seeds, found, roots, i, j);
    } else {
      UnrecordedIsIntroduced(g, seeds, found, roots, i);
      if roots[i] == roots[j] {
        SiblingsInOrder(g, seeds, found, roots[i], i, j);
      } else {
        UnrecordedAfterSeed(g, seeds, found, roots, roots[i], j);
      }
    }
  }

  lemma SeedThenUnrecorded(g: Graph, seeds: set<NodeId>, found: seq<seq<NodeId>>, roots: seq<NodeId>, i: nat, j: nat)
    requires Placeable(g, seeds, found, roots) && UnrecordedInPlace(g, seeds) && i < j < |found|
    requires found[i] != [] && found[j] != [] && found[i][0] in seeds && found[j][0] !in seeds
    requires Edge(g, roots[j], found[j][0])
    ensures Before(found[i][0], found[j][0])
  {
    hide Downhill, BlockersFirst, SinksTaken, UnrecordedAreSinks, WaitersAlone, UnrecordedInPlace;
    HeadIsRoot(g, seeds, found, roots, i);
    HeadIsReached(g, seeds, found, i);
    HeadIsLeastOfComponent(g, found[i]);
    if roots[i] == roots[j] {
      var k := EdgeFiledEarlier(g, found, i, roots[j], found[j][0]);
      MemberOfOne(g, seeds, found, j, k, found[j][0]);
    } else {
      UnrecordedAfterSeed(g, seeds, found, roots, roots[i], j);
    }
  }

  lemma SiblingsInOrder(g: Graph, seeds: set<NodeId>, found: seq<seq<NodeId>>, r: NodeId, i: nat, j: nat)
    requires Partition(g, seeds, found) && i < j < |found| && found[i] != [] && found[j] != []
    requires Edge(g, r, found[j][0]) && Blockers(g, found[j][0]) == {}
    requires SmallerSinksFiled(g, r, found[i][0], found[..i])
    ensures Before(found[i][0], found[j][0])
  {
    HeadsDistinct(g, seeds, found, i, j);
    var y := found[j][0];
    assert y in found[j];
    if Before(y, found[i][0]) {
      assert Filed(found[..i], |found[..i]|, y);
      var k :| 0 <= k < i && y in found[..i][k];
      MemberOfOne(g, seeds, found, k, j, y);
    }
  }

  lemma ByHeadPlaces(g: Graph, seeds: set<NodeId>, found: seq<seq<NodeId>>, roots: seq<NodeId>, z: NodeId, s: NodeId)
    requires Placeable(g, seeds, found, roots) && ByHead(found)
    requires z !in seeds && WaitedFor(g, seeds, z)
    requires s in seeds && LeastOfComponent(g, s) && BeforeWaiters(g, seeds, s, z)
    ensures Before(s, z)
  {
    var u :| u in seeds && Edge(g, u, z);
    ReachSelf(g, u);
    ReachSelf(g, s);
    ReachEdge(g, u, z);
    assert ReachedFrom(g, seeds, s) && ReachedFrom(g, seeds, z);
    SinkAlone(g, z);
    var k := ReachedIsFiled(g, seeds, found, s);
    var j := ReachedIsFiled(g, seeds, found, z);
    HeadIsLeast(g, found[k], s);
    HeadIsLeast(g, found[j], z);
    assert found[k][0] == s && found[j][0] == z;
    hide Downhill, BlockersFirst, SinksTaken, UnrecordedAreSinks, WaitersAlone;
    UnrecordedIsIntroduced(g, seeds, found, roots, j);
    assert Before(s, roots[j]) && !Before(s, roots[k]);
    SmallerSeedFirst(g, seeds, found, roots, k, j);
  }

  /**
   * With unrecorded blockers, none of them waited for by a member of a cycle: the order is by smallest
   * member exactly when no edge leads up and every unrecorded blocker is in its place.
   */
  lemma ByHeadWithUnrecorded(g: Graph, seeds: set<NodeId>, found: seq<seq<NodeId>>)
    requires Emitted(g, seeds, found) && UnrecordedAreSinks(g, seeds) && WaitersAlone(g, seeds)
    ensures ByHead(found) <==> Downhill(g, seeds) && UnrecordedInPlace(g, seeds)
  {
    hide Downhill, UnrecordedInPlace, Partition, BlockersFirst, SeedsTaken, SinksTaken;
    hide UnrecordedAreSinks, WaitersAlone;
    var roots :| SeedsTaken(g, seeds, found, roots) && SinksTaken(g, found, roots);
    if ByHead(found) {
      ByHeadNeedsDownhill(g, seeds, found);
      AllInPlace(g, seeds, found, roots);
    }
    if Downhill(g, seeds) && UnrecordedInPlace(g, seeds) {
      forall i, j | 0 <= i < j < |found|
        ensures found[i] != [] && found[j] != [] && Before(found[i][0], found[j][0])
      {
        HeadsDistinct(g, seeds, found, i, j);
        if found[j][0] in seeds {
          SeedHeadNext(g, seeds, found, roots, i, j);
        } else {
          UnrecordedHeadNext(g, seeds, found, roots, i, j);
        }
      }
      forall i | 0 <= i < |found| ensures found[i] != [] { HeadIsReached(g, seeds, found, i); }
    }
  }

  lemma AllInPlace(g: Graph, seeds: set<NodeId>, found: seq<seq<NodeId>>, roots: seq<NodeId>)
    requires Placeable(g, seeds, found, roots) && ByHead(found)
    ensures UnrecordedInPlace(g, seeds)
  {
    hide Placeable, WaitedFor, LeastOfComponent, BeforeWaiters;
    forall z, s |
      z !in seeds && WaitedFor(g, seeds, z) && s in seeds && LeastOfComponent(g, s) && BeforeWaiters(g, seeds, s, z)
      ensures Before(s, z)
    {
      ByHeadPlaces(g, seeds, found, roots, z, s);
    }
  }

  /** Two tickets, the first waiting on the second: whatever is emitted is not in the order of ids. */
  lemma LaterBlockerBreaksIdOrder(found: seq<seq<NodeId>>)
    requires Emitted(map[Decision(1) := {Decision(2)}, Decision(2) := {}], {Decision(1), Decision(2)}, found)
    ensures !ByHead(found)
  {
    var g := map[Decision(1) := {Decision(2)}, Decision(2) := {}];
    var seeds := {Decision(1), Decision(2)};
    ReachSelf(g, Decision(1));
    assert ReachedFrom(g, seeds, Decision(1));
    assert Edge(g, Decision(1), Decision(2)) && Mutual(g, Decision(1), Decision(1));
    assert !LeadsDown(g, Decision(1), Decision(2)) by {
      forall u | Mutual(g, Decision(2), u) ensures u == Decision(2) {
        SinkReaches(g, Decision(2), u);
      }
    }
    if ByHead(found) {
      ByHeadNeedsDownhill(g, seeds, found);
    }
  }

  lemma OneStep(g: Graph, a: NodeId, b: NodeId, c: NodeId)
    requires Blockers(g, a) == {b} && Blockers(g, b) == {} && Reach(g, a, c)
    ensures c == a || c == b
  {
    var p :| Walk(g, p, a, c);
    if p != [] {
      assert p[0] in Blockers(g, a) && Walk(g, p[1..], b, c);
      SinkReaches(g, b, c);
    }
  }

  /**
   * With an unrecorded blocker an order without edges leading up is not enough: ticket 5 waits on the
   * unrecorded 3, which is smaller, yet whatever is emitted has the component of ticket 4 before that of 3.
   */
  lemma UnrecordedBreaksIdOrder(found: seq<seq<NodeId>>)
    requires Emitted(map[Decision(5) := {Decision(3)}], {Decision(4), Decision(5)}, found)
    ensures Downhill(map[Decision(5) := {Decision(3)}], {Decision(4), Decision(5)}) && !ByHead(found)
  {
    var g := map[Decision(5) := {Decision(3)}];
    var seeds := {Decision(4), Decision(5)};
    UnrecordedIsDownhill();
    UnrecordedOutOfPlace();
    hide Emitted, Downhill, UnrecordedInPlace, UnrecordedAreSinks, WaitersAlone;
    ByHeadWithUnrecorded(g, seeds, found);
  }

  lemma UnrecordedOutOfPlace()
    ensures var g, seeds := map[Decision(5) := {Decision(3)}], {Decision(4), Decision(5)};
            UnrecordedAreSinks(g, seeds) && WaitersAlone(g, seeds) && !UnrecordedInPlace(g, seeds)
  {
    var g := map[Decision(5) := {Decision(3)}];
    var seeds := {Decision(4), Decision(5)};
    forall x | Mutual(g, Decision(5), x) ensures x == Decision(5) {
      OneStep(g, Decision(5), Decision(3), x);
      if x == Decision(3) { SinkReaches(g, x, Decision(5)); }
    }
    SinkAlone(g, Decision(4));
    assert Edge(g, Decision(5), Decision(3)) && WaitedFor(g, seeds, Decision(3));
    assert BeforeWaiters(g, seeds, Decision(4), Decision(3)) && LeastOfComponent(g, Decision(4));
  }

  lemma UnrecordedIsDownhill()
    ensures Downhill(map[Decision(5) := {Decision(3)}], {Decision(4), Decision(5)})
  {
    var g := map[Decision(5) := {Decision(3)}];
    forall v, w | Edge(g, v, w) ensures LeadsDown(g, v, w) {
      ReachSelf(g, w);
      assert Mutual(g, w, w);
      forall x | Mutual(g, v, x) ensures !Before(x, w) {
        OneStep(g, v, w, x);
      }
    }
  }
}
