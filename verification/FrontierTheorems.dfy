/** What the projected board means: exact cycles, progress, and what further resolutions can do. */
module FrontierTheorems {
  import opened NodeOrder
  import opened Reachability
  import opened StrongComponents
  import opened Frontier
  import ComponentOrder
  import PlanWorkflows
  import PlanRuns

  // ---------- the classification ----------

  /** Every recorded node lands in exactly one of the three sets, with its unresolved blockers named. */
  lemma BoardPartitions(sources: set<Source>, g: BlockingGraph, board: FrontierBoard)
    requires Describes(g, sources) && Projects(g, board)
    ensures board.frontier.Keys + board.fog.Keys + board.settled.Keys == g.nodes
    ensures board.frontier.Keys !! board.fog.Keys !! board.settled.Keys
    ensures board.settled.Keys == g.resolved
    ensures forall n, b :: n in board.fog ==>
              (b in board.fog[n].waitsOn <==> Edge(g.inEdges, n, b) && b !in g.resolved)
    ensures forall n :: n in board.fog ==> board.fog[n].waitsOn != {}
    ensures forall n, b :: n in board.frontier && Edge(g.inEdges, n, b) ==> b in g.resolved
  {
    forall n | n in g.nodes
      ensures n in board.frontier.Keys + board.fog.Keys + board.settled.Keys
    {
      assert n in FrontierOf(g) || n in FogOf(g) || n in g.nodes * g.resolved;
    }
    forall n, b | n in board.frontier && Edge(g.inEdges, n, b) ensures b in g.resolved {
      assert n in FrontierOf(g) && b in Blockers(g.inEdges, n);
      assert b in WaitsOn(g, n) <==> b !in g.resolved;
    }
  }

  lemma LiveEdge(g: BlockingGraph, a: NodeId, b: NodeId)
    ensures Edge(Live(g), a, b) <==> a in Unresolved(g) && b in WaitsOn(g, a)
  {
  }

  // ---------- cycles ----------

  /** Whoever shares a component with another node waits, so it is recorded, unresolved and fogged. */
  lemma MutualIsFogged(g: BlockingGraph, n: NodeId, m: NodeId)
    requires n != m && Mutual(Live(g), n, m)
    ensures n in FogOf(g)
  {
    var p :| Walk(Live(g), p, n, m);
    LiveEdge(g, n, p[0]);
  }

  /** The listed cycles are disjoint, by smallest member, and hold only fogged nodes. */
  lemma CyclesAreFoggedAndDisjoint(g: BlockingGraph, board: FrontierBoard)
    requires Projects(g, board)
    ensures forall i, n :: 0 <= i < |board.cycles| && n in board.cycles[i] ==>
              n in board.fog && n in Unresolved(g)
    ensures forall i, j, n :: 0 <= i < j < |board.cycles| && n in board.cycles[i] ==> n !in board.cycles[j]
    ensures forall i, n :: 0 <= i < |board.cycles| && n in board.cycles[i] && n != board.cycles[i][0] ==>
              Before(board.cycles[i][0], n)
  {
    forall i, n | 0 <= i < |board.cycles| && n in board.cycles[i]
      ensures n in board.fog && n in Unresolved(g)
      ensures n != board.cycles[i][0] ==> Before(board.cycles[i][0], n)
    {
      var c := board.cycles[i];
      var k :| 0 <= k < |c| && c[k] == n;
      assert Before(c[0], c[1]);
      var m := if n == c[0] then c[1] else c[0];
      assert m in c && m != n;
      assert Mutual(Live(g), n, m);
      MutualIsFogged(g, n, m);
      assert n in FogOf(g);
    }
    forall i, j, n | 0 <= i < j < |board.cycles| && n in board.cycles[i] ensures n !in board.cycles[j] {
      ComponentsAgree(Live(g), board.cycles[i], board.cycles[j], n);
      assert Before(board.cycles[i][0], board.cycles[j][0]);
    }
  }

  /** Two components with a common member are the same list. */
  lemma ComponentsAgree(g: Graph, c: seq<NodeId>, d: seq<NodeId>, n: NodeId)
    requires IsComponent(g, c) && IsComponent(g, d) && n in c
    ensures n in d ==> c == d
  {
    if n in d {
      forall m ensures m in c <==> m in d {
        assert m in c <==> Mutual(g, n, m);
      }
      AscendingUnique(c, d);
    }
  }

  /** A listed component is a cycle: an unresolved node is named exactly when it shares one with another node. */
  lemma NamedExactly(g: BlockingGraph, board: FrontierBoard, n: NodeId)
    requires Projects(g, board) && n in Unresolved(g)
    ensures InSome(board.cycles, n) <==> exists m :: m != n && Mutual(Live(g), n, m)
  {
    if InSome(board.cycles, n) {
      var i :| 0 <= i < |board.cycles| && n in board.cycles[i];
      var c := board.cycles[i];
      var k :| 0 <= k < |c| && c[k] == n;
      assert Before(c[0], c[1]);
      var m := if n == c[0] then c[1] else c[0];
      assert m in c && m != n && Mutual(Live(g), n, m);
    }
    if m :| m != n && Mutual(Live(g), n, m) {
      assert InSome(board.cycles, n);
    }
  }

  /**
   * An unresolved node lies on a blocking cycle exactly when the board names it or it blocks itself.
   * The board leaves the second case to the recording step, which refuses self-blocking.
   */
  lemma CycleExactness(g: BlockingGraph, board: FrontierBoard, n: NodeId)
    requires Projects(g, board) && n in Unresolved(g)
    ensures OnCycle(Live(g), n) <==> InSome(board.cycles, n) || Edge(g.inEdges, n, n)
  {
    NamedExactly(g, board, n);
    CycleIsSharedComponent(Live(g), n);
    LiveEdge(g, n, n);
  }

  /** The second case is real: a lone node that blocks itself is on a cycle the board does not name. */
  lemma SelfBlockingIsUnnamed(n: NodeId, board: FrontierBoard)
    requires Projects(BlockingGraph({n}, {}, map[n := {n}]), board)
    ensures OnCycle(Live(BlockingGraph({n}, {}, map[n := {n}])), n) && board.cycles == []
  {
    var g := BlockingGraph({n}, {}, map[n := {n}]);
    CycleExactness(g, board, n);
    CyclesAreFoggedAndDisjoint(g, board);
    assert Unresolved(g) == {n};
    if board.cycles != [] {
      var c := board.cycles[0];
      assert c[0] in c && c[1] in c && Before(c[0], c[1]);
      forall x | x in c ensures x == n {
        var i := 0;
        assert 0 <= i < |board.cycles| && x in board.cycles[i];
        assert x in board.fog;
        assert x in Unresolved(g);
      }
    }
  }

  /** A blocker that is no recorded node is on no cycle and in none of the three sets. */
  lemma PhantomsStayOutside(g: BlockingGraph, board: FrontierBoard, b: NodeId)
    requires Projects(g, board) && b !in g.nodes
    ensures b !in board.frontier && b !in board.fog && b !in board.settled
    ensures !OnCycle(Live(g), b) && !InSome(board.cycles, b)
  {
    CyclesAreFoggedAndDisjoint(g, board);
  }

  /** An entry is of its own node; only an imported one is unverified, and only a ticket is a decision. */
  ghost predicate TellsSource(entry: FrontierNode, n: NodeId) {
    && entry.id == n
    && (entry.provenance == ExternalUnverified <==> n.Imported?)
    && (entry.provenance == MjolnrGoverned <==> n.Decision? || n.Plan?)
    && (entry.kind == DecisionNode <==> n.Decision?)
    && (entry.kind == ImplementationNode <==> n.Plan? || n.Imported?)
  }

  /** Every entry of every board carries its own id, kind and provenance. */
  lemma EntriesTellSource(sources: set<Source>, board: FrontierBoard)
    requires BoardOf(sources, board)
    ensures forall n :: n in board.frontier ==> TellsSource(board.frontier[n], n)
    ensures forall n :: n in board.fog ==> TellsSource(board.fog[n].node, n)
    ensures forall n :: n in board.settled ==> TellsSource(board.settled[n], n)
  {
    hide Describes, NamesCycles;
    var g :| Describes(g, sources) && Projects(g, board);
  }

  // ---------- the order of the search over a board ----------

  /**
   * On a board where no cycle waits on an unrecorded node, the components come by smallest member exactly
   * when no edge leads up and every unrecorded blocker is in its place.
   */
  lemma BoardSearchOrder(g: BlockingGraph, found: seq<seq<NodeId>>)
    requires Emitted(Live(g), Unresolved(g), found) && ComponentOrder.WaitersAlone(Live(g), Unresolved(g))
    ensures ByHead(found) <==>
            && ComponentOrder.Downhill(Live(g), Unresolved(g))
            && ComponentOrder.UnrecordedInPlace(Live(g), Unresolved(g))
  {
    assert ComponentOrder.UnrecordedAreSinks(Live(g), Unresolved(g));
    hide *;
    ComponentOrder.ByHeadWithUnrecorded(Live(g), Unresolved(g), found);
  }

  // ---------- one board per recorded state ----------

  ghost predicate SameEdges(g: Graph, h: Graph) {
    forall a, b :: Edge(g, a, b) <==> Edge(h, a, b)
  }

  lemma SameMutual(g: Graph, h: Graph, a: NodeId, b: NodeId)
    requires SameEdges(g, h)
    ensures Mutual(g, a, b) <==> Mutual(h, a, b)
  {
    if Mutual(g, a, b) { ReachMonotone(g, h, a, b); ReachMonotone(g, h, b, a); }
    if Mutual(h, a, b) { ReachMonotone(h, g, a, b); ReachMonotone(h, g, b, a); }
  }

  /** Every cycle named for one graph is named for another with the same edges. */
  lemma CyclesCarryOver(g: BlockingGraph, h: BlockingGraph, c: seq<seq<NodeId>>, d: seq<seq<NodeId>>)
    requires NamesCycles(g, c) && NamesCycles(h, d) && SameEdges(Live(g), Live(h))
    ensures forall x :: x in c ==> x in d
  {
    forall i | 0 <= i < |c| ensures c[i] in d {
      var n, m := c[i][0], c[i][1];
      assert Before(n, m) && n in c[i] && m in c[i] && Mutual(Live(g), n, m);
      SameMutual(Live(g), Live(h), n, m);
      MutualIsFogged(h, n, m);
      assert InSome(d, n);
      var j :| 0 <= j < |d| && n in d[j];
      forall v, w | v in c[i] ensures w in c[i] <==> Mutual(Live(h), v, w) {
        SameMutual(Live(g), Live(h), v, w);
        assert w in c[i] <==> Mutual(Live(g), v, w);
      }
      ComponentsAgree(Live(h), c[i], d[j], n);
    }
  }

  lemma {:induction false} ByHeadUnique(c: seq<seq<NodeId>>, d: seq<seq<NodeId>>)
    requires ByHead(c) && ByHead(d) && forall x :: x in c <==> x in d
    ensures c == d
  {
    assert c != [] ==> c[0] in c && c[0] in d;
    assert d != [] ==> d[0] in d && d[0] in c;
    if c != [] {
      assert c[0] == d[0];
      forall x ensures x in c[1..] <==> x in d[1..] {
        assert x in c <==> x == c[0] || x in c[1..];
        assert x in d <==> x == d[0] || x in d[1..];
      }
      ByHeadUnique(c[1..], d[1..]);
      assert c == [c[0]] + c[1..] && d == [d[0]] + d[1..];
    }
  }

  lemma SameSourcesSameEdges(sources: set<Source>, g: BlockingGraph, h: BlockingGraph)
    requires Describes(g, sources) && Describes(h, sources)
    ensures g.nodes == h.nodes && g.resolved == h.resolved
    ensures forall n :: WaitsOn(g, n) == WaitsOn(h, n)
  {
    forall n ensures WaitsOn(g, n) == WaitsOn(h, n) {
      forall x ensures x in WaitsOn(g, n) <==> x in WaitsOn(h, n) {
        assert Edge(g.inEdges, n, x) <==> Edge(h.inEdges, n, x);
      }
    }
  }

  lemma ProjectionsAgree(sources: set<Source>, g: BlockingGraph, h: BlockingGraph, a: FrontierBoard, b: FrontierBoard)
    requires Describes(g, sources) && Describes(h, sources)
    requires Projects(g, a) && Projects(h, b)
    ensures a == b
  {
    SameSourcesSameEdges(sources, g, h);
    forall x, y ensures Edge(Live(g), x, y) <==> Edge(Live(h), x, y) {
      LiveEdge(g, x, y);
      LiveEdge(h, x, y);
    }
    assert FrontierOf(g) == FrontierOf(h) && FogOf(g) == FogOf(h);
    CyclesCarryOver(g, h, a.cycles, b.cycles);
    CyclesCarryOver(h, g, b.cycles, a.cycles);
    ByHeadUnique(a.cycles, b.cycles);
  }

  /** The same recorded state gives the same board, cycles and their order included. */
  lemma BoardIsDetermined(sources: set<Source>, a: FrontierBoard, b: FrontierBoard)
    requires BoardOf(sources, a) && BoardOf(sources, b)
    ensures a == b
  {
    var g :| Describes(g, sources) && Projects(g, a);
    var h :| Describes(h, sources) && Projects(h, b);
    ProjectionsAgree(sources, g, h, a, b);
  }

  // ---------- further resolutions ----------

  /** The same records with more of them resolved. */
  ghost predicate Progressed(before: BlockingGraph, after: BlockingGraph) {
    before.nodes == after.nodes && SameEdges(before.inEdges, after.inEdges) && before.resolved <= after.resolved
  }

  /** In a reachable workflow the board settles a plan exactly when its last human decision is final. */
  lemma SettledMeansJudged(planId: int, commands: seq<PlanWorkflows.Command>)
    ensures var w := PlanRuns.Run(PlanWorkflows.NewWorkflow(planId), commands);
            PlanIsSettled(w.stage) <==> w.approvals != [] && !w.approvals[|w.approvals| - 1].decision.Iterate?
  {
    PlanRuns.ReachableInvariant(planId, commands);
  }

  /** A plan the board has settled stays settled, whatever commands follow. */
  lemma SettledPlanStaysSettled(w: PlanWorkflows.Workflow, commands: seq<PlanWorkflows.Command>)
    requires PlanIsSettled(w.stage)
    ensures PlanIsSettled(PlanRuns.Run(w, commands).stage)
  {
    if w.stage.Approved? {
      PlanRuns.ApprovedOnlyHandsOff(w, commands);
    } else {
      PlanRuns.FinalStagesStay(w, commands);
    }
  }

  lemma ReasonsShrink(before: BlockingGraph, after: BlockingGraph, n: NodeId)
    requires Progressed(before, after)
    ensures WaitsOn(after, n) <= WaitsOn(before, n)
  {
    forall x | x in WaitsOn(after, n) ensures x in WaitsOn(before, n) {
      assert Edge(after.inEdges, n, x) && Edge(before.inEdges, n, x);
    }
  }

  lemma LiveShrinks(before: BlockingGraph, after: BlockingGraph)
    requires Progressed(before, after)
    ensures forall a, b :: Edge(Live(after), a, b) ==> Edge(Live(before), a, b)
  {
    forall a, b | Edge(Live(after), a, b) ensures Edge(Live(before), a, b) {
      LiveEdge(after, a, b);
      LiveEdge(before, a, b);
      ReasonsShrink(before, after, a);
    }
  }

  ghost predicate WithinSome(c: seq<NodeId>, cycles: seq<seq<NodeId>>) {
    exists j :: 0 <= j < |cycles| && forall n :: n in c ==> n in cycles[j]
  }

  /** Resolving more never sends a frontier node back, never adds a reason, and never makes a cycle. */
  lemma ResolvingIsMonotone(before: BlockingGraph, after: BlockingGraph, was: FrontierBoard, now: FrontierBoard)
    requires Progressed(before, after) && Projects(before, was) && Projects(after, now)
    ensures forall n :: n in was.frontier ==> n in now.frontier || n in now.settled
    ensures forall n :: n in now.fog ==> n in was.fog && now.fog[n].waitsOn <= was.fog[n].waitsOn
    ensures was.settled.Keys <= now.settled.Keys
    ensures forall i :: 0 <= i < |now.cycles| ==> WithinSome(now.cycles[i], was.cycles)
  {
    forall n | n in was.frontier ensures n in now.frontier || n in now.settled {
      ReasonsShrink(before, after, n);
      assert n in FrontierOf(before);
      assert n in FrontierOf(after) || n in after.nodes * after.resolved;
    }
    forall n | n in now.fog ensures n in was.fog && now.fog[n].waitsOn <= was.fog[n].waitsOn {
      ReasonsShrink(before, after, n);
      assert n in FogOf(after);
      assert n in FogOf(before);
    }
    forall i | 0 <= i < |now.cycles| ensures WithinSome(now.cycles[i], was.cycles) {
      CycleWasThere(before, after, was, now, i);
    }
  }

  lemma CycleWasThere(before: BlockingGraph, after: BlockingGraph, was: FrontierBoard, now: FrontierBoard, i: nat)
    requires Progressed(before, after) && Projects(before, was) && Projects(after, now) && i < |now.cycles|
    ensures WithinSome(now.cycles[i], was.cycles)
  {
    LiveShrinks(before, after);
    var c := now.cycles[i];
    assert Before(c[0], c[1]) && c[0] in c && c[1] in c;
    MutualShrinks(before, after, c, c[0], c[1]);
    MutualIsFogged(before, c[0], c[1]);
    assert InSome(was.cycles, c[0]);
    var j :| 0 <= j < |was.cycles| && c[0] in was.cycles[j];
    forall n | n in c ensures n in was.cycles[j] {
      MutualShrinks(before, after, c, c[0], n);
    }
  }

  lemma MutualShrinks(before: BlockingGraph, after: BlockingGraph, c: seq<NodeId>, n: NodeId, m: NodeId)
    requires Progressed(before, after) && IsComponent(Live(after), c) && n in c && m in c
    ensures Mutual(Live(before), n, m)
  {
    LiveShrinks(before, after);
    assert Mutual(Live(after), n, m);
    ReachMonotone(Live(after), Live(before), n, m);
    ReachMonotone(Live(after), Live(before), m, n);
  }

  // ---------- progress ----------

  /** Nothing stands in the way for good: no unresolved node is on a cycle or waits on an unrecorded one. */
  ghost predicate Unobstructed(g: BlockingGraph) {
    forall n {:trigger n in Unresolved(g)} :: n in Unresolved(g) ==> !OnCycle(Live(g), n) && WaitsOn(g, n) <= g.nodes
  }

  ghost function Ahead(g: BlockingGraph, n: NodeId): set<NodeId> {
    set m | m in Unresolved(g) && Reach(Live(g), n, m)
  }

  /** Following blockers from any unresolved node ends at a frontier node. */
  lemma {:induction false} FrontierAhead(g: BlockingGraph, n: NodeId) returns (f: NodeId)
    requires Unobstructed(g) && n in Unresolved(g)
    ensures f in FrontierOf(g) && Reach(Live(g), n, f)
    decreases Ahead(g, n)
  {
    ReachSelf(Live(g), n);
    if WaitsOn(g, n) == {} {
      f := n;
    } else {
      var b :| b in WaitsOn(g, n);
      LiveEdge(g, n, b);
      ReachEdge(Live(g), n, b);
      assert n in Ahead(g, n) && n !in Ahead(g, b);
      forall m | m in Ahead(g, b) ensures m in Ahead(g, n) {
        ReachTrans(Live(g), n, b, m);
      }
      f := FrontierAhead(g, b);
      ReachTrans(Live(g), n, b, f);
    }
  }

  /** With no self-edges, all blockers recorded and no cycle named, something is decidable. */
  lemma NoCyclesMeansProgress(g: BlockingGraph, board: FrontierBoard)
    requires Projects(g, board) && board.cycles == []
    requires forall n :: n in Unresolved(g) ==> !Edge(g.inEdges, n, n) && WaitsOn(g, n) <= g.nodes
    ensures Unobstructed(g)
    ensures Unresolved(g) != {} ==> board.frontier != map[]
  {
    forall n | n in Unresolved(g) ensures !OnCycle(Live(g), n) {
      CycleExactness(g, board, n);
    }
    if n :| n in Unresolved(g) {
      var f := FrontierAhead(g, n);
      assert f in board.frontier;
    }
  }

  function Resolve(g: BlockingGraph, n: NodeId): BlockingGraph {
    g.(resolved := g.resolved + {n})
  }

  /** Resolving the nodes in turn, each on the frontier when its turn comes. */
  ghost predicate ResolvesInTurn(g: BlockingGraph, run: seq<NodeId>)
    decreases |run|
  {
    run == [] || (run[0] in FrontierOf(g) && ResolvesInTurn(Resolve(g, run[0]), run[1..]))
  }

  function ResolveAll(g: BlockingGraph, run: seq<NodeId>): BlockingGraph
    decreases |run|
  {
    if run == [] then g else ResolveAll(Resolve(g, run[0]), run[1..])
  }

  lemma ObstructionsOnlyLeave(g: BlockingGraph, n: NodeId)
    requires Unobstructed(g)
    ensures Unobstructed(Resolve(g, n))
  {
    var after := Resolve(g, n);
    LiveShrinks(g, after);
    forall m | m in Unresolved(after) ensures !OnCycle(Live(after), m) && WaitsOn(after, m) <= after.nodes {
      assert m in Unresolved(g) && WaitsOn(after, m) <= WaitsOn(g, m);
      if OnCycle(Live(after), m) {
        var k :| Edge(Live(after), m, k) && Reach(Live(after), k, m);
        ReachMonotone(Live(after), Live(g), k, m);
      }
    }
  }

  /** Each resolution settles one node; the run can go on exactly until the board is settled. */
  lemma {:induction false} RunsCountDown(g: BlockingGraph, run: seq<NodeId>)
    requires ResolvesInTurn(g, run) && Unobstructed(g)
    ensures var after := ResolveAll(g, run);
            && |Unresolved(after)| == |Unresolved(g)| - |run|
            && (FrontierOf(after) == {} <==> |run| == |Unresolved(g)|)
    decreases |run|
  {
    if run == [] {
      if n :| n in Unresolved(g) {
        var f := FrontierAhead(g, n);
      }
      assert Unresolved(g) == {} ==> FrontierOf(g) == {};
    } else {
      var next := Resolve(g, run[0]);
      ObstructionsOnlyLeave(g, run[0]);
      assert Unresolved(next) == Unresolved(g) - {run[0]};
      RunsCountDown(next, run[1..]);
    }
  }

  ghost predicate SettlesBoard(g: BlockingGraph, run: seq<NodeId>) {
    ResolvesInTurn(g, run) && Unresolved(ResolveAll(g, run)) == {}
  }

  lemma SettlesAfter(g: BlockingGraph, f: NodeId, rest: seq<NodeId>)
    requires f in FrontierOf(g) && SettlesBoard(Resolve(g, f), rest)
    ensures SettlesBoard(g, [f] + rest)
  {
    assert ([f] + rest)[1..] == rest;
  }

  /** An unobstructed board can be settled, one frontier node at a time. */
  lemma {:induction false} UnobstructedSettles(g: BlockingGraph) returns (run: seq<NodeId>)
    requires Unobstructed(g)
    ensures SettlesBoard(g, run)
    decreases Unresolved(g)
  {
    run := [];
    if n :| n in Unresolved(g) {
      var f := FrontierAhead(g, n);
      ObstructionsOnlyLeave(g, f);
      var rest := UnobstructedSettles(Resolve(g, f));
      SettlesAfter(g, f, rest);
      run := [f] + rest;
    }
  }

  /** Where a settling run resolves a node; the blockers it waits on come earlier. */
  ghost function Turn(run: seq<NodeId>, n: NodeId): nat
    ensures Turn(run, n) <= |run|
  {
    if run == [] || run[0] == n then 0 else 1 + Turn(run[1..], n)
  }

  lemma {:induction false} BlockersComeEarlier(g: BlockingGraph, run: seq<NodeId>, n: NodeId, b: NodeId)
    requires SettlesBoard(g, run) && Edge(Live(g), n, b)
    ensures b in g.nodes && Turn(run, b) < Turn(run, n)
    decreases |run|
  {
    LiveEdge(g, n, b);
    assert run != [];
    assert WaitsOn(g, n) != {} && run[0] != n;
    var next := Resolve(g, run[0]);
    if b != run[0] {
      LiveEdge(next, n, b);
      BlockersComeEarlier(next, run[1..], n, b);
    }
  }

  lemma {:induction false} WalkDescends(g: BlockingGraph, run: seq<NodeId>, p: seq<NodeId>, a: NodeId, b: NodeId)
    requires SettlesBoard(g, run) && Walk(Live(g), p, a, b)
    ensures Turn(run, b) + |p| <= Turn(run, a)
    decreases |p|
  {
    if p != [] {
      BlockersComeEarlier(g, run, a, p[0]);
      WalkDescends(g, run, p[1..], p[0], b);
    }
  }

  lemma SettledMeansUnobstructed(g: BlockingGraph, run: seq<NodeId>)
    requires SettlesBoard(g, run)
    ensures Unobstructed(g)
  {
    forall n | n in Unresolved(g) ensures !OnCycle(Live(g), n) && WaitsOn(g, n) <= g.nodes {
      forall m | Edge(Live(g), n, m) ensures !Reach(Live(g), m, n) {
        BlockersComeEarlier(g, run, n, m);
        forall p ensures !Walk(Live(g), p, m, n) {
          if Walk(Live(g), p, m, n) {
            WalkDescends(g, run, p, m, n);
          }
        }
      }
      forall b | b in WaitsOn(g, n) ensures b in g.nodes {
        LiveEdge(g, n, b);
        BlockersComeEarlier(g, run, n, b);
      }
    }
  }

  /**
   * A board can be settled one frontier node at a time exactly when it names no cycle, no unresolved
   * node blocks itself, and every unresolved blocker of an unresolved node is recorded.
   */
  lemma SettleableExactly(g: BlockingGraph, board: FrontierBoard)
    requires Projects(g, board)
    ensures (exists run :: SettlesBoard(g, run)) <==>
            && board.cycles == []
            && forall n :: n in Unresolved(g) ==> !Edge(g.inEdges, n, n) && WaitsOn(g, n) <= g.nodes
  {
    if run :| SettlesBoard(g, run) {
      SettledMeansUnobstructed(g, run);
      forall n | n in Unresolved(g) ensures !InSome(board.cycles, n) && !Edge(g.inEdges, n, n) {
        CycleExactness(g, board, n);
      }
      CyclesAreFoggedAndDisjoint(g, board);
      if board.cycles != [] {
        var head := board.cycles[0][0];
        assert head in board.cycles[0] && InSome(board.cycles, head);
      }
    }
    if board.cycles == [] && forall n :: n in Unresolved(g) ==> !Edge(g.inEdges, n, n) && WaitsOn(g, n) <= g.nodes {
      NoCyclesMeansProgress(g, board);
      var run := UnobstructedSettles(g);
    }
  }
}
