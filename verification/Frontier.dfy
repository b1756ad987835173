/**
 * The frontier: which recorded nodes are decidable, which wait and on what, which are settled,
 * and which blocking cycles hold some of them back.
 */
module Frontier {
  import opened NodeOrder
  import opened Reachability
  import opened StrongComponents
  import opened DecisionBoard
  import opened PlanWorkflows
  import opened ImportedItems
  import opened Wrappers

  datatype NodeKind = DecisionNode | ImplementationNode

  datatype Provenance = MjolnrGoverned | ExternalUnverified

  datatype FrontierNode = FrontierNode(id: NodeId, kind: NodeKind, provenance: Provenance)

  datatype FoggedNode = FoggedNode(node: FrontierNode, waitsOn: set<NodeId>)

  datatype FrontierBoard = FrontierBoard(
    frontier: map<NodeId, FrontierNode>,
    fog: map<NodeId, FoggedNode>,
    settled: map<NodeId, FrontierNode>,
    cycles: seq<seq<NodeId>>
  )

  function NodeOf(id: NodeId): FrontierNode {
    match id
    case Decision(_) => FrontierNode(id, DecisionNode, MjolnrGoverned)
    case Plan(_) => FrontierNode(id, ImplementationNode, MjolnrGoverned)
    case Imported(_) => FrontierNode(id, ImplementationNode, ExternalUnverified)
  }

  /** What was gathered from the records; a blocker need not be a recorded node. */
  datatype BlockingGraph = BlockingGraph(nodes: set<NodeId>, resolved: set<NodeId>, inEdges: Graph)

  function Unresolved(g: BlockingGraph): set<NodeId> {
    g.nodes - g.resolved
  }

  function WaitsOn(g: BlockingGraph, n: NodeId): set<NodeId> {
    Blockers(g.inEdges, n) - g.resolved
  }

  /** The edges between unresolved nodes and their unresolved blockers. */
  function Live(g: BlockingGraph): Graph {
    map n | n in Unresolved(g) && n in g.inEdges :: g.inEdges[n] - g.resolved
  }

  function FrontierOf(g: BlockingGraph): set<NodeId> {
    set n | n in Unresolved(g) && WaitsOn(g, n) == {}
  }

  function FogOf(g: BlockingGraph): set<NodeId> {
    set n | n in Unresolved(g) && WaitsOn(g, n) != {}
  }

  ghost predicate InSome(cycles: seq<seq<NodeId>>, n: NodeId) {
    exists i :: 0 <= i < |cycles| && n in cycles[i]
  }

  /** The multi-member components of the live graph over the unresolved nodes, by smallest member. */
  ghost predicate NamesCycles(g: BlockingGraph, cycles: seq<seq<NodeId>>) {
    && ByHead(cycles)
    && (forall i :: 0 <= i < |cycles| ==> IsComponent(Live(g), cycles[i]) && |cycles[i]| > 1)
    && (forall n, m {:trigger Mutual(Live(g), n, m)} ::
          n in Unresolved(g) && n != m && Mutual(Live(g), n, m) ==> InSome(cycles, n))
  }

  ghost predicate Projects(g: BlockingGraph, board: FrontierBoard) {
    && board.frontier == (map n | n in FrontierOf(g) :: NodeOf(n))
    && board.fog == (map n | n in FogOf(g) :: FoggedNode(NodeOf(n), WaitsOn(g, n)))
    && board.settled == (map n | n in g.nodes * g.resolved :: NodeOf(n))
    && NamesCycles(g, board.cycles)
  }

  // ---------- gathering the records ----------

  /** One record as the board sees it. */
  datatype Source = Source(id: NodeId, settled: bool, blockers: set<NodeId>)

  ghost function TicketSays(ticket: DecisionTicket, resolution: Option<DecisionResolution>): Source {
    Source(Decision(ticket.id), resolution.Some?, set b | b in ticket.blockedBy :: Decision(b))
  }

  ghost function TicketSource(record: DecisionTicketRecord): Source
    reads record
  {
    TicketSays(record.ticket, record.resolution)
  }

  /** A plan is resolved once a human has judged it or it has entered execution. */
  predicate PlanIsSettled(stage: PlanStage) {
    stage.Approved? || stage.Rejected? || stage.Handoff?
  }

  ghost function PlanSays(planId: int, stage: PlanStage): Source {
    Source(Plan(planId), PlanIsSettled(stage), {})
  }

  ghost function PlanSource(plan: PlanWorkflow): Source
    reads plan
  {
    PlanSays(plan.planId, plan.stage)
  }

  ghost function ItemSource(item: ImportedItem): Source {
    Source(Imported(item.id), IsTerminal(item.state), set b | b in item.blockedBy)
  }

  ghost function TicketSources(tickets: map<int, DecisionTicketRecord>): set<Source>
    reads tickets.Values
  {
    set k | k in tickets :: TicketSource(tickets[k])
  }

  ghost function PlanSources(plans: seq<PlanWorkflow>): set<Source>
    reads plans
  {
    set p | p in plans :: PlanSource(p)
  }

  ghost function ItemSources(imported: map<int, ImportedItem>): set<Source> {
    set k | k in imported :: ItemSource(imported[k])
  }

  /** The graph holds what the sources say and nothing else. */
  ghost predicate Describes(g: BlockingGraph, sources: set<Source>) {
    && (forall n :: n in g.nodes <==> exists s :: s in sources && s.id == n)
    && (forall n :: n in g.resolved <==> exists s :: s in sources && s.id == n && s.settled)
    && (forall a, b :: Edge(g.inEdges, a, b) <==> exists s :: s in sources && s.id == a && b in s.blockers)
  }

  method AddBlockers(inEdges: Graph, id: NodeId, blockers: seq<NodeId>) returns (r: Graph)
    ensures forall a, b :: Edge(r, a, b) <==> Edge(inEdges, a, b) || (a == id && b in blockers)
  {
    r := inEdges;
    for i := 0 to |blockers|
      invariant forall a, b :: Edge(r, a, b) <==> Edge(inEdges, a, b) || (a == id && b in blockers[..i])
    {
      r := r[id := Blockers(r, id) + {blockers[i]}];
    }
  }

  method AddRecord(g: BlockingGraph, id: NodeId, settled: bool, blockers: seq<NodeId>, ghost sources: set<Source>)
    returns (r: BlockingGraph)
    requires Describes(g, sources)
    ensures Describes(r, sources + {Source(id, settled, set b | b in blockers)})
  {
    var inEdges := AddBlockers(g.inEdges, id, blockers);
    r := BlockingGraph(g.nodes + {id}, if settled then g.resolved + {id} else g.resolved, inEdges);
    RecordAdds(g, r, sources, Source(id, settled, set b | b in blockers));
  }

  lemma RecordAdds(g: BlockingGraph, r: BlockingGraph, sources: set<Source>, added: Source)
    requires Describes(g, sources)
    requires r.nodes == g.nodes + {added.id}
    requires r.resolved == if added.settled then g.resolved + {added.id} else g.resolved
    requires forall a, b :: Edge(r.inEdges, a, b) <==> Edge(g.inEdges, a, b) || (a == added.id && b in added.blockers)
    ensures Describes(r, sources + {added})
  {
    var more := sources + {added};
    assert added in more;
    assert forall s :: s in more <==> s in sources || s == added;
  }

  method GatherTickets(tickets: map<int, DecisionTicketRecord>) returns (g: BlockingGraph)
    ensures Describes(g, TicketSources(tickets))
  {
    g := BlockingGraph({}, {}, map[]);
    var todo := tickets.Keys;
    ghost var done: set<int> := {};
    while todo != {}
      invariant done == tickets.Keys - todo && todo <= tickets.Keys
      invariant Describes(g, set k | k in done :: TicketSource(tickets[k]))
      decreases todo
    {
      var k := LeastKey(todo);
      var record := tickets[k];
      var blockers := seq(|record.ticket.blockedBy|, i requires 0 <= i < |record.ticket.blockedBy| =>
                                                       Decision(record.ticket.blockedBy[i]));
      ghost var sources := set k | k in done :: TicketSource(tickets[k]);
      g := AddRecord(g, Decision(record.ticket.id), record.resolution.Some?, blockers, sources);
      TicketBlockers(record, blockers);
      todo, done := todo - {k}, done + {k};
      assert (set k | k in done :: TicketSource(tickets[k])) == sources + {TicketSource(record)};
    }
    assert done == tickets.Keys;
  }

  lemma TicketBlockers(record: DecisionTicketRecord, blockers: seq<NodeId>)
    requires |blockers| == |record.ticket.blockedBy|
    requires forall i :: 0 <= i < |blockers| ==> blockers[i] == Decision(record.ticket.blockedBy[i])
    ensures (set b | b in blockers) == (set b | b in record.ticket.blockedBy :: Decision(b))
  {
    forall b | b in record.ticket.blockedBy ensures Decision(b) in blockers {
      var i :| 0 <= i < |record.ticket.blockedBy| && record.ticket.blockedBy[i] == b;
      assert blockers[i] == Decision(b);
    }
  }

  method GatherPlans(before: BlockingGraph, plans: seq<PlanWorkflow>, ghost sources: set<Source>)
    returns (g: BlockingGraph)
    requires Describes(before, sources)
    ensures Describes(g, sources + PlanSources(plans))
  {
    g := before;
    assert sources + PlanSources(plans[..0]) == sources;
    for i := 0 to |plans|
      invariant Describes(g, sources + PlanSources(plans[..i]))
    {
      var plan := plans[i];
      g := AddRecord(g, Plan(plan.planId), PlanIsSettled(plan.stage), [], sources + PlanSources(plans[..i]));
      assert PlanSource(plan) == Source(Plan(plan.planId), PlanIsSettled(plan.stage), set b | b in []);
      PlanSourcesSnoc(plans[..i], plan);
      assert plans[..i + 1] == plans[..i] + [plan];
      assert sources + PlanSources(plans[..i]) + {PlanSource(plan)}
             == sources + (PlanSources(plans[..i]) + {PlanSource(plan)});
    }
    assert plans[..|plans|] == plans;
  }

  lemma PlanSourcesSnoc(plans: seq<PlanWorkflow>, plan: PlanWorkflow)
    ensures PlanSources(plans + [plan]) == PlanSources(plans) + {PlanSource(plan)}
  {
    var all := plans + [plan];
    assert plan in all && forall p :: p in plans ==> p in all;
    forall s ensures s in PlanSources(all) <==> s in PlanSources(plans) + {PlanSource(plan)} {
      if p :| p in all && s == PlanSource(p) {
        assert p in plans || p == plan;
      }
    }
  }

  method GatherItems(before: BlockingGraph, imported: map<int, ImportedItem>, ghost sources: set<Source>)
    returns (g: BlockingGraph)
    requires Describes(before, sources)
    ensures Describes(g, sources + ItemSources(imported))
  {
    g := before;
    var todo := imported.Keys;
    ghost var done: set<int> := {};
    while todo != {}
      invariant done == imported.Keys - todo && todo <= imported.Keys
      invariant Describes(g, sources + (set k | k in done :: ItemSource(imported[k])))
      decreases todo
    {
      var k := LeastKey(todo);
      var item := imported[k];
      ghost var gathered := sources + (set k | k in done :: ItemSource(imported[k]));
      g := AddRecord(g, Imported(item.id), IsTerminal(item.state), item.blockedBy, gathered);
      todo, done := todo - {k}, done + {k};
      assert sources + (set k | k in done :: ItemSource(imported[k])) == gathered + {ItemSource(item)};
    }
    assert done == imported.Keys;
  }

  // ---------- naming the cycles ----------

  /** The order of member lists: the first difference decides, a proper prefix comes first. */
  predicate ListBefore(a: seq<NodeId>, b: seq<NodeId>) {
    if a == [] then b != []
    else if b == [] then false
    else if a[0] == b[0] then ListBefore(a[1..], b[1..])
    else Before(a[0], b[0])
  }

  function InsertCycle(cycles: seq<seq<NodeId>>, c: seq<NodeId>): seq<seq<NodeId>> {
    if cycles != [] && ListBefore(cycles[0], c) then [cycles[0]] + InsertCycle(cycles[1..], c)
    else [c] + cycles
  }

  /** Sorting into place among lists with other heads keeps the order by head. */
  lemma {:induction false} InsertCycleSorted(cycles: seq<seq<NodeId>>, c: seq<NodeId>)
    requires ByHead(cycles) && c != []
    requires forall i :: 0 <= i < |cycles| ==> cycles[i][0] != c[0]
    ensures ByHead(InsertCycle(cycles, c))
    ensures forall d :: d in InsertCycle(cycles, c) <==> d in cycles || d == c
  {
    var r := InsertCycle(cycles, c);
    if cycles != [] && ListBefore(cycles[0], c) {
      InsertCycleSorted(cycles[1..], c);
      var tail := InsertCycle(cycles[1..], c);
      forall i | 0 <= i < |tail| ensures Before(cycles[0][0], tail[i][0]) {
        assert tail[i] in tail;
      }
      assert cycles == [cycles[0]] + cycles[1..];
    }
  }

  method SurfaceCycles(unresolved: set<NodeId>, resolved: set<NodeId>, inEdges: Graph, ghost g: BlockingGraph)
    returns (cycles: seq<seq<NodeId>>)
    requires g.resolved == resolved && g.inEdges == inEdges && Unresolved(g) == unresolved
    ensures NamesCycles(g, cycles)
  {
    hide Partition, BlockersFirst, InSeedOrder, InsertCycle, NamesCycles;
    var edges := map n | n in unresolved && n in inEdges :: inEdges[n] - resolved;
    assert edges == Live(g);
    ghost var all := unresolved + set a, b | a in edges && b in edges[a] :: b;
    var searcher := new SccSearcher();
    var components := searcher.Components(unresolved, edges, all);
    cycles := [];
    for i := 0 to |components|
      invariant ByHead(cycles)
      invariant forall c :: c in cycles <==> c in components[..i] && |c| > 1
    {
      if |components[i]| > 1 {
        forall k | 0 <= k < |cycles| ensures cycles[k][0] != components[i][0] {
          HeadsDiffer(edges, unresolved, components, i, cycles[k]);
        }
        InsertCycleSorted(cycles, components[i]);
        cycles := InsertCycle(cycles, components[i]);
      }
    }
    assert components[..|components|] == components;
    LongComponentsAreCycles(g, components, cycles);
  }

  lemma HeadsDiffer(g: Graph, seeds: set<NodeId>, components: seq<seq<NodeId>>, i: nat, c: seq<NodeId>)
    requires Partition(g, seeds, components) && i < |components| && c in components[..i] && c != []
    ensures components[i] != [] && c[0] != components[i][0]
  {
    var j :| 0 <= j < i && components[j] == c;
    assert IsComponent(g, components[i]);
    assert c[0] in components[j] && components[i][0] in components[i];
  }

  lemma LongComponentsAreCycles(g: BlockingGraph, components: seq<seq<NodeId>>, cycles: seq<seq<NodeId>>)
    requires Partition(Live(g), Unresolved(g), components)
    requires ByHead(cycles) && forall c :: c in cycles <==> c in components && |c| > 1
    ensures NamesCycles(g, cycles)
  {
    forall i | 0 <= i < |cycles| ensures IsComponent(Live(g), cycles[i]) && |cycles[i]| > 1 {
      assert cycles[i] in cycles;
      var k :| 0 <= k < |components| && components[k] == cycles[i];
    }
    forall n, m | n in Unresolved(g) && n != m && Mutual(Live(g), n, m) ensures InSome(cycles, n) {
      ReachSelf(Live(g), n);
      assert ReachedFrom(Live(g), Unresolved(g), n);
      var k :| 0 <= k < |components| && n in components[k];
      TwoMembers(Live(g), components[k], n, m);
      assert components[k] in cycles;
    }
  }

  lemma TwoMembers(g: Graph, c: seq<NodeId>, n: NodeId, m: NodeId)
    requires IsComponent(g, c) && n in c && n != m && Mutual(g, n, m)
    ensures m in c && |c| > 1
  {
    var i :| 0 <= i < |c| && c[i] == n;
    var j :| 0 <= j < |c| && c[j] == m;
  }

  // ---------- the projection ----------

  /** The nodes of `ids` already classified. */
  function Part(ids: set<NodeId>, todo: set<NodeId>): map<NodeId, FrontierNode> {
    map n | n in ids && n !in todo :: NodeOf(n)
  }

  function FogPart(g: BlockingGraph, todo: set<NodeId>): map<NodeId, FoggedNode> {
    map n | n in FogOf(g) && n !in todo :: FoggedNode(NodeOf(n), WaitsOn(g, n))
  }

  lemma PartStep(ids: set<NodeId>, todo: set<NodeId>, id: NodeId)
    requires id in todo
    ensures Part(ids, todo - {id}) == if id in ids then Part(ids, todo)[id := NodeOf(id)] else Part(ids, todo)
  {
  }

  lemma FogPartStep(g: BlockingGraph, todo: set<NodeId>, id: NodeId)
    requires id in todo
    ensures FogPart(g, todo - {id})
            == if id in FogOf(g) then FogPart(g, todo)[id := FoggedNode(NodeOf(id), WaitsOn(g, id))]
               else FogPart(g, todo)
  {
  }

  lemma NothingClassified(g: BlockingGraph)
    ensures Part(FrontierOf(g), g.nodes) == map[] && Part(g.nodes * g.resolved, g.nodes) == map[]
    ensures FogPart(g, g.nodes) == map[]
  {
  }

  lemma AllClassified(g: BlockingGraph, board: FrontierBoard)
    requires NamesCycles(g, board.cycles)
    requires board.frontier == Part(FrontierOf(g), {}) && board.fog == FogPart(g, {})
    requires board.settled == Part(g.nodes * g.resolved, {})
    ensures Projects(g, board)
  {
  }

  method Classify(g: BlockingGraph, cycles: seq<seq<NodeId>>) returns (board: FrontierBoard)
    requires NamesCycles(g, cycles)
    ensures Projects(g, board)
  {
    var frontier: map<NodeId, FrontierNode> := map[];
    var fog: map<NodeId, FoggedNode> := map[];
    var settled: map<NodeId, FrontierNode> := map[];
    var todo := g.nodes;
    NothingClassified(g);
    while todo != {}
      invariant todo <= g.nodes
      invariant frontier == Part(FrontierOf(g), todo)
      invariant fog == FogPart(g, todo)
      invariant settled == Part(g.nodes * g.resolved, todo)
      decreases todo
    {
      var id := Least(todo);
      PartStep(FrontierOf(g), todo, id);
      PartStep(g.nodes * g.resolved, todo, id);
      FogPartStep(g, todo, id);
      if id in g.resolved {
        settled := settled[id := NodeOf(id)];
      } else {
        var waitsOn := Blockers(g.inEdges, id) - g.resolved;
        if waitsOn == {} {
          frontier := frontier[id := NodeOf(id)];
        } else {
          fog := fog[id := FoggedNode(NodeOf(id), waitsOn)];
        }
      }
      todo := todo - {id};
    }
    board := FrontierBoard(frontier, fog, settled, cycles);
    AllClassified(g, board);
  }

  method Project(g: BlockingGraph) returns (board: FrontierBoard)
    ensures Projects(g, board)
  {
    var unresolved := g.nodes - g.resolved;
    var cycles := SurfaceCycles(unresolved, g.resolved, g.inEdges, g);
    board := Classify(g, cycles);
  }

  /** A board projected from a graph that holds exactly what the sources say. */
  ghost predicate BoardOf(sources: set<Source>, board: FrontierBoard) {
    exists g :: Describes(g, sources) && Projects(g, board)
  }

  /** The board over the blocking graph of decision tickets, plans and imported items. */
  method ComputeFrontier(tickets: map<int, DecisionTicketRecord>, plans: seq<PlanWorkflow>,
                         imported: map<int, ImportedItem>)
    returns (board: FrontierBoard)
    ensures BoardOf(TicketSources(tickets) + PlanSources(plans) + ItemSources(imported), board)
  {
    var withTickets := GatherTickets(tickets);
    var withPlans := GatherPlans(withTickets, plans, TicketSources(tickets));
    var gathered := GatherItems(withPlans, imported, TicketSources(tickets) + PlanSources(plans));
    board := Project(gathered);
  }
}
