/**
 * Boards along a run: records of all three kinds change, each by its own rules, and the board is derived
 * anew. What is settled stays settled but for one thing: a refresh that takes an imported item out of a
 * terminal state.
 */
module BoardRuns {
  import opened NodeOrder
  import opened Reachability
  import opened DecisionBoard
  import opened PlanWorkflows
  import opened ImportedItems
  import opened Wrappers
  import opened Frontier
  import FrontierTheorems
  import PlanHistories
  import PlanRuns

  datatype Ticket = Ticket(ticket: DecisionTicket, resolution: Option<DecisionResolution>)

  /** A snapshot of the records a board is derived from. */
  datatype Records = Records(tickets: map<int, Ticket>, plans: seq<Workflow>, items: map<int, ImportedItem>)

  /** Tickets and items are filed under their ids. */
  ghost predicate WellKeyed(r: Records) {
    && (forall k :: k in r.tickets ==> r.tickets[k].ticket.id == k)
    && (forall k :: k in r.items ==> r.items[k].id == k)
  }

  ghost function SourcesOf(r: Records): set<Source> {
    (set k | k in r.tickets :: TicketSays(r.tickets[k].ticket, r.tickets[k].resolution))
    + (set w | w in r.plans :: PlanSays(w.planId, w.stage))
    + ItemSources(r.items)
  }

  ghost function Snapshot(tickets: map<int, DecisionTicketRecord>, plans: seq<PlanWorkflow>,
                          imported: map<int, ImportedItem>): Records
    reads tickets.Values, plans
  {
    Records(map k | k in tickets :: Ticket(tickets[k].ticket, tickets[k].resolution),
            seq(|plans|, i requires 0 <= i < |plans| reads plans => plans[i].View()),
            imported)
  }

  /** The sources of the snapshot are those the board is computed from. */
  lemma SnapshotSources(tickets: map<int, DecisionTicketRecord>, plans: seq<PlanWorkflow>,
                        imported: map<int, ImportedItem>)
    ensures SourcesOf(Snapshot(tickets, plans, imported))
            == TicketSources(tickets) + PlanSources(plans) + ItemSources(imported)
  {
    var r := Snapshot(tickets, plans, imported);
    assert forall k :: k in tickets ==> r.tickets[k] == Ticket(tickets[k].ticket, tickets[k].resolution);
    forall k | k in tickets
      ensures TicketSays(r.tickets[k].ticket, r.tickets[k].resolution) == TicketSource(tickets[k])
    {
    }
    assert (set k | k in r.tickets :: TicketSays(r.tickets[k].ticket, r.tickets[k].resolution))
           == TicketSources(tickets);
    forall s ensures s in (set w | w in r.plans :: PlanSays(w.planId, w.stage)) <==> s in PlanSources(plans) {
      if w :| w in r.plans && s == PlanSays(w.planId, w.stage) {
        var i :| 0 <= i < |plans| && r.plans[i] == w;
        assert s == PlanSource(plans[i]);
      }
      if p :| p in plans && s == PlanSource(p) {
        var i :| 0 <= i < |plans| && plans[i] == p;
        assert r.plans[i] in r.plans;
      }
    }
  }

  // ---------- what the records say of a node ----------

  ghost predicate IsNode(r: Records, n: NodeId) {
    match n
    case Decision(key) => key in r.tickets
    case Plan(key) => exists i :: 0 <= i < |r.plans| && r.plans[i].planId == key
    case Imported(key) => key in r.items
  }

  ghost predicate IsSettled(r: Records, n: NodeId) {
    match n
    case Decision(key) => key in r.tickets && r.tickets[key].resolution.Some?
    case Plan(key) => exists i :: 0 <= i < |r.plans| && r.plans[i].planId == key && PlanIsSettled(r.plans[i].stage)
    case Imported(key) => key in r.items && IsTerminal(r.items[key].state)
  }

  ghost predicate IsBlockedBy(r: Records, a: NodeId, b: NodeId) {
    match a
    case Decision(key) => key in r.tickets && b.Decision? && b.key in r.tickets[key].ticket.blockedBy
    case Plan(_) => false
    case Imported(key) => key in r.items && b in r.items[key].blockedBy
  }

  lemma SourceSays(r: Records, s: Source)
    requires WellKeyed(r) && s in SourcesOf(r)
    ensures IsNode(r, s.id) && (s.settled ==> IsSettled(r, s.id))
    ensures forall b :: b in s.blockers ==> IsBlockedBy(r, s.id, b)
  {
  }

  lemma NodeHasSource(r: Records, n: NodeId)
    requires WellKeyed(r) && IsNode(r, n)
    ensures exists s :: s in SourcesOf(r) && s.id == n
  {
    match n
    case Decision(key) => assert TicketSays(r.tickets[key].ticket, r.tickets[key].resolution) in SourcesOf(r);
    case Plan(key) =>
      var i :| 0 <= i < |r.plans| && r.plans[i].planId == key;
      assert r.plans[i] in r.plans;
      assert PlanSays(r.plans[i].planId, r.plans[i].stage) in SourcesOf(r);
    case Imported(key) => assert ItemSource(r.items[key]) in SourcesOf(r);
  }

  lemma SettledHasSource(r: Records, n: NodeId)
    requires WellKeyed(r) && IsSettled(r, n)
    ensures exists s :: s in SourcesOf(r) && s.id == n && s.settled
  {
    match n
    case Decision(key) => assert TicketSays(r.tickets[key].ticket, r.tickets[key].resolution) in SourcesOf(r);
    case Plan(key) =>
      var i :| 0 <= i < |r.plans| && r.plans[i].planId == key && PlanIsSettled(r.plans[i].stage);
      assert r.plans[i] in r.plans;
      assert PlanSays(r.plans[i].planId, r.plans[i].stage) in SourcesOf(r);
    case Imported(key) => assert ItemSource(r.items[key]) in SourcesOf(r);
  }

  lemma BlockerHasSource(r: Records, a: NodeId, b: NodeId)
    requires WellKeyed(r) && IsBlockedBy(r, a, b)
    ensures exists s :: s in SourcesOf(r) && s.id == a && b in s.blockers
  {
    match a
    case Decision(key) => assert TicketSays(r.tickets[key].ticket, r.tickets[key].resolution) in SourcesOf(r);
    case Imported(key) => assert ItemSource(r.items[key]) in SourcesOf(r);
  }

  /** The graph of the records holds exactly what they say of each node. */
  lemma GraphOfRecords(r: Records, g: BlockingGraph)
    requires WellKeyed(r) && Describes(g, SourcesOf(r))
    ensures forall n :: n in g.nodes <==> IsNode(r, n)
    ensures forall n :: n in g.resolved <==> IsSettled(r, n)
    ensures forall a, b :: Edge(g.inEdges, a, b) <==> IsBlockedBy(r, a, b)
  {
    hide SourcesOf, IsNode, IsSettled, IsBlockedBy, WellKeyed, Edge;
    forall s | s in SourcesOf(r)
      ensures IsNode(r, s.id) && (s.settled ==> IsSettled(r, s.id))
      ensures forall b :: b in s.blockers ==> IsBlockedBy(r, s.id, b)
    {
      SourceSays(r, s);
    }
    forall n | IsNode(r, n) ensures n in g.nodes { NodeHasSource(r, n); }
    forall n | IsSettled(r, n) ensures n in g.resolved { SettledHasSource(r, n); }
    forall a, b | IsBlockedBy(r, a, b) ensures Edge(g.inEdges, a, b) { BlockerHasSource(r, a, b); }
  }

  // ---------- runs ----------

  /** One attempt to change a record; each record's own rules decide whether it is accepted. */
  datatype Event =
    | Resolution(ticket: int, resolution: DecisionResolution)
    | PlanCommand(plan: nat, command: Command)
    | ItemRefresh(item: int, refresh: Refresh)

  predicate RefreshAccepted(r: Records, e: Event) {
    && e.ItemRefresh? && e.item in r.items
    && RefreshRefused(r.items[e.item], e.refresh.expected, e.refresh.newItem).None?
  }

  function AfterEvent(r: Records, e: Event): Records {
    match e
    case Resolution(key, resolution) =>
      if key in r.tickets && Refusal(r.tickets[key].ticket, r.tickets[key].resolution, resolution).None?
      then r.(tickets := r.tickets[key := r.tickets[key].(resolution := Some(resolution))]) else r
    case PlanCommand(i, command) =>
      if i < |r.plans| then r.(plans := r.plans[i := PlanRuns.After(r.plans[i], command)]) else r
    case ItemRefresh(key, refresh) =>
      if RefreshAccepted(r, e) then r.(items := r.items[key := refresh.newItem]) else r
  }

  function AfterEvents(r: Records, events: seq<Event>): Records
    decreases |events|
  {
    if events == [] then r else AfterEvents(AfterEvent(r, events[0]), events[1..])
  }

  lemma StaysWellKeyed(r: Records, e: Event)
    requires WellKeyed(r)
    ensures WellKeyed(AfterEvent(r, e))
  {
  }

  /** A refresh that takes the item out of a terminal state. */
  predicate Reopens(r: Records, e: Event, n: NodeId) {
    && RefreshAccepted(r, e) && n == Imported(e.item)
    && IsTerminal(r.items[e.item].state) && !IsTerminal(e.refresh.newItem.state)
  }

  lemma PlanCommandKeeps(w: Workflow, command: Command)
    ensures PlanRuns.After(w, command).planId == w.planId
    ensures PlanIsSettled(w.stage) ==> PlanIsSettled(PlanRuns.After(w, command).stage)
  {
    if PlanIsSettled(w.stage) {
      FrontierTheorems.SettledPlanStaysSettled(w, [command]);
      OneCommand(w, command);
    }
  }

  lemma OneCommand(w: Workflow, command: Command)
    ensures PlanRuns.Run(w, [command]) == PlanRuns.After(w, command)
  {
    hide PlanRuns.After;
    assert [command][1..] == [];
  }

  lemma PlanStaysSettled(r: Records, i: nat, command: Command, key: int)
    requires i < |r.plans| && IsSettled(r, Plan(key))
    ensures IsSettled(AfterEvent(r, PlanCommand(i, command)), Plan(key))
  {
    hide PlanRuns.After, PlanIsSettled;
    var j :| 0 <= j < |r.plans| && r.plans[j].planId == key && PlanIsSettled(r.plans[j].stage);
    PlanCommandKeeps(r.plans[i], command);
    var after := AfterEvent(r, PlanCommand(i, command));
    assert after.plans[j].planId == key && PlanIsSettled(after.plans[j].stage);
  }

  /** One event leaves a settled node settled exactly when it does not reopen it. */
  lemma EventSettles(r: Records, e: Event, n: NodeId)
    requires IsSettled(r, n)
    ensures IsSettled(AfterEvent(r, e), n) <==> !Reopens(r, e, n)
  {
    if e.PlanCommand? && e.plan < |r.plans| && n.Plan? {
      PlanStaysSettled(r, e.plan, e.command, n.key);
    }
  }

  /** The plans are as runs of commands leave them. */
  ghost predicate PlansInOrder(r: Records) {
    forall i :: 0 <= i < |r.plans| ==> PlanRuns.Invariant(r.plans[i])
  }

  /** An accepted resolution, an approval or rejection of an open proposal, or an accepted refresh to an outcome. */
  ghost predicate Settles(r: Records, e: Event, n: NodeId) {
    match e
    case Resolution(key, resolution) =>
      && n == Decision(key) && key in r.tickets
      && Quotes(r.tickets[key].ticket, resolution) && Follows(r.tickets[key].resolution, resolution)
    case PlanCommand(i, command) =>
      && i < |r.plans| && n == Plan(r.plans[i].planId) && command.ApprovePlan?
      && PlanHistories.OfOpenProposal(r.plans[i], command.approval.planId, command.approval.revision)
      && command.approval.decision in {Approve, Reject}
    case ItemRefresh(key, refresh) =>
      var newItem := refresh.newItem;
      && n == Imported(key) && key in r.items
      && newItem.id == r.items[key].id && newItem.integration == r.items[key].integration
      && newItem.remoteId == r.items[key].remoteId
      && refresh.expected == r.items[key].fetchedRevision && newItem.fetchedRevision != refresh.expected
      && newItem.state in {Closed, Merged, Done}
  }

  lemma CommandSettlesExactly(w: Workflow, command: Command)
    requires PlanRuns.Invariant(w) && !PlanIsSettled(w.stage)
    ensures PlanIsSettled(PlanRuns.After(w, command).stage) <==>
            && command.ApprovePlan? && command.approval.decision in {Approve, Reject}
            && PlanHistories.OfOpenProposal(w, command.approval.planId, command.approval.revision)
  {
    hide PlanRuns.Invariant, PlanHistories.OfOpenProposal;
    if command.ApprovePlan? {
      PlanHistories.DecisionAcceptedExactly(w, command.approval);
    }
  }

  /** A node that is not settled becomes settled at an event in exactly these ways. */
  lemma SettlesExactly(r: Records, e: Event, n: NodeId)
    requires PlansInOrder(r) && !IsSettled(r, n)
    ensures IsSettled(AfterEvent(r, e), n) <==> Settles(r, e, n)
  {
    hide PlanRuns.After, PlanRuns.Invariant, PlanHistories.OfOpenProposal, PlanIsSettled;
    if e.PlanCommand? && e.plan < |r.plans| {
      PlanSettlesExactly(r, e.plan, e.command, n);
    }
  }

  lemma PlanSettlesExactly(r: Records, i: nat, command: Command, n: NodeId)
    requires PlansInOrder(r) && !IsSettled(r, n) && i < |r.plans|
    ensures IsSettled(AfterEvent(r, PlanCommand(i, command)), n) <==> Settles(r, PlanCommand(i, command), n)
  {
    hide PlanRuns.After, PlanRuns.Invariant, PlanHistories.OfOpenProposal, PlanIsSettled;
    PlanCommandKeeps(r.plans[i], command);
    if n == Plan(r.plans[i].planId) {
      var after := AfterEvent(r, PlanCommand(i, command));
      CommandSettlesExactly(r.plans[i], command);
      assert after.plans[i].planId == n.key;
    }
  }

  lemma AfterSnoc(r: Records, events: seq<Event>, i: nat)
    requires i < |events|
    ensures AfterEvents(r, events[..i + 1]) == AfterEvent(AfterEvents(r, events[..i]), events[i])
    decreases i
  {
    hide AfterEvent;
    if i == 0 {
      assert events[..1] == [events[0]] && events[..0] == [];
      assert [events[0]][1..] == [];
    } else {
      AfterSnoc(AfterEvent(r, events[0]), events[1..], i - 1);
      assert events[..i + 1][1..] == events[1..][..i] && events[..i][1..] == events[1..][..i - 1];
    }
  }

  /** The node is settled after each of the first `n` events. */
  ghost predicate SettledThroughout(r: Records, events: seq<Event>, n: NodeId) {
    forall i :: 0 <= i <= |events| ==> IsSettled(AfterEvents(r, events[..i]), n)
  }

  ghost predicate NeverReopened(r: Records, events: seq<Event>, n: NodeId) {
    forall i :: 0 <= i < |events| ==> !Reopens(AfterEvents(r, events[..i]), events[i], n)
  }

  lemma {:induction false} SettledUpTo(r: Records, events: seq<Event>, n: NodeId, i: nat)
    requires IsSettled(r, n) && NeverReopened(r, events, n) && i <= |events|
    ensures IsSettled(AfterEvents(r, events[..i]), n)
  {
    hide IsSettled, Reopens, AfterEvent;
    if i == 0 {
      assert events[..0] == [];
    } else {
      SettledUpTo(r, events, n, i - 1);
      AfterSnoc(r, events, i - 1);
      EventSettles(AfterEvents(r, events[..i - 1]), events[i - 1], n);
    }
  }

  /** Along a run a settled node stays settled exactly when no accepted refresh reopens it on the way. */
  lemma StaysSettledExactly(r: Records, events: seq<Event>, n: NodeId)
    requires IsSettled(r, n)
    ensures SettledThroughout(r, events, n) <==> NeverReopened(r, events, n)
  {
    hide IsSettled, Reopens, AfterEvent, AfterEvents;
    if NeverReopened(r, events, n) {
      forall i | 0 <= i <= |events| ensures IsSettled(AfterEvents(r, events[..i]), n) {
        SettledUpTo(r, events, n, i);
      }
    }
    if SettledThroughout(r, events, n) {
      forall i | 0 <= i < |events| ensures !Reopens(AfterEvents(r, events[..i]), events[i], n) {
        AfterSnoc(r, events, i);
        assert IsSettled(AfterEvents(r, events[..i]), n) && IsSettled(AfterEvents(r, events[..i + 1]), n);
        EventSettles(AfterEvents(r, events[..i]), events[i], n);
      }
    }
  }

  /** Tickets and plans are never reopened. */
  lemma GovernedStaysSettled(r: Records, events: seq<Event>, n: NodeId)
    requires IsSettled(r, n) && !n.Imported?
    ensures IsSettled(AfterEvents(r, events), n)
  {
    StaysSettledExactly(r, events, n);
    assert events[..|events|] == events;
  }

  // ---------- boards along a run ----------

  /** The event neither reopens an item nor changes what one waits on. */
  ghost predicate Quiet(r: Records, e: Event) {
    RefreshAccepted(r, e) ==>
      && !Reopens(r, e, Imported(e.item))
      && forall b :: b in e.refresh.newItem.blockedBy <==> b in r.items[e.item].blockedBy
  }

  lemma EventKeepsNodes(r: Records, e: Event, n: NodeId)
    ensures IsNode(AfterEvent(r, e), n) <==> IsNode(r, n)
  {
    hide PlanRuns.After;
    if e.PlanCommand? && e.plan < |r.plans| {
      var after := AfterEvent(r, e);
      PlanCommandKeeps(r.plans[e.plan], e.command);
      assert forall i :: 0 <= i < |r.plans| ==> after.plans[i].planId == r.plans[i].planId;
    }
  }

  /** Only a refresh changes what waits on what, and only for its own item. */
  lemma EventKeepsEdges(r: Records, e: Event, a: NodeId, b: NodeId)
    ensures IsBlockedBy(AfterEvent(r, e), a, b) <==>
            if RefreshAccepted(r, e) && a == Imported(e.item) then b in e.refresh.newItem.blockedBy
            else IsBlockedBy(r, a, b)
  {
    hide PlanRuns.After;
  }

  lemma EdgesExactly(r: Records, e: Event)
    ensures (forall a, b :: IsBlockedBy(AfterEvent(r, e), a, b) <==> IsBlockedBy(r, a, b)) <==>
            (RefreshAccepted(r, e) ==>
               forall b :: b in e.refresh.newItem.blockedBy <==> b in r.items[e.item].blockedBy)
  {
    hide AfterEvent, RefreshRefused;
    forall a, b
      ensures IsBlockedBy(AfterEvent(r, e), a, b) <==>
              if RefreshAccepted(r, e) && a == Imported(e.item) then b in e.refresh.newItem.blockedBy
              else IsBlockedBy(r, a, b)
    {
      EventKeepsEdges(r, e, a, b);
    }
    if RefreshAccepted(r, e) {
      AcceptedIsHeld(r, e);
      assert forall b :: IsBlockedBy(r, Imported(e.item), b) <==> b in r.items[e.item].blockedBy;
      assert forall b :: IsBlockedBy(AfterEvent(r, e), Imported(e.item), b) <==> b in e.refresh.newItem.blockedBy;
    }
  }

  lemma AcceptedIsHeld(r: Records, e: Event)
    requires RefreshAccepted(r, e)
    ensures e.ItemRefresh? && e.item in r.items
  {
  }

  lemma SettledExactly(r: Records, e: Event)
    ensures (forall n :: IsSettled(r, n) ==> IsSettled(AfterEvent(r, e), n)) <==>
            (RefreshAccepted(r, e) ==> !Reopens(r, e, Imported(e.item)))
  {
    hide AfterEvent, RefreshAccepted;
    forall n | IsSettled(r, n) ensures IsSettled(AfterEvent(r, e), n) <==> !Reopens(r, e, n) {
      EventSettles(r, e, n);
    }
    if RefreshAccepted(r, e) {
      AcceptedIsHeld(r, e);
      assert Reopens(r, e, Imported(e.item)) ==> IsSettled(r, Imported(e.item));
    }
  }

  /** The same nodes and blockers, and whatever was settled still is. */
  ghost predicate Forward(r: Records, next: Records) {
    && (forall n :: IsNode(next, n) <==> IsNode(r, n))
    && (forall a, b :: IsBlockedBy(next, a, b) <==> IsBlockedBy(r, a, b))
    && (forall n :: IsSettled(r, n) ==> IsSettled(next, n))
  }

  lemma EventForward(r: Records, e: Event)
    ensures Forward(r, AfterEvent(r, e)) <==> Quiet(r, e)
  {
    hide AfterEvent, IsNode, IsSettled, IsBlockedBy, Reopens, RefreshRefused;
    EdgesExactly(r, e);
    SettledExactly(r, e);
    forall n ensures IsNode(AfterEvent(r, e), n) <==> IsNode(r, n) { EventKeepsNodes(r, e, n); }
  }

  lemma ForwardGraphs(r: Records, next: Records, before: BlockingGraph, after: BlockingGraph)
    requires WellKeyed(r) && WellKeyed(next)
    requires Describes(before, SourcesOf(r)) && Describes(after, SourcesOf(next))
    ensures FrontierTheorems.Progressed(before, after) <==> Forward(r, next)
  {
    hide IsNode, IsSettled, IsBlockedBy, Edge, WellKeyed, SourcesOf, Describes;
    GraphOfRecords(r, before);
    GraphOfRecords(next, after);
  }

  /** The board only moves forward over an event exactly when the event is quiet. */
  lemma ProgressExactly(r: Records, e: Event, before: BlockingGraph, after: BlockingGraph)
    requires WellKeyed(r)
    requires Describes(before, SourcesOf(r)) && Describes(after, SourcesOf(AfterEvent(r, e)))
    ensures FrontierTheorems.Progressed(before, after) <==> Quiet(r, e)
  {
    hide *;
    StaysWellKeyed(r, e);
    ForwardGraphs(r, AfterEvent(r, e), before, after);
    EventForward(r, e);
  }

  ghost predicate QuietRun(r: Records, events: seq<Event>)
    decreases |events|
  {
    events == [] || (Quiet(r, events[0]) && QuietRun(AfterEvent(r, events[0]), events[1..]))
  }

  lemma {:induction false} QuietRunForward(r: Records, events: seq<Event>)
    requires WellKeyed(r) && QuietRun(r, events)
    ensures WellKeyed(AfterEvents(r, events)) && Forward(r, AfterEvents(r, events))
    decreases |events|
  {
    hide AfterEvent, IsNode, IsSettled, IsBlockedBy, Quiet, WellKeyed;
    if events != [] {
      EventForward(r, events[0]);
      StaysWellKeyed(r, events[0]);
      QuietRunForward(AfterEvent(r, events[0]), events[1..]);
    }
  }

  /**
   * Over a run of quiet events no frontier node goes back into the fog, no reason is added, nothing
   * settled comes back, and every cycle lies within one that was named before.
   */
  lemma QuietRunMovesForward(r: Records, events: seq<Event>, was: FrontierBoard, now: FrontierBoard)
    requires WellKeyed(r) && QuietRun(r, events)
    requires BoardOf(SourcesOf(r), was) && BoardOf(SourcesOf(AfterEvents(r, events)), now)
    ensures forall n :: n in was.frontier ==> n in now.frontier || n in now.settled
    ensures forall n :: n in now.fog ==> n in was.fog && now.fog[n].waitsOn <= was.fog[n].waitsOn
    ensures was.settled.Keys <= now.settled.Keys
    ensures forall i :: 0 <= i < |now.cycles| ==> FrontierTheorems.WithinSome(now.cycles[i], was.cycles)
  {
    hide Describes, Projects, SourcesOf, WellKeyed, QuietRun, AfterEvents, FrontierTheorems.Progressed, Forward;
    hide FrontierTheorems.WithinSome;
    var before :| Describes(before, SourcesOf(r)) && Projects(before, was);
    var after :| Describes(after, SourcesOf(AfterEvents(r, events))) && Projects(after, now);
    QuietRunForward(r, events);
    ForwardGraphs(r, AfterEvents(r, events), before, after);
    FrontierTheorems.ResolvingIsMonotone(before, after, was, now);
  }

  // ---------- what else unblocks ----------

  ghost predicate WaitsIn(r: Records, n: NodeId) {
    exists b :: IsBlockedBy(r, n, b) && !IsSettled(r, b)
  }

  /** Where a node is on a board, read off the records. */
  lemma PlaceOfNode(r: Records, board: FrontierBoard, n: NodeId)
    requires WellKeyed(r) && BoardOf(SourcesOf(r), board)
    ensures n in board.settled <==> IsNode(r, n) && IsSettled(r, n)
    ensures n in board.fog <==> IsNode(r, n) && !IsSettled(r, n) && WaitsIn(r, n)
    ensures n in board.frontier <==> IsNode(r, n) && !IsSettled(r, n) && !WaitsIn(r, n)
  {
    hide SourcesOf, WellKeyed, Describes, IsNode, IsSettled, IsBlockedBy, NamesCycles;
    var g :| Describes(g, SourcesOf(r)) && Projects(g, board);
    GraphOfRecords(r, g);
    WaitsOnRecords(r, g, n);
  }

  lemma WaitsOnRecords(r: Records, g: BlockingGraph, n: NodeId)
    requires forall x :: x in g.resolved <==> IsSettled(r, x)
    requires forall a, b :: Edge(g.inEdges, a, b) <==> IsBlockedBy(r, a, b)
    ensures WaitsOn(g, n) != {} <==> WaitsIn(r, n)
  {
    hide IsSettled, IsBlockedBy;
    if b :| b in WaitsOn(g, n) {
      assert Edge(g.inEdges, n, b);
    }
    if b :| IsBlockedBy(r, n, b) && !IsSettled(r, b) {
      assert Edge(g.inEdges, n, b) && b in WaitsOn(g, n);
    }
  }

  /**
   * The settled nodes of a board are the resolved tickets, the plans that are approved, rejected or handed
   * off, and the imported items that are closed, merged or done.
   */
  lemma SettledExactlyBySource(r: Records, board: FrontierBoard, key: int)
    requires WellKeyed(r) && BoardOf(SourcesOf(r), board)
    ensures Decision(key) in board.settled <==> key in r.tickets && r.tickets[key].resolution != None
    ensures Plan(key) in board.settled <==>
            exists i :: 0 <= i < |r.plans| && r.plans[i].planId == key
                        && (r.plans[i].stage.Approved? || r.plans[i].stage.Rejected? || r.plans[i].stage.Handoff?)
    ensures Imported(key) in board.settled <==>
            key in r.items && r.items[key].state in {Closed, Merged, Done}
  {
    hide SourcesOf, WellKeyed, BoardOf;
    PlaceOfNode(r, board, Decision(key));
    PlaceOfNode(r, board, Plan(key));
    PlaceOfNode(r, board, Imported(key));
  }

  /** An accepted refresh of a waiting item to blockers that are all settled. */
  ghost predicate Releases(r: Records, e: Event, n: NodeId) {
    && RefreshAccepted(r, e) && n == Imported(e.item) && WaitsIn(r, n)
    && forall b :: b in e.refresh.newItem.blockedBy ==> IsSettled(r, b)
  }

  /** Between the two nothing is settled and nothing comes back. */
  ghost predicate SameSettled(r: Records, next: Records) {
    forall n :: IsSettled(r, n) <==> IsSettled(next, n)
  }

  lemma OtherStillWaits(r: Records, e: Event, n: NodeId)
    requires SameSettled(r, AfterEvent(r, e))
    ensures WaitsIn(AfterEvent(r, e), n) <==>
            if RefreshAccepted(r, e) && n == Imported(e.item)
            then exists b :: b in e.refresh.newItem.blockedBy && !IsSettled(r, b)
            else WaitsIn(r, n)
  {
    hide AfterEvent, IsSettled, IsBlockedBy, RefreshRefused;
    var next := AfterEvent(r, e);
    forall b ensures IsBlockedBy(next, n, b) <==>
                     if RefreshAccepted(r, e) && n == Imported(e.item) then b in e.refresh.newItem.blockedBy
                     else IsBlockedBy(r, n, b)
    {
      EventKeepsEdges(r, e, n, b);
    }
    if RefreshAccepted(r, e) && n == Imported(e.item) {
      if b :| b in e.refresh.newItem.blockedBy && !IsSettled(r, b) {
        assert IsBlockedBy(next, n, b) && !IsSettled(next, b);
      }
    } else {
      if b :| IsBlockedBy(r, n, b) && !IsSettled(r, b) {
        assert IsBlockedBy(next, n, b) && !IsSettled(next, b);
      }
    }
  }

  /**
   * When an event settles and unsettles nothing, it still takes a node out of the fog exactly when it is
   * an accepted refresh of that item to blockers that are all settled.
   */
  lemma UnblocksExactly(r: Records, e: Event, was: FrontierBoard, now: FrontierBoard, n: NodeId)
    requires WellKeyed(r) && SameSettled(r, AfterEvent(r, e))
    requires BoardOf(SourcesOf(r), was) && BoardOf(SourcesOf(AfterEvent(r, e)), now)
    ensures n in was.fog && n in now.frontier <==> n in was.fog && Releases(r, e, n)
  {
    hide AfterEvent, IsSettled, IsNode, IsBlockedBy, WaitsIn, SourcesOf, WellKeyed, BoardOf, RefreshRefused;
    StaysWellKeyed(r, e);
    PlaceOfNode(r, was, n);
    PlaceOfNode(AfterEvent(r, e), now, n);
    EventKeepsNodes(r, e, n);
    OtherStillWaits(r, e, n);
  }

  /** A refresh of an open item to no blockers, its state kept. */
  function Unblocking(item: ImportedItem, revision: string): Refresh {
    Refresh(item.fetchedRevision, item.(fetchedRevision := revision, blockedBy := []))
  }

  lemma UnblockingReleases(r: Records, k: int, revision: string, b: NodeId)
    requires k in r.items && revision != r.items[k].fetchedRevision
    requires r.items[k].state.Open? && b in r.items[k].blockedBy && !IsSettled(r, b)
    ensures IsNode(r, Imported(k)) && !IsSettled(r, Imported(k)) && WaitsIn(r, Imported(k))
    ensures Releases(r, ItemRefresh(k, Unblocking(r.items[k], revision)), Imported(k))
  {
    assert IsBlockedBy(r, Imported(k), b);
  }

  lemma SameSettledBoards(r: Records, e: Event, was: FrontierBoard, now: FrontierBoard)
    requires WellKeyed(r) && SameSettled(r, AfterEvent(r, e))
    requires BoardOf(SourcesOf(r), was) && BoardOf(SourcesOf(AfterEvent(r, e)), now)
    ensures was.settled.Keys == now.settled.Keys
  {
    hide AfterEvent, IsSettled, IsNode, WaitsIn, SourcesOf, WellKeyed, BoardOf;
    StaysWellKeyed(r, e);
    forall n ensures n in was.settled <==> n in now.settled {
      PlaceOfNode(r, was, n);
      PlaceOfNode(AfterEvent(r, e), now, n);
      EventKeepsNodes(r, e, n);
    }
  }

  /** It happens: the item was waiting, is decidable after the refresh, and nothing else was settled. */
  lemma RefreshUnblocks(r: Records, k: int, revision: string, b: NodeId, was: FrontierBoard, now: FrontierBoard)
    requires WellKeyed(r) && k in r.items && revision != r.items[k].fetchedRevision
    requires r.items[k].state.Open? && b in r.items[k].blockedBy && !IsSettled(r, b)
    requires var e := ItemRefresh(k, Unblocking(r.items[k], revision));
             BoardOf(SourcesOf(r), was) && BoardOf(SourcesOf(AfterEvent(r, e)), now)
    ensures Imported(k) in was.fog && Imported(k) in now.frontier && was.settled.Keys == now.settled.Keys
  {
    hide *;
    var e := ItemRefresh(k, Unblocking(r.items[k], revision));
    UnblockingReleases(r, k, revision, b);
    UnblockingSettlesNothing(r, k, revision);
    PlaceOfNode(r, was, Imported(k));
    UnblocksExactly(r, e, was, now, Imported(k));
    SameSettledBoards(r, e, was, now);
  }

  lemma UnblockingSettlesNothing(r: Records, k: int, revision: string)
    requires k in r.items && revision != r.items[k].fetchedRevision
    ensures SameSettled(r, AfterEvent(r, ItemRefresh(k, Unblocking(r.items[k], revision))))
  {
    hide RefreshRefused;
  }

  /** An accepted refresh may reopen: a closed item that comes back open is settled before and not after. */
  lemma RefreshReopens(r: Records, k: int, revision: string)
    requires k in r.items && r.items[k].state.Closed? && revision != r.items[k].fetchedRevision
    ensures var reopened := r.items[k].(fetchedRevision := revision, state := Open);
            var next := AfterEvent(r, ItemRefresh(k, Refresh(r.items[k].fetchedRevision, reopened)));
            IsSettled(r, Imported(k)) && IsNode(next, Imported(k)) && !IsSettled(next, Imported(k))
  {
  }
}
