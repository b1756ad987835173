/**
 * The session's tickets: opened with fresh ids and recorded blockers, then resolved. No run of such events
 * puts a ticket or a plan on a blocking cycle; whatever cycle a board names is one of imported items.
 */
module TicketRuns {
  import opened NodeOrder
  import opened Reachability
  import opened StrongComponents
  import opened DecisionBoard
  import opened PlanWorkflows
  import opened ImportedItems
  import opened Wrappers
  import opened Frontier
  import opened BoardRuns
  import FrontierTheorems

  datatype BoardEvent = Opened(ticket: DecisionTicket) | Resolved(resolution: DecisionResolution)

  datatype BoardRefusal =
    | AlreadyRecorded(id: int)
    | MissingBlocker(id: int, blocker: int)
    | NoSuchTicket(resolution: int, ticket: int)
    | ResolutionRefused(refusal: ResolutionRefusal)

  /** The first blocker that is not recorded. */
  function FirstMissing(blockers: seq<int>, recorded: set<int>): (missing: Option<int>)
    ensures missing.None? <==> forall b :: b in blockers ==> b in recorded
    ensures missing.Some? ==> missing.value in blockers && missing.value !in recorded
  {
    if blockers == [] then None
    else if blockers[0] !in recorded then
      var b := blockers[0];
      assert b in blockers;
      Some(b)
    else
      assert blockers == [blockers[0]] + blockers[1..];
      FirstMissing(blockers[1..], recorded)
  }

  lemma MissingStep(blockers: seq<int>, recorded: set<int>, i: nat)
    requires i < |blockers|
    ensures FirstMissing(blockers[i..], recorded) ==
            if blockers[i] !in recorded then Some(blockers[i]) else FirstMissing(blockers[i + 1..], recorded)
  {
    assert blockers[i..][1..] == blockers[i + 1..];
  }

  /** The tickets after one event, or why it is refused. */
  function Applied(tickets: map<int, Ticket>, event: BoardEvent): Result<map<int, Ticket>, BoardRefusal> {
    match event
    case Opened(ticket) =>
      if ticket.id in tickets then Failure(AlreadyRecorded(ticket.id))
      else
        (match FirstMissing(ticket.blockedBy, tickets.Keys)
         case Some(blocker) => Failure(MissingBlocker(ticket.id, blocker))
         case None => Success(tickets[ticket.id := Ticket(ticket, None)]))
    case Resolved(resolution) =>
      if resolution.ticket !in tickets then Failure(NoSuchTicket(resolution.id, resolution.ticket))
      else
        var held := tickets[resolution.ticket];
        match Refusal(held.ticket, held.resolution, resolution)
        case Some(refusal) => Failure(ResolutionRefused(refusal))
        case None => Success(tickets[resolution.ticket := held.(resolution := Some(resolution))])
  }

  ghost predicate IsFirstMissing(blockers: seq<int>, recorded: set<int>, i: int) {
    0 <= i < |blockers| && blockers[i] !in recorded && forall j :: 0 <= j < i ==> blockers[j] in recorded
  }

  lemma {:induction false} FirstMissingExactly(blockers: seq<int>, recorded: set<int>, b: int)
    ensures FirstMissing(blockers, recorded) == Some(b) <==>
            exists i :: IsFirstMissing(blockers, recorded, i) && blockers[i] == b
  {
    if blockers != [] {
      var rest := blockers[1..];
      assert forall j :: 0 < j < |blockers| ==> blockers[j] == rest[j - 1];
      if blockers[0] in recorded {
        FirstMissingExactly(rest, recorded, b);
        if i :| IsFirstMissing(rest, recorded, i) && rest[i] == b {
          assert IsFirstMissing(blockers, recorded, i + 1);
        }
        if i :| IsFirstMissing(blockers, recorded, i) && blockers[i] == b {
          assert IsFirstMissing(rest, recorded, i - 1);
        }
      } else {
        assert IsFirstMissing(blockers, recorded, 0);
      }
    }
  }

  /** An opening is accepted exactly for a new id with recorded blockers; otherwise the first fault is named. */
  lemma OpenedExactly(tickets: map<int, Ticket>, ticket: DecisionTicket, b: int)
    ensures var applied := Applied(tickets, Opened(ticket));
            var isNew := ticket.id !in tickets;
            && (applied.Success? <==> isNew && forall blocker :: blocker in ticket.blockedBy ==> blocker in tickets)
            && (applied.Success? ==> applied.value == tickets[ticket.id := Ticket(ticket, None)])
            && (applied == Failure(AlreadyRecorded(ticket.id)) <==> !isNew)
            && (applied == Failure(MissingBlocker(ticket.id, b)) <==>
                isNew && exists i :: IsFirstMissing(ticket.blockedBy, tickets.Keys, i) && ticket.blockedBy[i] == b)
  {
    FirstMissingExactly(ticket.blockedBy, tickets.Keys, b);
  }

  /** A resolution is accepted exactly when it quotes a recorded ticket and follows its current resolution. */
  lemma ResolvedExactly(tickets: map<int, Ticket>, r: DecisionResolution)
    ensures var applied := Applied(tickets, Resolved(r));
            && (applied.Success? <==>
                && r.ticket in tickets
                && Quotes(tickets[r.ticket].ticket, r) && Follows(tickets[r.ticket].resolution, r))
            && (applied.Success? ==> applied.value == tickets[r.ticket := Ticket(tickets[r.ticket].ticket, Some(r))])
            && (applied == Failure(NoSuchTicket(r.id, r.ticket)) <==> r.ticket !in tickets)
            && (applied.Failure? && r.ticket in tickets ==>
                applied.error.ResolutionRefused?
                && Some(applied.error.refusal) == Refusal(tickets[r.ticket].ticket, tickets[r.ticket].resolution, r))
  {
    hide Refusal;
    if r.ticket in tickets {
      RefusalOrNone(tickets[r.ticket].ticket, tickets[r.ticket].resolution, r);
    }
  }

  lemma RefusalOrNone(ticket: DecisionTicket, current: Option<DecisionResolution>, r: DecisionResolution)
    ensures Refusal(ticket, current, r).None? <==> Quotes(ticket, r) && Follows(current, r)
  {
  }

  class DecisionTickets {
    var records: map<int, DecisionTicketRecord>

    /** No record is filed twice. */
    ghost predicate Valid()
      reads this
    {
      forall k, l :: k in records && l in records && k != l ==> records[k] != records[l]
    }

    ghost function View(): map<int, Ticket>
      reads this, records.Values
    {
      map k | k in records :: Ticket(records[k].ticket, records[k].resolution)
    }

    constructor ()
      ensures Valid() && View() == map[]
    {
      records := map[];
    }

    method ApplyBoardEvent(event: BoardEvent) returns (outcome: Outcome<BoardRefusal>)
      requires Valid()
      modifies this, records.Values
      ensures Valid() && fresh(records.Values - old(records.Values))
      ensures match Applied(old(View()), event)
              case Success(next) => outcome == Pass && View() == next
              case Failure(refusal) => outcome == Fail(refusal) && View() == old(View())
    {
      ghost var before := View();
      match event {
        case Opened(ticket) =>
          if ticket.id in records {
            return Fail(AlreadyRecorded(ticket.id));
          }
          for i := 0 to |ticket.blockedBy|
            invariant records == old(records) && View() == before
            invariant FirstMissing(ticket.blockedBy, before.Keys) == FirstMissing(ticket.blockedBy[i..], before.Keys)
          {
            MissingStep(ticket.blockedBy, before.Keys, i);
            if ticket.blockedBy[i] !in records {
              return Fail(MissingBlocker(ticket.id, ticket.blockedBy[i]));
            }
          }
          var record := new DecisionTicketRecord(ticket);
          records := records[ticket.id := record];
          assert View() == before[ticket.id := Ticket(ticket, None)];
        case Resolved(resolution) =>
          if resolution.ticket !in records {
            return Fail(NoSuchTicket(resolution.id, resolution.ticket));
          }
          var record := records[resolution.ticket];
          var applied := record.ApplyResolution(resolution);
          if applied.Fail? {
            assert View() == before;
            return Fail(ResolutionRefused(applied.error));
          }
          assert forall k :: k in records && k != resolution.ticket ==> records[k] != record;
          assert View() == before[resolution.ticket := Ticket(record.ticket, Some(resolution))];
      }
      return Pass;
    }
  }

  // ---------- runs ----------

  function After(tickets: map<int, Ticket>, event: BoardEvent): map<int, Ticket> {
    match Applied(tickets, event)
    case Success(next) => next
    case Failure(_) => tickets
  }

  /** The tickets a session holds after a run of events. */
  function Held(events: seq<BoardEvent>): map<int, Ticket>
    decreases |events|
  {
    if events == [] then map[] else After(Held(events[..|events| - 1]), events[|events| - 1])
  }

  /** The attempts to resolve one ticket, in order. */
  function AttemptsOn(k: int, events: seq<BoardEvent>): seq<DecisionResolution> {
    if events == [] then [] else
      var last := events[|events| - 1];
      AttemptsOn(k, events[..|events| - 1])
      + if last.Resolved? && last.resolution.ticket == k then [last.resolution] else []
  }

  /** The i-th event opened the ticket, and its resolution is what a fresh record makes of the attempts since. */
  ghost predicate HeldSince(events: seq<BoardEvent>, k: int, held: Ticket, i: int) {
    && 0 <= i < |events| && events[i] == Opened(held.ticket) && held.ticket.id == k
    && k !in Held(events[..i])
    && held.resolution == Current(Replay(held.ticket, AttemptsOn(k, events[i + 1..])))
  }

  lemma AttemptsSnoc(k: int, events: seq<BoardEvent>, event: BoardEvent)
    ensures AttemptsOn(k, events + [event]) ==
            AttemptsOn(k, events) + if event.Resolved? && event.resolution.ticket == k then [event.resolution] else []
  {
    assert (events + [event])[..|events + [event]| - 1] == events;
  }

  lemma ReplaySnoc(ticket: DecisionTicket, attempts: seq<DecisionResolution>, r: DecisionResolution)
    ensures Current(Replay(ticket, attempts + [r])) ==
            if Refusal(ticket, Current(Replay(ticket, attempts)), r).None? then Some(r)
            else Current(Replay(ticket, attempts))
  {
    assert (attempts + [r])[..|attempts + [r]| - 1] == attempts;
  }

  lemma HeldSnoc(events: seq<BoardEvent>)
    requires events != []
    ensures Held(events) == After(Held(events[..|events| - 1]), events[|events| - 1])
  {
  }

  /** What one event makes of a ticket that is held. */
  lemma HeldAfter(tickets: map<int, Ticket>, event: BoardEvent, k: int)
    requires k in tickets
    ensures var after := After(tickets, event);
            && k in after && after[k].ticket == tickets[k].ticket
            && (event.Resolved? && event.resolution.ticket == k ==>
                after[k].resolution ==
                if Refusal(tickets[k].ticket, tickets[k].resolution, event.resolution).None?
                then Some(event.resolution) else tickets[k].resolution)
            && (!(event.Resolved? && event.resolution.ticket == k) ==> after[k].resolution == tickets[k].resolution)
  {
    hide Refusal, FirstMissing;
  }

  lemma StillHeld(before: seq<BoardEvent>, event: BoardEvent, k: int, i: int)
    requires k in Held(before) && HeldSince(before, k, Held(before)[k], i)
    ensures var after := After(Held(before), event);
            k in after && HeldSince(before + [event], k, after[k], i)
  {
    hide Held, After, Refusal, Replay, Current, AttemptsOn;
    var events, since := before + [event], before[i + 1..];
    var held := Held(before)[k];
    assert events[i + 1..] == since + [event] && events[..i] == before[..i] && events[i] == before[i];
    AttemptsSnoc(k, since, event);
    HeldAfter(Held(before), event, k);
    if event.Resolved? && event.resolution.ticket == k {
      ReplaySnoc(held.ticket, AttemptsOn(k, since), event.resolution);
    } else {
      assert AttemptsOn(k, since) + [] == AttemptsOn(k, since);
    }
  }

  /**
   * Over every run: a ticket that is held was opened by one of the events, and its resolution is the last one
   * a fresh record of it accepts out of the attempts made on it since, in order.
   */
  lemma {:induction false} HeldReplays(events: seq<BoardEvent>, k: int)
    requires k in Held(events)
    ensures exists i :: HeldSince(events, k, Held(events)[k], i)
    decreases |events|
  {
    hide HeldSince, After, Held;
    if events == [] {
      NothingHeld();
    } else {
      var before, event := events[..|events| - 1], events[|events| - 1];
      assert events == before + [event];
      HeldSnoc(events);
      if k in Held(before) {
        HeldReplays(before, k);
        var i :| HeldSince(before, k, Held(before)[k], i);
        StillHeld(before, event, k, i);
      } else {
        NewlyHeld(before, event, k);
      }
    }
  }

  lemma NothingHeld()
    ensures Held([]) == map[]
  {
  }

  /** Only an opening adds a ticket, and it is not resolved. */
  lemma OpenedBy(tickets: map<int, Ticket>, event: BoardEvent, k: int)
    requires k !in tickets && k in After(tickets, event)
    ensures event.Opened? && event.ticket.id == k && After(tickets, event)[k] == Ticket(event.ticket, None)
  {
    hide Refusal, FirstMissing;
  }

  lemma NoAttempts(ticket: DecisionTicket, k: int)
    ensures Current(Replay(ticket, AttemptsOn(k, []))) == None
  {
  }

  lemma NewlyHeld(before: seq<BoardEvent>, event: BoardEvent, k: int)
    requires k !in Held(before) && k in After(Held(before), event)
    ensures HeldSince(before + [event], k, After(Held(before), event)[k], |before|)
  {
    hide Held, After, Replay, Current, AttemptsOn;
    var events := before + [event];
    assert events[..|before|] == before && events[|before|] == event && events[|before| + 1..] == [];
    OpenedBy(Held(before), event, k);
    NoAttempts(event.ticket, k);
  }

  /** `order` lists the tickets once each, every one after its blockers. */
  ghost predicate Births(tickets: map<int, Ticket>, order: seq<int>) {
    && (forall k :: k in order <==> k in tickets)
    && (forall i, j :: 0 <= i < j < |order| ==> order[i] != order[j])
    && (forall k :: k in tickets ==> tickets[k].ticket.id == k)
    && (forall i, b ::
          0 <= i < |order| && order[i] in tickets && b in tickets[order[i]].ticket.blockedBy ==> b in order[..i])
  }

  lemma OpenedIsBorn(tickets: map<int, Ticket>, order: seq<int>, ticket: DecisionTicket)
    requires Births(tickets, order) && ticket.id !in tickets
    requires forall b :: b in ticket.blockedBy ==> b in tickets
    ensures Births(tickets[ticket.id := Ticket(ticket, None)], order + [ticket.id])
  {
    var longer := order + [ticket.id];
    assert longer[|order|] == ticket.id && longer[..|order|] == order;
    forall i, b | 0 <= i < |longer| && longer[i] in tickets && i < |order| && b in tickets[longer[i]].ticket.blockedBy
      ensures b in longer[..i]
    {
      assert longer[..i] == order[..i];
    }
  }

  lemma ResolvedKeepsBirths(tickets: map<int, Ticket>, order: seq<int>, k: int, resolution: Option<DecisionResolution>)
    requires Births(tickets, order) && k in tickets
    ensures Births(tickets[k := tickets[k].(resolution := resolution)], order)
  {
  }

  lemma EventKeepsBirths(tickets: map<int, Ticket>, order: seq<int>, event: BoardEvent) returns (longer: seq<int>)
    requires Births(tickets, order)
    ensures Births(After(tickets, event), longer)
  {
    hide Births, Refusal;
    longer := order;
    if Applied(tickets, event).Success? {
      match event
      case Opened(ticket) =>
        OpenedIsBorn(tickets, order, ticket);
        longer := order + [ticket.id];
      case Resolved(resolution) =>
        ResolvedKeepsBirths(tickets, order, resolution.ticket, Some(resolution));
    }
  }

  /** Over every run the tickets have an order of birth. */
  lemma {:induction false} HeldIsBorn(events: seq<BoardEvent>) returns (order: seq<int>)
    ensures Births(Held(events), order)
    decreases |events|
  {
    if events == [] {
      order := [];
    } else {
      hide Births, After;
      var before := HeldIsBorn(events[..|events| - 1]);
      order := EventKeepsBirths(Held(events[..|events| - 1]), before, events[|events| - 1]);
    }
  }

  // ---------- no ticket is on a cycle ----------

  ghost function Place(order: seq<int>, k: int): (n: nat)
    ensures n <= |order| && (n < |order| ==> order[n] == k)
    ensures n == |order| <==> k !in order
    ensures forall i :: 0 <= i < n ==> order[i] != k
  {
    if order == [] || order[0] == k then 0 else 1 + Place(order[1..], k)
  }

  lemma BlockerWasBornFirst(r: Records, order: seq<int>, a: NodeId, b: NodeId)
    requires Births(r.tickets, order) && IsBlockedBy(r, a, b) && a.Decision?
    ensures b.Decision? && b.key in r.tickets && Place(order, b.key) < Place(order, a.key)
  {
    var i := Place(order, a.key);
    assert order[i] in r.tickets && b.key in order[..i];
    var j :| 0 <= j < i && order[j] == b.key;
  }

  lemma {:induction false} WalksGoBack(r: Records, g: Graph, order: seq<int>, p: seq<NodeId>, a: NodeId, b: NodeId)
    requires Births(r.tickets, order) && a.Decision? && Walk(g, p, a, b)
    requires forall x, y :: Edge(g, x, y) ==> IsBlockedBy(r, x, y)
    ensures b.Decision? && Place(order, b.key) + |p| <= Place(order, a.key)
    decreases |p|
  {
    hide Births, IsBlockedBy, Edge;
    if p != [] {
      BlockerWasBornFirst(r, order, a, p[0]);
      WalksGoBack(r, g, order, p[1..], p[0], b);
    }
  }

  lemma LiveEdgesAreBlockers(r: Records, g: BlockingGraph)
    requires WellKeyed(r) && Describes(g, SourcesOf(r))
    ensures forall x, y :: Edge(Live(g), x, y) ==> IsBlockedBy(r, x, y)
  {
    hide WellKeyed, Describes, SourcesOf, IsBlockedBy, IsNode, IsSettled;
    GraphOfRecords(r, g);
    forall x, y | Edge(Live(g), x, y) ensures IsBlockedBy(r, x, y) {
      assert Edge(g.inEdges, x, y);
    }
  }

  /** A ticket or a plan shares no component with another node and is not its own blocker. */
  lemma GovernedIsOffCycles(r: Records, g: Graph, order: seq<int>, n: NodeId)
    requires Births(r.tickets, order) && !n.Imported?
    requires forall x, y :: Edge(g, x, y) ==> IsBlockedBy(r, x, y)
    ensures !OnCycle(g, n)
  {
    hide Births;
    if m :| Edge(g, n, m) && Reach(g, m, n) {
      assert IsBlockedBy(r, n, m) && n.Decision?;
      var p :| Walk(g, p, m, n);
      BlockerWasBornFirst(r, order, n, m);
      WalksGoBack(r, g, order, p, m, n);
    }
  }

  /**
   * Over every run of openings and resolutions, beside any plans and any imported items: every member of a
   * named cycle is an imported item.
   */
  lemma OnlyItemsCycle(events: seq<BoardEvent>, plans: seq<Workflow>, items: map<int, ImportedItem>,
                       board: FrontierBoard, n: NodeId)
    requires forall k :: k in items ==> items[k].id == k
    requires BoardOf(SourcesOf(Records(Held(events), plans, items)), board) && InSome(board.cycles, n)
    ensures n.Imported?
  {
    var r := Records(Held(events), plans, items);
    var order := HeldIsBorn(events);
    assert WellKeyed(r);
    hide SourcesOf, WellKeyed, Describes, Projects, InSome, OnCycle;
    var g :| Describes(g, SourcesOf(r)) && Projects(g, board);
    LiveEdgesAreBlockers(r, g);
    NamedIsOnCycle(g, board, n);
    if !n.Imported? {
      GovernedIsOffCycles(r, Live(g), order, n);
    }
  }

  lemma NamedIsOnCycle(g: BlockingGraph, board: FrontierBoard, n: NodeId)
    requires Projects(g, board) && InSome(board.cycles, n)
    ensures OnCycle(Live(g), n)
  {
    FrontierTheorems.CyclesAreFoggedAndDisjoint(g, board);
    FrontierTheorems.CycleExactness(g, board, n);
  }

  /** A board of such tickets and any plans names no cycle and can be settled one frontier node at a time. */
  lemma TicketBoardsSettle(events: seq<BoardEvent>, plans: seq<Workflow>, g: BlockingGraph, board: FrontierBoard)
    requires Describes(g, SourcesOf(Records(Held(events), plans, map[]))) && Projects(g, board)
    ensures board.cycles == []
    ensures exists run :: FrontierTheorems.SettlesBoard(g, run)
  {
    var r := Records(Held(events), plans, map[]);
    var order := HeldIsBorn(events);
    assert WellKeyed(r);
    hide SourcesOf, WellKeyed, Describes, Projects, OnCycle;
    LiveEdgesAreBlockers(r, g);
    TicketBlockersRecorded(r, g, order);
    if board.cycles != [] {
      var n := HeadIsNamed(g, board);
      OnlyItemsCycle(events, plans, map[], board, n);
      NamedIsNode(r, g, board, n);
    }
    FrontierTheorems.SettleableExactly(g, board);
  }

  lemma HeadIsNamed(g: BlockingGraph, board: FrontierBoard) returns (n: NodeId)
    requires Projects(g, board) && board.cycles != []
    ensures InSome(board.cycles, n)
  {
    n := board.cycles[0][0];
    assert n in board.cycles[0];
  }

  lemma NamedIsNode(r: Records, g: BlockingGraph, board: FrontierBoard, n: NodeId)
    requires WellKeyed(r) && r.items == map[] && Describes(g, SourcesOf(r)) && Projects(g, board)
    requires InSome(board.cycles, n)
    ensures !n.Imported?
  {
    hide SourcesOf, Describes, WellKeyed, Projects;
    GraphOfRecords(r, g);
    FrontierTheorems.CyclesAreFoggedAndDisjoint(g, board);
    var i :| 0 <= i < |board.cycles| && n in board.cycles[i];
    assert n in Unresolved(g) && IsNode(r, n);
  }

  lemma TicketBlockersRecorded(r: Records, g: BlockingGraph, order: seq<int>)
    requires WellKeyed(r) && r.items == map[] && Births(r.tickets, order) && Describes(g, SourcesOf(r))
    ensures forall n :: n in Unresolved(g) ==> !Edge(g.inEdges, n, n) && WaitsOn(g, n) <= g.nodes
  {
    hide SourcesOf, Describes, WellKeyed, Births, IsSettled;
    GraphOfRecords(r, g);
    forall n, b | Edge(g.inEdges, n, b) ensures b != n && b in g.nodes {
      assert IsBlockedBy(r, n, b) && n.Decision?;
      BlockerWasBornFirst(r, order, n, b);
      assert IsNode(r, b);
    }
    forall n | n in Unresolved(g) ensures WaitsOn(g, n) <= g.nodes {
      forall b | b in WaitsOn(g, n) ensures b in g.nodes { assert Edge(g.inEdges, n, b); }
    }
  }
}
