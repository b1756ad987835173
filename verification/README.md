# mjolnr core: a verified model

mjolnr is a coding harness in which a model proposes and a deterministic rule layer disposes. This
project models that layer in Dafny and proves what it promises. Each file covers one component:

- `SccSearcher.dfy`, `ComponentOrder.dfy`, `Frontier.dfy`, `FrontierTheorems.dfy`, `BoardRuns.dfy`,
  `TicketRuns.dfy` — the board of decision tickets, plans and
  imported items: which nodes are decidable, which wait and on what, and which blocking cycles hold
  them back. The recursive Tarjan search is a class whose fields change step by step, proved correct
  for every finite graph; on top of it stand the order of its result, the graph theorems about cycles,
  progress and settling, and what becomes of the board while records of all kinds change.
  `Reachability.dfy` and `NodeOrder.dfy` hold the graph and order notions.
- `PlanWorkflow.dfy`, `PlanRuns.dfy`, `PlanHistories.dfy` — the eight-stage plan workflow over append-only
  histories, what holds after every run of its commands, what it accepts and what it has then recorded.
- `Envelope.dfy`, `Policy.dfy` — the bounded allocator for child agents, and policies that only narrow.
- `Council.dfy`, `Amendments.dfy`, `BlockReading.dfy`, `CouncilReviews.dfy` — splitting an artifact at its
  headings, marking it up, reading the marks back, and the review whose findings a human disposes of and folds in.
- `Prompts.dfy`, `Extension.dfy`, `Directive.dfy` — template expansion, argument splitting,
  placeholder substitution, escaping and framing.
- `DecisionBoard.dfy`, `ImportedItems.dfy` — supersession chains, revision pins, containment.
- `Text.dfy`, `Selections.dfy`, `Wrappers.dfy` — the library notions the others use: whitespace, lines,
  searching, filtering, optional values, 32-bit counters.

An object the source updates in place is a class here. Its `View()` is a snapshot of its fields, each
method is specified by a function on snapshots, and the results about whole runs are lemmas about
that function.

Ids are integers and times are plain data. Whitespace is the Unicode property, and positions are
64-bit. An ordered map or set is a `map` or `set` iterated from its least element where the order can
matter.

Where the code and its own comments differ, the model follows the code:

- `src/core/frontier.rs:306` calls the search iterative; it recurses at line 345.
- `src/core/frontier.rs:320-321` promises components in id order. They come blockers first: with ticket 1
  waiting on ticket 2 the component of 2 precedes that of 1 (`LaterBlockerBreaksIdOrder`). `ByHeadExactly`
  says when the promise holds if everything reached is recorded, and `ByHeadWithUnrecorded` when unrecorded
  blockers are reached but no member of a cycle waits on one. The caller's sort at line 302 orders the cycles.
- `src/core/frontier.rs:18-20` says only a resolution unblocks. An accepted refresh can too
  (`RefreshUnblocks`; `UnblocksExactly` says when an event that settles nothing does), and it may take a
  settled item back; `ProgressExactly` and `StaysSettledExactly` say when nothing goes back.
- `src/core/frontier.rs:271-274` leaves self-blocking to the recording step. `CycleExactness` states
  what the board says with and without that assumption, and `TicketRuns.dfy` that the step keeps it.
- `src/core/envelope.rs:147-158` says a ceiling wider than the session's policy is refused. Workspace-write
  is accepted under `ask`, and an `ask` ceiling is refused under every policy.
  `CeilingRuleAgainstWidth` states exactly where the rule and the width order agree.
- `src/core/council.rs:362-365` says an accepted finding is never dropped. One is when another with the
  same id has a matching heading; `EmittedUnlessShadowed` states exactly when. Such a pair can only come
  in a review that arrives disposed: over every run of dispositions on an undisposed one the promise
  holds, shared ids included (`NoAcceptedIsDropped`).
- `src/core/council.rs:343-346` says the text is emitted unchanged and its own bytes are never rewritten,
  and `src/core/council.rs:210-212` that sections hold the exact text. Each carriage return before a line
  feed is dropped and a missing last line feed added; `RenderedExactly` says when nothing changes.
- `src/context/prompts.rs:123-131` says an argument that was not supplied is never replaced with nothing,
  and that forms not listed stay as written. The form `${N}` is not listed, yet it becomes its argument, or
  empty when that is absent. `PromiseKeptExactly` and `OnlyListedExactly` say when the two promises hold.

## Model

| member | source | states |
|---|---|---|
| StrongComponents.SccSearcher.constructor | src/core/frontier.rs:308-317 | A new searcher has visited nothing, stacked nothing and found nothing. |
| StrongComponents.SccSearcher.RelaxLowlink | src/core/frontier.rs:371-377 | The link of one node drops to the candidate when that is lower; nothing else changes. |
| StrongComponents.SccSearcher.PopComponent | src/core/frontier.rs:358-367 | Popping down to the root takes exactly the stack at and above it off both stack records and files it as one sorted component. |
| StrongComponents.SccSearcher.Conclude | src/core/frontier.rs:356-368 | At the end of a call, a root files its component and a non-root leaves its part stacked; either way the search invariant holds with the call finished. |
| StrongComponents.SccSearcher.Connect | src/core/frontier.rs:335-369 | One call terminates, keeps the search invariant, changes nothing recorded before, visits only what the node reaches, and leaves a link that names an earlier stacked node exactly when the node is no root. |
| StrongComponents.SccSearcher.Components | src/core/frontier.rs:319-333 | For every finite graph and seed set the result partitions what the seeds reach into strongly connected components: sorted, disjoint, two nodes together exactly when each reaches the other. Every edge out of a component stays in it or leads into one filed before, the searches start from the seeds in ascending order, and a node that waits on nothing comes after the smaller such blockers of the node that led to it. |
| StrongComponents.EnterKeeps | src/core/frontier.rs:336-340 | Stacking an unvisited node that every running call reaches keeps the index, stack, reachability and component invariants. |
| StrongComponents.ChildStep | src/core/frontier.rs:344-348 | Searching an unvisited blocker and taking over its link keeps the invariants of the calling node's loop. |
| StrongComponents.StackedStep | src/core/frontier.rs:349-353 | Relaxing to the index of a stacked blocker keeps them too. |
| StrongComponents.CompletedStep | src/core/frontier.rs:349-354 | A blocker whose component is filed needs no relaxation. |
| StrongComponents.KeepAnchored | src/core/frontier.rs:356-357 | A node whose link is below its index hands everything stacked above it to an earlier running call. |
| StrongComponents.RootIsComponent | src/core/frontier.rs:356-367 | The stack above a node whose link equals its index is a maximal set of mutually reachable nodes. |
| StrongComponents.RootMaximal | src/core/frontier.rs:356-367 | Whatever shares a component with such a root is stacked above it: no member is on the lower stack, filed already, or unvisited. |
| StrongComponents.CompletedBlockersFirst | src/core/frontier.rs:356-367 | A root's component is filed after every component its edges lead into. |
| StrongComponents.SuccessorIntroduced | src/core/frontier.rs:341-348 | When the loop comes to its least remaining blocker, the smaller ones that wait on nothing are filed. |
| ComponentOrder.NothingWaitsOnLater | src/core/frontier.rs:319-333 | No member of a component reaches a member of one filed later. |
| ComponentOrder.LaterBlockerBreaksIdOrder | src/core/frontier.rs:320-321 | For two seeds, the smaller waiting on the larger, no result is in the promised order by smallest member. |
| ComponentOrder.ByHeadNeedsDownhill | src/core/frontier.rs:320-321 | For every graph, unrecorded blockers included: a result by smallest member means that no edge leads from a component into one with a larger smallest member. |
| ComponentOrder.ByHeadExactly | src/core/frontier.rs:320-321 | When everything reached is a seed, the result is by smallest member exactly under that condition. |
| ComponentOrder.ByHeadWithUnrecorded | src/core/frontier.rs:320-321 | With unrecorded blockers reached, none of them waited for by a member of a cycle: the result is by smallest member exactly when no edge leads up and each unrecorded blocker is larger than every seed that heads its component before all who wait on the blocker. |
| ComponentOrder.UnrecordedBreaksIdOrder | src/core/frontier.rs:320-321 | The second half is needed: an input where no edge leads up, and no result is by smallest member. |
| Frontier.AddBlockers | src/core/frontier.rs:186-191 | A record's blockers become in-edges of its node, and no other edge appears. |
| Frontier.AddRecord | src/core/frontier.rs:173-223 | Gathering one record adds exactly its node, its resolved mark and its in-edges. |
| Frontier.GatherTickets | src/core/frontier.rs:173-192 | After the ticket loop the graph holds what the tickets say and nothing else, shared ids included. |
| Frontier.GatherPlans | src/core/frontier.rs:193-206 | After the plan loop it holds the plans too, settled by stage, without in-edges. |
| Frontier.GatherItems | src/core/frontier.rs:207-223 | After the item loop it holds the imported items too, with any kind of blocker. |
| Frontier.SurfaceCycles | src/core/frontier.rs:275-304 | The named cycles are exactly the components of more than one member over the unresolved nodes, in order of their smallest members. |
| Frontier.InsertCycleSorted | src/core/frontier.rs:302 | Putting a member list in its place in the list order orders disjoint cycles by smallest member. |
| Frontier.Classify | src/core/frontier.rs:232-259 | Every node goes to the one map its resolution and unresolved blockers call for, with exactly those blockers as reasons. |
| Frontier.ComputeFrontier | src/core/frontier.rs:164-260 | From the records of tickets, plans and imported items comes a board projected from a graph that holds exactly what they say. |
| FrontierTheorems.BoardSearchOrder | src/core/frontier.rs:275-296 | For the graph a board's search is given, that condition is exact whenever no member of a cycle waits on an unrecorded node. |
| FrontierTheorems.BoardPartitions | src/core/frontier.rs:5-7 | The three sets partition the recorded nodes; a fogged node waits on exactly its unresolved blockers, at least one, and a frontier node on none. |
| FrontierTheorems.BoardIsDetermined | src/core/frontier.rs:12-14 | The same recorded state gives the same board, the list and order of its cycles included. |
| FrontierTheorems.EntriesTellSource | src/core/frontier.rs:79-88 | Every entry of every board has the id it is filed under; imported items are unverified implementation work, tickets governed decisions and plans governed implementation. |
| FrontierTheorems.CyclesAreFoggedAndDisjoint | src/core/frontier.rs:147-152 | Cycle members are recorded, unresolved and fogged; cycles are pairwise disjoint and each is headed by its smallest member. |
| FrontierTheorems.NamedExactly | src/core/frontier.rs:271-304 | An unresolved node is in some named cycle exactly when another node reaches it and is reached by it through unresolved blockers. |
| FrontierTheorems.CycleExactness | src/core/frontier.rs:271-304 | For every board: an unresolved node lies on a blocking cycle exactly when it is named in one or blocks itself. |
| FrontierTheorems.SelfBlockingIsUnnamed | src/core/frontier.rs:273-274 | The self-blocking case is real: a lone node blocking itself is on a cycle and no cycle is named. |
| FrontierTheorems.PhantomsStayOutside | src/core/frontier.rs:220-222 | A blocker that is no recorded node lands in none of the three sets and in no cycle. |
| FrontierTheorems.SettledMeansJudged | src/core/frontier.rs:36-41 | In every reachable workflow the board settles a plan exactly when its last human decision approves or rejects it. |
| FrontierTheorems.SettledPlanStaysSettled | src/core/frontier.rs:262-269 | A plan the board counts as settled stays settled under every later run of plan commands. |
| FrontierTheorems.ResolvingIsMonotone | src/core/frontier.rs:18-29 | With edges fixed and more resolved, no frontier node goes back to fog, reasons only shrink, and each new cycle lies within an old one. |
| FrontierTheorems.NoCyclesMeansProgress | src/core/frontier.rs:155-163 | With no cycle named, no self-edge and all unresolved blockers recorded, an unsettled board has a non-empty frontier. |
| FrontierTheorems.RunsCountDown | src/core/frontier.rs:155-163 | Resolving frontier nodes one at a time settles one node each, and can go on exactly until as many steps are made as there were unresolved nodes. |
| FrontierTheorems.UnobstructedSettles | src/core/frontier.rs:155-163 | An unobstructed board can be settled that way. |
| FrontierTheorems.BlockersComeEarlier | src/core/frontier.rs:18-20 | In a run that settles the board each unresolved blocker is recorded and resolved before the node it blocks. |
| FrontierTheorems.SettleableExactly | src/core/frontier.rs:18-20 | For every board: it can be settled by resolving frontier nodes one at a time exactly when it names no cycle, no unresolved node blocks itself and every unresolved blocker is recorded. |
| BoardRuns.SnapshotSources | src/core/frontier.rs:164-223 | The snapshot the run theorems speak of says the same as the records a board is computed from. |
| BoardRuns.GraphOfRecords | src/core/frontier.rs:164-223 | The gathered graph has exactly the nodes, settled marks and blockers that the records of all three kinds give each id. |
| BoardRuns.EventSettles | src/core/frontier.rs:30-41 | One attempt on any record leaves a settled node settled exactly when it is not an accepted refresh of that item out of a terminal state. |
| BoardRuns.SettlesExactly | src/core/frontier.rs:30-41 | A node that is not settled becomes settled at an event exactly when its ticket's resolution is accepted, its open proposal is approved or rejected, or its item is refreshed to closed, merged or done. |
| BoardRuns.StaysSettledExactly | src/core/imported.rs:179-208 | Over every run of resolutions, plan commands and refreshes a settled node stays settled throughout exactly when no refresh on the way reopens it. |
| BoardRuns.GovernedStaysSettled | src/core/frontier.rs:262-269 | A settled ticket or plan is settled after every such run. |
| BoardRuns.RefreshReopens | src/core/imported.rs:184-207 | The exception is real: a closed item refreshed to open is no longer settled. |
| BoardRuns.EventKeepsEdges | src/core/imported.rs:184-207 | Only an accepted refresh changes what waits on what, and only for its own item. |
| BoardRuns.ProgressExactly | src/core/frontier.rs:18-20 | The graph of one attempt later has the same nodes and edges and at least the same settled nodes exactly when the attempt neither reopens an item nor changes its blockers. |
| BoardRuns.PlaceOfNode | src/core/frontier.rs:5-9 | Where a node stands on the board is read off the records: settled, waiting on something unsettled, or decidable. |
| BoardRuns.SettledExactlyBySource | src/core/frontier.rs:30-41 | A ticket is settled exactly when resolved, a plan when approved, rejected or handed off, an item when closed, merged or done. |
| BoardRuns.UnblocksExactly | src/core/frontier.rs:18-20 | An attempt that settles and unsettles nothing takes a node out of the fog exactly when it is an accepted refresh of that item to blockers that are all settled. |
| BoardRuns.RefreshUnblocks | src/core/frontier.rs:18-20 | It happens: a waiting open item refreshed to no blockers is decidable, and the settled nodes are the same. |
| BoardRuns.QuietRunMovesForward | src/core/frontier.rs:18-29 | Between any two boards of a run of such attempts no frontier node goes back to fog, no reason is added, nothing settled comes back, and each new cycle lies within an old one. |
| TicketRuns.DecisionTickets.ApplyBoardEvent | src/runtime/session.rs:304-366 | A ticket is opened exactly with a fresh id and recorded blockers, a resolution goes to a recorded ticket that accepts it; any other event is refused with its cause and changes nothing. |
| TicketRuns.OpenedExactly | src/runtime/session.rs:316-349 | An opening is accepted exactly for a new id whose blockers are all recorded; otherwise it is refused as recorded, or with the first missing blocker. |
| TicketRuns.ResolvedExactly | src/runtime/session.rs:350-366 | A resolution is accepted exactly when its ticket is recorded, it quotes that ticket and it follows the current resolution, and only that changes. |
| TicketRuns.HeldReplays | src/runtime/session.rs:304-366 | Over every run of events a held ticket is the one that was opened, and its resolution is the last one a fresh record accepts out of the attempts made on it since, in order. |
| TicketRuns.HeldIsBorn | src/runtime/session.rs:297-303 | After every run of such events the tickets can be listed so that each comes after its blockers. |
| TicketRuns.OnlyItemsCycle | src/runtime/session.rs:299-303 | After every run, beside any plans and imported items, every member of a named cycle is an imported item. |
| TicketRuns.GovernedIsOffCycles | src/runtime/session.rs:299-303 | No ticket or plan is on a blocking cycle, its own blocker included. |
| TicketRuns.TicketBoardsSettle | src/runtime/session.rs:299-303 | After every run a board of the tickets and any plans names no cycle and can be settled one frontier node at a time. |
| PlanWorkflows.PlanWorkflow.constructor | src/core/plan.rs:507-522 | A new workflow is idle with empty histories. |
| PlanWorkflows.PlanWorkflow.StartInterview | src/core/plan.rs:525-542 | A goal is set once, on a fresh idle workflow, within its bound. A refusal names the same error as the source and changes nothing. |
| PlanWorkflows.PlanWorkflow.AskQuestion | src/core/plan.rs:545-574 | A question is recorded and pends, within the budget of eight and only when idle or asked to iterate. A refusal names the same error as the source and changes nothing. |
| PlanWorkflows.PlanWorkflow.AnswerQuestion | src/core/plan.rs:577-597 | Only the pending question can be answered; the workflow is then idle. A refusal names the same error as the source and changes nothing. |
| PlanWorkflows.PlanWorkflow.RecordPrd | src/core/plan.rs:600-624 | A document is recorded once, for this plan, in an idle interview. A refusal names the same error as the source and changes nothing. |
| PlanWorkflows.PlanWorkflow.LinkCouncilReview | src/core/plan.rs:627-651 | A review is linked once, to the recorded document of this plan. A refusal names the same error as the source and changes nothing. |
| PlanWorkflows.PlanWorkflow.ProposePlan | src/core/plan.rs:654-701 | A proposal of this plan with the next revision opens review, from the idle and iterate stages only. A refusal names the same error as the source and changes nothing. |
| PlanWorkflows.PlanWorkflow.ReviewPlan | src/core/plan.rs:704-754 | A review of the active revision is recorded, and the stage lists all reviews of that revision. A refusal names the same error as the source and changes nothing. |
| PlanWorkflows.PlanWorkflow.ApprovePlan | src/core/plan.rs:757-815 | A human decision on the active revision is recorded and fixes the stage. A refusal names the same error as the source and changes nothing. |
| PlanWorkflows.PlanWorkflow.HandoffPlan | src/core/plan.rs:818-856 | Only an approved active revision is handed off. A refusal names the same error as the source and changes nothing. |
| PlanRuns.StepKeeps | src/core/plan.rs:488-857 | Every accepted command keeps the invariant that ties the six histories, the active revision, the documents and the stage together. |
| PlanRuns.ReachableInvariant | src/core/plan.rs:488-857 | After any run: revisions 1 to n without a gap and n active; the stage shows the last proposal; approval i names revision i, all but the last iterate and the last fits the stage; answers pair with questions; the reviewed list is the reviews of n; a handoff only in its stage, for n. |
| PlanRuns.RunAppendOnly | src/core/plan.rs:1-4 | Each history is a prefix of every later one and recorded documents stay. |
| PlanRuns.FinalStagesStay | src/core/plan.rs:462-486 | After rejection or handoff no run changes anything but a first council link. |
| PlanRuns.ApprovedOnlyHandsOff | src/core/plan.rs:817-856 | An approved plan keeps its proposals and approvals, and either stays approved or is handed off with the same proposal. |
| PlanRuns.ProposalAcceptedExactly | src/core/plan.rs:654-701 | In a reachable workflow a proposal is accepted exactly for this plan, in an open stage, with the next number. |
| PlanRuns.LastRevisionRefusesAll | src/core/plan.rs:674-687 | At the largest revision number every proposal is refused as stale before the increment, which therefore never overflows. |
| PlanRuns.HandoffWasApproved | src/core/plan.rs:817-856 | No run reaches a handoff without the approval of that very revision, the latest one. |
| PlanRuns.ReviewsOfExact | src/core/plan.rs:741-752 | The list shown for a revision is the recorded reviews of that revision, each as often as recorded and in recorded order. |
| PlanHistories.StartAcceptedExactly | src/core/plan.rs:525-542 | An interview starts exactly for a goal that is not blank and has at most 8,000 characters, in an idle workflow without a goal. |
| PlanHistories.AskAcceptedExactly | src/core/plan.rs:545-574 | A question is accepted exactly in the idle and iterate stages, while fewer than eight have been asked. |
| PlanHistories.AnswerAcceptedExactly | src/core/plan.rs:577-597 | In a reachable workflow an answer is accepted exactly when one question is without an answer and that is the one it names. |
| PlanHistories.RecordAcceptedExactly | src/core/plan.rs:600-624 | A document is accepted exactly for this plan, in the idle stage, after a goal and when there is none yet. |
| PlanHistories.LinkAcceptedExactly | src/core/plan.rs:627-651 | A council link is accepted exactly for this plan and its recorded document, and only the first. |
| PlanHistories.ReviewAcceptedExactly | src/core/plan.rs:704-754 | In a reachable workflow a review is accepted exactly for this plan and its last proposal while that is proposed or reviewed. |
| PlanHistories.DecisionAcceptedExactly | src/core/plan.rs:757-815 | In a reachable workflow a decision is accepted exactly under the same condition. |
| PlanHistories.OpenMeansUndecided | src/core/plan.rs:757-815 | In a reachable workflow the stage is proposed or reviewed exactly when one proposal has no decision yet. |
| PlanHistories.HandoffAcceptedExactly | src/core/plan.rs:818-856 | In a reachable workflow a handoff is accepted exactly for this plan and its last proposal in the approved stage. |
| PlanHistories.InterviewRefusedExactly | src/core/plan.rs:525-651 | A refused interview, document or link command names what was attempted and the first check that failed, each text exactly in its own case. |
| PlanHistories.RevisionRefusedExactly | src/core/plan.rs:654-856 | So does a refused proposal, review, decision or handoff. |
| PlanHistories.StaleExactly | src/core/plan.rs:654-856 | A revision is refused as stale exactly when the command is otherwise in order and it is not the current one, and both numbers are given. |
| PlanHistories.RunIsRecorded | src/core/plan.rs:488-857 | After every run from a new workflow each history is exactly the accepted commands of its kind in order, goal, document and link are the one accepted, and the stage with its contents is what the last accepted command made it. |
| Selections.SelectionIsDetermined | src/core/plan.rs:742-747 | Elements that pass, multiplicity and order fix what a filter keeps. |
| Envelopes.Validate | src/core/envelope.rs:150-182 | An envelope is armed exactly when its ceiling survives the clamp and all four bounds are between one and their limits. A refusal carries the ceiling and policy asked for, or the first bound out of range with that bound's own limit. |
| Envelopes.ValidatesExactly | src/core/envelope.rs:150-196 | In numbers: 1 to 64 children, 1 to 16 a call, 1 to 200 turns and 1 to 200 turns of life, under a ceiling that is read-only, workspace-write unless the policy is read-only, or full autonomy under full autonomy. |
| Envelopes.BoundRefusedExactly | src/core/envelope.rs:160-180 | Each bound is refused, as zero or with its limit in numbers, exactly when the ceiling and the bounds before it pass and it does not. |
| Envelopes.ForChildrenValidatesExactly | src/core/envelope.rs:66-86 | The derived envelope validates exactly for 1 to 64 children, 1 to 200 turns and an accepted ceiling. |
| Envelopes.ForChildrenFunds | src/core/envelope.rs:66-86 | It funds eight turns a child up to 25 children and lets one call draw them all up to 16. |
| Envelopes.CeilingRuleAgainstWidth | src/core/envelope.rs:185-196 | The acceptance rule agrees with the width order of policies exactly outside two families: a workspace-write ceiling under ask, and an ask ceiling under anything but read-only. |
| Envelopes.WiderCeilingAccepted | src/core/envelope.rs:147-158 | A workspace-write ceiling is accepted under ask although it is wider. |
| Envelopes.CheckDraw | src/core/envelope.rs:259-293 | A draw fits exactly within the call width, the children, the turns and the routes left; a refusal carries the true amounts. |
| Envelopes.ActiveEnvelope.constructor | src/core/envelope.rs:214-221 | An armed envelope starts with nothing drawn and no turn elapsed. |
| Envelopes.ActiveEnvelope.Draw | src/core/envelope.rs:296-299 | A draw adds to both counters and changes nothing else. |
| Envelopes.ActiveEnvelope.Tick | src/core/envelope.rs:302-305 | A tick adds one turn and reports whether the envelope has lapsed. |
| Envelopes.ActiveEnvelope.TryDraw | src/core/envelope.rs:237-238 | The runtime's step: an unexpired envelope whose check accepts is drawn on, and otherwise nothing changes. |
| Envelopes.FundsUntilExhausted | src/core/envelope.rs:244-250 | An envelope can fund a child exactly while it is neither lapsed nor exhausted. |
| Envelopes.EnvelopeConserves | src/core/envelope.rs:223-306 | Over every run the counters are the true sums of what was granted, so saturation never fires, and drawn plus remaining is what was declared. |
| Envelopes.GrantsStayInside | src/core/envelope.rs:237-293 | No granted call exceeds the call width, and none is granted once the declared turns have passed. |
| Envelopes.LapsesExactly | src/core/envelope.rs:301-305 | On a fresh envelope a tick reports the lapse from the declared turn on and never before. |
| Envelopes.LifetimeBounds | src/core/envelope.rs:24-29 | A validated envelope grants at most 64 children and 200 turns over its whole life. |
| Policies.AuthorityOnlyNarrows | src/core/policy.rs:59-95 | Over any sequence of model switches, directives and continuations without a human act, width never grows, full autonomy survives exactly when nothing disarms it, and any other mode is unchanged. |
| Policies.FirstDisarmingDecides | src/core/directive.rs:47-59 | Full autonomy lands where the first disarming event puts it: workspace-write under a supervised model, ask for external text or a continued session. |
| Policies.FullAutoNeverReturns | src/core/policy.rs:77-95 | Full autonomy once lost is not there at any later point. |
| Policies.ClampAllIsMinimum | src/core/governance.rs:96-115 | Folding tier ceilings gives their minimum with the requested mode. |
| Policies.ClampAllUnordered | src/core/governance.rs:109-115 | The order and repetition of ceilings do not matter. |
| Policies.FanOutWithinArmed | src/core/governance.rs:117-135 | A tier's fan-out is within what was armed exactly when at least one child was armed or the tier is trusted; a standard tier gets half, a supervised one nothing. |
| Policies.FanOutExactly | src/core/governance.rs:117-135 | One call may draw nothing when supervised, all when trusted, and when standard half rounded down but at least one. |
| Policies.FirstTier | src/core/governance.rs:252-259 | The first matching rule decides, and the default only when none matches. |
| Policies.StarredMatchesExactly | src/core/governance.rs:170-187 | A pattern ending in a star matches exactly the models that continue its stem, letter for letter in either case. |
| Policies.LiteralMatchesExactly | src/core/governance.rs:170-187 | Any other pattern matches exactly its own spelling, in either case. |
| Policies.RuleMatchesExactly | src/core/governance.rs:198-202 | A rule matches exactly when its provider is spelled the same, in either case, and its pattern matches. |
| Policies.LowerExactly | src/core/governance.rs:173-187 | Two texts agree in lower case exactly when they agree letter by letter but for A to Z against a to z. |
| Policies.ShadowsExactly | src/core/governance.rs:170-187 | A written pattern matches everything another does exactly when it is the same or a starred start of it. |
| Policies.ShadowedRowIsDead | src/core/governance.rs:252-259 | A row below one of its provider with such a pattern can be taken out without changing any model's tier. |
| Policies.FirstTierConcat | src/core/governance.rs:252-259 | Rows further down only supply the default of the rows above. |
| Policies.TierIgnoresCase | src/core/governance.rs:198-202 | The tier does not depend on the letter case of the provider or the model. |
| Council.HeadingExactly | src/core/council.rs:247-255 | A line is a heading exactly when it is written as blank space, one to six hashes, a space and a title that is not blank. |
| Council.LinesOfRendered | src/core/council.rs:219-236 | Reading lines undoes writing them. |
| Text.LinesExactly | src/core/council.rs:219-219 | What reading a line means: it ends at the first line feed or the end of the text, and loses one carriage return before a line feed. |
| Council.RenderedExactly | src/core/council.rs:343-346 | For every text: its lines written back are the text exactly when it is empty or ends in a line feed, and holds no carriage return before a line feed. |
| Council.RenderedIsVerbatim | src/core/council.rs:219-236 | Whatever is written from lines without a line feed inside or a carriage return at the end meets that condition. |
| Council.LineEndsAreRewritten | src/core/council.rs:343-346 | Both failures are real: `a` with a carriage return and line feed loses the first, and `a` alone gains a line feed. |
| Council.SplitArtifactSections | src/core/council.rs:214-245 | The sections cover the lines in order: 1 to 16 of them, each later one opening at a heading, no heading inside any of the first fifteen, titles as the headings give them, texts bounded. |
| Council.SplitIsDetermined | src/core/council.rs:210-245 | That description leaves one possible split of a text. |
| Council.SplitLosesNothing | src/core/council.rs:210-260 | The untruncated section texts together are the text's lines each ended, and the text itself exactly when it is verbatim in that sense; each section's text is a prefix of its own, of at most 12,000 characters. |
| Council.SectionTextExactly | src/core/council.rs:257-259 | The text of a section is its whole lines written back when they have at most 12,000 characters, and otherwise their first 12,000. |
| Council.SectionsThatFitAreTheText | src/core/council.rs:210-260 | When every section fits, their texts together are the lines of the text, and the text itself when it is verbatim. |
| Council.SectionTitleExactly | src/core/council.rs:214-245 | There are 1 to 16 sections. One with its heading above nothing but blank lines is titled by it, one without any is the artifact, and only the sixteenth can hold later headings and then says that it is bounded. |
| Amendments.AppendSectionAmendments | src/core/council.rs:380-393 | Closing a section appends one block for each accepted finding of it and records their ids; before the first heading nothing. |
| Amendments.AppendUnmatched | src/core/council.rs:366-375 | The unmatched findings follow under one title line, in order, and nothing when there are none. |
| Amendments.RenderAmendment | src/core/council.rs:347-377 | The loop writes the original lines, each section's blocks where it ends, and the unmatched rest. |
| Amendments.AmendmentCovers | src/core/council.rs:343-377 | Dropping the inserted parts gives every original line in order; a finding is emitted once per heading with its section's title, or at the end when nothing with its id was; what was not accepted is emitted nowhere. |
| Amendments.UnmatchedSpelled | src/core/council.rs:366-375 | The unmatched findings come last, block after block below the one title line spelled out; with none of them nothing is added. |
| Amendments.AmendmentKeepsText | src/core/council.rs:343-346 | With the inserted parts taken out, the amended text is the original's lines each ended, and the original itself exactly when that is verbatim. |
| Amendments.SectionFindingsAreMarked | src/core/council.rs:347-377 | A finding on a section whose title is that of a heading in it is marked up below such a heading and is not among the unmatched. |
| Amendments.LaterSectionIsNamed | src/core/council.rs:219-236 | Every section after the first and before the sixteenth is such a section. |
| Amendments.DistinctFindingsAppear | src/core/council.rs:362-365 | With distinct ids an accepted finding appears once per matching heading, or exactly once at the end when there is none. |
| Amendments.EmittedUnlessShadowed | src/core/council.rs:362-369 | In general an accepted finding is lost exactly when it has no matching heading and another with its id has one. |
| Amendments.SharedIdIsLost | src/core/council.rs:366-369 | Such a loss happens in a text of one heading with two findings of one id. |
| BlockReading.BlockTellsExactly | src/core/council.rs:395-433 | A reader of blocks gets back the title, the lines of a note that is not blank, and for each position its role with the lines of its response and of its critique, in order, exactly when title and roles are single lines. |
| BlockReading.BlockFramed | src/core/council.rs:395-433 | Every block opens with the marker and the title and ends with the statement that the section was not rewritten, spelled out. |
| BlockReading.EmittedStands | src/core/council.rs:380-433 | The block of an emitted finding stands in the amended text, whole and starting its own line. |
| BlockReading.EmittedIsTold | src/core/council.rs:408-428 | Every line of an emitted finding's note, responses and critiques stands in the amended text as a line of its own, marked as what it is. |
| CouncilReviews.AcceptedOf | src/core/council.rs:317-325 | The folded findings are those a human accepted, each as often as it was found and in that order. |
| CouncilReviews.CouncilReview.ProposeAmendment | src/core/council.rs:295-341 | A proposal is composed exactly for an unchanged artifact file with something accepted, and carries the marked-up text and the digest; each of the four refusals is given exactly in its own case. |
| CouncilReviews.CouncilReview.constructor | src/core/council.rs:182-208 | A review holds the findings it was made with. |
| CouncilReviews.CouncilReview.ApplyDisposition | src/core/council.rs:471-487 | A disposition of this review goes to the first finding with its id; otherwise it is refused with its cause and nothing changes. |
| CouncilReviews.EvidenceStays | src/core/council.rs:471-472 | No run of dispositions adds, removes or changes what the model wrote. |
| CouncilReviews.LastDispositionStands | src/core/council.rs:473-487 | After every run a finding carries the last disposition on record for it, and one that shares an earlier finding's id keeps what it had. |
| CouncilReviews.AcceptedExactly | src/core/council.rs:317-325 | After every run of dispositions on an undisposed review a finding counts as accepted exactly when it is the first of its id and the last act on it in this review accepts it. |
| CouncilReviews.NoAcceptedIsDropped | src/core/council.rs:362-365 | Over every run of dispositions on an undisposed review, shared ids included, an accepted finding is marked up once below each heading with its section's title, or exactly once at the end. |
| CouncilReviews.AcceptedIsTold | src/core/council.rs:362-433 | Over every such run, what an accepted finding has to tell stands line by line in the proposed text, and its block is in it whole. |
| Prompts.PositionReadsBack | src/context/prompts.rs:198-198 | Reading a position undoes spelling it, for every number that fits a word; a larger one is not a position. |
| Prompts.PositionExactly | src/context/prompts.rs:198-198 | A text is a position exactly when it spells a number below 2 to the 64th in digits, with any zeros and a plus allowed in front. |
| Prompts.SlotWithoutDefault | src/context/prompts.rs:179-207 | A braced position in range is a slot without a default. |
| Prompts.SlotWithDefault | src/context/prompts.rs:179-208 | A braced position with a default is a slot with that default, whatever its text. |
| Prompts.Piece | src/context/prompts.rs:137-175 | What the loop puts out at an index, and that it always goes on further. |
| Prompts.Expand | src/context/prompts.rs:133-177 | The index loop computes the concatenated texts of the template's tokens, which do not depend on the arguments: what was put in is never looked at again. |
| Prompts.TokensLoseNothing | src/context/prompts.rs:116-131 | The tokens written back are the template verbatim. |
| Prompts.PositionalTakesItsArgument | src/context/prompts.rs:151-157 | A dollar and a digit k from 1 to 9 become the k-th argument when it was supplied, whatever follows. |
| Prompts.PositionalStays | src/context/prompts.rs:157-160 | They stay as written when it was not. |
| Prompts.BracedTakesItsArgument | src/context/prompts.rs:162-207 | A braced k becomes the k-th argument when it was supplied, for every k of one word. |
| Prompts.DefaultTakesItsArgument | src/context/prompts.rs:194-207 | A braced k with a default becomes the k-th argument when it was supplied and the default when not. |
| Prompts.AllTakesEveryArgument | src/context/prompts.rs:147-150 | The all-arguments form becomes every argument in order with one space between neighbours. |
| Prompts.OtherStays | src/context/prompts.rs:141-145 | Any character that starts none of these forms stays as it is. |
| Prompts.AbsentPositional | src/context/prompts.rs:123-127 | A positional argument that was not supplied leaves its token visible. |
| Prompts.NoDollarUnchanged | src/context/prompts.rs:129-131 | A template without a dollar sign is returned unchanged. |
| Prompts.NoArgumentsUnchanged | src/context/prompts.rs:123-131 | With no arguments a template is returned unchanged exactly when none of its tokens is the all-arguments or a braced form. |
| Prompts.NoArgumentsShrinks | src/context/prompts.rs:123-131 | With no arguments the text never grows, and becomes shorter exactly when such a form is in it. |
| Prompts.BareSlotIsDeleted | src/context/prompts.rs:179-207 | A braced position without a default is replaced by its argument, and by nothing when that is absent, whatever the arguments and whatever follows. |
| Prompts.PromiseKeptExactly | src/context/prompts.rs:123-127 | For every template and arguments: no absent argument is replaced with nothing exactly when no braced position without a default lacks its argument. |
| Prompts.OnlyListedExactly | src/context/prompts.rs:118-131 | For every template: whatever the arguments, forms not listed stay as written exactly when it has no braced position without a default. |
| Prompts.SplitArguments | src/context/prompts.rs:213-240 | The loop computes the splitting. |
| Prompts.SplitUndoesQuoting | src/context/prompts.rs:210-240 | Quoting each of a list of texts without quotes, joining with spaces and splitting gives the list back, empty ones included. |
| Prompts.SplitKeepsText | src/context/prompts.rs:210-240 | For any text the arguments together are the text minus quotes and minus whitespace outside them. |
| Prompts.OneArgument | src/context/prompts.rs:219-239 | A text that is not empty and has whitespace only inside quotes is one argument: itself without the quotes. |
| Prompts.SplitAtWhitespace | src/context/prompts.rs:224-229 | At whitespace after an even number of quotes the two sides are split on their own. |
| Extensions.Substitute | src/core/extension.rs:245-263 | The loop fills a template from left to right, stopping at the first missing value or end. |
| Extensions.ScanPlaceholders | src/core/extension.rs:266-282 | The loop lists the placeholder names in order, stopping at the first empty or unterminated one. |
| Extensions.SubstitutesWhatWasScanned | src/core/extension.rs:245-282 | A template that scans is filled exactly by the values that cover the scanned names. |
| Extensions.PlaceholderTakesItsValue | src/core/extension.rs:245-263 | The first placeholder of a text becomes the value of its name, between what is before it and what the rest becomes; without a value it is the error, and so is an error in the rest. |
| Extensions.PlaceholderIsRead | src/core/extension.rs:266-282 | Its name is read before those of the rest; an empty one is the error, and so is an error in the rest. |
| Extensions.LastTextExactly | src/core/extension.rs:245-282 | A text without an opening is put out as it is and has no names; one whose first opening is never closed is an error. |
| Extensions.PiecesLoseNothing | src/core/extension.rs:245-263 | A template taken apart and written back is the template. |
| Extensions.OwnPlaceholdersGiveTemplate | src/core/extension.rs:245-263 | Giving every name its own placeholder text gives the template back: inserted values are not rescanned. |
| Extensions.DeclareParameters | src/core/extension.rs:110-128 | Parameters are accepted exactly when all their trimmed names and descriptions obey the rules on length and alphabet and the names are distinct; otherwise the refusal is that of the first parameter at fault. |
| Extensions.NameIsWords | src/core/extension.rs:294-314 | A name obeys the rules exactly when it is words of small letters and digits joined by single hyphens. |
| Extensions.ParameterScansAsItself | src/core/extension.rs:266-282 | The placeholder of any name a parameter may have is read as exactly that name. |
| Extensions.CheckArguments | src/core/extension.rs:149-160 | Arguments pass exactly when each scans and refers to declared names only; the names referred to are collected. |
| Extensions.Parse | src/core/extension.rs:90-176 | A definition is accepted exactly when name and description obey their rules and the name is the file's, parameters are sound and within bounds, the program is fixed, and declared and referenced names are the same set. A refusal is that of the first check in order that fails, for the first parameter, argument or name at fault. |
| Extensions.WellFormedExactly | src/core/extension.rs:90-176 | What is accepted, in numbers: at most 64 parameters and 256 arguments, a program that is not empty and holds no opening, and exactly the declared names referred to. |
| Extensions.HeaderExactly | src/core/extension.rs:284-314 | Name and description pass exactly with 1 to 64 and 1 to 1,024 characters, the name the file's, of small letters, digits and hyphens, with no hyphen first, last or next to another. |
| Text.TrimExactly | src/core/extension.rs:94-94 | What trimming means: the one text that starts and ends with no whitespace and is surrounded by nothing else. |
| Extensions.ParameterExactly | src/core/extension.rs:316-340 | A parameter passes exactly with a name of 1 to 64 small letters, digits, hyphens and underscores, a letter first, and a description of 1 to 1,024 characters. |
| Extensions.HeaderRefusedExactly | src/core/extension.rs:94-103 | Each error of the header is given exactly when its check is the first to fail, with the limit and the length found. |
| Extensions.ParameterRefusedExactly | src/core/extension.rs:110-128 | So is each error of a parameter. |
| Extensions.FirstUndeclaredExactly | src/core/extension.rs:153-160 | The undeclared name reported is the first of an argument. |
| Extensions.Resolve | src/core/extension.rs:237-242 | Resolving gives one output per argument, or the error of the first argument that cannot be filled. |
| Extensions.AcceptedResolvesExactly | src/core/extension.rs:230-242 | An accepted definition resolves exactly when the values cover its declared parameters. |
| Directives.Escape | src/core/directive.rs:98-110 | The loop computes the one-pass escape. |
| Directives.EscapedConcat | src/core/directive.rs:98-110 | Escaping distributes over concatenation. |
| Directives.EscapedIsInert | src/core/directive.rs:91-97 | No angle bracket and no quote survives escaping. |
| Directives.UnescapeEscaped | src/core/directive.rs:98-110 | Escaping has a left inverse. |
| Directives.XmlIsEscape | src/context/mod.rs:597-603 | The four sequential replacements equal the one-pass escape on every text. |
| Directives.FrameClosesOnce | src/core/directive.rs:67-89 | For every origin and text an external frame holds its closing tag once, at its very end. |
| Directives.FrameKeepsText | src/core/directive.rs:67-89 | The framed text can be cut out and read back. |
| Directives.FrameSpelled | src/core/directive.rs:67-89 | An external frame is its opening tag with the origin, the notice, the text and the closing tags, spelled out; origin and text are inert in it and can be read back. |
| Directives.OwnTextIsUntouched | src/core/directive.rs:62-72 | Human and internal text is passed on as it is. |
| DecisionBoard.Refusal | src/core/board.rs:207-247 | A resolution is accepted exactly when it quotes the ticket verbatim with an option in range and follows the current one; a refusal names a check that fails. |
| DecisionBoard.RefusedExactly | src/core/board.rs:207-247 | Each refusal is given exactly when its check is the first to fail. |
| DecisionBoard.DecisionTicketRecord.constructor | src/core/board.rs:190-197 | A fresh record has no resolution. |
| DecisionBoard.DecisionTicketRecord.ApplyResolution | src/core/board.rs:207-250 | An accepted resolution becomes current; a refused one changes nothing. |
| DecisionBoard.ReplayIsChain | src/core/board.rs:199-206 | Over every run the accepted resolutions form one chain. |
| DecisionBoard.ChainIsAccepted | src/core/board.rs:207-250 | A run is accepted whole exactly when it is such a chain. |
| DecisionBoard.ReplayIsAdditive | src/core/board.rs:179-181 | Later attempts never rewrite what was accepted. |
| DecisionBoard.ChainIsRecoverable | src/core/board.rs:191-196 | With distinct ids the unordered set of accepted resolutions has one that nothing supersedes, the current one, and walking back from it gives the order. |
| ImportedItems.RefreshRefused | src/core/imported.rs:184-205 | A refresh is accepted exactly for the held item at the held revision, moving to another, identity kept; a refusal carries the true values. |
| ImportedItems.RefreshRefusedExactly | src/core/imported.rs:184-205 | Each refusal is given exactly when its check is the first to fail. |
| ImportedItems.ImportedItemRecord.constructor | src/core/imported.rs:174-177 | A record holds the item it was made from. |
| ImportedItems.ImportedItemRecord.ApplyRefresh | src/core/imported.rs:179-208 | An accepted refresh replaces the item; a refused one changes nothing. |
| ImportedItems.RefreshesArePinned | src/core/imported.rs:160-167 | Over every run identity never changes, and each accepted refresh is pinned to the revision before it and moves to another. |
| ImportedItems.PinnedChainIsAccepted | src/core/imported.rs:179-208 | A run is accepted whole exactly when it is such a chain. |
| ImportedItems.CheckActPin | src/core/imported.rs:263-287 | An act goes out exactly when some record of that remote holds the pinned revision, and for the first such record; a stale pin reports the first record's revision, and a remote never imported is named. |
| ImportedItems.RefreshMovesThePin | src/core/imported.rs:252-262 | Once the only record of a remote is refreshed, the old pin is refused and the new one accepted. |
| ImportedItems.ContainProposals | src/core/imported.rs:299-316 | The loop computes the contained proposals. |
| ImportedItems.ContainedExactly | src/core/imported.rs:289-297 | They are exactly the proposed texts in both sets, each once, in order of first occurrence. |
| ImportedItems.ContainedIdempotent | src/core/imported.rs:289-297 | Containing them again changes nothing. |

## Left out

- Node labels and the overview a surface renders: presentation over the board.
- Ids and clocks: every id and time is a value the caller supplies.
- PlanWorkflow: the wording of refusals is reduced to the state and action they name; the parsing of
  model responses into questions, documents and drafts is not modelled.
- SccSearcher.Connect: `Conclude` and `PopComponent` are the closing part of the same source function,
  kept apart so that each is specified on its own.
- Components sorting: the members of a component are distinct, so sorting them is the ascending listing
  of their set.
- Envelope.TryDraw: the runtime that calls the check and the draw is not part of this model; its step
  is the guard described at src/core/envelope.rs:237-238.
- Governance: reading the table from its file, and the fan-out without an envelope.
- Extensions.Parse: YAML reading is not part of this model, and the four wordings of a refused extension
  name are one refusal here, since the first of them depends on Unicode case mapping.
- ComponentOrder.ByHeadNeedsDownhill: where a member of a cycle waits on an unrecorded node, the place of
  that node depends on the depth-first path within the cycle, so only the necessary half is stated there.
- Prompts.Expand: the output at one index is a function, `Piece`, of the rest of the template; the loop keeps
  the index and the buffer.
- Council deliberation, contributions and the rendering of a review.
- Prompt discovery, front matter and the limits on names and hints.
- Filesystem, network, storage, terminal and desktop code.
