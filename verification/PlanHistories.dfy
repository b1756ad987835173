/**
 * What a plan workflow accepts, command by command, and what it has recorded after any run: every history
 * is the accepted commands of its kind, and the stage is what the last of them made it.
 */
module PlanHistories {
  import opened MachineIntegers
  import opened PlanRuns
  import opened PlanWorkflows
  import opened Selections
  import opened Text
  import opened Wrappers

  // ---------- acceptance ----------

  lemma StartAcceptedExactly(w: Workflow, goal: string)
    ensures Step(w, StartInterview(goal)).Success? <==>
            && (exists i :: 0 <= i < |goal| && !IsWhitespace(goal[i])) && |goal| <= 8_000
            && w.stage == Idle && w.interviewGoal == None
  {
  }

  lemma AskAcceptedExactly(w: Workflow, question: Question)
    ensures Step(w, AskQuestion(question)).Success? <==>
            |w.questions| < 8 && (w.stage == Idle || w.stage.IterateRequested?)
  {
  }

  lemma AnswerAcceptedExactly(w: Workflow, answer: QuestionAnswer)
    requires Invariant(w)
    ensures Step(w, AnswerQuestion(answer)).Success? <==>
            && |w.questions| == |w.answers| + 1
            && w.questions[|w.answers|].id == answer.questionId
  {
    hide Numbered, ShowsLast, Ledger, ReviewsRecorded, HandedOver, Documents;
  }

  lemma RecordAcceptedExactly(w: Workflow, prd: ProductRequirementsDocument)
    ensures Step(w, RecordPrd(prd)).Success? <==>
            prd.planId == w.planId && w.interviewGoal.Some? && w.prd == None && w.stage == Idle
  {
  }

  lemma LinkAcceptedExactly(w: Workflow, link: PlanCouncilLink)
    ensures Step(w, LinkCouncilReview(link)).Success? <==>
            && link.planId == w.planId && w.councilLink == None
            && w.prd.Some? && w.prd.value.id == link.prdId
  {
  }

  /** A review or a decision is of this plan, of its last proposal, and that is still undecided. */
  ghost predicate OfOpenProposal(w: Workflow, planId: int, revision: u32) {
    && planId == w.planId && |w.proposals| > 0 && revision as int == |w.proposals|
    && (w.stage.Proposed? || w.stage.Reviewed?)
  }

  lemma ReviewAcceptedExactly(w: Workflow, review: PlanReview)
    requires Invariant(w)
    ensures Step(w, ReviewPlan(review)).Success? <==> OfOpenProposal(w, review.planId, review.revision)
  {
    hide Ledger, Interview, ReviewsRecorded, HandedOver, Documents;
  }

  lemma DecisionAcceptedExactly(w: Workflow, approval: PlanApproval)
    requires Invariant(w)
    ensures Step(w, ApprovePlan(approval)).Success? <==> OfOpenProposal(w, approval.planId, approval.revision)
  {
    hide Ledger, Interview, ReviewsRecorded, HandedOver, Documents;
  }

  /** What is open is exactly the one proposal without a decision. */
  lemma OpenMeansUndecided(w: Workflow)
    requires Invariant(w)
    ensures w.stage.Proposed? || w.stage.Reviewed? <==> |w.approvals| + 1 == |w.proposals|
    ensures |w.approvals| <= |w.proposals|
  {
    hide Numbered, ShowsLast, Interview, ReviewsRecorded, HandedOver, Documents;
  }

  lemma HandoffAcceptedExactly(w: Workflow, handoff: PlanHandoff)
    requires Invariant(w)
    ensures Step(w, HandoffPlan(handoff)).Success? <==>
            && handoff.planId == w.planId && handoff.revision as int == |w.proposals|
            && w.stage.Approved?
  {
    hide Ledger, Interview, ReviewsRecorded, HandedOver, Documents;
  }

  // ---------- refusals ----------

  ghost predicate Blank(goal: string) {
    forall i :: 0 <= i < |goal| ==> IsWhitespace(goal[i])
  }

  /** Whether an interview command is refused in this state, and for nothing that is checked before it. */
  ghost predicate InterviewCause(w: Workflow, c: Command, state: string) {
    match c
    case StartInterview(goal) =>
      var fits := !Blank(goal) && |goal| <= 8_000;
      || (state == "no interview" && !fits)
      || (state == "workflow already started" && fits && (w.stage != Idle || w.interviewGoal != None))
    case AskQuestion(_) =>
      || (state == "question budget exhausted" && |w.questions| >= 8)
      || (state == "question pending" && |w.questions| < 8 && w.stage.QuestionPending?)
      || (state == "proposal decision" && |w.questions| < 8
          && !w.stage.Idle? && !w.stage.IterateRequested? && !w.stage.QuestionPending?)
    case AnswerQuestion(answer) =>
      || (state == "not question pending" && !w.stage.QuestionPending?)
      || (state == "question pending" && w.stage.QuestionPending? && w.stage.question.id != answer.questionId)
    case RecordPrd(prd) =>
      var inPlan := prd.planId == w.planId;
      || (state == "plan mismatch" && !inPlan)
      || (state == "PRD state mismatch" && inPlan && (w.interviewGoal == None || w.prd != None))
      || (state == "question pending" && inPlan && w.interviewGoal != None && w.prd == None && w.stage != Idle)
    case LinkCouncilReview(link) =>
      var inPlan := link.planId == w.planId;
      || (state == "plan mismatch" && !inPlan)
      || (state == "no PRD" && inPlan && w.prd == None)
      || (state == "council link mismatch" && inPlan && w.prd.Some?
          && (w.prd.value.id != link.prdId || w.councilLink != None))
    case _ => false
  }

  ghost predicate TargetCause(w: Workflow, planId: int, revision: u32, state: string) {
    || (state == "plan mismatch" && planId != w.planId)
    || (state == "idle" && planId == w.planId && w.activeRevision == None)
  }

  ghost predicate OnActive(w: Workflow, planId: int, revision: u32) {
    planId == w.planId && w.activeRevision == Some(revision)
  }

  ghost predicate RevisionCause(w: Workflow, c: Command, state: string) {
    match c
    case ProposePlan(proposal) =>
      var open := w.stage.Idle? || w.stage.IterateRequested?;
      || (state == "plan mismatch" && proposal.planId != w.planId)
      || (state == "stage mismatch" && proposal.planId == w.planId && !open)
      || (state == "proposal" && proposal.planId == w.planId && open && w.activeRevision.Some?
          && proposal.revision as int > w.activeRevision.value as int + 1)
    case ReviewPlan(review) =>
      || TargetCause(w, review.planId, review.revision, state)
      || (state == "stage mismatch" && OnActive(w, review.planId, review.revision)
          && !w.stage.Proposed? && !w.stage.Reviewed?)
    case ApprovePlan(approval) =>
      || TargetCause(w, approval.planId, approval.revision, state)
      || (state == "stage mismatch" && OnActive(w, approval.planId, approval.revision)
          && !w.stage.Proposed? && !w.stage.Reviewed?)
    case HandoffPlan(handoff) =>
      || TargetCause(w, handoff.planId, handoff.revision, state)
      || (state == "not approved" && OnActive(w, handoff.planId, handoff.revision) && !w.stage.Approved?)
    case _ => false
  }

  function ActionOf(c: Command): string {
    match c
    case StartInterview(_) => "start interview"
    case AskQuestion(_) => "ask question"
    case AnswerQuestion(_) => "answer question"
    case RecordPrd(_) => "record PRD"
    case LinkCouncilReview(_) => "link council review"
    case ProposePlan(_) => "propose plan"
    case ReviewPlan(_) => "review plan"
    case ApprovePlan(_) => "approve plan"
    case HandoffPlan(_) => "handoff plan"
  }

  /** A transition that is refused names what was attempted and the first check that failed. */
  lemma InterviewRefusedExactly(w: Workflow, c: Command, state: string, action: string)
    requires IsOfInterview(c)
    ensures Step(w, c) == Failure(InvalidTransition(state, action)) <==>
            InterviewCause(w, c, state) && action == ActionOf(c)
    ensures Step(w, c).Failure? ==> Step(w, c).error.InvalidTransition?
  {
    hide Propose, Review, Decide, HandOver;
  }

  lemma RevisionRefusedExactly(w: Workflow, c: Command, state: string, action: string)
    requires !IsOfInterview(c)
    ensures Step(w, c) == Failure(InvalidTransition(state, action)) <==>
            RevisionCause(w, c, state) && action == ActionOf(c)
  {
    hide Start, Ask, Answer, Record, Link, ReviewsOf, Decided;
  }

  /** The revision that would be current: the active one, and one before there is any. */
  ghost predicate StaleCause(w: Workflow, c: Command, presented: u32, current: u32) {
    match c
    case ProposePlan(proposal) =>
      && proposal.planId == w.planId && (w.stage.Idle? || w.stage.IterateRequested?)
      && presented == proposal.revision
      && (match w.activeRevision
          case Some(active) => presented <= active && current == active
          case None => presented != 1 && current == 1)
    case ReviewPlan(review) =>
      && review.planId == w.planId && presented == review.revision
      && w.activeRevision == Some(current) && presented != current
    case ApprovePlan(approval) =>
      && approval.planId == w.planId && presented == approval.revision
      && w.activeRevision == Some(current) && presented != current
    case HandoffPlan(handoff) =>
      && handoff.planId == w.planId && presented == handoff.revision
      && w.activeRevision == Some(current) && presented != current
    case _ => false
  }

  /** A revision is refused as stale exactly when it is not the current one, with both numbers. */
  lemma StaleExactly(w: Workflow, c: Command, presented: u32, current: u32)
    ensures Step(w, c) == Failure(PlanError.StaleRevision(presented, current)) <==>
            StaleCause(w, c, presented, current)
  {
    hide ReviewsOf, Decided, IsBlank;
  }

  // ---------- the accepted commands ----------

  /** The accepted commands out of a run, in order. */
  function Taken(w: Workflow, commands: seq<Command>): seq<Command>
    decreases |commands|
  {
    if commands == [] then []
    else (if Step(w, commands[0]).Success? then [commands[0]] else []) + Taken(After(w, commands[0]), commands[1..])
  }

  function GoalsIn(taken: seq<Command>): seq<string> {
    if taken == [] then [] else
      GoalsIn(taken[..|taken| - 1]) + match taken[|taken| - 1] case StartInterview(goal) => [goal] case _ => []
  }

  function QuestionsIn(taken: seq<Command>): seq<Question> {
    if taken == [] then [] else
      QuestionsIn(taken[..|taken| - 1]) + match taken[|taken| - 1] case AskQuestion(question) => [question] case _ => []
  }

  function AnswersIn(taken: seq<Command>): seq<QuestionAnswer> {
    if taken == [] then [] else
      AnswersIn(taken[..|taken| - 1]) + match taken[|taken| - 1] case AnswerQuestion(answer) => [answer] case _ => []
  }

  function DocumentsIn(taken: seq<Command>): seq<ProductRequirementsDocument> {
    if taken == [] then [] else
      DocumentsIn(taken[..|taken| - 1]) + match taken[|taken| - 1] case RecordPrd(prd) => [prd] case _ => []
  }

  function LinksIn(taken: seq<Command>): seq<PlanCouncilLink> {
    if taken == [] then [] else
      LinksIn(taken[..|taken| - 1]) + match taken[|taken| - 1] case LinkCouncilReview(link) => [link] case _ => []
  }

  function ProposalsIn(taken: seq<Command>): seq<PlanProposal> {
    if taken == [] then [] else
      ProposalsIn(taken[..|taken| - 1]) + match taken[|taken| - 1] case ProposePlan(proposal) => [proposal] case _ => []
  }

  function ReviewsIn(taken: seq<Command>): seq<PlanReview> {
    if taken == [] then [] else
      ReviewsIn(taken[..|taken| - 1]) + match taken[|taken| - 1] case ReviewPlan(review) => [review] case _ => []
  }

  function ApprovalsIn(taken: seq<Command>): seq<PlanApproval> {
    if taken == [] then [] else
      ApprovalsIn(taken[..|taken| - 1]) + match taken[|taken| - 1] case ApprovePlan(approval) => [approval] case _ => []
  }

  function HandoffsIn(taken: seq<Command>): seq<PlanHandoff> {
    if taken == [] then [] else
      HandoffsIn(taken[..|taken| - 1]) + match taken[|taken| - 1] case HandoffPlan(handoff) => [handoff] case _ => []
  }

  function AsList<T>(value: Option<T>): seq<T> {
    match value
    case Some(v) => [v]
    case None => []
  }

  /** Every history is the accepted commands of its kind; what is set once is the one accepted. */
  ghost predicate HistoriesRecorded(w: Workflow, taken: seq<Command>) {
    && AsList(w.interviewGoal) == GoalsIn(taken)
    && w.questions == QuestionsIn(taken) && w.answers == AnswersIn(taken)
    && AsList(w.prd) == DocumentsIn(taken) && AsList(w.councilLink) == LinksIn(taken)
    && w.proposals == ProposalsIn(taken) && w.reviews == ReviewsIn(taken)
    && w.approvals == ApprovalsIn(taken) && w.handoffs == HandoffsIn(taken)
  }

  predicate MovesStage(command: Command) {
    !command.StartInterview? && !command.RecordPrd? && !command.LinkCouncilReview?
  }

  /** The last accepted command that moves the stage. */
  function LastMove(taken: seq<Command>): Option<Command> {
    if taken == [] then None
    else if MovesStage(taken[|taken| - 1]) then Some(taken[|taken| - 1])
    else LastMove(taken[..|taken| - 1])
  }

  ghost predicate OfRevision(passes: PlanReview -> bool, revision: u32) {
    forall r :: passes(r) <==> r.revision == revision
  }

  ghost predicate ListsReviews(listed: seq<PlanReview>, reviews: seq<PlanReview>, revision: u32) {
    forall passes :: OfRevision(passes, revision) ==> Selects(reviews, listed, passes)
  }

  /** What the last move made of the stage, with the last proposal in it. */
  ghost predicate StageShows(w: Workflow, move: Option<Command>) {
    match move
    case None => w.stage == Idle
    case Some(AskQuestion(question)) => w.stage == QuestionPending(question)
    case Some(AnswerQuestion(_)) => w.stage == Idle
    case Some(other) =>
      w.proposals != [] &&
      var proposal := w.proposals[|w.proposals| - 1];
      match other
      case ProposePlan(proposed) => proposed == proposal && w.stage == Proposed(proposal)
      case ReviewPlan(_) =>
        && w.stage.Reviewed? && w.stage.proposal == proposal
        && ListsReviews(w.stage.stageReviews, w.reviews, proposal.revision)
      case ApprovePlan(approval) =>
        (match approval.decision
         case Approve => w.stage == Approved(proposal, approval)
         case Iterate =>
           (match approval.note
            case Some(note) => w.stage == IterateRequested(proposal, note)
            case None => w.stage == IterateRequested(proposal, "Iteration requested"))
         case Reject =>
           (match approval.note
            case Some(note) => w.stage == Rejected(proposal, note)
            case None => w.stage == Rejected(proposal, "Plan rejected")))
      case HandoffPlan(handoff) => w.stage == Handoff(proposal, handoff)
      case _ => false
  }

  lemma TakeLast(taken: seq<Command>, last: Command)
    ensures (taken + [last])[..|taken + [last]| - 1] == taken && (taken + [last])[|taken + [last]| - 1] == last
  {
  }

  /** One more accepted command joins the history of its kind. */
  lemma TakenGrows(taken: seq<Command>, c: Command)
    ensures GoalsIn(taken + [c]) == if c.StartInterview? then GoalsIn(taken) + [c.goal] else GoalsIn(taken)
    ensures QuestionsIn(taken + [c]) == if c.AskQuestion? then QuestionsIn(taken) + [c.question] else QuestionsIn(taken)
    ensures AnswersIn(taken + [c]) == if c.AnswerQuestion? then AnswersIn(taken) + [c.answer] else AnswersIn(taken)
    ensures DocumentsIn(taken + [c]) == if c.RecordPrd? then DocumentsIn(taken) + [c.prd] else DocumentsIn(taken)
    ensures LinksIn(taken + [c]) == if c.LinkCouncilReview? then LinksIn(taken) + [c.link] else LinksIn(taken)
    ensures ProposalsIn(taken + [c]) == if c.ProposePlan? then ProposalsIn(taken) + [c.proposal] else ProposalsIn(taken)
    ensures ReviewsIn(taken + [c]) == if c.ReviewPlan? then ReviewsIn(taken) + [c.review] else ReviewsIn(taken)
    ensures ApprovalsIn(taken + [c]) == if c.ApprovePlan? then ApprovalsIn(taken) + [c.approval] else ApprovalsIn(taken)
    ensures HandoffsIn(taken + [c]) == if c.HandoffPlan? then HandoffsIn(taken) + [c.handoff] else HandoffsIn(taken)
  {
    TakeLast(taken, c);
  }

  lemma TalkRecorded(w: Workflow, taken: seq<Command>, c: Command)
    requires HistoriesRecorded(w, taken) && Step(w, c).Success? && (c.AskQuestion? || c.AnswerQuestion?)
    ensures HistoriesRecorded(Step(w, c).value, taken + [c])
  {
    hide Start, Record, Link, Propose, Review, Decide, HandOver;
    hide GoalsIn, QuestionsIn, AnswersIn, DocumentsIn, LinksIn, ProposalsIn, ReviewsIn, ApprovalsIn, HandoffsIn;
    TakenGrows(taken, c);
  }

  lemma DocumentRecorded(w: Workflow, taken: seq<Command>, c: Command)
    requires HistoriesRecorded(w, taken) && Step(w, c).Success? && !MovesStage(c)
    ensures HistoriesRecorded(Step(w, c).value, taken + [c])
  {
    hide Ask, Answer, Propose, Review, Decide, HandOver, IsBlank;
    hide GoalsIn, QuestionsIn, AnswersIn, DocumentsIn, LinksIn, ProposalsIn, ReviewsIn, ApprovalsIn, HandoffsIn;
    TakenGrows(taken, c);
  }

  lemma RevisionRecorded(w: Workflow, taken: seq<Command>, c: Command)
    requires HistoriesRecorded(w, taken) && Step(w, c).Success? && !IsOfInterview(c)
    ensures HistoriesRecorded(Step(w, c).value, taken + [c])
  {
    hide Start, Ask, Answer, Record, Link, ReviewsOf, Decided;
    hide GoalsIn, QuestionsIn, AnswersIn, DocumentsIn, LinksIn, ProposalsIn, ReviewsIn, ApprovalsIn, HandoffsIn;
    TakenGrows(taken, c);
  }

  lemma ReviewsListed(reviews: seq<PlanReview>, revision: u32)
    ensures ListsReviews(ReviewsOf(reviews, revision), reviews, revision)
  {
    forall passes | OfRevision(passes, revision) ensures Selects(reviews, ReviewsOf(reviews, revision), passes) {
      ReviewsOfExact(reviews, revision, passes);
    }
  }

  lemma InterviewMoves(w: Workflow, taken: seq<Command>, c: Command)
    requires StageShows(w, LastMove(taken)) && Step(w, c).Success? && IsOfInterview(c)
    ensures StageShows(Step(w, c).value, LastMove(taken + [c]))
  {
    hide Propose, Review, Decide, HandOver, IsBlank, ListsReviews;
    TakeLast(taken, c);
  }

  lemma RevisionMoves(w: Workflow, taken: seq<Command>, c: Command)
    requires Invariant(w) && Step(w, c).Success? && !IsOfInterview(c)
    ensures StageShows(Step(w, c).value, LastMove(taken + [c]))
  {
    hide Start, Ask, Answer, Record, Link, ReviewsOf, ListsReviews;
    hide Ledger, Interview, ReviewsRecorded, HandedOver, Documents;
    TakeLast(taken, c);
    if c.ReviewPlan? {
      ReviewsListed(w.reviews + [c.review], w.activeRevision.value);
    }
  }

  lemma {:induction false} RunSnoc(w: Workflow, commands: seq<Command>, c: Command)
    ensures Run(w, commands + [c]) == After(Run(w, commands), c)
    ensures Taken(w, commands + [c]) == Taken(w, commands) + if Step(Run(w, commands), c).Success? then [c] else []
    decreases |commands|
  {
    hide Step;
    if commands == [] {
      assert commands + [c] == [c] && [c][1..] == [];
    } else {
      RunSnoc(After(w, commands[0]), commands[1..], c);
      assert (commands + [c])[1..] == commands[1..] + [c];
      var first := if Step(w, commands[0]).Success? then [commands[0]] else [];
      var last := if Step(Run(w, commands), c).Success? then [c] else [];
      Rejoin(first, Taken(After(w, commands[0]), commands[1..]), last);
    }
  }

  lemma Rejoin(a: seq<Command>, b: seq<Command>, c: seq<Command>)
    ensures a + (b + c) == a + b + c
  {
  }

  lemma NothingTaken(planId: int)
    ensures Run(NewWorkflow(planId), []) == NewWorkflow(planId) && Taken(NewWorkflow(planId), []) == []
    ensures HistoriesRecorded(NewWorkflow(planId), []) && StageShows(NewWorkflow(planId), LastMove([]))
  {
  }

  /**
   * Over every run from a new workflow: each history is exactly the accepted commands of its kind, in order;
   * the goal, the document and the link are the one accepted; and the stage is what the last move made it.
   */
  lemma {:induction false} RunIsRecorded(planId: int, commands: seq<Command>)
    ensures var w, taken := Run(NewWorkflow(planId), commands), Taken(NewWorkflow(planId), commands);
            HistoriesRecorded(w, taken) && StageShows(w, LastMove(taken))
    decreases |commands|
  {
    hide *;
    if commands == [] {
      NothingTaken(planId);
    } else {
      var before, c := commands[..|commands| - 1], commands[|commands| - 1];
      assert commands == before + [c];
      RunIsRecorded(planId, before);
      ReachableInvariant(planId, before);
      RunSnoc(NewWorkflow(planId), before, c);
      StepRecorded(Run(NewWorkflow(planId), before), Taken(NewWorkflow(planId), before), c);
    }
  }

  lemma StepRecorded(w: Workflow, taken: seq<Command>, c: Command)
    requires Invariant(w) && HistoriesRecorded(w, taken) && StageShows(w, LastMove(taken))
    ensures var more := taken + if Step(w, c).Success? then [c] else [];
            HistoriesRecorded(After(w, c), more) && StageShows(After(w, c), LastMove(more))
  {
    hide Step, Invariant, HistoriesRecorded, StageShows, LastMove;
    if Step(w, c).Success? {
      if IsOfInterview(c) {
        if MovesStage(c) {
          TalkRecorded(w, taken, c);
        } else {
          DocumentRecorded(w, taken, c);
        }
        InterviewMoves(w, taken, c);
      } else {
        RevisionRecorded(w, taken, c);
        RevisionMoves(w, taken, c);
      }
    } else {
      assert taken + [] == taken;
    }
  }
}
