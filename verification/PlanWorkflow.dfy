/**
 * The plan workflow: an eight-stage state machine over append-only histories.
 * `Step` is the specification of one command; the class below performs it in place.
 */
module PlanWorkflows {
  import opened Wrappers
  import opened MachineIntegers
  import opened Text

  const MAX_INTERVIEW_GOAL_CHARS: nat := 8_000
  const MAX_INTERVIEW_QUESTIONS: nat := 8

  datatype Question = Question(id: int, prompt: string, options: seq<string>, isMultiSelect: bool, createdAt: int)

  datatype QuestionAnswer = QuestionAnswer(
    questionId: int, selectedOptions: seq<string>, freeformText: Option<string>, answeredAt: int)

  datatype PrdRequirement = PrdRequirement(id: string, title: string, description: string)

  datatype ProductRequirementsDocument = ProductRequirementsDocument(
    id: int, planId: int, title: string, problem: string, users: seq<string>, requirements: seq<PrdRequirement>,
    acceptanceCriteria: seq<string>, nonGoals: seq<string>, constraints: seq<string>, createdAt: int)

  datatype PlanStep = PlanStep(index: nat, title: string, description: string)

  datatype PlanProposal = PlanProposal(
    planId: int, revision: u32, title: string, summary: string, steps: seq<PlanStep>, proposedAt: int)

  datatype ReviewVerdict = Approve | Iterate | Reject

  datatype PlanReview = PlanReview(
    planId: int, revision: u32, reviewer: string, verdict: ReviewVerdict, feedback: string, reviewedAt: int)

  datatype PlanApproval = PlanApproval(
    planId: int, revision: u32, approver: string, decision: ReviewVerdict, note: Option<string>, approvedAt: int)

  datatype PlanHandoff = PlanHandoff(planId: int, revision: u32, handoffNote: string, createdAt: int)

  datatype PlanCouncilLink = PlanCouncilLink(planId: int, prdId: int, reviewId: int)

  datatype PlanStage =
    | Idle
    | QuestionPending(question: Question)
    | Proposed(proposal: PlanProposal)
    | Reviewed(proposal: PlanProposal, stageReviews: seq<PlanReview>)
    | Approved(proposal: PlanProposal, approval: PlanApproval)
    | IterateRequested(proposal: PlanProposal, feedback: string)
    | Rejected(proposal: PlanProposal, reason: string)
    | Handoff(proposal: PlanProposal, handoff: PlanHandoff)

  /** A snapshot of the workflow's fields. */
  datatype Workflow = Workflow(
    planId: int,
    interviewGoal: Option<string>,
    questions: seq<Question>,
    answers: seq<QuestionAnswer>,
    prd: Option<ProductRequirementsDocument>,
    councilLink: Option<PlanCouncilLink>,
    activeRevision: Option<u32>,
    stage: PlanStage,
    proposals: seq<PlanProposal>,
    reviews: seq<PlanReview>,
    approvals: seq<PlanApproval>,
    handoffs: seq<PlanHandoff>
  )

  datatype PlanError =
    | InvalidTransition(state: string, action: string)
    | StaleRevision(presented: u32, active: u32)

  datatype Command =
    | StartInterview(goal: string)
    | AskQuestion(question: Question)
    | AnswerQuestion(answer: QuestionAnswer)
    | RecordPrd(prd: ProductRequirementsDocument)
    | LinkCouncilReview(link: PlanCouncilLink)
    | ProposePlan(proposal: PlanProposal)
    | ReviewPlan(review: PlanReview)
    | ApprovePlan(approval: PlanApproval)
    | HandoffPlan(handoff: PlanHandoff)

  function NewWorkflow(planId: int): Workflow {
    Workflow(planId, None, [], [], None, None, None, Idle, [], [], [], [])
  }

  /** The reviews of one revision, in recorded order. */
  function ReviewsOf(reviews: seq<PlanReview>, revision: u32): seq<PlanReview> {
    if reviews == [] then [] else
      var last := reviews[|reviews| - 1];
      ReviewsOf(reviews[..|reviews| - 1], revision) + if last.revision == revision then [last] else []
  }

  function Refused(state: string, action: string): Result<Workflow, PlanError> {
    Failure(InvalidTransition(state, action))
  }

  function NoteOr(note: Option<string>, default: string): string {
    match note
    case Some(text) => text
    case None => default
  }

  function Start(w: Workflow, goal: string): Result<Workflow, PlanError> {
    if IsBlank(goal) || |goal| > MAX_INTERVIEW_GOAL_CHARS then Refused("no interview", "start interview")
    else if !w.stage.Idle? || w.interviewGoal.Some? then Refused("workflow already started", "start interview")
    else Success(w.(interviewGoal := Some(goal)))
  }

  function Ask(w: Workflow, question: Question): Result<Workflow, PlanError> {
    if |w.questions| >= MAX_INTERVIEW_QUESTIONS then Refused("question budget exhausted", "ask question")
    else if w.stage.Idle? || w.stage.IterateRequested? then
      Success(w.(questions := w.questions + [question], stage := QuestionPending(question)))
    else if w.stage.QuestionPending? then Refused("question pending", "ask question")
    else Refused("proposal decision", "ask question")
  }

  function Answer(w: Workflow, answer: QuestionAnswer): Result<Workflow, PlanError> {
    if !w.stage.QuestionPending? then Refused("not question pending", "answer question")
    else if w.stage.question.id != answer.questionId then Refused("question pending", "answer question")
    else Success(w.(answers := w.answers + [answer], stage := Idle))
  }

  function Record(w: Workflow, prd: ProductRequirementsDocument): Result<Workflow, PlanError> {
    if prd.planId != w.planId then Refused("plan mismatch", "record PRD")
    else if w.interviewGoal.None? || w.prd.Some? then Refused("PRD state mismatch", "record PRD")
    else if !w.stage.Idle? then Refused("question pending", "record PRD")
    else Success(w.(prd := Some(prd)))
  }

  function Link(w: Workflow, link: PlanCouncilLink): Result<Workflow, PlanError> {
    if link.planId != w.planId then Refused("plan mismatch", "link council review")
    else if w.prd.None? then Refused("no PRD", "link council review")
    else if w.prd.value.id != link.prdId || w.councilLink.Some? then
      Refused("council link mismatch", "link council review")
    else Success(w.(councilLink := Some(link)))
  }

  function Propose(w: Workflow, proposal: PlanProposal): Result<Workflow, PlanError> {
    if proposal.planId != w.planId then Refused("plan mismatch", "propose plan")
    else if !w.stage.Idle? && !w.stage.IterateRequested? then Refused("stage mismatch", "propose plan")
    else if w.activeRevision.Some? && proposal.revision <= w.activeRevision.value then
      Failure(StaleRevision(proposal.revision, w.activeRevision.value))
    // The 32-bit increment cannot overflow here: a larger revision was presented.
    else if w.activeRevision.Some? && proposal.revision != w.activeRevision.value + 1 then
      Refused("proposal", "propose plan")
    else if w.activeRevision.None? && proposal.revision != 1 then Failure(StaleRevision(proposal.revision, 1))
    else Success(w.(activeRevision := Some(proposal.revision),
                    stage := Proposed(proposal),
                    proposals := w.proposals + [proposal]))
  }

  /** The checks shared by review, approval and handoff: the plan, a proposal, the active revision. */
  function Targets(w: Workflow, planId: int, revision: u32, action: string): Outcome<PlanError> {
    if planId != w.planId then Fail(InvalidTransition("plan mismatch", action))
    else if w.activeRevision.None? then Fail(InvalidTransition("idle", action))
    else if revision != w.activeRevision.value then Fail(StaleRevision(revision, w.activeRevision.value))
    else Pass
  }

  function Review(w: Workflow, review: PlanReview): Result<Workflow, PlanError> {
    match Targets(w, review.planId, review.revision, "review plan")
    case Fail(error) => Failure(error)
    case Pass =>
      if !w.stage.Proposed? && !w.stage.Reviewed? then Refused("stage mismatch", "review plan")
      else
        var reviews := w.reviews + [review];
        Success(w.(reviews := reviews,
                   stage := Reviewed(w.stage.proposal, ReviewsOf(reviews, w.activeRevision.value))))
  }

  function Decided(proposal: PlanProposal, approval: PlanApproval): PlanStage {
    match approval.decision
    case Approve => Approved(proposal, approval)
    case Iterate => IterateRequested(proposal, NoteOr(approval.note, "Iteration requested"))
    case Reject => Rejected(proposal, NoteOr(approval.note, "Plan rejected"))
  }

  function Decide(w: Workflow, approval: PlanApproval): Result<Workflow, PlanError> {
    match Targets(w, approval.planId, approval.revision, "approve plan")
    case Fail(error) => Failure(error)
    case Pass =>
      if !w.stage.Proposed? && !w.stage.Reviewed? then Refused("stage mismatch", "approve plan")
      else Success(w.(approvals := w.approvals + [approval], stage := Decided(w.stage.proposal, approval)))
  }

  function HandOver(w: Workflow, handoff: PlanHandoff): Result<Workflow, PlanError> {
    match Targets(w, handoff.planId, handoff.revision, "handoff plan")
    case Fail(error) => Failure(error)
    case Pass =>
      if !w.stage.Approved? then Refused("not approved", "handoff plan")
      else Success(w.(handoffs := w.handoffs + [handoff], stage := Handoff(w.stage.proposal, handoff)))
  }

  /** One command, accepted with the new workflow or refused. */
  function Step(w: Workflow, command: Command): Result<Workflow, PlanError> {
    match command
    case StartInterview(goal) => Start(w, goal)
    case AskQuestion(question) => Ask(w, question)
    case AnswerQuestion(answer) => Answer(w, answer)
    case RecordPrd(prd) => Record(w, prd)
    case LinkCouncilReview(link) => Link(w, link)
    case ProposePlan(proposal) => Propose(w, proposal)
    case ReviewPlan(review) => Review(w, review)
    case ApprovePlan(approval) => Decide(w, approval)
    case HandoffPlan(handoff) => HandOver(w, handoff)
  }

  /** A method did what `Step` says: the accepted workflow, or the error and nothing changed. */
  ghost predicate Performs(before: Workflow, command: Command, after: Workflow, outcome: Outcome<PlanError>) {
    match Step(before, command)
    case Success(w) => outcome == Pass && after == w
    case Failure(error) => outcome == Fail(error) && after == before
  }

  class PlanWorkflow {
    const planId: int
    var interviewGoal: Option<string>
    var questions: seq<Question>
    var answers: seq<QuestionAnswer>
    var prd: Option<ProductRequirementsDocument>
    var councilLink: Option<PlanCouncilLink>
    var activeRevision: Option<u32>
    var stage: PlanStage
    var proposals: seq<PlanProposal>
    var reviews: seq<PlanReview>
    var approvals: seq<PlanApproval>
    var handoffs: seq<PlanHandoff>

    constructor (planId: int)
      ensures View() == NewWorkflow(planId)
    {
      this.planId := planId;
      interviewGoal, questions, answers, prd, councilLink := None, [], [], None, None;
      activeRevision, stage := None, Idle;
      proposals, reviews, approvals, handoffs := [], [], [], [];
    }

    ghost function View(): Workflow
      reads this
    {
      Workflow(planId, interviewGoal, questions, answers, prd, councilLink, activeRevision, stage,
               proposals, reviews, approvals, handoffs)
    }

    method StartInterview(goal: string) returns (outcome: Outcome<PlanError>)
      modifies this`interviewGoal
      ensures Performs(old(View()), Command.StartInterview(goal), View(), outcome)
    {
      if IsBlank(goal) || |goal| > MAX_INTERVIEW_GOAL_CHARS {
        return Fail(InvalidTransition("no interview", "start interview"));
      }
      if !stage.Idle? || interviewGoal.Some? {
        return Fail(InvalidTransition("workflow already started", "start interview"));
      }
      interviewGoal := Some(goal);
      return Pass;
    }

    method AskQuestion(question: Question) returns (outcome: Outcome<PlanError>)
      modifies this`questions, this`stage
      ensures Performs(old(View()), Command.AskQuestion(question), View(), outcome)
    {
      if |questions| >= MAX_INTERVIEW_QUESTIONS {
        return Fail(InvalidTransition("question budget exhausted", "ask question"));
      }
      match stage {
        case Idle | IterateRequested(_, _) =>
          questions := questions + [question];
          stage := QuestionPending(question);
          return Pass;
        case QuestionPending(_) =>
          return Fail(InvalidTransition("question pending", "ask question"));
        case _ =>
          return Fail(InvalidTransition("proposal decision", "ask question"));
      }
    }

    method AnswerQuestion(answer: QuestionAnswer) returns (outcome: Outcome<PlanError>)
      modifies this`answers, this`stage
      ensures Performs(old(View()), Command.AnswerQuestion(answer), View(), outcome)
    {
      match stage {
        case QuestionPending(question) =>
          if question.id != answer.questionId {
            return Fail(InvalidTransition("question pending", "answer question"));
          }
          answers := answers + [answer];
          stage := Idle;
          return Pass;
        case _ =>
          return Fail(InvalidTransition("not question pending", "answer question"));
      }
    }

    method RecordPrd(document: ProductRequirementsDocument) returns (outcome: Outcome<PlanError>)
      modifies this`prd
      ensures Performs(old(View()), Command.RecordPrd(document), View(), outcome)
    {
      if document.planId != planId {
        return Fail(InvalidTransition("plan mismatch", "record PRD"));
      }
      if interviewGoal.None? || prd.Some? {
        return Fail(InvalidTransition("PRD state mismatch", "record PRD"));
      }
      if !stage.Idle? {
        return Fail(InvalidTransition("question pending", "record PRD"));
      }
      prd := Some(document);
      return Pass;
    }

    method LinkCouncilReview(link: PlanCouncilLink) returns (outcome: Outcome<PlanError>)
      modifies this`councilLink
      ensures Performs(old(View()), Command.LinkCouncilReview(link), View(), outcome)
    {
      if link.planId != planId {
        return Fail(InvalidTransition("plan mismatch", "link council review"));
      }
      if prd.None? {
        return Fail(InvalidTransition("no PRD", "link council review"));
      }
      if prd.value.id != link.prdId || councilLink.Some? {
        return Fail(InvalidTransition("council link mismatch", "link council review"));
      }
      councilLink := Some(link);
      return Pass;
    }

    method ProposePlan(proposal: PlanProposal) returns (outcome: Outcome<PlanError>)
      modifies this`activeRevision, this`stage, this`proposals
      ensures Performs(old(View()), Command.ProposePlan(proposal), View(), outcome)
    {
      if proposal.planId != planId {
        return Fail(InvalidTransition("plan mismatch", "propose plan"));
      }
      if !stage.Idle? && !stage.IterateRequested? {
        return Fail(InvalidTransition("stage mismatch", "propose plan"));
      }
      match activeRevision {
        case Some(active) =>
          if proposal.revision <= active {
            return Fail(StaleRevision(proposal.revision, active));
          }
          if proposal.revision != active + 1 {
            return Fail(InvalidTransition("proposal", "propose plan"));
          }
        case None =>
          if proposal.revision != 1 {
            return Fail(StaleRevision(proposal.revision, 1));
          }
      }
      activeRevision := Some(proposal.revision);
      stage := Proposed(proposal);
      proposals := proposals + [proposal];
      return Pass;
    }

    method ReviewPlan(review: PlanReview) returns (outcome: Outcome<PlanError>)
      modifies this`reviews, this`stage
      ensures Performs(old(View()), Command.ReviewPlan(review), View(), outcome)
    {
      if review.planId != planId {
        return Fail(InvalidTransition("plan mismatch", "review plan"));
      }
      if activeRevision.None? {
        return Fail(InvalidTransition("idle", "review plan"));
      }
      var active := activeRevision.value;
      if review.revision != active {
        return Fail(StaleRevision(review.revision, active));
      }
      if !stage.Proposed? && !stage.Reviewed? {
        return Fail(InvalidTransition("stage mismatch", "review plan"));
      }
      reviews := reviews + [review];
      stage := Reviewed(stage.proposal, ReviewsOf(reviews, active));
      return Pass;
    }

    method ApprovePlan(approval: PlanApproval) returns (outcome: Outcome<PlanError>)
      modifies this`approvals, this`stage
      ensures Performs(old(View()), Command.ApprovePlan(approval), View(), outcome)
    {
      if approval.planId != planId {
        return Fail(InvalidTransition("plan mismatch", "approve plan"));
      }
      if activeRevision.None? {
        return Fail(InvalidTransition("idle", "approve plan"));
      }
      if approval.revision != activeRevision.value {
        return Fail(StaleRevision(approval.revision, activeRevision.value));
      }
      if !stage.Proposed? && !stage.Reviewed? {
        return Fail(InvalidTransition("stage mismatch", "approve plan"));
      }
      var proposal := stage.proposal;
      approvals := approvals + [approval];
      match approval.decision {
        case Approve => stage := Approved(proposal, approval);
        case Iterate => stage := IterateRequested(proposal, NoteOr(approval.note, "Iteration requested"));
        case Reject => stage := Rejected(proposal, NoteOr(approval.note, "Plan rejected"));
      }
      return Pass;
    }

    method HandoffPlan(handoff: PlanHandoff) returns (outcome: Outcome<PlanError>)
      modifies this`handoffs, this`stage
      ensures Performs(old(View()), Command.HandoffPlan(handoff), View(), outcome)
    {
      if handoff.planId != planId {
        return Fail(InvalidTransition("plan mismatch", "handoff plan"));
      }
      if activeRevision.None? {
        return Fail(InvalidTransition("idle", "handoff plan"));
      }
      if handoff.revision != activeRevision.value {
        return Fail(StaleRevision(handoff.revision, activeRevision.value));
      }
      if !stage.Approved? {
        return Fail(InvalidTransition("not approved", "handoff plan"));
      }
      handoffs := handoffs + [handoff];
      stage := Handoff(stage.proposal, handoff);
      return Pass;
    }
  }
}
