/** What holds of a plan workflow after any run of commands. */
module PlanRuns {
  import opened Selections
  import opened Wrappers
  import opened MachineIntegers
  import opened PlanWorkflows

  // ---------- the invariant ----------

  /** Proposals carry revisions 1, 2, ... without a gap; the active revision is the last of them. */
  ghost predicate Numbered(w: Workflow) {
    && (forall i :: 0 <= i < |w.proposals| ==>
          w.proposals[i].revision as int == i + 1 && w.proposals[i].planId == w.planId)
    && match w.activeRevision
       case None => |w.proposals| == 0
       case Some(n) => n as int == |w.proposals| > 0
  }

  predicate HasProposal(stage: PlanStage) {
    !stage.Idle? && !stage.QuestionPending?
  }

  /** A stage that shows a proposal shows the last one. */
  ghost predicate ShowsLast(w: Workflow) {
    HasProposal(w.stage) ==> w.proposals != [] && w.stage.proposal == w.proposals[|w.proposals| - 1]
  }

  predicate Undecided(stage: PlanStage) {
    stage.Proposed? || stage.Reviewed?
  }

  /** Approval i names revision i; all but the last ask to iterate, and the last is the stage's. */
  ghost predicate Ledger(w: Workflow) {
    && |w.approvals| == |w.proposals| - (if Undecided(w.stage) then 1 else 0)
    && (forall i :: 0 <= i < |w.approvals| ==>
          w.approvals[i].revision as int == i + 1 && w.approvals[i].planId == w.planId)
    && (forall i :: 0 <= i < |w.approvals| - 1 ==> w.approvals[i].decision == Iterate)
    && (w.approvals != [] ==>
          var last := w.approvals[|w.approvals| - 1];
          match w.stage
          case Idle | QuestionPending(_) | Proposed(_) | Reviewed(_, _) => last.decision == Iterate
          case Approved(_, approval) => last == approval && last.decision == Approve
          case IterateRequested(_, feedback) =>
            last.decision == Iterate && feedback == NoteOr(last.note, "Iteration requested")
          case Rejected(_, reason) => last.decision == Reject && reason == NoteOr(last.note, "Plan rejected")
          case Handoff(_, _) => last.decision == Approve)
  }

  /** Answers pair with questions in order and lag by one exactly while a question is pending. */
  ghost predicate Interview(w: Workflow) {
    && |w.questions| <= MAX_INTERVIEW_QUESTIONS
    && |w.answers| == |w.questions| - (if w.stage.QuestionPending? then 1 else 0)
    && (forall i :: 0 <= i < |w.answers| ==> w.answers[i].questionId == w.questions[i].id)
    && (w.stage.QuestionPending? ==> w.stage.question == w.questions[|w.questions| - 1])
  }

  /** The reviewed stage lists exactly the reviews of the active revision; a fresh proposal has none. */
  ghost predicate ReviewsRecorded(w: Workflow) {
    && (forall i :: 0 <= i < |w.reviews| ==>
          1 <= w.reviews[i].revision as int <= |w.proposals| && w.reviews[i].planId == w.planId)
    && (w.activeRevision.Some? ==>
          && (w.stage.Proposed? ==> ReviewsOf(w.reviews, w.activeRevision.value) == [])
          && (w.stage.Reviewed? ==>
                w.stage.stageReviews == ReviewsOf(w.reviews, w.activeRevision.value) != []))
  }

  /** There is a handoff only in the last stage, and it names the active revision. */
  ghost predicate HandedOver(w: Workflow) {
    if w.stage.Handoff?
    then w.handoffs == [w.stage.handoff] && w.activeRevision == Some(w.stage.handoff.revision)
         && w.stage.handoff.planId == w.planId
    else w.handoffs == []
  }

  /** A requirements document belongs to an interview, and a council link names that document. */
  ghost predicate Documents(w: Workflow) {
    && (w.prd.Some? ==> w.interviewGoal.Some? && w.prd.value.planId == w.planId)
    && (w.councilLink.Some? ==>
          w.prd.Some? && w.councilLink.value.prdId == w.prd.value.id && w.councilLink.value.planId == w.planId)
  }

  ghost predicate Invariant(w: Workflow) {
    Numbered(w) && ShowsLast(w) && Ledger(w) && Interview(w) && ReviewsRecorded(w) && HandedOver(w) && Documents(w)
  }

  lemma {:induction false} NoReviewsOfLater(reviews: seq<PlanReview>, revision: u32)
    requires forall i :: 0 <= i < |reviews| ==> reviews[i].revision < revision
    ensures ReviewsOf(reviews, revision) == []
  {
    if reviews != [] {
      NoReviewsOfLater(reviews[..|reviews| - 1], revision);
    }
  }

  /** `ReviewsOf` is the recorded reviews of that revision, each as often as recorded and in that order. */
  lemma {:induction false} ReviewsOfExact(reviews: seq<PlanReview>, revision: u32, passes: PlanReview -> bool)
    requires forall r :: passes(r) <==> r.revision == revision
    ensures Selects(reviews, ReviewsOf(reviews, revision), passes)
    decreases |reviews|
  {
    hide Selects;
    if reviews == [] {
      SelectsNothing(passes);
    } else {
      var before, last := reviews[..|reviews| - 1], reviews[|reviews| - 1];
      ReviewsOfExact(before, revision, passes);
      assert ReviewsOf(before, revision) + [] == ReviewsOf(before, revision);
      SelectsSnoc(before, ReviewsOf(before, revision), passes, last);
      assert reviews == before + [last];
    }
  }

  lemma ProposeKeeps(w: Workflow, proposal: PlanProposal)
    requires Invariant(w) && Propose(w, proposal).Success?
    ensures Invariant(Propose(w, proposal).value)
  {
    hide ReviewsOf;
    NoReviewsOfLater(w.reviews, proposal.revision);
  }

  lemma ReviewKeeps(w: Workflow, review: PlanReview)
    requires Invariant(w) && Review(w, review).Success?
    ensures Invariant(Review(w, review).value)
  {
    var reviews := w.reviews + [review];
    assert reviews[..|reviews| - 1] == w.reviews;
  }

  lemma AskKeeps(w: Workflow, question: Question)
    requires Invariant(w) && Ask(w, question).Success?
    ensures Invariant(Ask(w, question).value)
  {
    assert |w.approvals| == |w.proposals|;
  }

  lemma AnswerKeeps(w: Workflow, answer: QuestionAnswer)
    requires Invariant(w) && Answer(w, answer).Success?
    ensures Invariant(Answer(w, answer).value)
  {
  }

  lemma DecideKeeps(w: Workflow, approval: PlanApproval)
    requires Invariant(w) && Decide(w, approval).Success?
    ensures Invariant(Decide(w, approval).value)
  {
    hide ReviewsOf;
    var next := Decide(w, approval).value;
    assert next.approvals[|next.approvals| - 1] == approval;
  }

  lemma HandOverKeeps(w: Workflow, handoff: PlanHandoff)
    requires Invariant(w) && HandOver(w, handoff).Success?
    ensures Invariant(HandOver(w, handoff).value)
  {
  }

  lemma DocumentsKeep(w: Workflow, command: Command)
    requires Invariant(w) && Step(w, command).Success?
    requires command.StartInterview? || command.RecordPrd? || command.LinkCouncilReview?
    ensures Invariant(Step(w, command).value)
  {
    var next := Step(w, command).value;
    assert next.stage == w.stage && next.proposals == w.proposals && next.approvals == w.approvals;
  }

  /** Every accepted command keeps the invariant. */
  lemma StepKeeps(w: Workflow, command: Command)
    requires Invariant(w) && Step(w, command).Success?
    ensures Invariant(Step(w, command).value)
  {
    match command
    case AskQuestion(question) => AskKeeps(w, question);
    case AnswerQuestion(answer) => AnswerKeeps(w, answer);
    case ProposePlan(proposal) => ProposeKeeps(w, proposal);
    case ReviewPlan(review) => ReviewKeeps(w, review);
    case ApprovePlan(approval) => DecideKeeps(w, approval);
    case HandoffPlan(handoff) => HandOverKeeps(w, handoff);
    case _ => DocumentsKeep(w, command);
  }

  // ---------- runs ----------

  /** The workflow after one command: a refused one leaves it as it was. */
  function After(w: Workflow, command: Command): Workflow {
    match Step(w, command)
    case Success(next) => next
    case Failure(_) => w
  }

  function Run(w: Workflow, commands: seq<Command>): Workflow
    decreases |commands|
  {
    if commands == [] then w else Run(After(w, commands[0]), commands[1..])
  }

  lemma {:induction false} RunKeeps(w: Workflow, commands: seq<Command>)
    requires Invariant(w)
    ensures Invariant(Run(w, commands))
    decreases |commands|
  {
    if commands != [] {
      if Step(w, commands[0]).Success? {
        StepKeeps(w, commands[0]);
      }
      RunKeeps(After(w, commands[0]), commands[1..]);
    }
  }

  /** Every reachable workflow meets the invariant. */
  lemma ReachableInvariant(planId: int, commands: seq<Command>)
    ensures Invariant(Run(NewWorkflow(planId), commands))
    ensures Run(NewWorkflow(planId), commands).planId == planId
  {
    RunKeeps(NewWorkflow(planId), commands);
    RunAppendOnly(NewWorkflow(planId), commands);
  }

  ghost predicate KeptOnce<T>(earlier: Option<T>, later: Option<T>) {
    earlier.Some? ==> later == earlier
  }

  /** Histories only grow at the end, and a document once recorded stays. */
  ghost predicate AppendOnly(earlier: Workflow, later: Workflow) {
    && earlier.planId == later.planId
    && earlier.questions <= later.questions
    && earlier.answers <= later.answers
    && earlier.proposals <= later.proposals
    && earlier.reviews <= later.reviews
    && earlier.approvals <= later.approvals
    && earlier.handoffs <= later.handoffs
    && KeptOnce(earlier.interviewGoal, later.interviewGoal)
    && KeptOnce(earlier.prd, later.prd)
    && KeptOnce(earlier.councilLink, later.councilLink)
  }

  predicate IsOfInterview(command: Command) {
    || command.StartInterview? || command.AskQuestion? || command.AnswerQuestion?
    || command.RecordPrd? || command.LinkCouncilReview?
  }

  lemma InterviewAppends(w: Workflow, command: Command)
    requires IsOfInterview(command)
    ensures AppendOnly(w, After(w, command))
  {
    hide Propose, Review, Decide, HandOver;
  }

  lemma RevisionAppends(w: Workflow, command: Command)
    requires !IsOfInterview(command)
    ensures AppendOnly(w, After(w, command))
  {
    hide Start, Ask, Answer, Record, Link, ReviewsOf, Decided;
  }

  lemma StepAppendOnly(w: Workflow, command: Command)
    ensures AppendOnly(w, After(w, command))
  {
    hide AppendOnly, After;
    if IsOfInterview(command) {
      InterviewAppends(w, command);
    } else {
      RevisionAppends(w, command);
    }
  }

  lemma {:induction false} RunAppendOnly(w: Workflow, commands: seq<Command>)
    ensures AppendOnly(w, Run(w, commands))
    decreases |commands|
  {
    if commands != [] {
      StepAppendOnly(w, commands[0]);
      RunAppendOnly(After(w, commands[0]), commands[1..]);
    }
  }

  lemma FinalStageStep(w: Workflow, command: Command)
    requires w.stage.Rejected? || w.stage.Handoff?
    ensures After(w, command) == w.(councilLink := After(w, command).councilLink)
  {
  }

  /** A judged plan is final: nothing but a first council link is ever accepted. */
  lemma {:induction false} FinalStagesStay(w: Workflow, commands: seq<Command>)
    requires w.stage.Rejected? || w.stage.Handoff?
    ensures Run(w, commands) == w.(councilLink := Run(w, commands).councilLink)
    decreases |commands|
  {
    if commands != [] {
      FinalStageStep(w, commands[0]);
      FinalStagesStay(After(w, commands[0]), commands[1..]);
    }
  }

  lemma ApprovedStep(w: Workflow, command: Command)
    requires w.stage.Approved?
    ensures var next := After(w, command);
            && next.proposals == w.proposals && next.approvals == w.approvals
            && (next.stage == w.stage || (next.stage.Handoff? && next.stage.proposal == w.stage.proposal))
  {
  }

  /** An approved plan stays approved with the same approval, or has been handed off. */
  lemma {:induction false} ApprovedOnlyHandsOff(w: Workflow, commands: seq<Command>)
    requires w.stage.Approved?
    ensures var later := Run(w, commands);
            && later.proposals == w.proposals && later.approvals == w.approvals
            && (later.stage == w.stage || (later.stage.Handoff? && later.stage.proposal == w.stage.proposal))
    decreases |commands|
  {
    if commands != [] {
      var next := After(w, commands[0]);
      ApprovedStep(w, commands[0]);
      if next.stage.Handoff? {
        FinalStagesStay(next, commands[1..]);
      } else {
        ApprovedOnlyHandsOff(next, commands[1..]);
      }
    }
  }

  /** In a reachable workflow a proposal is accepted exactly when it is the next number in an open stage. */
  lemma ProposalAcceptedExactly(w: Workflow, proposal: PlanProposal)
    requires Invariant(w)
    ensures Step(w, ProposePlan(proposal)).Success? <==>
            && proposal.planId == w.planId
            && (w.stage.Idle? || w.stage.IterateRequested?)
            && proposal.revision as int == |w.proposals| + 1
  {
  }

  /** At the largest revision number every further proposal is refused as stale, before the increment. */
  lemma LastRevisionRefusesAll(w: Workflow, proposal: PlanProposal)
    requires w.activeRevision == Some(U32_MAX) && proposal.planId == w.planId
    requires w.stage.Idle? || w.stage.IterateRequested?
    ensures Step(w, ProposePlan(proposal)) == Failure(StaleRevision(proposal.revision, U32_MAX))
  {
  }

  /** Handing off needs the human approval of that same revision: no run reaches a handoff without it. */
  lemma HandoffWasApproved(planId: int, commands: seq<Command>)
    ensures var w := Run(NewWorkflow(planId), commands);
            w.stage.Handoff? ==>
              && |w.handoffs| == 1
              && w.approvals != []
              && var approval := w.approvals[|w.approvals| - 1];
                 approval.decision == Approve && approval.revision == w.handoffs[0].revision
                 && approval.revision as int == |w.proposals|
  {
    ReachableInvariant(planId, commands);
  }
}
