/** Decision tickets and their resolutions: one additive chain per ticket. */
module DecisionBoard {
  import opened Wrappers

  datatype DecisionTicketKind = Research | Prototype | Grilling | Task

  datatype DecisionTicket = DecisionTicket(
    id: int, question: string, kind: DecisionTicketKind, options: seq<string>, blockedBy: seq<int>)

  /** The author is always the human, so it is not a field here. */
  datatype DecisionResolution = DecisionResolution(
    id: int, ticket: int, question: string, options: seq<string>, chosenOption: nat,
    decidedAt: int, note: Option<string>, supersedes: Option<int>)

  datatype ResolutionRefusal = UnknownTicket | QuestionDrift | OptionsDrift | ChoiceOutOfRange | BrokenChain

  /** The resolution is of this ticket: quoted verbatim, with a recorded option chosen. */
  ghost predicate Quotes(ticket: DecisionTicket, r: DecisionResolution) {
    && r.ticket == ticket.id && r.question == ticket.question && r.options == ticket.options
    && r.chosenOption < |ticket.options|
  }

  /** A first resolution supersedes nothing; any other names the one it replaces. */
  ghost predicate Follows(current: Option<DecisionResolution>, r: DecisionResolution) {
    match current
    case None => r.supersedes == None
    case Some(prior) => r.supersedes == Some(prior.id)
  }

  /** Why a resolution is refused, in the order the checks are made. */
  function Refusal(ticket: DecisionTicket, current: Option<DecisionResolution>, r: DecisionResolution)
    : (refusal: Option<ResolutionRefusal>)
    ensures refusal.None? <==> Quotes(ticket, r) && Follows(current, r)
    ensures refusal.Some? ==> match refusal.value
              case UnknownTicket => r.ticket != ticket.id
              case QuestionDrift => r.question != ticket.question
              case OptionsDrift => r.options != ticket.options
              case ChoiceOutOfRange => r.chosenOption >= |ticket.options|
              case BrokenChain => !Follows(current, r)
  {
    if r.ticket != ticket.id then Some(UnknownTicket)
    else if r.question != ticket.question then Some(QuestionDrift)
    else if r.options != ticket.options then Some(OptionsDrift)
    else if r.chosenOption >= |ticket.options| then Some(ChoiceOutOfRange)
    else match (current, r.supersedes)
      case (None, None) => None
      case (Some(prior), Some(named)) => if named == prior.id then None else Some(BrokenChain)
      case _ => Some(BrokenChain)
  }

  /** Each refusal is given exactly when its check is the first to fail. */
  lemma RefusedExactly(ticket: DecisionTicket, current: Option<DecisionResolution>, r: DecisionResolution)
    ensures var refusal := Refusal(ticket, current, r);
            && (refusal == Some(UnknownTicket) <==> r.ticket != ticket.id)
            && (refusal == Some(QuestionDrift) <==> r.ticket == ticket.id && r.question != ticket.question)
            && (refusal == Some(OptionsDrift) <==>
                r.ticket == ticket.id && r.question == ticket.question && r.options != ticket.options)
            && (refusal == Some(ChoiceOutOfRange) <==>
                && r.ticket == ticket.id && r.question == ticket.question && r.options == ticket.options
                && r.chosenOption >= |r.options|)
            && (refusal == Some(BrokenChain) <==> Quotes(ticket, r) && !Follows(current, r))
  {
  }

  class DecisionTicketRecord {
    const ticket: DecisionTicket
    var resolution: Option<DecisionResolution>

    constructor (ticket: DecisionTicket)
      ensures this.ticket == ticket && resolution == None
    {
      this.ticket := ticket;
      resolution := None;
    }

    method ApplyResolution(r: DecisionResolution) returns (outcome: Outcome<ResolutionRefusal>)
      modifies this
      ensures match Refusal(ticket, old(resolution), r)
              case None => outcome == Pass && resolution == Some(r)
              case Some(refusal) => outcome == Fail(refusal) && resolution == old(resolution)
    {
      if r.ticket != ticket.id {
        return Fail(UnknownTicket);
      }
      if r.question != ticket.question {
        return Fail(QuestionDrift);
      }
      if r.options != ticket.options {
        return Fail(OptionsDrift);
      }
      if r.chosenOption >= |ticket.options| {
        return Fail(ChoiceOutOfRange);
      }
      match (resolution, r.supersedes) {
        case (None, None) =>
        case (Some(current), Some(prior)) =>
          if prior != current.id {
            return Fail(BrokenChain);
          }
        case _ =>
          return Fail(BrokenChain);
      }
      resolution := Some(r);
      return Pass;
    }
  }

  // ---------- runs ----------

  function Current(accepted: seq<DecisionResolution>): Option<DecisionResolution> {
    if accepted == [] then None else Some(accepted[|accepted| - 1])
  }

  /** The resolutions a fresh record accepts out of a run of attempts, in order. */
  function Replay(ticket: DecisionTicket, attempts: seq<DecisionResolution>): seq<DecisionResolution>
    decreases |attempts|
  {
    if attempts == [] then [] else
      var accepted := Replay(ticket, attempts[..|attempts| - 1]);
      var r := attempts[|attempts| - 1];
      if Refusal(ticket, Current(accepted), r).None? then accepted + [r] else accepted
  }

  ghost predicate Linked(ticket: DecisionTicket, accepted: seq<DecisionResolution>, i: nat)
    requires i < |accepted|
  {
    Quotes(ticket, accepted[i]) &&
    accepted[i].supersedes == if i == 0 then None else Some(accepted[i - 1].id)
  }

  /** One chain: the first link supersedes nothing, each later one its predecessor, all quote the ticket. */
  ghost predicate Chain(ticket: DecisionTicket, accepted: seq<DecisionResolution>) {
    forall i :: 0 <= i < |accepted| ==> Linked(ticket, accepted, i)
  }

  lemma ChainSnoc(ticket: DecisionTicket, accepted: seq<DecisionResolution>, r: DecisionResolution)
    ensures Chain(ticket, accepted + [r]) <==>
            Chain(ticket, accepted) && Quotes(ticket, r) && Follows(Current(accepted), r)
  {
    var longer := accepted + [r];
    assert Linked(ticket, longer, |accepted|) <==> Quotes(ticket, r) && Follows(Current(accepted), r);
    forall i | 0 <= i < |accepted| ensures Linked(ticket, longer, i) <==> Linked(ticket, accepted, i) {
      assert longer[i] == accepted[i] && (i > 0 ==> longer[i - 1] == accepted[i - 1]);
    }
  }

  /** Whatever is attempted, what was accepted is one chain. */
  lemma {:induction false} ReplayIsChain(ticket: DecisionTicket, attempts: seq<DecisionResolution>)
    ensures Chain(ticket, Replay(ticket, attempts))
    decreases |attempts|
  {
    if attempts != [] {
      var before := attempts[..|attempts| - 1];
      ReplayIsChain(ticket, before);
      ChainSnoc(ticket, Replay(ticket, before), attempts[|attempts| - 1]);
    }
  }

  /** A chain, and only a chain, is accepted whole. */
  lemma {:induction false} ChainIsAccepted(ticket: DecisionTicket, attempts: seq<DecisionResolution>)
    ensures Replay(ticket, attempts) == attempts <==> Chain(ticket, attempts)
    decreases |attempts|
  {
    ReplayIsChain(ticket, attempts);
    if Chain(ticket, attempts) && attempts != [] {
      var before := attempts[..|attempts| - 1];
      var last := attempts[|attempts| - 1];
      assert attempts == before + [last];
      ChainSnoc(ticket, before, last);
      ChainIsAccepted(ticket, before);
    }
  }

  /** More attempts never rewrite what was accepted before. */
  lemma {:induction false} ReplayIsAdditive(ticket: DecisionTicket, attempts: seq<DecisionResolution>,
                                            more: seq<DecisionResolution>)
    ensures Replay(ticket, attempts) <= Replay(ticket, attempts + more)
    decreases |more|
  {
    if more == [] {
      assert attempts + more == attempts;
    } else {
      var fewer := more[..|more| - 1];
      ReplayIsAdditive(ticket, attempts, fewer);
      assert (attempts + more)[..|attempts + more| - 1] == attempts + fewer;
    }
  }

  // ---------- recovering the order ----------

  ghost predicate DistinctIds(accepted: seq<DecisionResolution>) {
    forall i, j :: 0 <= i < j < |accepted| ==> accepted[i].id != accepted[j].id
  }

  /** Walks the `supersedes` references back through an unordered log, oldest first in the result. */
  ghost function WalkBack(log: set<DecisionResolution>, at: Option<int>): seq<DecisionResolution>
    decreases |log|
  {
    match at
    case None => []
    case Some(id) =>
      if exists r :: r in log && r.id == id then
        var r :| r in log && r.id == id;
        WalkBack(log - {r}, r.supersedes) + [r]
      else []
  }

  ghost predicate Newest(log: set<DecisionResolution>, r: DecisionResolution) {
    r in log && forall s :: s in log ==> s.supersedes != Some(r.id)
  }

  function Members(accepted: seq<DecisionResolution>): set<DecisionResolution> {
    set r | r in accepted
  }

  /** Distinct ids: only the last resolution has its id, and the others make up the rest of the log. */
  lemma LastIsSeparate(accepted: seq<DecisionResolution>)
    requires DistinctIds(accepted) && accepted != []
    ensures var last := accepted[|accepted| - 1];
            && last in Members(accepted)
            && (forall r :: r in Members(accepted) && r.id == last.id ==> r == last)
            && Members(accepted) - {last} == Members(accepted[..|accepted| - 1])
  {
    var last := accepted[|accepted| - 1];
    var before := accepted[..|accepted| - 1];
    assert accepted == before + [last];
    forall r | r in before ensures r.id != last.id {
      var i :| 0 <= i < |before| && before[i] == r;
      assert accepted[i].id != last.id;
    }
  }

  /** With one resolution of an id in the log, the walk takes it and goes on with what it supersedes. */
  lemma WalkBackStep(log: set<DecisionResolution>, r: DecisionResolution)
    requires r in log && forall s :: s in log && s.id == r.id ==> s == r
    ensures WalkBack(log, Some(r.id)) == WalkBack(log - {r}, r.supersedes) + [r]
  {
  }

  lemma WalkBackEnds(log: set<DecisionResolution>)
    ensures WalkBack(log, None) == []
  {
  }

  lemma {:induction false} WalkBackRecovers(ticket: DecisionTicket, accepted: seq<DecisionResolution>)
    requires Chain(ticket, accepted) && DistinctIds(accepted) && accepted != []
    ensures WalkBack(Members(accepted), Some(accepted[|accepted| - 1].id)) == accepted
    decreases |accepted|
  {
    var last := accepted[|accepted| - 1];
    var before := accepted[..|accepted| - 1];
    assert accepted == before + [last];
    LastIsSeparate(accepted);
    WalkBackStep(Members(accepted), last);
    ChainSnoc(ticket, before, last);
    if before == [] {
      WalkBackEnds(Members(before));
    } else {
      WalkBackRecovers(ticket, before);
    }
  }

  lemma NewestIsLast(ticket: DecisionTicket, accepted: seq<DecisionResolution>, r: DecisionResolution)
    requires Chain(ticket, accepted) && DistinctIds(accepted) && accepted != []
    ensures Newest(Members(accepted), r) <==> r == accepted[|accepted| - 1]
  {
    var n := |accepted|;
    if r in Members(accepted) && r != accepted[n - 1] {
      var i :| 0 <= i < n && accepted[i] == r;
      assert Linked(ticket, accepted, i + 1);
      assert accepted[i + 1] in Members(accepted);
    }
    if r == accepted[n - 1] {
      forall s | s in Members(accepted) ensures s.supersedes != Some(r.id) {
        var i :| 0 <= i < n && accepted[i] == s;
        assert Linked(ticket, accepted, i);
        assert i > 0 ==> accepted[i - 1].id != accepted[n - 1].id;
      }
    }
  }

  /**
   * The unordered set of accepted resolutions has exactly one that nothing supersedes, the current one,
   * and walking back from it gives the order in which they were accepted.
   */
  lemma ChainIsRecoverable(ticket: DecisionTicket, attempts: seq<DecisionResolution>, r: DecisionResolution)
    requires DistinctIds(Replay(ticket, attempts))
    ensures var accepted := Replay(ticket, attempts);
            && (Newest(Members(accepted), r) <==> Current(accepted) == Some(r))
            && (Newest(Members(accepted), r) ==> WalkBack(Members(accepted), Some(r.id)) == accepted)
  {
    var accepted := Replay(ticket, attempts);
    ReplayIsChain(ticket, attempts);
    if accepted != [] {
      NewestIsLast(ticket, accepted, r);
      WalkBackRecovers(ticket, accepted);
    }
  }
}
