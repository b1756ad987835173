/** A council review: its findings, the human dispositions on them, and the amendment proposed from both. */
module CouncilReviews {
  import opened Wrappers
  import opened Text
  import opened Council
  import opened Amendments
  import BlockReading
  import opened Selections

  datatype CouncilArtifact = CouncilArtifact(path: string, sourceDigest: string)

  datatype CouncilAmendment = CouncilAmendment(
    reviewId: int, path: string, sourceDigest: string, acceptedFindings: nat, text: string)

  datatype AmendmentRefusal = NoArtifact | GeneratedPrd | Changed(path: string) | NothingAccepted

  datatype DispositionRefusal = OtherReview | UnknownFinding

  predicate Accepted(finding: CouncilFinding) {
    finding.disposition.Some? && finding.disposition.value.disposition.Accept?
  }

  /** The accepted findings, each as often as it was found and in that order. */
  function AcceptedOf(findings: seq<CouncilFinding>): (accepted: seq<CouncilFinding>)
    ensures Selects(findings, accepted, Accepted)
  {
    if findings == [] then
      SelectsNothing(Accepted);
      []
    else
      var before, last := findings[..|findings| - 1], findings[|findings| - 1];
      assert findings == before + [last];
      SelectsSnoc(before, AcceptedOf(before), Accepted, last);
      if Accepted(last) then AcceptedOf(before) + [last] else AcceptedOf(before)
  }

  lemma NoneAccepted(findings: seq<CouncilFinding>)
    ensures AcceptedOf(findings) == [] <==> forall f :: f in findings ==> !Accepted(f)
  {
    var accepted := AcceptedOf(findings);
    forall f ensures f in accepted <==> f in findings && Accepted(f) {
      SelectedExactly(findings, accepted, Accepted, f);
    }
    assert accepted != [] ==> accepted[0] in accepted;
  }

  /** The position of the first finding with the id, or the number of findings when none has it. */
  function FirstWith(findings: seq<CouncilFinding>, id: int): (n: nat)
    ensures n <= |findings|
    ensures forall i :: 0 <= i < n ==> findings[i].id != id
    ensures n < |findings| ==> findings[n].id == id
  {
    if findings == [] || findings[0].id == id then 0 else 1 + FirstWith(findings[1..], id)
  }

  /** The findings once a disposition is applied: the first finding it names is disposed, nothing else changes. */
  function Disposed(reviewId: int, findings: seq<CouncilFinding>, d: CouncilFindingDisposition)
    : Result<seq<CouncilFinding>, DispositionRefusal>
  {
    var n := FirstWith(findings, d.findingId);
    if d.reviewId != reviewId then Failure(OtherReview)
    else if n == |findings| then Failure(UnknownFinding)
    else Success(findings[n := findings[n].(disposition := Some(d))])
  }

  class CouncilReview {
    const reviewId: int
    const artifact: Option<CouncilArtifact>
    var findings: seq<CouncilFinding>

    constructor (reviewId: int, artifact: Option<CouncilArtifact>, findings: seq<CouncilFinding>)
      ensures this.reviewId == reviewId && this.artifact == artifact && this.findings == findings
    {
      this.reviewId, this.artifact, this.findings := reviewId, artifact, findings;
    }

    method ApplyDisposition(d: CouncilFindingDisposition) returns (outcome: Outcome<DispositionRefusal>)
      modifies this
      ensures match Disposed(reviewId, old(findings), d)
              case Success(next) => outcome == Pass && findings == next
              case Failure(refusal) => outcome == Fail(refusal) && findings == old(findings)
    {
      if d.reviewId != reviewId {
        return Fail(OtherReview);
      }
      for i := 0 to |findings|
        invariant findings == old(findings)
        invariant forall j :: 0 <= j < i ==> findings[j].id != d.findingId
      {
        if findings[i].id == d.findingId {
          findings := findings[i := findings[i].(disposition := Some(d))];
          return Pass;
        }
      }
      return Fail(UnknownFinding);
    }

    /**
     * A proposal is composed exactly for an unchanged artifact file with something accepted, and each
     * refusal exactly for what it names; it is never a write.
     */
    method ProposeAmendment(originalText: string, observedDigest: string)
      returns (r: Result<CouncilAmendment, AmendmentRefusal>)
      ensures r == Failure(NoArtifact) <==> artifact.None?
      ensures artifact.Some? ==>
                var artifact := artifact.value;
                var generated := "prd://" <= artifact.path;
                var changed := observedDigest != artifact.sourceDigest;
                var nothing := forall f :: f in findings ==> !Accepted(f);
                && (r == Failure(GeneratedPrd) <==> generated)
                && (r == Failure(Changed(artifact.path)) <==> !generated && changed)
                && (r == Failure(NothingAccepted) <==> !generated && !changed && nothing)
                && (r.Success? <==> !generated && !changed && !nothing)
      ensures r.Success? ==>
                var accepted := AcceptedOf(findings);
                r.value == CouncilAmendment(reviewId, artifact.value.path, observedDigest, |accepted|,
                                            Output(Amended(Read(originalText), accepted)))
    {
      if artifact.None? {
        return Failure(NoArtifact);
      }
      var artifact := artifact.value;
      if "prd://" <= artifact.path {
        return Failure(GeneratedPrd);
      }
      if observedDigest != artifact.sourceDigest {
        return Failure(Changed(artifact.path));
      }
      var accepted := AcceptedOf(findings);
      NoneAccepted(findings);
      if accepted == [] {
        return Failure(NothingAccepted);
      }
      var text := RenderAmendment(originalText, accepted);
      return Success(CouncilAmendment(reviewId, artifact.path, artifact.sourceDigest, |accepted|, text));
    }
  }

  // ---------- runs of dispositions ----------

  function AfterDisposition(reviewId: int, findings: seq<CouncilFinding>, d: CouncilFindingDisposition)
    : seq<CouncilFinding>
  {
    match Disposed(reviewId, findings, d)
    case Success(next) => next
    case Failure(_) => findings
  }

  function AfterDispositions(reviewId: int, findings: seq<CouncilFinding>, acts: seq<CouncilFindingDisposition>)
    : seq<CouncilFinding>
    decreases |acts|
  {
    if acts == [] then findings
    else AfterDisposition(reviewId, AfterDispositions(reviewId, findings, acts[..|acts| - 1]), acts[|acts| - 1])
  }

  function Evidence(finding: CouncilFinding): CouncilFinding {
    finding.(disposition := None)
  }

  /** The model's own part of each finding is as it was. */
  ghost predicate SameEvidence(a: seq<CouncilFinding>, b: seq<CouncilFinding>) {
    |a| == |b| && forall i :: 0 <= i < |a| ==> Evidence(a[i]) == Evidence(b[i])
  }

  /** No run of dispositions changes, adds or removes evidence. */
  lemma {:induction false} EvidenceStays(reviewId: int, findings: seq<CouncilFinding>,
                                         acts: seq<CouncilFindingDisposition>)
    ensures SameEvidence(findings, AfterDispositions(reviewId, findings, acts))
    decreases |acts|
  {
    if acts != [] {
      EvidenceStays(reviewId, findings, acts[..|acts| - 1]);
    }
  }

  /** The last disposition on record for the review and finding. */
  function LastFor(acts: seq<CouncilFindingDisposition>, reviewId: int, id: int): Option<CouncilFindingDisposition>
    decreases |acts|
  {
    if acts == [] then None
    else
      var last := acts[|acts| - 1];
      if last.reviewId == reviewId && last.findingId == id then Some(last)
      else LastFor(acts[..|acts| - 1], reviewId, id)
  }

  lemma SameIds(a: seq<CouncilFinding>, b: seq<CouncilFinding>, id: int)
    requires SameEvidence(a, b)
    ensures FirstWith(a, id) == FirstWith(b, id)
  {
    var n, m := FirstWith(a, id), FirstWith(b, id);
    assert n < |a| ==> Evidence(a[n]).id == Evidence(b[n]).id;
    assert m < |b| ==> Evidence(a[m]).id == Evidence(b[m]).id;
  }

  lemma AfterOne(reviewId: int, findings: seq<CouncilFinding>, d: CouncilFindingDisposition, i: nat)
    requires i < |findings|
    ensures |AfterDisposition(reviewId, findings, d)| == |findings|
    ensures AfterDisposition(reviewId, findings, d)[i].disposition ==
            if d.reviewId == reviewId && FirstWith(findings, d.findingId) == i then Some(d) else findings[i].disposition
  {
  }

  /**
   * After any run a finding carries the last disposition on record for it, if it is the first with its id;
   * a later one of the same id keeps what it had.
   */
  lemma {:induction false} LastDispositionStands(reviewId: int, findings: seq<CouncilFinding>,
                                                 acts: seq<CouncilFindingDisposition>, i: nat)
    requires i < |findings|
    ensures var after := AfterDispositions(reviewId, findings, acts);
            var last := LastFor(acts, reviewId, findings[i].id);
            && |after| == |findings|
            && after[i].disposition ==
               if FirstWith(findings, findings[i].id) == i && last.Some? then last else findings[i].disposition
    decreases |acts|
  {
    if acts != [] {
      hide AfterDisposition, FirstWith;
      var before, d := acts[..|acts| - 1], acts[|acts| - 1];
      var held := AfterDispositions(reviewId, findings, before);
      LastDispositionStands(reviewId, findings, before, i);
      EvidenceStays(reviewId, findings, before);
      SameIds(findings, held, d.findingId);
      AfterOne(reviewId, held, d, i);
    }
  }

  /** Only the first finding of an id is ever disposed. */
  ghost predicate OnlyFirstDisposed(findings: seq<CouncilFinding>) {
    forall i, j :: 0 <= i < j < |findings| && findings[i].id == findings[j].id ==> findings[j].disposition.None?
  }

  ghost predicate Undisposed(findings: seq<CouncilFinding>) {
    forall i :: 0 <= i < |findings| ==> findings[i].disposition.None?
  }

  lemma RunDisposesFirst(reviewId: int, findings: seq<CouncilFinding>, acts: seq<CouncilFindingDisposition>)
    requires Undisposed(findings)
    ensures OnlyFirstDisposed(AfterDispositions(reviewId, findings, acts))
  {
    var after := AfterDispositions(reviewId, findings, acts);
    EvidenceStays(reviewId, findings, acts);
    forall i, j | 0 <= i < j < |after| && after[i].id == after[j].id ensures after[j].disposition.None? {
      assert Evidence(findings[i]).id == Evidence(after[i]).id && Evidence(findings[j]).id == Evidence(after[j]).id;
      LastDispositionStands(reviewId, findings, acts, j);
    }
  }

  lemma AcceptedAreDistinct(findings: seq<CouncilFinding>)
    requires OnlyFirstDisposed(findings)
    ensures DistinctIds(AcceptedOf(findings))
  {
    var accepted := AcceptedOf(findings);
    var at :| Picks(findings, accepted, at, Accepted);
    forall i, j | 0 <= i < j < |accepted| ensures accepted[i].id != accepted[j].id {
      assert at[j] in at && Accepted(findings[at[j]]);
    }
  }

  /** The k-th act is on this finding and no later one is. */
  ghost predicate IsLastOn(acts: seq<CouncilFindingDisposition>, reviewId: int, id: int, k: int) {
    && 0 <= k < |acts| && acts[k].reviewId == reviewId && acts[k].findingId == id
    && forall j :: k < j < |acts| ==> acts[j].reviewId != reviewId || acts[j].findingId != id
  }

  lemma {:induction false} LastForExactly(acts: seq<CouncilFindingDisposition>, reviewId: int, id: int,
                                          d: CouncilFindingDisposition)
    ensures LastFor(acts, reviewId, id) == Some(d) <==> exists k :: IsLastOn(acts, reviewId, id, k) && acts[k] == d
    decreases |acts|
  {
    if acts != [] {
      var n := |acts| - 1;
      var before := acts[..n];
      LastForExactly(before, reviewId, id, d);
      assert forall j :: 0 <= j < n ==> acts[j] == before[j];
      if acts[n].reviewId == reviewId && acts[n].findingId == id {
        assert IsLastOn(acts, reviewId, id, n);
      } else {
        forall k ensures IsLastOn(acts, reviewId, id, k) <==> IsLastOn(before, reviewId, id, k) {}
      }
    }
  }

  /** After a run a finding is accepted exactly when it is the first of its id and the last act on it accepts. */
  lemma AcceptedExactly(reviewId: int, findings: seq<CouncilFinding>, acts: seq<CouncilFindingDisposition>, i: nat)
    requires Undisposed(findings) && i < |findings|
    ensures var after := AfterDispositions(reviewId, findings, acts);
            && |after| == |findings|
            && (Accepted(after[i]) <==>
                && (forall j :: 0 <= j < i ==> findings[j].id != findings[i].id)
                && exists k :: IsLastOn(acts, reviewId, findings[i].id, k) && acts[k].disposition == Accept)
  {
    hide AfterDispositions, LastFor;
    var id := findings[i].id;
    LastDispositionStands(reviewId, findings, acts, i);
    assert FirstWith(findings, id) == i <==> forall j :: 0 <= j < i ==> findings[j].id != id;
    forall d ensures LastFor(acts, reviewId, id) == Some(d) <==>
                     exists k :: IsLastOn(acts, reviewId, id, k) && acts[k] == d
    {
      LastForExactly(acts, reviewId, id, d);
    }
    if k :| IsLastOn(acts, reviewId, id, k) && acts[k].disposition == Accept {
      assert LastFor(acts, reviewId, id) == Some(acts[k]);
    }
  }

  /**
   * Over every run of dispositions on a review that began undisposed, shared ids included, no accepted
   * finding is dropped: it is marked up once below each heading with its section's title, or once at the end.
   */
  lemma NoAcceptedIsDropped(reviewId: int, findings: seq<CouncilFinding>, acts: seq<CouncilFindingDisposition>,
                            text: string, finding: CouncilFinding)
    requires Undisposed(findings)
    requires var after := AfterDispositions(reviewId, findings, acts); finding in after && Accepted(finding)
    ensures var pieces := Amended(Read(text), AcceptedOf(AfterDispositions(reviewId, findings, acts)));
            var headings := Headings(Read(text), finding.section);
            && Count(pieces, Block(finding)) == headings
            && Count(pieces, UnmatchedBlock(finding)) == if headings == 0 then 1 else 0
  {
    hide AfterDispositions, Accepted;
    var after := AfterDispositions(reviewId, findings, acts);
    RunDisposesFirst(reviewId, findings, acts);
    AcceptedAreDistinct(after);
    SelectedExactly(after, AcceptedOf(after), Accepted, finding);
    DistinctFindingsAppear(Read(text), AcceptedOf(after), finding);
  }

  /**
   * So over every such run the proposal's text holds, as lines of their own, all that an accepted finding
   * has to tell, and its whole block, which can be read back when its title and roles are single lines.
   */
  lemma AcceptedIsTold(reviewId: int, findings: seq<CouncilFinding>, acts: seq<CouncilFindingDisposition>,
                       text: string, finding: CouncilFinding, line: string)
    requires Undisposed(findings)
    requires finding in AfterDispositions(reviewId, findings, acts) && Accepted(finding)
    ensures var out := Output(Amended(Read(text), AcceptedOf(AfterDispositions(reviewId, findings, acts))));
            && (BlockReading.HasToTell(finding, line) ==> BlockReading.StandsIn(out, line + "\n"))
            && BlockReading.StandsIn(out, BlockText(finding))
            && (BlockReading.ReadBlock(BlockText(finding)) == BlockReading.TellsOf(finding)
                <==> BlockReading.SingleLines(finding))
  {
    var pieces := Amended(Read(text), AcceptedOf(AfterDispositions(reviewId, findings, acts)));
    NoAcceptedIsDropped(reviewId, findings, acts, text, finding);
    CountMember(pieces, Block(finding));
    CountMember(pieces, UnmatchedBlock(finding));
    assert Emitted(pieces, finding);
    hide *;
    BlockReading.EmittedStands(pieces, finding);
    BlockReading.BlockTellsExactly(finding);
    if BlockReading.HasToTell(finding, line) {
      BlockReading.EmittedIsTold(pieces, finding, line);
    }
  }
}
