/** What the records of a publication over the admission store say, carried over from the coordinator's own records. */
module AdmittedRecords {
  import opened Options
  import opened ChangeSets
  import opened AdmittedPublication
  import A = AdmissionProtocol
  import AdmissionSafety
  import Decisions = AdmissionDecisions
  import P = PublicationProtocol
  import PublicationSafety
  import opened PublicationRecords

  /** A receipt was decided for a recorded revision; what it is bound to and finalized with is of that revision. */
  ghost predicate BindingSays(s: A.State, r: string)
    requires r in s.receipts
  {
    var record := s.receipts[r];
    record.artifact.Some? ==>
      exists rev | rev in A.RevisionsOf(s, record.receipt.candidateId) ::
        ApprovalSays(P.ApprovalRecord(if record.finalization.Some? then P.Consumed else P.PreparedForPublication,
                                      record.receipt,
                                      Candidate(rev.candidateId, rev.revision, rev.checksum, rev.baseVersion,
                                                rev.baseChecksum),
                                      record.artifact, record.finalization), r)
  }

  /** The journal is of the change set its receipt is bound to, with a landed commit of it over its tree, or none. */
  predicate AdmittedJournalSays(j: P.JournalRecord, id: ChangeSetId, s: A.State, commits: seq<P.Commit>) {
    && j.changeSet.changeSetId == id
    && j.approvalReceiptId in s.receipts
    && s.receipts[j.approvalReceiptId].artifact.Some?
    && s.receipts[j.approvalReceiptId].artifact.value.changeSet == j.changeSet
    && (j.status == P.JournalPrepared <==> j.commit.None?)
    && (j.status == P.JournalCompleted ==> s.receipts[j.approvalReceiptId].finalization.Some?)
    && (j.commit.Some? ==> j.commit.value in commits && CommitsTo(j.commit.value, j.changeSet, j.expectedTreeChecksum))
  }

  ghost predicate WorldSays(w: World) {
    && (forall r | r in w.admission.receipts :: BindingSays(w.admission, r))
    && (forall id | id in w.journals :: AdmittedJournalSays(w.journals[id], id, w.admission, w.commits))
    && (forall r | r in w.admission.receipts && w.admission.receipts[r].finalization.Some? ::
          FinalizationSays(w.admission.receipts[r].finalization.value, w.journals))
  }

  lemma BindingIsSaid(w: World, r: string)
    requires Inv(w) && r in w.admission.receipts
    ensures BindingSays(w.admission, r)
  {
    hide AdmissionSafety.Inv, PublicationSafety.Inv, P.ValidApproval, WellFormed, IsChangeSetOf, ReceiptApproves;
    var s := w.admission;
    if s.receipts[r].artifact.Some? {
      assert Approves(s, s.receipts[r]);
      ViewedRecord(s, r);
      ValidApprovalSays(View(s)[r], r);
      FoundIsRecorded(A.RevisionsOf(s, s.receipts[r].receipt.candidateId), s.receipts[r].receipt.candidateRevision);
    }
  }

  lemma {:induction false} FoundIsRecorded(revisions: seq<A.Revision>, revision: nat)
    ensures var found := A.FindRevision(revisions, revision); found.Some? ==> found.value in revisions
  {}

  lemma JournalIsSaid(w: World, id: ChangeSetId)
    requires Inv(w) && id in w.journals
    ensures AdmittedJournalSays(w.journals[id], id, w.admission, w.commits)
  {
    hide Kept, Approves, RecordOf, PublicationSafety.Inv, WellFormed, IsChangeSetOf;
    ValidJournalSays(Abs(w), id);
    var r := w.journals[id].approvalReceiptId;
    RecordKeepsArtifact(w.admission, w.admission.receipts[r]);
    if w.journals[id].status == P.JournalCompleted { CompletedIsFinalized(Abs(w), id); }
  }

  lemma FinalizedIsSaid(w: World, r: string)
    requires Inv(w) && Journaled(Abs(w)) && r in w.admission.receipts && w.admission.receipts[r].finalization.Some?
    ensures FinalizationSays(w.admission.receipts[r].finalization.value, w.journals)
  {
    hide Approves, RecordOf, PublicationSafety.Inv, PublicationSafety.ApprovalsValid;
    ConsistentReceipt(w.admission, r);
    RecordKeepsArtifact(w.admission, w.admission.receipts[r]);
    FinalizationIsSaid(Abs(w), r);
  }

  /******* Runs *******/

  lemma AdmissionKeepsJournaled(w: World, call: A.Call)
    requires Inv(w) && Journaled(Abs(w)) && Allowed(w, Admission(call))
    ensures Journaled(Abs(w.(admission := A.Perform(w.admission, call))))
  {
    hide AdmissionSafety.Inv, A.Apply, BoundAsBefore, AdmissionSafety.Extends, PublicationSafety.Inv, View;
    var t := A.Perform(w.admission, call);
    AdmissionExtends(w.admission, call);
    if t != w.admission {
      NothingIsBound(w.admission, call.operation, call.environment);
      ViewIsValid(w.admission, t);
    }
  }

  function AnswersOf(c: Call): Option<P.Replies> {
    match c
    case Admission(_) => None
    case PublishCall(_, _, _, e, _, _) => Some(e)
    case RecoverCall(_, e, _) => Some(e)
  }

  /** What a publication or recovery leaves, and what it reports. */
  ghost function Invoke(w: World, c: Call): (Process, P.Outcome)
    requires !c.Admission?
  {
    match c
    case PublishCall(candidate, receipt, operations, e, at, life) =>
      Publish(Process(w, life), candidate, receipt, operations, e, at)
    case RecoverCall(id, e, life) => Recover(Process(w, life), id, e)
  }

  /** A journal was opened on checked inputs, over the tree that the validation answered. */
  ghost predicate OpenedByCall(j: P.JournalRecord, c: Call) {
    && c.PublishCall?
    && OpenedBy(j, Candidate(c.candidate.candidateId, c.candidate.revision, c.candidate.checksum,
                             c.candidate.baseVersion, c.candidate.baseChecksum), c.receipt, c.operations, c.publish)
  }

  lemma PublicationSteps(w: World, c: Call)
    requires Inv(w) && Journaled(Abs(w)) && !c.Admission?
    ensures var (q, outcome) := Invoke(w, c);
            && Journaled(Abs(q.w)) && Steps(Abs(w), Abs(q.w), AnswersOf(c).value)
            && (q.w.commits != w.commits || outcome.Published? ==>
                  AnswersOf(c).value.inspects && AnswersOf(c).value.dedicatedAndClean)
            && (forall id | id in q.w.journals && id !in w.journals :: OpenedByCall(q.w.journals[id], c))
            && (outcome.Published? && q.life > 0 ==>
                  PublishedAs(Abs(q.w), outcome.changeSetId, outcome.sourceRevision))
  {
    hide Publish, Recover, P.Publish, P.RecoverPublication, PublicationSafety.Inv, Journaled, Steps, OpenedBy,
         PublishedAs, View, Kept, Accepts;
    match c
    case PublishCall(candidate, receipt, operations, e, at, life) =>
      PublishingRefines(Process(w, life), candidate, receipt, operations, e, at);
      NothingSteps(Abs(w), Abs(w), e);
      PublishingSteps(Abs(w), CandidateOf(candidate), receipt, operations, e, life);
    case RecoverCall(id, e, life) =>
      RecoveringRefines(Process(w, life), id, e);
      CallSteps(Abs(w), P.Call(P.RecoverOp(id, e), life));
  }

  lemma {:induction false} RunKeepsJournaled(w: World, calls: seq<Call>)
    requires Inv(w) && Journaled(Abs(w)) && AllAllowed(w, calls)
    ensures Inv(Run(w, calls)) && Journaled(Abs(Run(w, calls)))
    decreases |calls|
  {
    hide Inv, Allowed, Perform, Abs, Journaled;
    if calls != [] {
      PerformKeepsInv(w, calls[0]);
      PerformKeepsJournaled(w, calls[0]);
      RunKeepsJournaled(Perform(w, calls[0]), calls[1..]);
    }
  }

  lemma PerformKeepsJournaled(w: World, c: Call)
    requires Inv(w) && Journaled(Abs(w)) && Allowed(w, c)
    ensures Journaled(Abs(Perform(w, c)))
  {
    hide Inv, Allowed, Abs, Journaled, Publish, Recover;
    match c
    case Admission(call) => AdmissionKeepsJournaled(w, call);
    case PublishCall(_, _, _, _, _, _) => PublicationSteps(w, c);
    case RecoverCall(_, _, _) => PublicationSteps(w, c);
  }

  /******* Decisions *******/

  /** The same receipts, decided as they were. */
  predicate SameDecisions(s: A.State, t: A.State) {
    && t.receipts.Keys == s.receipts.Keys
    && forall r | r in s.receipts ::
         t.receipts[r].receipt == s.receipts[r].receipt
           && t.receipts[r].authorizationId == s.receipts[r].authorizationId
  }

  lemma BindingKeepsDecisions(p: Process, receipt: Receipt, candidate: A.Revision, artifact: Artifact, e: A.Environment)
    ensures SameDecisions(p.w.admission, Prepare(p, receipt, candidate, artifact, e).0.w.admission)
  {
    hide A.FindRevision, A.ActiveAuthorization;
  }

  lemma FinalizingKeepsDecisions(p: Process, f: P.Finalization)
    ensures SameDecisions(p.w.admission, Finalize(p, f).0.w.admission)
  {}

  lemma FinishingKeepsDecisions(p: Process, j: P.JournalRecord, prepared: Prepared, commit: P.Commit)
    ensures SameDecisions(p.w.admission, Finish(p, j, prepared, commit).0.w.admission)
  {
    hide Finalize;
    var committed := if j.commit.None? then j.(status := P.JournalCommitted, commit := Some(commit)) else j;
    var journaled := if j.commit.None? then WriteJournal(p, committed) else p;
    FinalizingKeepsDecisions(journaled, FinalizationFor(prepared, j.changeSet, commit));
  }

  lemma ResumingKeepsDecisions(p: Process, j: P.JournalRecord, e: P.Replies)
    ensures SameDecisions(p.w.admission, Resume(p, j, e).0.w.admission)
  {
    hide Finish, P.ObtainCommit, LoadPrepared, P.FindCommit;
    if PreparedFor(p.w.admission, j) {
      var (obtained, commit) := ObtainCommit(p, j, e);
      if commit.Some? {
        FinishingKeepsDecisions(obtained, j, LoadPrepared(p.w.admission, j.changeSet.changeSetId).value, commit.value);
      }
    }
  }

  lemma PublicationKeepsDecisions(w: World, c: Call)
    requires !c.Admission?
    ensures SameDecisions(w.admission, Perform(w, c).admission)
  {
    hide Resume, Prepare, P.ValidJournal, SameDecisions, CreateChangeSet;
    SameDecisionsTwice(w.admission, w.admission, w.admission);
    match c
    case RecoverCall(id, e, life) =>
      if id in w.journals { ResumingKeepsDecisions(Process(w, life), w.journals[id], e); }
    case PublishCall(candidate, receipt, operations, e, at, life) =>
      var p, created := Process(w, life), CreateChangeSet(CandidateOf(candidate), receipt, operations);
      if created.Created? {
        var artifact := created.artifact;
        BindingKeepsDecisions(p, receipt, candidate, artifact, at);
        var prepared := Prepare(p, receipt, candidate, artifact, at).0;
        var j := P.JournalRecord(P.JournalPrepared, receipt.receiptId, candidate.checksum, artifact.changeSet,
                                 e.expectedTree, None);
        ResumingKeepsDecisions(WriteJournal(prepared, j), j, e);
        SameDecisionsTwice(w.admission, prepared.w.admission, Resume(WriteJournal(prepared, j), j, e).0.w.admission);
        if artifact.changeSet.changeSetId in w.journals {
          var existing := w.journals[artifact.changeSet.changeSetId];
          ResumingKeepsDecisions(prepared, existing, e);
          SameDecisionsTwice(w.admission, prepared.w.admission, Resume(prepared, existing, e).0.w.admission);
        }
      }
  }

  lemma SameDecisionsTwice(a: A.State, b: A.State, c: A.State)
    ensures SameDecisions(a, b) && SameDecisions(b, c) ==> SameDecisions(a, c)
    ensures SameDecisions(a, a)
  {}

  lemma {:induction false} RunOneMore(w: World, calls: seq<Call>, c: Call)
    ensures Run(w, calls + [c]) == Perform(Run(w, calls), c)
    ensures AllAllowed(w, calls + [c]) ==> AllAllowed(w, calls) && Allowed(Run(w, calls), c)
    decreases |calls|
  {
    hide Perform, Allowed;
    if calls == [] {
      assert (calls + [c])[1..] == [];
    } else {
      assert (calls + [c])[1..] == calls[1..] + [c];
      RunOneMore(Perform(w, calls[0]), calls[1..], c);
    }
  }

  /** An admission call in which the grantor accepted this receipt's revision on the bound message. */
  ghost predicate GrantedIn(w: World, c: Call, r: A.ReceiptRecord) {
    c.Admission? && Decisions.AcceptedBy(w.admission, c.call, r)
  }

  lemma {:induction false} ApprovalsAreGranted(calls: seq<Call>, r: string)
    requires AllAllowed(EMPTY, calls)
    requires var w := Run(EMPTY, calls);
             r in w.admission.receipts && w.admission.receipts[r].receipt.decision != Rejected
    ensures exists i | 0 <= i < |calls| ::
              GrantedIn(Run(EMPTY, calls[..i]), calls[i],
                        Run(EMPTY, calls).admission.receipts[r])
    decreases |calls|
  {
    hide GrantedIn, Perform, Allowed, AllAllowed, AdmissionSafety.Inv;
    if calls != [] {
      var n := |calls| - 1;
      var init, c := calls[..n], calls[n];
      assert calls == init + [c];
      RunOneMore(EMPTY, init, c);
      var w, t := Run(EMPTY, init), Run(EMPTY, calls);
      Reaches(init);
      GrantedBeforeOrNow(w, c, r);
      if r in w.admission.receipts && t.admission.receipts[r].receipt == w.admission.receipts[r].receipt
         && t.admission.receipts[r].authorizationId == w.admission.receipts[r].authorizationId {
        ApprovalsAreGranted(init, r);
        var i :| 0 <= i < |init| && GrantedIn(Run(EMPTY, init[..i]), init[i], w.admission.receipts[r]);
        assert calls[..i] == init[..i];
        SameGranted(Run(EMPTY, calls[..i]), calls[i], w.admission.receipts[r], t.admission.receipts[r]);
      } else {
        assert calls[..n] == init;
      }
    }
  }

  lemma GrantedBeforeOrNow(w: World, c: Call, r: string)
    requires Inv(w) && r in Perform(w, c).admission.receipts
             && Perform(w, c).admission.receipts[r].receipt.decision != Rejected
    ensures var before, after := w.admission.receipts, Perform(w, c).admission.receipts[r];
            || (r in before && after.receipt == before[r].receipt && after.authorizationId == before[r].authorizationId)
            || GrantedIn(w, c, after)
  {
    hide AdmissionSafety.Inv, A.Apply, Decisions.AcceptedBy, BoundApprove, PublicationSafety.Inv, Publish, Recover;
    if c.Admission? {
      Decisions.ReceiptsComeFromDecisions(w.admission, c.call.operation, c.call.environment);
      if !(r in w.admission.receipts
           && Perform(w, c).admission.receipts[r].receipt == w.admission.receipts[r].receipt
           && Perform(w, c).admission.receipts[r].authorizationId == w.admission.receipts[r].authorizationId) {
        Decisions.AcceptedNow(w.admission, c.call, r);
      }
    } else {
      PublicationKeepsDecisions(w, c);
    }
  }

  lemma SameGranted(w: World, c: Call, a: A.ReceiptRecord, b: A.ReceiptRecord)
    requires GrantedIn(w, c, a) && b.receipt == a.receipt && b.authorizationId == a.authorizationId
    ensures GrantedIn(w, c, b)
  {}

  /******* Main results *******/

  lemma Reaches(calls: seq<Call>)
    requires AllAllowed(EMPTY, calls)
    ensures Inv(Run(EMPTY, calls)) && Journaled(Abs(Run(EMPTY, calls)))
  {
    hide Inv, Run, AllAllowed;
    InitialInv();
    assert View(EMPTY.admission) == map[];
    RunKeepsJournaled(EMPTY, calls);
  }

  /** Whatever admission and publication calls run, bindings, journals and finalizations say what they should. */
  lemma RecordsAlwaysSay(calls: seq<Call>)
    requires AllAllowed(EMPTY, calls)
    ensures WorldSays(Run(EMPTY, calls))
  {
    hide Run, AllAllowed, Inv, Abs, Journaled, BindingSays, AdmittedJournalSays, FinalizationSays;
    Reaches(calls);
    var w := Run(EMPTY, calls);
    forall r | r in w.admission.receipts ensures BindingSays(w.admission, r) { BindingIsSaid(w, r); }
    forall id | id in w.journals ensures AdmittedJournalSays(w.journals[id], id, w.admission, w.commits) {
      JournalIsSaid(w, id);
    }
    forall r | r in w.admission.receipts && w.admission.receipts[r].finalization.Some?
      ensures FinalizationSays(w.admission.receipts[r].finalization.value, w.journals)
    {
      FinalizedIsSaid(w, r);
    }
  }

  /**
   One call does to the journals and commits what the coordinator's own records allow, and reports what is committed.
   */
  lemma EveryCallSteps(calls: seq<Call>, c: Call)
    requires AllAllowed(EMPTY, calls) && !c.Admission?
    ensures var w := Run(EMPTY, calls);
            var (q, outcome) := Invoke(w, c);
            && Steps(Abs(w), Abs(q.w), AnswersOf(c).value)
            && (q.w.commits != w.commits || outcome.Published? ==>
                  AnswersOf(c).value.inspects && AnswersOf(c).value.dedicatedAndClean)
            && (forall id | id in q.w.journals && id !in w.journals :: OpenedByCall(q.w.journals[id], c))
            && (outcome.Published? && q.life > 0 ==>
                  PublishedAs(Abs(q.w), outcome.changeSetId, outcome.sourceRevision))
  {
    hide Run, AllAllowed, Inv, Abs, Invoke, Steps, OpenedByCall, PublishedAs;
    Reaches(calls);
    PublicationSteps(Run(EMPTY, calls), c);
  }

  /** A first publication that reports success has landed one commit, over the tree both of its validations answered. */
  lemma FirstPublishLandsValidatedTree(calls: seq<Call>, c: Call)
    requires AllAllowed(EMPTY, calls) && c.PublishCall?
    requires var w := Run(EMPTY, calls);
             var (q, outcome) := Invoke(w, c);
             outcome.Published? && q.life > 0 && outcome.changeSetId !in w.journals
    ensures var w := Run(EMPTY, calls);
            var (q, outcome) := Invoke(w, c);
            && LandsFirst(Abs(w), Abs(q.w), outcome.changeSetId, outcome.sourceRevision, c.publish)
            && OpenedByCall(q.w.journals[outcome.changeSetId], c)
  {
    hide Run, AllAllowed, Kept, PublicationSafety.Inv, Invoke, Steps, OpenedByCall, PublishedAs, View, LandsFirst;
    Reaches(calls);
    var w := Run(EMPTY, calls);
    var (q, outcome) := Invoke(w, c);
    PublicationSteps(w, c);
    CommitsHaveJournals(Abs(w));
    PublishedHasJournal(Abs(q.w), outcome.changeSetId, outcome.sourceRevision);
    OpenedOverTree(q.w.journals[outcome.changeSetId], c);
    PublishedFirst(Abs(w), Abs(q.w), outcome.changeSetId, outcome.sourceRevision, c.publish);
  }

  lemma PublishedHasJournal(d: P.Durable, id: ChangeSetId, sourceRevision: string)
    requires PublishedAs(d, id, sourceRevision)
    ensures id in d.journals
  {}

  lemma OpenedOverTree(j: P.JournalRecord, c: Call)
    requires OpenedByCall(j, c)
    ensures j.expectedTreeChecksum == c.publish.expectedTree
  {}

  /**
   Every commit the authority holds was accepted by the grantor of its discovery, on the confirmation message, in some
   call before: the receipt it names is bound to its change set, and approves the revision and the files in it.
   */
  lemma EveryCommitIsGranted(calls: seq<Call>, c: P.Commit)
    requires AllAllowed(EMPTY, calls) && c in Run(EMPTY, calls).commits
    ensures var w := Run(EMPTY, calls);
            var r := c.changeSetId.identity.approvalReceiptId;
            && r in w.admission.receipts && w.admission.receipts[r].artifact.Some?
            && w.admission.receipts[r].artifact.value.changeSet.changeSetId == c.changeSetId
            && BindingSays(w.admission, r)
            && exists i | 0 <= i < |calls| ::
                 GrantedIn(Run(EMPTY, calls[..i]), calls[i], w.admission.receipts[r])
  {
    hide Run, AllAllowed, AdmissionSafety.Inv, GrantedIn, PublicationSafety.Inv, Approves;
    Reaches(calls);
    var w, r := Run(EMPTY, calls), c.changeSetId.identity.approvalReceiptId;
    CommitsAreAdmitted(w);
    JournalIsSaid(w, c.changeSetId);
    BindingIsSaid(w, r);
    assert w.admission.receipts[r].receipt.decision != Rejected by { BoundIsApproved(w.admission, r); }
    ApprovalsAreGranted(calls, r);
  }

  lemma BoundIsApproved(s: A.State, r: string)
    requires r in s.receipts && s.receipts[r].artifact.Some? && BindingSays(s, r)
    ensures s.receipts[r].receipt.decision != Rejected
  {}
}
