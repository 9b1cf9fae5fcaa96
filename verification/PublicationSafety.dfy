/** Publication is at most once: what every run of publishes and recoveries keeps, and what one of them achieves. */
module PublicationSafety {
  import opened Options
  import opened ChangeSets
  import opened PublicationProtocol

  type Approvals = map<string, ApprovalRecord>
  type Journals = map<ChangeSetId, JournalRecord>

  /******* Invariant *******/

  predicate ApprovalsValid(approvals: Approvals) {
    forall r | r in approvals :: ValidApproval(approvals[r], r)
  }

  predicate JournalsValid(journals: Journals) {
    forall id | id in journals :: ValidJournal(journals[id], id)
  }

  /** No change set has two commits. */
  predicate AtMostOneCommit(commits: seq<Commit>) {
    forall i, j | 0 <= i < j < |commits| :: commits[i].changeSetId != commits[j].changeSetId
  }

  /** The receipt a change set names is bound to exactly that change set. */
  predicate BoundTo(approvals: Approvals, cs: ChangeSet) {
    var receiptId := cs.changeSetId.identity.approvalReceiptId;
    && receiptId in approvals
    && approvals[receiptId].artifact.Some?
    && approvals[receiptId].artifact.value.changeSet == cs
  }

  predicate JournalsBound(approvals: Approvals, journals: Journals) {
    forall id | id in journals :: BoundTo(approvals, journals[id].changeSet)
  }

  predicate CommitsJournaled(journals: Journals, commits: seq<Commit>) {
    forall c | c in commits :: c.changeSetId in journals
  }

  predicate CommittedAs(commits: seq<Commit>, id: ChangeSetId, sourceRevision: string) {
    var found := FindCommit(commits, id);
    found.Some? && found.value.sourceRevision == sourceRevision
  }

  /** A finalized receipt implies the commit it names. */
  predicate FinalizationsCommitted(approvals: Approvals, commits: seq<Commit>) {
    forall r | r in approvals && approvals[r].finalization.Some? ::
      CommittedAs(commits, approvals[r].finalization.value.changeSetId, approvals[r].finalization.value.sourceRevision)
  }

  predicate JournaledCommitsLanded(journals: Journals, commits: seq<Commit>) {
    forall id | id in journals && journals[id].commit.Some? :: FindCommit(commits, id) == journals[id].commit
  }

  /** A finalization of the receipt naming this change set and this source revision. */
  predicate FinalizedAs(approvals: Approvals, cs: ChangeSet, sourceRevision: string) {
    && BoundTo(approvals, cs)
    && var f := approvals[cs.changeSetId.identity.approvalReceiptId].finalization;
       f.Some? && f.value.changeSetId == cs.changeSetId && f.value.sourceRevision == sourceRevision
  }

  predicate CompletedAreFinalized(approvals: Approvals, journals: Journals) {
    forall id | id in journals && journals[id].status == JournalCompleted ::
      journals[id].commit.Some?
        && FinalizedAs(approvals, journals[id].changeSet, journals[id].commit.value.sourceRevision)
  }

  predicate Inv(d: Durable) {
    && ApprovalsValid(d.approvals)
    && JournalsValid(d.journals)
    && AtMostOneCommit(d.commits)
    && JournalsBound(d.approvals, d.journals)
    && CommitsJournaled(d.journals, d.commits)
    && FinalizationsCommitted(d.approvals, d.commits)
    && JournaledCommitsLanded(d.journals, d.commits)
    && CompletedAreFinalized(d.approvals, d.journals)
  }

  /******* Approval store *******/

  /** Bound artifacts and finalizations of `before` are still there, unchanged, in `after`. */
  predicate ApprovalsExtend(before: Approvals, after: Approvals) {
    forall r | r in before ::
      && r in after
      && (before[r].artifact.Some? ==> after[r].artifact == before[r].artifact)
      && (before[r].finalization.Some? ==> after[r].finalization == before[r].finalization)
  }

  lemma ExtendingKeepsBindings(before: Approvals, after: Approvals, journals: Journals)
    requires ApprovalsExtend(before, after) && JournalsBound(before, journals)
             && CompletedAreFinalized(before, journals)
    ensures JournalsBound(after, journals) && CompletedAreFinalized(after, journals)
  {}

  lemma ApprovalWriteKeepsInv(p: Process, r: ApprovalRecord)
    requires Inv(p.d) && ValidApproval(r, r.receipt.receiptId)
    requires r.receipt.receiptId in p.d.approvals ==>
               var existing := p.d.approvals[r.receipt.receiptId];
               && (existing.artifact.Some? ==> r.artifact == existing.artifact)
               && (existing.finalization.Some? ==> r.finalization == existing.finalization)
    requires r.finalization.Some? && p.Alive() ==>
               CommittedAs(p.d.commits, r.finalization.value.changeSetId, r.finalization.value.sourceRevision)
    ensures Inv(WriteApproval(p, r).d)
  {
    hide ValidApproval, FindCommit;
    if p.Alive() {
      var after := p.d.approvals[r.receipt.receiptId := r];
      assert ApprovalsExtend(p.d.approvals, after);
      ExtendingKeepsBindings(p.d.approvals, after, p.d.journals);
    }
  }

  lemma NewApprovalKeepsInv(p: Process, receipt: Receipt, candidate: Candidate)
    requires Inv(p.d)
    ensures Inv(RecordApproval(p, receipt, candidate).0.d)
  {
    if ReceiptApproves(receipt, candidate) && receipt.receiptId !in p.d.approvals {
      ApprovalWriteKeepsInv(p, ApprovalRecord(Approved, receipt, candidate, None, None));
    }
  }

  /** What `preparePublication` establishes: the receipt is bound to this artifact, for good. */
  lemma PreparingKeepsInv(p: Process, receipt: Receipt, candidate: Candidate, artifact: Artifact)
    requires Inv(p.d)
    ensures var (q, ok) := PreparePublication(p, receipt, candidate, artifact);
            && Inv(q.d)
            && q.d.journals == p.d.journals && q.d.commits == p.d.commits
            && (ok && q.Alive() && receipt.receiptId == artifact.changeSet.changeSetId.identity.approvalReceiptId ==>
                  BoundTo(q.d.approvals, artifact.changeSet))
  {
    hide CreateChangeSet;
    if receipt.receiptId in p.d.approvals && p.d.approvals[receipt.receiptId].status == Approved {
      var record := p.d.approvals[receipt.receiptId];
      var prepared := record.(status := PreparedForPublication, artifact := Some(artifact));
      if record.receipt == receipt && ValidApproval(prepared, receipt.receiptId) {
        ApprovalWriteKeepsInv(p, prepared);
      }
    }
  }

  lemma FinalizingKeepsInv(p: Process, cs: ChangeSet, f: Finalization)
    requires Inv(p.d) && BoundTo(p.d.approvals, cs)
    requires f.receiptId == cs.changeSetId.identity.approvalReceiptId && f.changeSetId == cs.changeSetId
    requires p.Alive() ==> CommittedAs(p.d.commits, cs.changeSetId, f.sourceRevision)
    ensures var (q, ok) := FinalizePublication(p, f);
            && Inv(q.d)
            && q.d.journals == p.d.journals && q.d.commits == p.d.commits && q.life <= p.life
            && (ok && q.Alive() ==> FinalizedAs(q.d.approvals, cs, f.sourceRevision))
  {
    hide CreateChangeSet, FindCommit;
    var record := p.d.approvals[f.receiptId];
    if record.status == PreparedForPublication && FinalizePublication(p, f).1 {
      ApprovalWriteKeepsInv(p, record.(status := Consumed, finalization := Some(f)));
    }
  }

  /******* Commit log *******/

  lemma {:induction false} FindInAppended(commits: seq<Commit>, c: Commit, id: ChangeSetId)
    ensures FindCommit(commits + [c], id)
            == if FindCommit(commits, id).Some? then FindCommit(commits, id)
               else if c.changeSetId == id then Some(c) else None
  {
    if commits == [] {
      assert (commits + [c])[1..] == [];
    } else {
      assert (commits + [c])[1..] == commits[1..] + [c];
      FindInAppended(commits[1..], c, id);
    }
  }

  lemma LandingKeepsInv(p: Process, c: Commit)
    requires Inv(p.d) && c.changeSetId in p.d.journals && FindCommit(p.d.commits, c.changeSetId).None?
    ensures var q := LandCommit(p, c);
            Inv(q.d) && (q.Alive() ==> FindCommit(q.d.commits, c.changeSetId) == Some(c))
  {
    hide ValidApproval;
    var q := LandCommit(p, c);
    if p.Alive() {
      forall id ensures FindCommit(q.d.commits, id) ==
                        if FindCommit(p.d.commits, id).Some? then FindCommit(p.d.commits, id)
                        else if c.changeSetId == id then Some(c) else None
      {
        FindInAppended(p.d.commits, c, id);
      }
    }
  }

  /** Obtaining a commit lands at most one, and whatever it returns is the one commit of the change set. */
  lemma ObtainingKeepsInv(p: Process, j: JournalRecord, e: Replies)
    requires Inv(p.d) && j.changeSet.changeSetId in p.d.journals
    ensures var (q, commit) := ObtainCommit(p, j, e);
            && Inv(q.d)
            && q.d.approvals == p.d.approvals && q.d.journals == p.d.journals
            && (commit.Some? && q.Alive() ==>
                  && FindCommit(q.d.commits, j.changeSet.changeSetId) == commit
                  && CommitAccepted(commit.value, j.changeSet, j.expectedTreeChecksum))
            && (commit.Some? && j.commit.Some? ==> commit == j.commit)
  {
    hide ValidApproval;
    if FindCommit(p.d.commits, j.changeSet.changeSetId).None? {
      LandingKeepsInv(p, LandedCommit(j.changeSet, e.commit));
    }
  }

  /******* Journal *******/

  lemma JournalingKeepsInv(p: Process, j: JournalRecord)
    requires Inv(p.d) && ValidJournal(j, j.changeSet.changeSetId)
    requires p.Alive() ==> BoundTo(p.d.approvals, j.changeSet)
    requires p.Alive() && j.commit.Some? ==> FindCommit(p.d.commits, j.changeSet.changeSetId) == j.commit
    requires p.Alive() && j.status == JournalCompleted ==>
               FinalizedAs(p.d.approvals, j.changeSet, j.commit.value.sourceRevision)
    ensures Inv(WriteJournal(p, j).d)
  {
    hide ValidApproval, CommitAccepted;
  }

  /** The coordinator holds journal record `j` and the disk agrees with it. */
  predicate Holding(p: Process, j: JournalRecord) {
    && Inv(p.d)
    && ValidJournal(j, j.changeSet.changeSetId)
    && (p.Alive() ==> j.changeSet.changeSetId in p.d.journals && p.d.journals[j.changeSet.changeSetId] == j)
  }

  function CommittedRecord(j: JournalRecord, commit: Commit): JournalRecord {
    if j.commit.None? then j.(status := JournalCommitted, commit := Some(commit)) else j
  }

  function JournalCommit(p: Process, j: JournalRecord, commit: Commit): Process {
    if j.commit.None? then WriteJournal(p, CommittedRecord(j, commit)) else p
  }

  /** The one commit of `j` is known to the coordinator. */
  predicate HoldingCommit(p: Process, j: JournalRecord, commit: Commit) {
    && Holding(p, j)
    && j.changeSet.changeSetId in p.d.journals
    && BoundTo(p.d.approvals, j.changeSet)
    && (j.commit.Some? ==> j.commit == Some(commit))
    && (p.Alive() ==> FindCommit(p.d.commits, j.changeSet.changeSetId) == Some(commit))
    && CommitAccepted(commit, j.changeSet, j.expectedTreeChecksum)
  }

  lemma CommittingKeepsInv(p: Process, j: JournalRecord, commit: Commit)
    requires HoldingCommit(p, j, commit)
    ensures var q := JournalCommit(p, j, commit);
            && HoldingCommit(q, CommittedRecord(j, commit), commit)
            && q.d.commits == p.d.commits && q.d.approvals == p.d.approvals
  {
    if j.commit.None? { JournalingKeepsInv(p, CommittedRecord(j, commit)); }
  }

  lemma CompletingKeepsInv(p: Process, j: JournalRecord)
    requires Inv(p.d) && ValidJournal(j, j.changeSet.changeSetId) && j.commit.Some?
    requires p.Alive() ==> FindCommit(p.d.commits, j.changeSet.changeSetId) == j.commit
    requires p.Alive() ==> FinalizedAs(p.d.approvals, j.changeSet, j.commit.value.sourceRevision)
    ensures Inv(WriteJournal(p, j.(status := JournalCompleted)).d)
  {
    JournalingKeepsInv(p, j.(status := JournalCompleted));
  }

  lemma BoundRecordNamesItsReceipt(p: Process, j: JournalRecord, commit: Commit)
    requires HoldingCommit(p, j, commit)
    ensures var receiptId := j.changeSet.changeSetId.identity.approvalReceiptId;
            receiptId in p.d.approvals && p.d.approvals[receiptId].receipt.receiptId == receiptId
  {}

  lemma FinishedAfterFinalizing(journaled: Process, j: JournalRecord, commit: Commit, f: Finalization)
    requires HoldingCommit(journaled, j, commit) && j.commit == Some(commit)
    requires f.receiptId == j.changeSet.changeSetId.identity.approvalReceiptId
    requires f.changeSetId == j.changeSet.changeSetId && f.sourceRevision == commit.sourceRevision
    ensures var (q, ok) := FinalizePublication(journaled, f);
            && Inv(q.d)
            && (ok ==> Inv(WriteJournal(q, j.(status := JournalCompleted)).d))
            && q.d.commits == journaled.d.commits
  {
    hide CommitAccepted, FindCommit, FinalizePublication, ValidApproval;
    FinalizingKeepsInv(journaled, j.changeSet, f);
    var (q, ok) := FinalizePublication(journaled, f);
    if ok {
      assert q.Alive() ==> FinalizedAs(q.d.approvals, j.changeSet, commit.sourceRevision);
      CompletingKeepsInv(q, j);
    }
  }

  lemma FirstFinishKeepsInv(p: Process, j: JournalRecord, prepared: ApprovalRecord, commit: Commit)
    requires HoldingCommit(p, j, commit)
    requires prepared == p.d.approvals[j.changeSet.changeSetId.identity.approvalReceiptId]
             && prepared.finalization.None?
    ensures var (q, outcome) := Finish(p, j, prepared, commit);
            && Inv(q.d)
            && q.d.commits == p.d.commits
  {
    hide Inv, ValidApproval, CommitAccepted, FindCommit, FinalizePublication, HoldingCommit;
    BoundRecordNamesItsReceipt(p, j, commit);
    CommittingKeepsInv(p, j, commit);
    FinishedAfterFinalizing(JournalCommit(p, j, commit), CommittedRecord(j, commit), commit,
                            FinalizationFor(prepared, j.changeSet, commit));
  }

  lemma RepeatedFinishKeepsInv(p: Process, j: JournalRecord, prepared: ApprovalRecord, commit: Commit)
    requires HoldingCommit(p, j, commit)
    requires prepared == p.d.approvals[j.changeSet.changeSetId.identity.approvalReceiptId]
             && prepared.finalization.Some?
    ensures var (q, outcome) := Finish(p, j, prepared, commit);
            && Inv(q.d)
            && q.d.commits == p.d.commits
  {
    hide CreateChangeSet;
    CommittingKeepsInv(p, j, commit);
    hide ValidApproval, CommitAccepted, FindCommit, FinalizePublication;
    if prepared.finalization.value == FinalizationFor(prepared, j.changeSet, commit) {
      CompletingKeepsInv(JournalCommit(p, j, commit), CommittedRecord(j, commit));
    }
  }

  lemma FinishReports(p: Process, j: JournalRecord, prepared: ApprovalRecord, commit: Commit)
    ensures var (q, outcome) := Finish(p, j, prepared, commit);
            && q.life <= p.life
            && (outcome.Published? ==> outcome == Published(j.changeSet.changeSetId, commit.sourceRevision))
  {}

  lemma FinishingKeepsInv(p: Process, j: JournalRecord, prepared: ApprovalRecord, commit: Commit)
    requires HoldingCommit(p, j, commit)
    requires prepared == p.d.approvals[j.changeSet.changeSetId.identity.approvalReceiptId]
    ensures var (q, outcome) := Finish(p, j, prepared, commit);
            && Inv(q.d)
            && q.d.commits == p.d.commits
            && (outcome.Published? && q.Alive() ==>
                  CommittedAs(q.d.commits, outcome.changeSetId, outcome.sourceRevision))
  {
    hide Finish, Inv, FindCommit, CommitAccepted;
    FinishReports(p, j, prepared, commit);
    if prepared.finalization.None? {
      FirstFinishKeepsInv(p, j, prepared, commit);
    } else {
      RepeatedFinishKeepsInv(p, j, prepared, commit);
    }
  }

  lemma ResumingKeepsInv(p: Process, j: JournalRecord, e: Replies)
    requires Holding(p, j)
    ensures var (q, outcome) := Resume(p, j, e);
            && Inv(q.d)
            && (outcome.Published? && q.Alive() ==>
                  CommittedAs(q.d.commits, outcome.changeSetId, outcome.sourceRevision))
  {
    hide CreateChangeSet, FindCommit, Finish;
    if PreparedFor(p.d, j) && p.Alive() {
      var prepared := LoadPrepared(p.d, j.changeSet.changeSetId).value;
      assert BoundTo(p.d.approvals, j.changeSet);
      ObtainingKeepsInv(p, j, e);
      var (obtained, commit) := ObtainCommit(p, j, e);
      if commit.Some? { FinishingKeepsInv(obtained, j, prepared, commit.value); }
    } else if PreparedFor(p.d, j) {
      DeadResumeChangesNothing(p, j, e);
    }
  }

  lemma DeadResumeChangesNothing(p: Process, j: JournalRecord, e: Replies)
    requires !p.Alive()
    ensures Resume(p, j, e).0 == p
  {
    hide CreateChangeSet, FindCommit, ValidApproval;
  }

  lemma PublishingKeepsInv(d: Durable, candidate: Candidate, receipt: Receipt, operations: seq<PublicationOperation>,
                           e: Replies, life: nat)
    requires Inv(d)
    ensures var (q, outcome) := Publish(Process(d, life), candidate, receipt, operations, e);
            && Inv(q.d)
            && (outcome.Published? && q.Alive() ==>
                  CommittedAs(q.d.commits, outcome.changeSetId, outcome.sourceRevision))
  {
    hide Resume, FindCommit;
    var p := Process(d, life);
    var created := CreateChangeSet(candidate, receipt, operations);
    if created.Created? {
      var artifact := created.artifact;
      var id := artifact.changeSet.changeSetId;
      PreparingKeepsInv(p, receipt, candidate, artifact);
      var (prepared, ok) := PreparePublication(p, receipt, candidate, artifact);
      if id in d.journals {
        ResumingKeepsInv(prepared, d.journals[id], e);
      } else if ok {
        var j := JournalRecord(JournalPrepared, receipt.receiptId, candidate.checksum, artifact.changeSet,
                               e.expectedTree, None);
        JournalingKeepsInv(prepared, j);
        ResumingKeepsInv(WriteJournal(prepared, j), j, e);
      }
    }
  }

  lemma CallKeepsInv(d: Durable, c: Call)
    requires Inv(d)
    ensures var (q, outcome) := Invoke(d, c);
            && Inv(q.d)
            && (outcome.Published? && q.Alive() ==>
                  CommittedAs(q.d.commits, outcome.changeSetId, outcome.sourceRevision))
  {
    match c.operation
    case RecordOp(r, candidate) =>
      if ReceiptApproves(r, candidate) && r.receiptId !in d.approvals {
        NewApprovalKeepsInv(Process(d, c.life), r, candidate);
      }
    case PublishOp(candidate, r, operations, e) => PublishingKeepsInv(d, candidate, r, operations, e, c.life);
    case RecoverOp(id, e) => if id in d.journals { ResumingKeepsInv(Process(d, c.life), d.journals[id], e); }
  }

  /******* Main results *******/

  lemma {:induction false} RunKeepsInv(d: Durable, calls: seq<Call>)
    requires Inv(d)
    ensures Inv(Run(d, calls))
    decreases |calls|
  {
    if calls != [] {
      CallKeepsInv(d, calls[0]);
      RunKeepsInv(Perform(d, calls[0]), calls[1..]);
    }
  }

  /**
   Over every run, each call dying after any effect: a change set has at most one commit; a finalized receipt has
   the commit it names; and a completed journal has its commit, with a finalization of the same source revision.
   */
  lemma PublishedAtMostOnce(d: Durable, calls: seq<Call>)
    requires Inv(d)
    ensures var after := Run(d, calls);
            && AtMostOneCommit(after.commits)
            && FinalizationsCommitted(after.approvals, after.commits)
            && (forall id | id in after.journals && after.journals[id].status == JournalCompleted ::
                  && after.journals[id].commit.Some?
                  && FindCommit(after.commits, id) == after.journals[id].commit
                  && FinalizedAs(after.approvals, after.journals[id].changeSet,
                                 after.journals[id].commit.value.sourceRevision))
  {
    RunKeepsInv(d, calls);
  }

  /** Competing change sets on one receipt: no two commits, of whatever change sets, name the same receipt. */
  lemma OneCommitPerReceipt(d: Durable, calls: seq<Call>)
    requires Inv(d)
    ensures var commits := Run(d, calls).commits;
            forall i, j | 0 <= i < j < |commits| ::
              commits[i].changeSetId.identity.approvalReceiptId != commits[j].changeSetId.identity.approvalReceiptId
  {
    RunKeepsInv(d, calls);
    var after := Run(d, calls);
    forall i, j | 0 <= i < j < |after.commits|
      ensures after.commits[i].changeSetId.identity.approvalReceiptId
              != after.commits[j].changeSetId.identity.approvalReceiptId
    {
      var a, b := after.commits[i].changeSetId, after.commits[j].changeSetId;
      assert after.commits[i] in after.commits && after.commits[j] in after.commits;
      assert BoundTo(after.approvals, after.journals[a].changeSet)
             && BoundTo(after.approvals, after.journals[b].changeSet);
    }
  }

  /******* History never changes *******/

  /** Bound artifacts, finalizations and landed commits of `before` are still there, unchanged, in `after`. */
  predicate Extends(before: Durable, after: Durable) {
    before.commits <= after.commits && ApprovalsExtend(before.approvals, after.approvals)
  }

  lemma ExtendsTransitive(a: Durable, b: Durable, c: Durable)
    requires Extends(a, b) && Extends(b, c)
    ensures Extends(a, c)
  {}

  lemma PreparingExtends(p: Process, receipt: Receipt, candidate: Candidate, artifact: Artifact)
    requires Inv(p.d)
    ensures Extends(p.d, PreparePublication(p, receipt, candidate, artifact).0.d)
  {
    hide CreateChangeSet;
    if receipt.receiptId in p.d.approvals && p.d.approvals[receipt.receiptId].status == Approved {
      assert ValidApproval(p.d.approvals[receipt.receiptId], receipt.receiptId);
      hide ValidApproval;
    } else {
      hide ValidApproval;
    }
  }

  lemma FinalizingExtends(p: Process, f: Finalization)
    ensures Extends(p.d, FinalizePublication(p, f).0.d)
  {}

  lemma FinishingExtends(p: Process, j: JournalRecord, prepared: ApprovalRecord, commit: Commit)
    ensures Extends(p.d, Finish(p, j, prepared, commit).0.d)
  {
    hide CreateChangeSet;
    var committed := if j.commit.None? then j.(status := JournalCommitted, commit := Some(commit)) else j;
    var journaled := if j.commit.None? then WriteJournal(p, committed) else p;
    FinalizingExtends(journaled, FinalizationFor(prepared, j.changeSet, commit));
  }

  lemma ResumingExtends(p: Process, j: JournalRecord, e: Replies)
    ensures Extends(p.d, Resume(p, j, e).0.d)
  {
    hide CreateChangeSet, Finish;
    if PreparedFor(p.d, j) {
      var (obtained, commit) := ObtainCommit(p, j, e);
      assert Extends(p.d, obtained.d);
      if commit.Some? {
        FinishingExtends(obtained, j, LoadPrepared(p.d, j.changeSet.changeSetId).value, commit.value);
      }
    }
  }

  lemma PublishingExtends(p: Process, candidate: Candidate, r: Receipt, operations: seq<PublicationOperation>,
                          e: Replies)
    requires Inv(p.d)
    ensures Extends(p.d, Publish(p, candidate, r, operations, e).0.d)
  {
    hide CreateChangeSet, Resume;
    var created := CreateChangeSet(candidate, r, operations);
    if created.Created? {
      PreparingExtends(p, r, candidate, created.artifact);
      var prepared := PreparePublication(p, r, candidate, created.artifact).0;
      if created.artifact.changeSet.changeSetId in p.d.journals {
        var j := p.d.journals[created.artifact.changeSet.changeSetId];
        ResumingExtends(prepared, j, e);
        ExtendsTransitive(p.d, prepared.d, Resume(prepared, j, e).0.d);
      } else {
        var j := JournalRecord(JournalPrepared, r.receiptId, candidate.checksum, created.artifact.changeSet,
                               e.expectedTree, None);
        var journaled := WriteJournal(prepared, j);
        ResumingExtends(journaled, j, e);
        assert Extends(prepared.d, journaled.d);
        ExtendsTransitive(p.d, prepared.d, journaled.d);
        ExtendsTransitive(p.d, journaled.d, Resume(journaled, j, e).0.d);
      }
    }
  }

  lemma CallExtends(d: Durable, c: Call)
    requires Inv(d)
    ensures Extends(d, Perform(d, c))
  {
    hide CreateChangeSet, Publish, ValidApproval;
    var p := Process(d, c.life);
    match c.operation
    case RecordOp(_, _) =>
    case RecoverOp(id, e) => if id in d.journals { ResumingExtends(p, d.journals[id], e); }
    case PublishOp(candidate, r, operations, e) => PublishingExtends(p, candidate, r, operations, e);
  }

  /** A bound artifact, a finalization and a landed commit never change again. */
  lemma {:induction false} HistoryIsAppendOnly(d: Durable, calls: seq<Call>)
    requires Inv(d)
    ensures Extends(d, Run(d, calls))
    decreases |calls|
  {
    if calls != [] {
      CallKeepsInv(d, calls[0]);
      CallExtends(d, calls[0]);
      HistoryIsAppendOnly(Perform(d, calls[0]), calls[1..]);
      ExtendsTransitive(d, Perform(d, calls[0]), Run(d, calls));
    }
  }

  lemma {:induction false} FindInPrefix(a: seq<Commit>, b: seq<Commit>, id: ChangeSetId)
    requires a <= b && FindCommit(a, id).Some?
    ensures FindCommit(b, id) == FindCommit(a, id)
  {
    if a[0].changeSetId != id { FindInPrefix(a[1..], b[1..], id); }
  }

  /** Every result ever reported for a change set, however many crashes apart, names the same source revision. */
  lemma {:induction false} ResultsAgree(d: Durable, first: Call, between: seq<Call>, second: Call)
    requires Inv(d)
    requires Invoke(d, first).1.Published? && Invoke(d, first).0.Alive()
    requires var d' := Run(Perform(d, first), between);
             && Invoke(d', second).1.Published? && Invoke(d', second).0.Alive()
             && Invoke(d', second).1.changeSetId == Invoke(d, first).1.changeSetId
    ensures Invoke(Run(Perform(d, first), between), second).1 == Invoke(d, first).1
  {
    var id := Invoke(d, first).1.changeSetId;
    CallKeepsInv(d, first);
    var d1 := Perform(d, first);
    RunKeepsInv(d1, between);
    HistoryIsAppendOnly(d1, between);
    var d2 := Run(d1, between);
    CallKeepsInv(d2, second);
    CallExtends(d2, second);
    FindInPrefix(d1.commits, Perform(d2, second).commits, id);
  }

  /******* What a call achieves when nothing fails *******/

  function WillingReplies(tree: TreeChecksum, commitId: string): Replies {
    Replies(true, true, true, tree, true, true, tree, CommitReply(true, true, commitId, commitId, tree))
  }

  /** Everything about `j` that a crash may have left undone can still be done. */
  predicate Resumable(d: Durable, j: JournalRecord) {
    && j.changeSet.changeSetId in d.journals && d.journals[j.changeSet.changeSetId] == j
    && j.changeSet.identity == j.changeSet.changeSetId.identity
    && j.changeSet.identity.candidateRevision >= 1
    && (FindCommit(d.commits, j.changeSet.changeSetId).Some? ==>
          CommitAccepted(FindCommit(d.commits, j.changeSet.changeSetId).value, j.changeSet, j.expectedTreeChecksum))
  }

  lemma BoundIsPreparedFor(d: Durable, j: JournalRecord)
    requires Inv(d) && j.changeSet.changeSetId in d.journals && d.journals[j.changeSet.changeSetId] == j
    ensures PreparedFor(d, j)
  {
    assert BoundTo(d.approvals, j.changeSet);
    var record := d.approvals[j.changeSet.changeSetId.identity.approvalReceiptId];
    assert ValidApproval(record, j.changeSet.changeSetId.identity.approvalReceiptId);
  }

  lemma FinishingCompletes(p: Process, j: JournalRecord, prepared: ApprovalRecord, commit: Commit)
    requires HoldingCommit(p, j, commit) && p.life >= 4
    requires prepared == p.d.approvals[j.changeSet.changeSetId.identity.approvalReceiptId]
    requires prepared.candidate.revision >= 1
    ensures var (q, outcome) := Finish(p, j, prepared, commit);
            && outcome == Published(j.changeSet.changeSetId, commit.sourceRevision)
            && j.changeSet.changeSetId in q.d.journals
            && q.d.journals[j.changeSet.changeSetId] == j.(status := JournalCompleted, commit := Some(commit))
  {
    hide FindCommit;
    assert ValidApproval(prepared, j.changeSet.changeSetId.identity.approvalReceiptId);
    CommittingKeepsInv(p, j, commit);
    hide CreateChangeSet, FindCommit;
    if prepared.finalization.Some? {
      var f := prepared.finalization.value;
      assert CommittedAs(p.d.commits, f.changeSetId, f.sourceRevision);
      assert f == FinalizationFor(prepared, j.changeSet, commit);
    }
  }

  lemma ObtainingSucceeds(p: Process, j: JournalRecord, commitId: string)
    requires Holding(p, j) && p.life >= 1 && Resumable(p.d, j) && BoundTo(p.d.approvals, j.changeSet) && commitId != ""
    ensures var found := FindCommit(p.d.commits, j.changeSet.changeSetId);
            var (q, commit) := ObtainCommit(p, j, WillingReplies(j.expectedTreeChecksum, commitId));
            && commit.Some? && (q.Alive() ==> HoldingCommit(q, j, commit.value))
            && commit.value.sourceRevision == (if found.Some? then found.value.sourceRevision else commitId)
            && |q.d.commits| == |p.d.commits| + (if found.Some? then 0 else 1)
            && q.life >= p.life - 1 && q.d.approvals == p.d.approvals
  {
    hide ValidApproval;
    ObtainingKeepsInv(p, j, WillingReplies(j.expectedTreeChecksum, commitId));
  }

  /** An undisturbed recovery of a resumable change set completes it, with the existing commit if there is one. */
  lemma {:induction false} UndisturbedRecoveryCompletes(d: Durable, j: JournalRecord, commitId: string, life: nat)
    requires Inv(d) && Resumable(d, j) && commitId != "" && life >= 5
    ensures var id := j.changeSet.changeSetId;
            var found := FindCommit(d.commits, id);
            var (q, outcome) :=
              RecoverPublication(Process(d, life), id, WillingReplies(j.expectedTreeChecksum, commitId));
            && outcome == Published(id, if found.Some? then found.value.sourceRevision else commitId)
            && id in q.d.journals && q.d.journals[id].status == JournalCompleted
            && |q.d.commits| == |d.commits| + (if found.Some? then 0 else 1)
  {
    var p, e := Process(d, life), WillingReplies(j.expectedTreeChecksum, commitId);
    BoundIsPreparedFor(d, j);
    var prepared := LoadPrepared(d, j.changeSet.changeSetId).value;
    assert BoundTo(d.approvals, j.changeSet);
    assert ValidApproval(prepared, prepared.receipt.receiptId);
    if prepared.finalization.Some? {
      assert CommittedAs(d.commits, prepared.finalization.value.changeSetId,
                         prepared.finalization.value.sourceRevision);
    }
    ObtainingSucceeds(p, j, commitId);
    var (obtained, commit) := ObtainCommit(p, j, e);
    FinishingCompletes(obtained, j, prepared, commit.value);
    FinishingKeepsInv(obtained, j, prepared, commit.value);
  }
}
