/**
 What the records of a publication say, field by field: the artifact, the journal, the commit and the finalization.
 */
module PublicationRecords {
  import opened Options
  import opened Canonical
  import opened ChangeSets
  import opened PublicationProtocol
  import opened PublicationSafety

  /******* Change sets *******/

  /** An accepted or rewritten decision on exactly this candidate revision. */
  predicate DecidedFor(r: Receipt, c: Candidate) {
    && (r.decision == Accepted || r.decision == Rewritten)
    && r.candidateId == c.candidateId && r.candidateRevision == c.revision
    && r.candidateChecksum == c.checksum && r.baseAuthorityVersion == c.baseAuthorityVersion
  }

  /** Files by path, each once; what is written hashes to what it says. */
  ghost predicate WellFormed(operations: seq<PublicationOperation>) {
    && operations != []
    && (forall i, j | 0 <= i < |operations| && 0 <= j < |operations| && i != j ::
        operations[i].path != operations[j].path)
    && forall o | o in operations && o.WriteFile? :: o.contentChecksum == ContentDigest(o.content)
  }

  /** The change set of these operations, under this receipt, for this candidate. */
  ghost predicate IsChangeSetOf(cs: ChangeSet, c: Candidate, r: Receipt, operations: seq<PublicationOperation>) {
    && cs.identity.approvalReceiptId == r.receiptId
    && cs.identity.candidateId == c.candidateId && cs.identity.candidateRevision == c.revision
    && cs.identity.candidateChecksum == c.checksum
    && cs.identity.baseAuthorityVersion == c.baseAuthorityVersion && cs.identity.baseChecksum == c.baseChecksum
    && |cs.identity.operations| == |operations|
    && (forall i | 0 <= i < |operations| ::
          && cs.identity.operations[i].path == operations[i].path
          && cs.identity.operations[i].contentChecksum == operations[i].contentChecksum
          && (cs.identity.operations[i].kind == WriteKind <==> operations[i].WriteFile?))
    && cs.changeSetId == ChangeSetId(cs.identity) && cs.createdAt == r.decidedAt
    && cs.checksum == ChangeSetChecksum(cs.changeSetId, cs.identity, cs.createdAt)
  }

  lemma SortedOperations(operations: seq<PublicationOperation>)
    ensures var sorted := Sort(operations, PathOf());
            && multiset(sorted) == multiset(operations)
            && (sorted != [] <==> operations != [])
            && (forall o :: o in sorted <==> o in operations)
            && (DistinctBy(sorted, PathOf()) <==> DistinctBy(operations, PathOf()))
            && (DistinctBy(sorted, PathOf()) ==>
                  forall i, j | 0 <= i < j < |sorted| :: TextLess(sorted[i].path, sorted[j].path))
  {
    hide TextLess;
    var sorted := Sort(operations, PathOf());
    SortSorts(operations, PathOf());
    if DistinctBy(sorted, PathOf()) { DistinctIsAboutContents(sorted, operations, PathOf()); }
    if DistinctBy(operations, PathOf()) { DistinctIsAboutContents(operations, sorted, PathOf()); }
    forall o ensures o in sorted <==> o in operations {
      assert o in multiset(sorted) <==> o in multiset(operations);
    }
    assert |multiset(sorted)| == |sorted| && |multiset(operations)| == |operations|;
  }

  lemma DistinctPaths(operations: seq<PublicationOperation>)
    ensures DistinctBy(operations, PathOf()) <==>
            forall i, j | 0 <= i < |operations| && 0 <= j < |operations| && i != j ::
              operations[i].path != operations[j].path
  {
    if forall i, j | 0 <= i < |operations| && 0 <= j < |operations| && i != j ::
         operations[i].path != operations[j].path {
    } else {
      var i, j :| 0 <= i < |operations| && 0 <= j < |operations| && i != j && operations[i].path == operations[j].path;
      assert PathOf()(operations[i]) == PathOf()(operations[j]);
    }
  }

  /** A change set is created exactly for a decision on the candidate and well-formed files, and says just that. */
  lemma CreatedExactly(c: Candidate, r: Receipt, operations: seq<PublicationOperation>)
    ensures CreateChangeSet(c, r, operations).Created? <==> DecidedFor(r, c) && WellFormed(operations)
    ensures CreateChangeSet(c, r, operations).Created? ==>
              var artifact := CreateChangeSet(c, r, operations).artifact;
              && IsChangeSetOf(artifact.changeSet, c, r, artifact.operations)
              && multiset(artifact.operations) == multiset(operations) && WellFormed(artifact.operations)
              && forall i, j | 0 <= i < j < |artifact.operations| ::
                   TextLess(artifact.operations[i].path, artifact.operations[j].path)
  {
    hide Sort, DistinctBy, TextLess, Refs;
    var sorted := Sort(operations, PathOf());
    SortedOperations(operations);
    DistinctPaths(operations);
    DistinctPaths(sorted);
    forall i | 0 <= i < |sorted|
      ensures i < |Refs(sorted)| && Refs(sorted)[i].kind == (if sorted[i].WriteFile? then WriteKind else DeleteKind)
    {
      RefsAt(sorted, i);
    }
  }

  /******* Records *******/

  /** The landed commit of a change set, over the tree that was validated. */
  predicate CommitsTo(c: Commit, cs: ChangeSet, tree: TreeChecksum) {
    && c.changeSetId == cs.changeSetId && c.changeSetChecksum == cs.checksum
    && c.treeChecksum == tree && c.commitId != "" && c.sourceRevision == c.commitId
  }

  /** A receipt, what it is bound to, and what it was finalized with. */
  ghost predicate ApprovalSays(record: ApprovalRecord, receiptId: string) {
    && record.receipt.receiptId == receiptId && DecidedFor(record.receipt, record.candidate)
    && (record.status == Approved <==> record.artifact.None?)
    && (record.status == Consumed <==> record.finalization.Some?)
    && (record.artifact.Some? ==>
          && IsChangeSetOf(record.artifact.value.changeSet, record.candidate, record.receipt,
                           record.artifact.value.operations)
          && WellFormed(record.artifact.value.operations))
    && (record.finalization.Some? ==>
          && record.artifact.Some?
          && var f, cs := record.finalization.value, record.artifact.value.changeSet;
             && f.receiptId == receiptId
             && f.candidateId == record.candidate.candidateId && f.candidateRevision == record.candidate.revision
             && f.candidateChecksum == record.candidate.checksum
             && f.changeSetId == cs.changeSetId && f.changeSetChecksum == cs.checksum)
  }

  /**
   A journal is of the change set its receipt is bound to, and carries a landed commit of it and its tree, or none.
   */
  ghost predicate JournalSays(j: JournalRecord, id: ChangeSetId, approvals: Approvals, commits: seq<Commit>) {
    && j.changeSet.changeSetId == id
    && j.approvalReceiptId in approvals
    && approvals[j.approvalReceiptId].artifact.Some?
    && approvals[j.approvalReceiptId].artifact.value.changeSet == j.changeSet
    && j.candidateChecksum == approvals[j.approvalReceiptId].candidate.checksum
    && (j.status == JournalPrepared <==> j.commit.None?)
    && (j.commit.Some? ==> j.commit.value in commits && CommitsTo(j.commit.value, j.changeSet, j.expectedTreeChecksum))
  }

  /** A finalized receipt names the commit its journal carries. */
  ghost predicate FinalizationSays(f: Finalization, journals: Journals) {
    && f.changeSetId in journals && journals[f.changeSetId].commit.Some?
    && f.sourceRevision == journals[f.changeSetId].commit.value.commitId
  }

  ghost predicate RecordsSay(d: Durable) {
    && (forall r | r in d.approvals :: ApprovalSays(d.approvals[r], r))
    && (forall id | id in d.journals :: JournalSays(d.journals[id], id, d.approvals, d.commits))
    && (forall r | r in d.approvals && d.approvals[r].finalization.Some? ::
          FinalizationSays(d.approvals[r].finalization.value, d.journals))
    && (forall id | id in d.journals && d.journals[id].status == JournalCompleted ::
          d.approvals[d.journals[id].approvalReceiptId].finalization.Some?)
  }

  lemma ValidApprovalSays(record: ApprovalRecord, receiptId: string)
    requires ValidApproval(record, receiptId)
    ensures ApprovalSays(record, receiptId)
  {
    if record.artifact.Some? { CreatedExactly(record.candidate, record.receipt, record.artifact.value.operations); }
    hide CreateChangeSet, IsChangeSetOf, WellFormed;
  }

  /** A finalization was written after the commit was journaled. */
  predicate Journaled(d: Durable) {
    forall r | r in d.approvals && d.approvals[r].finalization.Some? ::
      var id := d.approvals[r].finalization.value.changeSetId;
      id in d.journals && d.journals[id].commit.Some?
  }

  lemma ValidJournalSays(d: Durable, id: ChangeSetId)
    requires Inv(d) && id in d.journals
    ensures JournalSays(d.journals[id], id, d.approvals, d.commits)
  {
    hide FindCommit, CreateChangeSet;
    var j := d.journals[id];
    assert ValidJournal(j, id) && BoundTo(d.approvals, j.changeSet);
    assert ValidApproval(d.approvals[id.identity.approvalReceiptId], id.identity.approvalReceiptId);
    ValidApprovalSays(d.approvals[id.identity.approvalReceiptId], id.identity.approvalReceiptId);
    hide ValidApproval, WellFormed;
    if j.commit.Some? { assert FindCommit(d.commits, id) == j.commit; }
  }

  lemma FinalizationIsSaid(d: Durable, r: string)
    requires Inv(d) && Journaled(d) && r in d.approvals && d.approvals[r].finalization.Some?
    ensures FinalizationSays(d.approvals[r].finalization.value, d.journals)
  {
    hide ValidApproval, FindCommit;
    var id := d.approvals[r].finalization.value.changeSetId;
    assert ValidJournal(d.journals[id], id);
    assert FindCommit(d.commits, id) == d.journals[id].commit;
  }

  lemma CompletedIsFinalized(d: Durable, id: ChangeSetId)
    requires Inv(d) && id in d.journals && d.journals[id].status == JournalCompleted
    ensures d.journals[id].approvalReceiptId in d.approvals
            && d.approvals[d.journals[id].approvalReceiptId].finalization.Some?
  {
    hide CreateChangeSet, FindCommit;
    var j := d.journals[id];
    assert ValidJournal(j, id) && FinalizedAs(d.approvals, j.changeSet, j.commit.value.sourceRevision);
    assert ValidApproval(d.approvals[id.identity.approvalReceiptId], id.identity.approvalReceiptId);
    ValidApprovalSays(d.approvals[id.identity.approvalReceiptId], id.identity.approvalReceiptId);
  }

  lemma InvSays(d: Durable)
    requires Inv(d) && Journaled(d)
    ensures RecordsSay(d)
  {
    hide *;
    forall r | r in d.approvals ensures ApprovalSays(d.approvals[r], r) {
      InvApproval(d, r);
      ValidApprovalSays(d.approvals[r], r);
    }
    forall id | id in d.journals ensures JournalSays(d.journals[id], id, d.approvals, d.commits) {
      ValidJournalSays(d, id);
    }
    forall r | r in d.approvals && d.approvals[r].finalization.Some?
      ensures FinalizationSays(d.approvals[r].finalization.value, d.journals)
    {
      FinalizationIsSaid(d, r);
    }
    forall id | id in d.journals && d.journals[id].status == JournalCompleted
      ensures d.journals[id].approvalReceiptId in d.approvals
              && d.approvals[d.journals[id].approvalReceiptId].finalization.Some?
    {
      CompletedIsFinalized(d, id);
    }
    SaidTogether(d);
  }

  lemma InvApproval(d: Durable, r: string)
    requires Inv(d) && r in d.approvals
    ensures ValidApproval(d.approvals[r], r)
  {}

  lemma SaidTogether(d: Durable)
    requires forall r | r in d.approvals :: ApprovalSays(d.approvals[r], r)
    requires forall id | id in d.journals :: JournalSays(d.journals[id], id, d.approvals, d.commits)
    requires forall r | r in d.approvals && d.approvals[r].finalization.Some? ::
               FinalizationSays(d.approvals[r].finalization.value, d.journals)
    requires forall id | id in d.journals && d.journals[id].status == JournalCompleted ::
               && d.journals[id].approvalReceiptId in d.approvals
               && d.approvals[d.journals[id].approvalReceiptId].finalization.Some?
    ensures RecordsSay(d)
  {}

  /******* Steps *******/

  /** The journal records of `after` are those of `before`, with perhaps a commit and another status. */
  predicate SameJournals(before: Journals, after: Journals) {
    forall id | id in before ::
      && id in after && after[id].changeSet == before[id].changeSet
      && after[id].expectedTreeChecksum == before[id].expectedTreeChecksum
      && (before[id].commit.Some? ==> after[id].commit == before[id].commit)
  }

  /**
   What a call may do: journals keep their change set and tree; at most one commit lands, over a tree that was validated
   again; and a receipt is finalized only once its commit is journaled.
   */
  ghost predicate Steps(before: Durable, after: Durable, e: Replies) {
    && SameJournals(before.journals, after.journals)
    && (after.commits == before.commits
        || exists id | id in after.journals ::
             && e.finds && e.revalidates && e.revalidatedTree == after.journals[id].expectedTreeChecksum
             && e.commit.lands && (forall c | c in before.commits :: c.changeSetId != id)
             && after.commits == before.commits
                                 + [Commit(id, after.journals[id].changeSet.checksum, e.commit.commitId,
                                           e.commit.sourceRevision, e.commit.treeChecksum)])
  }

  lemma FinalizingKeepsJournaled(p: Process, f: Finalization)
    requires Journaled(p.d)
    requires p.Alive() ==> f.changeSetId in p.d.journals && p.d.journals[f.changeSetId].commit.Some?
    ensures var q := FinalizePublication(p, f).0;
            Journaled(q.d) && q.d.journals == p.d.journals && q.d.commits == p.d.commits && q.life <= p.life
  {
    hide ValidApproval, FinalizationMatches;
  }

  lemma RewritingKeepsJournaled(p: Process, j: JournalRecord, status: JournalStatus, commit: Commit)
    requires Journaled(p.d)
    requires p.Alive() ==> j.changeSet.changeSetId in p.d.journals && p.d.journals[j.changeSet.changeSetId] == j
    requires j.commit.Some? ==> j.commit == Some(commit)
    ensures var q := WriteJournal(p, j.(status := status, commit := Some(commit)));
            && Journaled(q.d) && q.d.approvals == p.d.approvals && q.d.commits == p.d.commits
            && SameJournals(p.d.journals, q.d.journals) && q.d.journals.Keys == p.d.journals.Keys
  {}

  lemma FinishingReports(p: Process, j: JournalRecord, prepared: ApprovalRecord, commit: Commit)
    requires p.Alive() ==> j.changeSet.changeSetId in p.d.journals && p.d.journals[j.changeSet.changeSetId] == j
    requires j.commit.Some? ==> j.commit == Some(commit)
    ensures var (q, outcome) := Finish(p, j, prepared, commit);
            outcome.Published? && q.Alive() ==>
              var id := j.changeSet.changeSetId;
              && outcome == Published(id, commit.sourceRevision)
              && id in q.d.journals && q.d.journals[id].status == JournalCompleted
              && q.d.journals[id].changeSet == j.changeSet && q.d.journals[id].commit == Some(commit)
  {
    hide ValidApproval, FinalizationFor;
  }

  lemma FinishingSteps(p: Process, j: JournalRecord, prepared: ApprovalRecord, commit: Commit)
    requires Journaled(p.d)
    requires p.Alive() ==> j.changeSet.changeSetId in p.d.journals && p.d.journals[j.changeSet.changeSetId] == j
    requires j.commit.Some? ==> j.commit == Some(commit)
    ensures var (q, outcome) := Finish(p, j, prepared, commit);
            && Journaled(q.d) && q.d.commits == p.d.commits && SameJournals(p.d.journals, q.d.journals)
            && q.d.journals.Keys == p.d.journals.Keys
            && (outcome.Published? && q.Alive() ==>
                  var id := j.changeSet.changeSetId;
                  && outcome == Published(id, commit.sourceRevision)
                  && id in q.d.journals && q.d.journals[id].status == JournalCompleted
                  && q.d.journals[id].changeSet == j.changeSet
                  && q.d.journals[id].commit == Some(commit))
  {
    hide ValidApproval, FindCommit, FinalizePublication, Journaled, SameJournals;
    FinishingReports(p, j, prepared, commit);
    var committed := CommittedRecord(j, commit);
    var journaled := JournalCommit(p, j, commit);
    RewritingKeepsJournaled(p, j, JournalCommitted, commit);
    var expected := FinalizationFor(prepared, j.changeSet, commit);
    FinalizingKeepsJournaled(journaled, expected);
    var finalized := if prepared.finalization.Some? then journaled else FinalizePublication(journaled, expected).0;
    RewritingKeepsJournaled(finalized, committed, JournalCompleted, commit);
    SameJournalsTwice(p.d.journals, journaled.d.journals, Finish(p, j, prepared, commit).0.d.journals);
    SameJournalsTwice(p.d.journals, p.d.journals, p.d.journals);
  }

  lemma SameJournalsTwice(a: Journals, b: Journals, c: Journals)
    ensures SameJournals(a, b) && SameJournals(b, c) ==> SameJournals(a, c)
    ensures SameJournals(a, a)
  {}

  lemma ObtainingSteps(p: Process, j: JournalRecord, e: Replies)
    requires j.changeSet.changeSetId in p.d.journals
             && p.d.journals[j.changeSet.changeSetId].changeSet == j.changeSet
             && p.d.journals[j.changeSet.changeSetId].expectedTreeChecksum == j.expectedTreeChecksum
    ensures var (q, commit) := ObtainCommit(p, j, e);
            && Steps(p.d, q.d, e) && q.d.journals == p.d.journals && q.d.approvals == p.d.approvals
            && (commit.Some? ==>
                  && CommitsTo(commit.value, j.changeSet, j.expectedTreeChecksum)
                  && (j.commit.Some? ==> commit == j.commit))
            && (commit.Some? && q.Alive() ==> commit.value in q.d.commits)
  {
    if FindCommit(p.d.commits, j.changeSet.changeSetId).None? && e.commit.lands {
      assert LandedCommit(j.changeSet, e.commit)
             == Commit(j.changeSet.changeSetId, j.changeSet.checksum, e.commit.commitId, e.commit.sourceRevision,
                       e.commit.treeChecksum);
    }
  }

  lemma StepsAround(a: Durable, b: Durable, c: Durable, d: Durable, e: Replies)
    requires Steps(b, c, e)
    requires SameJournals(a.journals, b.journals) && a.commits == b.commits
    requires SameJournals(c.journals, d.journals) && c.commits == d.commits
    ensures Steps(a, d, e)
  {
    if c.commits != b.commits {
      var id :| id in c.journals
                && e.finds && e.revalidates && e.revalidatedTree == c.journals[id].expectedTreeChecksum
                && e.commit.lands && (forall x | x in b.commits :: x.changeSetId != id)
                && c.commits == b.commits
                                + [Commit(id, c.journals[id].changeSet.checksum, e.commit.commitId,
                                          e.commit.sourceRevision, e.commit.treeChecksum)];
      assert id in d.journals && d.journals[id].changeSet == c.journals[id].changeSet;
    }
  }

  /** What has been published: a completed journal whose commit, of its change set and its tree, has landed. */
  ghost predicate PublishedAs(d: Durable, id: ChangeSetId, sourceRevision: string) {
    && id in d.journals && d.journals[id].status == JournalCompleted && d.journals[id].changeSet.changeSetId == id
    && d.journals[id].commit.Some? && d.journals[id].commit.value in d.commits
    && CommitsTo(d.journals[id].commit.value, d.journals[id].changeSet, d.journals[id].expectedTreeChecksum)
    && sourceRevision == d.journals[id].commit.value.commitId
  }

  lemma ResumingSteps(p: Process, j: JournalRecord, e: Replies)
    requires Holding(p, j) && Journaled(p.d)
    ensures var (q, outcome) := Resume(p, j, e);
            && Steps(p.d, q.d, e) && Journaled(q.d) && q.d.journals.Keys == p.d.journals.Keys
            && (outcome.Published? && q.Alive() ==>
                  outcome.changeSetId == j.changeSet.changeSetId
                  && PublishedAs(q.d, outcome.changeSetId, outcome.sourceRevision))
  {
    hide ValidApproval, FindCommit, Finish, LoadPrepared, Inv, ObtainCommit, Journaled;
    SameJournalsTwice(p.d.journals, p.d.journals, p.d.journals);
    if !p.Alive() {
      DeadResumeChangesNothing(p, j, e);
    } else if PreparedFor(p.d, j) {
      var prepared := LoadPrepared(p.d, j.changeSet.changeSetId).value;
      ObtainingSteps(p, j, e);
      var (obtained, commit) := ObtainCommit(p, j, e);
      assert Journaled(obtained.d) by { JournaledIgnoresCommits(p.d, obtained.d); }
      if commit.Some? {
        FinishingSteps(obtained, j, prepared, commit.value);
        var (q, outcome) := Finish(obtained, j, prepared, commit.value);
        StepsAround(p.d, p.d, obtained.d, q.d, e);
        FinishReports(obtained, j, prepared, commit.value);
      }
    }
  }

  lemma JournaledIgnoresCommits(a: Durable, b: Durable)
    requires Journaled(a) && b.approvals == a.approvals && b.journals == a.journals
    ensures Journaled(b)
  {}

  /** A journal was begun by a publication whose inputs were checked, over the tree that its validation answered. */
  ghost predicate OpenedBy(j: JournalRecord, c: Candidate, r: Receipt, operations: seq<PublicationOperation>,
                           e: Replies)
  {
    && e.inspects && e.dedicatedAndClean && e.validates && j.expectedTreeChecksum == e.expectedTree
    && DecidedFor(r, c) && WellFormed(operations)
    && exists sorted :: multiset(sorted) == multiset(operations) && IsChangeSetOf(j.changeSet, c, r, sorted)
  }

  lemma PreparingKeepsJournaled(p: Process, receipt: Receipt, candidate: Candidate, artifact: Artifact)
    requires Journaled(p.d)
    ensures var q := PreparePublication(p, receipt, candidate, artifact).0;
            Journaled(q.d) && q.d.journals == p.d.journals && q.d.commits == p.d.commits && q.life <= p.life
  {
    hide CreateChangeSet;
  }

  lemma OpeningSteps(p: Process, j: JournalRecord)
    requires Journaled(p.d) && j.changeSet.changeSetId !in p.d.journals
    ensures var q := WriteJournal(p, j);
            && Journaled(q.d) && SameJournals(p.d.journals, q.d.journals) && q.d.commits == p.d.commits
            && (forall id | id in q.d.journals && id !in p.d.journals :: q.d.journals[id] == j)
  {}

  lemma StepsFrom(a: Durable, b: Durable, c: Durable, e: Replies)
    requires SameJournals(a.journals, b.journals) && a.commits == b.commits && Steps(b, c, e)
    ensures Steps(a, c, e)
  {
    SameJournalsTwice(c.journals, c.journals, c.journals);
    StepsAround(a, b, c, c, e);
  }

  lemma NothingSteps(a: Durable, b: Durable, e: Replies)
    requires b.journals == a.journals && b.commits == a.commits
    ensures Steps(a, b, e)
  {}

  lemma OpeningHolds(p: Process, j: JournalRecord)
    requires Inv(p.d) && j.status == JournalPrepared && j.commit.None?
    requires j.approvalReceiptId == j.changeSet.identity.approvalReceiptId
             && j.candidateChecksum == j.changeSet.identity.candidateChecksum
    requires p.Alive() ==> BoundTo(p.d.approvals, j.changeSet)
    ensures Holding(WriteJournal(p, j), j)
  {
    JournalingKeepsInv(p, j);
  }

  lemma ResumingHolds(p: Process, id: ChangeSetId)
    requires Inv(p.d) && id in p.d.journals
    ensures p.d.journals[id].changeSet.changeSetId == id && Holding(p, p.d.journals[id])
  {
    hide ValidApproval, FindCommit;
    assert ValidJournal(p.d.journals[id], id);
  }

  lemma StaysOpened(begun: Journals, after: Journals, before: Journals, j: JournalRecord, c: Candidate, r: Receipt,
                    operations: seq<PublicationOperation>, e: Replies)
    requires SameJournals(begun, after) && after.Keys == begun.Keys && OpenedBy(j, c, r, operations, e)
    requires forall id | id in begun && id !in before :: begun[id] == j
    ensures forall id | id in after && id !in before :: OpenedBy(after[id], c, r, operations, e)
  {
    hide IsChangeSetOf, WellFormed, DecidedFor;
    forall id | id in after && id !in before ensures OpenedBy(after[id], c, r, operations, e) {
      assert id in begun && after[id].changeSet == j.changeSet;
      var sorted :| multiset(sorted) == multiset(operations) && IsChangeSetOf(j.changeSet, c, r, sorted);
      assert IsChangeSetOf(after[id].changeSet, c, r, sorted);
    }
  }

  /** The journal a first publication opens. */
  function Opened(c: Candidate, r: Receipt, artifact: Artifact, e: Replies): JournalRecord {
    JournalRecord(JournalPrepared, r.receiptId, c.checksum, artifact.changeSet, e.expectedTree, None)
  }

  lemma PublishingOpens(p: Process, c: Candidate, r: Receipt, operations: seq<PublicationOperation>, e: Replies)
    requires CreateChangeSet(c, r, operations).Created? && e.inspects && e.dedicatedAndClean && e.validates
    ensures var j := Opened(c, r, CreateChangeSet(c, r, operations).artifact, e);
            && OpenedBy(j, c, r, operations, e)
            && j.approvalReceiptId == j.changeSet.identity.approvalReceiptId
            && j.candidateChecksum == j.changeSet.identity.candidateChecksum
            && r.receiptId == j.changeSet.changeSetId.identity.approvalReceiptId
  {
    CreatedExactly(c, r, operations);
    hide CreateChangeSet, WellFormed, IsChangeSetOf, DecidedFor;
    var artifact := CreateChangeSet(c, r, operations).artifact;
    assert IsChangeSetOf(Opened(c, r, artifact, e).changeSet, c, r, artifact.operations);
    assert OpenedBy(Opened(c, r, artifact, e), c, r, operations, e);
    NamesItsReceipt(artifact.changeSet, c, r, artifact.operations);
  }

  lemma NamesItsReceipt(cs: ChangeSet, c: Candidate, r: Receipt, operations: seq<PublicationOperation>)
    requires IsChangeSetOf(cs, c, r, operations)
    ensures cs.identity.approvalReceiptId == r.receiptId && cs.changeSetId.identity == cs.identity
    ensures cs.identity.candidateChecksum == c.checksum
  {}

  lemma PublishingSteps(d: Durable, c: Candidate, r: Receipt, operations: seq<PublicationOperation>, e: Replies,
                        life: nat)
    requires Inv(d) && Journaled(d)
    ensures var (q, outcome) := Publish(Process(d, life), c, r, operations, e);
            && Steps(d, q.d, e) && Journaled(q.d)
            && (forall id | id in q.d.journals && id !in d.journals ::
                  OpenedBy(q.d.journals[id], c, r, operations, e))
            && (q.d.commits != d.commits || outcome.Published? ==> e.inspects && e.dedicatedAndClean)
            && (outcome.Published? && q.Alive() ==> PublishedAs(q.d, outcome.changeSetId, outcome.sourceRevision))
  {
    hide Resume, PreparePublication, Inv, CreateChangeSet, Journaled, SameJournals, OpenedBy, Steps, BoundTo,
         PublishedAs, Holding;
    var p := Process(d, life);
    NothingSteps(d, d, e);
    var created := CreateChangeSet(c, r, operations);
    if created.Created? {
      var artifact := created.artifact;
      var id := artifact.changeSet.changeSetId;
      PreparingKeepsInv(p, r, c, artifact);
      PreparingKeepsJournaled(p, r, c, artifact);
      var (prepared, ok) := PreparePublication(p, r, c, artifact);
      NothingSteps(d, prepared.d, e);
      SameJournalsTwice(d.journals, d.journals, d.journals);
      if id in d.journals {
        ResumingHolds(prepared, id);
        ResumingSteps(prepared, d.journals[id], e);
        StepsFrom(d, prepared.d, Resume(prepared, d.journals[id], e).0.d, e);
      } else if ok && e.inspects && e.dedicatedAndClean && e.validates {
        PublishingOpens(p, c, r, operations, e);
        var j := Opened(c, r, artifact, e);
        var begun := WriteJournal(prepared, j);
        OpeningHolds(prepared, j);
        OpeningSteps(prepared, j);
        ResumingSteps(begun, j, e);
        var q := Resume(begun, j, e).0;
        StepsFrom(d, begun.d, q.d, e);
        StepsJournals(begun.d, q.d, e);
        StaysOpened(begun.d.journals, q.d.journals, d.journals, j, c, r, operations, e);
      }
    }
  }

  lemma StepsJournals(a: Durable, b: Durable, e: Replies)
    requires Steps(a, b, e)
    ensures SameJournals(a.journals, b.journals)
  {}

  /******* Main results *******/

  const FRESH := Durable(map[], map[], [])

  lemma FreshInv()
    ensures Inv(FRESH) && Journaled(FRESH)
  {}

  function AnswersOf(c: Call): Option<Replies> {
    match c.operation
    case RecordOp(_, _) => None
    case PublishOp(_, _, _, e) => Some(e)
    case RecoverOp(_, e) => Some(e)
  }

  lemma CallSteps(d: Durable, c: Call)
    requires Inv(d) && Journaled(d)
    ensures var (q, outcome) := Invoke(d, c);
            && Journaled(q.d)
            && (c.operation.RecordOp? ==> q.d.journals == d.journals && q.d.commits == d.commits)
            && (!c.operation.RecordOp? ==>
                  && Steps(d, q.d, AnswersOf(c).value)
                  && (q.d.commits != d.commits || outcome.Published? ==>
                        AnswersOf(c).value.inspects && AnswersOf(c).value.dedicatedAndClean))
            && (forall id | id in q.d.journals && id !in d.journals ::
                  && c.operation.PublishOp?
                  && OpenedBy(q.d.journals[id], c.operation.candidate, c.operation.receipt, c.operation.operations,
                              c.operation.publish))
            && (outcome.Published? && q.Alive() ==> PublishedAs(q.d, outcome.changeSetId, outcome.sourceRevision))
  {
    hide Publish, Resume, Inv, Journaled, Steps, OpenedBy, PublishedAs, ValidJournal;
    match c.operation
    case RecordOp(r, candidate) => RecordingKeepsJournaled(Process(d, c.life), r, candidate);
    case PublishOp(candidate, r, operations, e) => PublishingSteps(d, candidate, r, operations, e, c.life);
    case RecoverOp(id, e) =>
      NothingSteps(d, d, e);
      if id in d.journals {
        ResumingHolds(Process(d, c.life), id);
        ResumingSteps(Process(d, c.life), d.journals[id], e);
      }
  }

  lemma RecordingKeepsJournaled(p: Process, receipt: Receipt, candidate: Candidate)
    requires Journaled(p.d)
    ensures Journaled(RecordApproval(p, receipt, candidate).0.d)
  {
    hide ValidApproval;
  }

  lemma {:induction false} RunKeepsJournaled(d: Durable, calls: seq<Call>)
    requires Inv(d) && Journaled(d)
    ensures Inv(Run(d, calls)) && Journaled(Run(d, calls))
    decreases |calls|
  {
    hide Inv, Journaled;
    if calls != [] {
      CallKeepsInv(d, calls[0]);
      CallSteps(d, calls[0]);
      RunKeepsJournaled(Perform(d, calls[0]), calls[1..]);
    }
  }

  /** Over every run each record says what it should, field by field, however the calls die. */
  lemma RecordsAlwaysSay(calls: seq<Call>)
    ensures RecordsSay(Run(FRESH, calls))
  {
    hide Run, RecordsSay;
    FreshInv();
    RunKeepsJournaled(FRESH, calls);
    InvSays(Run(FRESH, calls));
  }

  /** A reported publication is a completed journal with the landed commit of its change set over its tree. */
  lemma PublishedIsCommitted(calls: seq<Call>, c: Call)
    requires var (q, outcome) := Invoke(Run(FRESH, calls), c); outcome.Published? && q.Alive()
    ensures var (q, outcome) := Invoke(Run(FRESH, calls), c);
            PublishedAs(q.d, outcome.changeSetId, outcome.sourceRevision)
  {
    hide Run, Invoke, PublishedAs;
    FreshInv();
    RunKeepsJournaled(FRESH, calls);
    CallSteps(Run(FRESH, calls), c);
  }

  /** One commit has landed, over the tree both validations answered, for the journal this publication opened. */
  ghost predicate LandsFirst(before: Durable, after: Durable, id: ChangeSetId, sourceRevision: string, e: Replies) {
    && id in after.journals && after.journals[id].expectedTreeChecksum == e.expectedTree
    && e.finds && e.revalidates && e.revalidatedTree == e.expectedTree
    && e.commit.lands && e.commit.treeChecksum == e.expectedTree
    && sourceRevision == e.commit.commitId && e.commit.commitId != ""
    && after.commits == before.commits + [Commit(id, after.journals[id].changeSet.checksum, e.commit.commitId,
                                                 e.commit.commitId, e.expectedTree)]
  }

  /** The commit of a journal that was not there before is the one that landed. */
  lemma PublishedFirst(before: Durable, after: Durable, id: ChangeSetId, sourceRevision: string, e: Replies)
    requires Steps(before, after, e) && PublishedAs(after, id, sourceRevision)
    requires id !in before.journals && (forall c | c in before.commits :: c.changeSetId in before.journals)
    requires after.journals[id].expectedTreeChecksum == e.expectedTree
    ensures LandsFirst(before, after, id, sourceRevision, e)
  {
    hide SameJournals;
    var commit := after.journals[id].commit.value;
    assert commit !in before.commits;
    var landed :| landed in after.journals
                  && e.finds && e.revalidates && e.revalidatedTree == after.journals[landed].expectedTreeChecksum
                  && e.commit.lands
                  && after.commits == before.commits
                                      + [Commit(landed, after.journals[landed].changeSet.checksum, e.commit.commitId,
                                                e.commit.sourceRevision, e.commit.treeChecksum)];
    assert commit == after.commits[|before.commits|];
  }

  /** A first publication that reports success has landed one commit, over the tree both of its validations answered. */
  lemma FirstPublishLandsValidatedTree(calls: seq<Call>, c: Call)
    requires c.operation.PublishOp?
    requires var d := Run(FRESH, calls);
             var (q, outcome) := Invoke(d, c);
             outcome.Published? && q.Alive() && outcome.changeSetId !in d.journals
    ensures var d := Run(FRESH, calls);
            var (q, outcome) := Invoke(d, c);
            && LandsFirst(d, q.d, outcome.changeSetId, outcome.sourceRevision, c.operation.publish)
            && OpenedBy(q.d.journals[outcome.changeSetId], c.operation.candidate, c.operation.receipt,
                        c.operation.operations, c.operation.publish)
  {
    hide Run, Invoke, OpenedBy, Inv, Journaled, Steps;
    FreshInv();
    RunKeepsJournaled(FRESH, calls);
    var d := Run(FRESH, calls);
    CallSteps(d, c);
    CommitsHaveJournals(d);
    var (q, outcome) := Invoke(d, c);
    assert PublishedAs(q.d, outcome.changeSetId, outcome.sourceRevision);
    OpenedOnTree(q.d.journals[outcome.changeSetId], c.operation.candidate, c.operation.receipt,
                 c.operation.operations, c.operation.publish);
    PublishedFirst(d, q.d, outcome.changeSetId, outcome.sourceRevision, c.operation.publish);
  }

  lemma OpenedOnTree(j: JournalRecord, c: Candidate, r: Receipt, operations: seq<PublicationOperation>, e: Replies)
    requires OpenedBy(j, c, r, operations, e)
    ensures j.expectedTreeChecksum == e.expectedTree
  {}

  lemma CommitsHaveJournals(d: Durable)
    requires Inv(d)
    ensures forall c | c in d.commits :: c.changeSetId in d.journals
  {}

  /**
   What one call may do to what is published: journals keep their change set and tree, a new one is opened on checked
   inputs, and a commit lands only on a clean dedicated checkout over a tree that was validated again.
   */
  lemma EveryCallSteps(calls: seq<Call>, c: Call)
    requires !c.operation.RecordOp?
    ensures var d := Run(FRESH, calls);
            var after := Perform(d, c);
            var e := AnswersOf(c).value;
            && Steps(d, after, e)
            && (after.commits != d.commits ==> e.inspects && e.dedicatedAndClean)
            && (forall id | id in after.journals && id !in d.journals ::
                  && c.operation.PublishOp?
                  && OpenedBy(after.journals[id], c.operation.candidate, c.operation.receipt, c.operation.operations,
                              e))
  {
    hide Run, Invoke, OpenedBy, Steps;
    FreshInv();
    RunKeepsJournaled(FRESH, calls);
    CallSteps(Run(FRESH, calls), c);
  }
}
