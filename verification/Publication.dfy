/**
 The publication coordinator as `src/publication/index.ts` runs it: approval and journal records rewritten in
 place, and an authority checkout that commits land in.  Every method is proved equal to its specification in
 `PublicationProtocol`, for every point at which the process may die.
 */
module Publication {
  import opened Options
  import opened ChangeSets
  import opened PublicationProtocol
  import Spec = PublicationProtocol
  import Records = PublicationRecords
  import opened PublicationSafety

  class ChangeSetPublicationCoordinator {
    var approvalRecords: map<string, ApprovalRecord>
    var journalRecords: map<ChangeSetId, JournalRecord>
    var authorityCommits: seq<Commit>
    /** Effects this process still performs before it dies. */
    var life: nat

    function Disk(): Durable
      reads this
    {
      Durable(approvalRecords, journalRecords, authorityCommits)
    }

    function State(): Process
      reads this
    {
      Process(Disk(), life)
    }

    constructor (d: Durable, life: nat)
      ensures State() == Process(d, life)
    {
      approvalRecords, journalRecords, authorityCommits := d.approvals, d.journals, d.commits;
      this.life := life;
    }

    method WriteApproval(record: ApprovalRecord)
      modifies this`approvalRecords, this`life
      ensures State() == Spec.WriteApproval(old(State()), record)
    {
      if life > 0 {
        approvalRecords, life := approvalRecords[record.receipt.receiptId := record], life - 1;
      }
    }

    method WriteJournal(record: JournalRecord)
      modifies this`journalRecords, this`life
      ensures State() == Spec.WriteJournal(old(State()), record)
    {
      if life > 0 {
        journalRecords, life := journalRecords[record.changeSet.changeSetId := record], life - 1;
      }
    }

    method LandCommit(commit: Commit)
      modifies this`authorityCommits, this`life
      ensures State() == Spec.LandCommit(old(State()), commit)
    {
      if life > 0 { authorityCommits, life := authorityCommits + [commit], life - 1; }
    }

    method RecordApproval(receipt: Receipt, candidate: Candidate) returns (ok: bool)
      modifies this`approvalRecords, this`life
      ensures (State(), ok) == Spec.RecordApproval(old(State()), receipt, candidate)
      ensures old(Inv(Disk())) ==> Inv(Disk())
    {
      hide ValidApproval, Inv;
      if Inv(Disk()) { NewApprovalKeepsInv(State(), receipt, candidate); }
      if !ReceiptApproves(receipt, candidate) { return false; }
      var record := ApprovalRecord(Approved, receipt, candidate, None, None);
      if receipt.receiptId in approvalRecords {
        var existing := approvalRecords[receipt.receiptId];
        return ValidApproval(existing, receipt.receiptId) && existing == record;
      }
      WriteApproval(record);
      return true;
    }

    method PreparePublication(receipt: Receipt, candidate: Candidate, artifact: Artifact) returns (ok: bool)
      modifies this`approvalRecords, this`life
      ensures (State(), ok) == Spec.PreparePublication(old(State()), receipt, candidate, artifact)
      ensures old(Inv(Disk())) ==> Inv(Disk())
      ensures old(Inv(Disk())) && ok && life > 0
              && receipt.receiptId == artifact.changeSet.changeSetId.identity.approvalReceiptId ==>
                BoundTo(approvalRecords, artifact.changeSet)
    {
      hide ValidApproval, Inv;
      if Inv(Disk()) { PreparingKeepsInv(State(), receipt, candidate, artifact); }
      if receipt.receiptId !in approvalRecords { return false; }
      var record := approvalRecords[receipt.receiptId];
      if !ValidApproval(record, receipt.receiptId) { return false; }
      if record.receipt != receipt || record.candidate != candidate { return false; }
      if record.status == Consumed { return record.artifact == Some(artifact); }
      if record.status == PreparedForPublication { return record.artifact == Some(artifact); }
      var prepared := record.(status := PreparedForPublication, artifact := Some(artifact));
      if !ValidApproval(prepared, receipt.receiptId) { return false; }
      WriteApproval(prepared);
      return true;
    }

    /**
     The directory scan: every record is loaded and validated, in no particular order, and the one bound to the
     change set is kept.  A single record can match, because the change set id fixes the receipt.
     */
    method LoadPreparedPublication(id: ChangeSetId) returns (found: Option<ApprovalRecord>)
      ensures found == LoadPrepared(Disk(), id)
    {
      var pending := approvalRecords.Keys;
      found := None;
      while pending != {}
        invariant pending <= approvalRecords.Keys
        invariant forall r | r in approvalRecords && r !in pending :: ValidApproval(approvalRecords[r], r)
        invariant found == if id.identity.approvalReceiptId in approvalRecords.Keys - pending
                              && BindsChangeSet(approvalRecords[id.identity.approvalReceiptId], id)
                           then Some(approvalRecords[id.identity.approvalReceiptId]) else None
        decreases |pending|
      {
        var name :| name in pending;
        var record := approvalRecords[name];
        if !ValidApproval(record, name) { return None; }
        pending := pending - {name};
        if record.artifact.Some? && record.artifact.value.changeSet.changeSetId == id {
          BoundRecordIsTheReceipts(record, name);
          found := Some(record);
        }
      }
    }

    /** Naming the commit that landed for the change set its receipt is bound to, it leaves a consistent disk. */
    method FinalizePublication(f: Finalization) returns (ok: bool)
      modifies this`approvalRecords, this`life
      ensures (State(), ok) == Spec.FinalizePublication(old(State()), f)
      ensures old(Inv(Disk()) && NamesItsCommit(Disk(), f)) ==> Inv(Disk())
    {
      if Inv(Disk()) && NamesItsCommit(Disk(), f) { NamingCommitKeepsInv(State(), f); }
      hide Inv, NamesItsCommit;
      if f.sourceRevision == "" || f.candidateRevision < 1 || f.receiptId !in approvalRecords { return false; }
      var record := approvalRecords[f.receiptId];
      if !ValidApproval(record, f.receiptId) { return false; }
      hide CreateChangeSet;
      if record.status == Consumed { return record.finalization == Some(f); }
      if record.status != PreparedForPublication
         || !FinalizationMatches(f, record.receipt, record.candidate, record.artifact.value.changeSet) { return false; }
      WriteApproval(record.(status := Consumed, finalization := Some(f)));
      return true;
    }

    method ObtainCommit(record: JournalRecord, e: Replies) returns (commit: Option<Commit>)
      modifies this`authorityCommits, this`life
      ensures (State(), commit) == Spec.ObtainCommit(old(State()), record, e)
      ensures old(Inv(Disk()) && record.changeSet.changeSetId in journalRecords) ==>
                Inv(Disk())
                && (commit.Some? && life > 0 ==> FindCommit(authorityCommits, record.changeSet.changeSetId) == commit)
      ensures commit.Some? ==> Records.CommitsTo(commit.value, record.changeSet, record.expectedTreeChecksum)
      ensures commit.Some? && life > 0 ==> commit.value in authorityCommits
      ensures commit.Some? && record.commit.Some? ==> commit == record.commit
      ensures authorityCommits != old(authorityCommits) ==>
                && e.finds && e.revalidates && e.revalidatedTree == record.expectedTreeChecksum && e.commit.lands
                && (forall c | c in old(authorityCommits) :: c.changeSetId != record.changeSet.changeSetId)
                && authorityCommits
                   == old(authorityCommits) + [Commit(record.changeSet.changeSetId, record.changeSet.checksum,
                                                      e.commit.commitId, e.commit.sourceRevision,
                                                      e.commit.treeChecksum)]
    {
      hide Inv;
      if Inv(Disk()) && record.changeSet.changeSetId in journalRecords { ObtainingKeepsInv(State(), record, e); }
      if !e.finds { return None; }
      var found := FindCommit(authorityCommits, record.changeSet.changeSetId);
      if record.commit.Some? && found != record.commit { return None; }
      if found.Some? {
        if !CommitAccepted(found.value, record.changeSet, record.expectedTreeChecksum) { return None; }
        return found;
      }
      if !e.revalidates || e.revalidatedTree != record.expectedTreeChecksum { return None; }
      var landed := LandedCommit(record.changeSet, e.commit);
      if !e.commit.lands { return None; }
      LandCommit(landed);
      if !e.commit.answers || !CommitAccepted(landed, record.changeSet, record.expectedTreeChecksum) { return None; }
      return Some(landed);
    }

    /** The end of `#resume`, from the moment the commit is known. */
    method Finish(initial: JournalRecord, prepared: ApprovalRecord, commit: Commit) returns (outcome: Outcome)
      modifies this
      ensures (State(), outcome) == Spec.Finish(old(State()), initial, prepared, commit)
      ensures old(HoldingCommit(State(), initial, commit) && Loaded(Disk(), initial, prepared)) ==>
                Inv(Disk()) && authorityCommits == old(authorityCommits)
    {
      if HoldingCommit(State(), initial, commit) && Loaded(Disk(), initial, prepared) {
        FinishingKeepsInv(State(), initial, prepared, commit);
      }
      hide Spec.FinalizePublication, Inv, HoldingCommit, Loaded;
      var record := initial;
      if record.commit.None? {
        record := record.(status := JournalCommitted, commit := Some(commit));
        WriteJournal(record);
      }
      var expected := FinalizationFor(prepared, record.changeSet, commit);
      if prepared.finalization.Some? && prepared.finalization.value != expected { return Raised; }
      if prepared.finalization.None? {
        var ok := FinalizePublication(expected);
        if !ok { return Raised; }
      }
      if record.status != JournalCompleted {
        record := record.(status := JournalCompleted);
        WriteJournal(record);
      }
      return Published(record.changeSet.changeSetId, commit.sourceRevision);
    }

    method Resume(record: JournalRecord, e: Replies) returns (outcome: Outcome)
      modifies this
      ensures (State(), outcome) == Spec.Resume(old(State()), record, e)
    {
      hide LoadPrepared, Spec.ObtainCommit, Spec.Finish;
      var prepared := LoadPreparedPublication(record.changeSet.changeSetId);
      if !PreparedFor(Disk(), record) { return Raised; }
      if prepared.value.finalization.Some? && e.finds
         && FindCommit(authorityCommits, record.changeSet.changeSetId).None? { return Raised; }
      var commit := ObtainCommit(record, e);
      if commit.None? { return Raised; }
      outcome := Finish(record, prepared.value, commit.value);
    }

    /** `publish`.  Started on a consistent disk it leaves one, and what it reports is the one commit. */
    method Publish(candidate: Candidate, receipt: Receipt, operations: seq<PublicationOperation>, e: Replies)
      returns (outcome: Outcome)
      modifies this
      ensures (State(), outcome) == Spec.Publish(old(State()), candidate, receipt, operations, e)
      ensures old(Inv(Disk())) ==> Inv(Disk())
      ensures old(Inv(Disk())) && outcome.Published? && life > 0 ==>
                CommittedAs(authorityCommits, outcome.changeSetId, outcome.sourceRevision)
    {
      hide Inv, Spec.Resume, Spec.PreparePublication, CreateChangeSet;
      if Inv(Disk()) { PublishingKeepsInv(Disk(), candidate, receipt, operations, e, life); }
      var created := CreateChangeSet(candidate, receipt, operations);
      if created.Refused? { return Raised; }
      var artifact := created.artifact;
      var id := artifact.changeSet.changeSetId;
      if id in journalRecords {
        var existing := journalRecords[id];
        if !ValidJournal(existing, id) || existing.changeSet != artifact.changeSet { return Raised; }
        var ok := PreparePublication(receipt, candidate, artifact);
        if !ok || !e.inspects || !e.dedicatedAndClean { return Raised; }
        outcome := Resume(existing, e);
        return;
      }
      if !e.inspects || !e.dedicatedAndClean || !e.validates { return Raised; }
      var ok := PreparePublication(receipt, candidate, artifact);
      if !ok { return Raised; }
      var record := JournalRecord(JournalPrepared, receipt.receiptId, candidate.checksum, artifact.changeSet,
                                  e.expectedTree, None);
      WriteJournal(record);
      outcome := Resume(record, e);
    }

    method Recover(id: ChangeSetId, e: Replies) returns (outcome: Outcome)
      modifies this
      ensures (State(), outcome) == Spec.RecoverPublication(old(State()), id, e)
      ensures old(Inv(Disk())) ==> Inv(Disk())
    {
      hide Inv, Spec.Resume;
      if Inv(Disk()) { CallKeepsInv(Disk(), Call(RecoverOp(id, e), life)); }
      if id !in journalRecords || !ValidJournal(journalRecords[id], id) { return Raised; }
      if !e.inspects || !e.dedicatedAndClean { return Raised; }
      outcome := Resume(journalRecords[id], e);
    }
  }

  /** The commit `f` names has landed, for the change set its receipt is bound to. */
  predicate NamesItsCommit(d: Durable, f: Finalization) {
    && f.receiptId in d.approvals && d.approvals[f.receiptId].artifact.Some?
    && d.approvals[f.receiptId].artifact.value.changeSet.changeSetId == f.changeSetId
    && CommittedAs(d.commits, f.changeSetId, f.sourceRevision)
  }

  lemma NamingCommitKeepsInv(p: Process, f: Finalization)
    requires Inv(p.d) && NamesItsCommit(p.d, f)
    ensures Inv(Spec.FinalizePublication(p, f).0.d)
  {
    var record := p.d.approvals[f.receiptId];
    BoundRecordIsTheReceipts(record, f.receiptId);
    hide ValidApproval;
    FinalizingKeepsInv(p, record.artifact.value.changeSet, f);
  }

  /** `prepared` is the record the journaled change set's receipt stands for. */
  predicate Loaded(d: Durable, j: JournalRecord, prepared: ApprovalRecord) {
    var id := j.changeSet.changeSetId.identity.approvalReceiptId;
    id in d.approvals && prepared == d.approvals[id]
  }

  predicate BindsChangeSet(record: ApprovalRecord, id: ChangeSetId) {
    record.artifact.Some? && record.artifact.value.changeSet.changeSetId == id
  }

  lemma BoundRecordIsTheReceipts(record: ApprovalRecord, name: string)
    requires ValidApproval(record, name) && record.artifact.Some?
    ensures record.artifact.value.changeSet.changeSetId.identity.approvalReceiptId == name
  {}
}
