/**
 The change-set publication coordinator and its file stores (`src/publication/index.ts`) as a specification.

 Approval records, journal records and the external commit log are one durable value; a process is that value plus
 the number of effects it performs before it dies.  Port answers are chosen freely, except that `findCommit` finds
 a commit that exists and a commit that is returned has landed.
 */
module PublicationProtocol {
  import opened Options
  import opened ChangeSets

  /******* Records *******/

  type TreeChecksum = string

  datatype Commit = Commit(changeSetId: ChangeSetId, changeSetChecksum: ChangeSetChecksum, commitId: string,
                           sourceRevision: string, treeChecksum: TreeChecksum)

  datatype Finalization = Finalization(receiptId: string, candidateId: string, candidateRevision: nat,
                                       candidateChecksum: string, changeSetId: ChangeSetId,
                                       changeSetChecksum: ChangeSetChecksum, sourceRevision: string)

  datatype ApprovalStatus = Approved | PreparedForPublication | Consumed

  datatype ApprovalRecord = ApprovalRecord(status: ApprovalStatus, receipt: Receipt, candidate: Candidate,
                                           artifact: Option<Artifact>, finalization: Option<Finalization>)

  datatype JournalStatus = JournalPrepared | JournalCommitted | JournalCompleted

  datatype JournalRecord = JournalRecord(status: JournalStatus, approvalReceiptId: string, candidateChecksum: string,
                                         changeSet: ChangeSet, expectedTreeChecksum: TreeChecksum,
                                         commit: Option<Commit>)

  datatype Durable = Durable(approvals: map<string, ApprovalRecord>, journals: map<ChangeSetId, JournalRecord>,
                             commits: seq<Commit>)

  datatype Process = Process(d: Durable, life: nat) {
    predicate Alive() { life > 0 }
  }

  /******* Record validation *******/

  predicate FinalizationMatches(f: Finalization, r: Receipt, c: Candidate, cs: ChangeSet) {
    && f.receiptId == r.receiptId
    && f.candidateId == c.candidateId
    && f.candidateRevision == c.revision
    && f.candidateChecksum == c.checksum
    && f.changeSetId == cs.changeSetId
    && f.changeSetChecksum == cs.checksum
    && f.sourceRevision != ""
  }

  /** `#validate` of the approval store, tamper check included. */
  predicate ValidApproval(r: ApprovalRecord, receiptId: string) {
    && r.receipt.receiptId == receiptId
    && (r.status == Approved ==> r.artifact.None? && r.finalization.None?)
    && (r.status == PreparedForPublication ==> r.artifact.Some? && r.finalization.None?)
    && (r.status == Consumed ==> r.artifact.Some? && r.finalization.Some?)
    && ReceiptApproves(r.receipt, r.candidate)
    && (r.artifact.Some? ==>
          CreateChangeSet(r.candidate, r.receipt, r.artifact.value.operations) == Created(r.artifact.value))
    && (r.finalization.Some? ==>
          r.artifact.Some? && FinalizationMatches(r.finalization.value, r.receipt, r.candidate,
                                                  r.artifact.value.changeSet))
  }

  predicate CommitAccepted(c: Commit, cs: ChangeSet, expectedTree: TreeChecksum) {
    && c.changeSetId == cs.changeSetId
    && c.changeSetChecksum == cs.checksum
    && c.commitId != ""
    && c.sourceRevision == c.commitId
    && c.treeChecksum == expectedTree
  }

  /** `#validate` of the journal. */
  predicate ValidJournal(j: JournalRecord, id: ChangeSetId) {
    && j.changeSet.changeSetId == id
    && j.approvalReceiptId == j.changeSet.identity.approvalReceiptId
    && j.candidateChecksum == j.changeSet.identity.candidateChecksum
    && (j.status == JournalPrepared <==> j.commit.None?)
    && (j.commit.Some? ==> CommitAccepted(j.commit.value, j.changeSet, j.expectedTreeChecksum))
  }

  /******* Effects *******/

  function Effect(p: Process, d: Durable): Process {
    if p.life == 0 then p else Process(d, p.life - 1)
  }

  function WriteApproval(p: Process, r: ApprovalRecord): Process {
    Effect(p, p.d.(approvals := p.d.approvals[r.receipt.receiptId := r]))
  }

  function WriteJournal(p: Process, j: JournalRecord): Process {
    Effect(p, p.d.(journals := p.d.journals[j.changeSet.changeSetId := j]))
  }

  function LandCommit(p: Process, c: Commit): Process { Effect(p, p.d.(commits := p.d.commits + [c])) }

  /******* Approval store *******/

  function RecordApproval(p: Process, receipt: Receipt, candidate: Candidate): (Process, bool) {
    var record := ApprovalRecord(Approved, receipt, candidate, None, None);
    if !ReceiptApproves(receipt, candidate) then (p, false)
    else if receipt.receiptId in p.d.approvals then
      (p, ValidApproval(p.d.approvals[receipt.receiptId], receipt.receiptId)
       && p.d.approvals[receipt.receiptId] == record)
    else (WriteApproval(p, record), true)
  }

  function PreparePublication(p: Process, receipt: Receipt, candidate: Candidate, artifact: Artifact): (Process, bool) {
    if receipt.receiptId !in p.d.approvals || !ValidApproval(p.d.approvals[receipt.receiptId], receipt.receiptId) then
      (p, false)
    else
      var record := p.d.approvals[receipt.receiptId];
      if record.receipt != receipt || record.candidate != candidate then (p, false)
      else if record.status != Approved then (p, record.artifact == Some(artifact))
      else
        var prepared := record.(status := PreparedForPublication, artifact := Some(artifact));
        if ValidApproval(prepared, receipt.receiptId) then (WriteApproval(p, prepared), true) else (p, false)
  }

  /** `loadPreparedPublication`: every record is read and validated; the one bound to the change set is returned. */
  function LoadPrepared(d: Durable, id: ChangeSetId): Option<ApprovalRecord> {
    var receiptId := id.identity.approvalReceiptId;
    if (exists r | r in d.approvals :: !ValidApproval(d.approvals[r], r)) || receiptId !in d.approvals then None
    else
      var record := d.approvals[receiptId];
      if record.artifact.Some? && record.artifact.value.changeSet.changeSetId == id then Some(record) else None
  }

  function FinalizePublication(p: Process, f: Finalization): (Process, bool) {
    if f.sourceRevision == "" || f.candidateRevision < 1 || f.receiptId !in p.d.approvals
       || !ValidApproval(p.d.approvals[f.receiptId], f.receiptId) then (p, false)
    else
      var record := p.d.approvals[f.receiptId];
      if record.status == Consumed then (p, record.finalization == Some(f))
      else if record.status != PreparedForPublication
              || !FinalizationMatches(f, record.receipt, record.candidate, record.artifact.value.changeSet)
                then (p, false)
      else (WriteApproval(p, record.(status := Consumed, finalization := Some(f))), true)
  }

  /******* Coordinator *******/

  /** What the authority checkout answers: `commitPublication` may land a commit whether or not it returns. */
  datatype CommitReply = CommitReply(lands: bool, answers: bool, commitId: string, sourceRevision: string,
                                     treeChecksum: TreeChecksum)

  datatype Replies = Replies(inspects: bool, dedicatedAndClean: bool, validates: bool, expectedTree: TreeChecksum,
                             finds: bool, revalidates: bool, revalidatedTree: TreeChecksum, commit: CommitReply)

  datatype Outcome = Published(changeSetId: ChangeSetId, sourceRevision: string) | Raised

  function FindCommit(commits: seq<Commit>, id: ChangeSetId): (r: Option<Commit>)
    ensures r.Some? ==> r.value in commits && r.value.changeSetId == id
    ensures r.None? ==> forall c | c in commits :: c.changeSetId != id
  {
    if commits == [] then None
    else if commits[0].changeSetId == id then Some(commits[0])
    else FindCommit(commits[1..], id)
  }

  function FinalizationFor(prepared: ApprovalRecord, cs: ChangeSet, commit: Commit): Finalization {
    Finalization(prepared.receipt.receiptId, prepared.candidate.candidateId, prepared.candidate.revision,
                 prepared.candidate.checksum, cs.changeSetId, cs.checksum, commit.sourceRevision)
  }

  function LandedCommit(cs: ChangeSet, r: CommitReply): Commit {
    Commit(cs.changeSetId, cs.checksum, r.commitId, r.sourceRevision, r.treeChecksum)
  }

  /** The commit to finish with: the journaled one, the one found, or a new one. */
  function ObtainCommit(p: Process, j: JournalRecord, e: Replies): (Process, Option<Commit>) {
    var found := FindCommit(p.d.commits, j.changeSet.changeSetId);
    if !e.finds then (p, None)
    else if j.commit.Some? && found != j.commit then (p, None)
    else if found.Some? then
      (p, if CommitAccepted(found.value, j.changeSet, j.expectedTreeChecksum) then found else None)
    else if !e.revalidates || e.revalidatedTree != j.expectedTreeChecksum then (p, None)
    else
      var commit := LandedCommit(j.changeSet, e.commit);
      var landed := if e.commit.lands then LandCommit(p, commit) else p;
      (landed, if e.commit.lands && e.commit.answers && CommitAccepted(commit, j.changeSet, j.expectedTreeChecksum)
               then Some(commit) else None)
  }

  predicate PreparedFor(d: Durable, j: JournalRecord) {
    var prepared := LoadPrepared(d, j.changeSet.changeSetId);
    && prepared.Some?
    && prepared.value.receipt.receiptId == j.approvalReceiptId
    && prepared.value.candidate.checksum == j.candidateChecksum
    && prepared.value.artifact.value.changeSet == j.changeSet
  }

  /** From an obtained commit to `completed`. */
  function Finish(p: Process, j: JournalRecord, prepared: ApprovalRecord, commit: Commit): (Process, Outcome) {
    var committed := if j.commit.None? then j.(status := JournalCommitted, commit := Some(commit)) else j;
    var journaled := if j.commit.None? then WriteJournal(p, committed) else p;
    var expected := FinalizationFor(prepared, j.changeSet, commit);
    if prepared.finalization.Some? && prepared.finalization.value != expected then (journaled, Raised)
    else
      var (finalized, ok) := if prepared.finalization.Some? then (journaled, true)
        else FinalizePublication(journaled, expected);
      if !ok then (finalized, Raised)
      else
        (if committed.status == JournalCompleted then finalized
         else WriteJournal(finalized, committed.(status := JournalCompleted)),
         Published(j.changeSet.changeSetId, commit.sourceRevision))
  }

  function Resume(p: Process, j: JournalRecord, e: Replies): (Process, Outcome) {
    if !PreparedFor(p.d, j) then (p, Raised)
    else
      var prepared := LoadPrepared(p.d, j.changeSet.changeSetId).value;
      if prepared.finalization.Some? && e.finds && FindCommit(p.d.commits, j.changeSet.changeSetId).None?
         then (p, Raised)
      else
        var (obtained, commit) := ObtainCommit(p, j, e);
        if commit.None? then (obtained, Raised) else Finish(obtained, j, prepared, commit.value)
  }

  function Publish(p: Process, candidate: Candidate, receipt: Receipt, operations: seq<PublicationOperation>,
                   e: Replies)
    : (Process, Outcome)
  {
    var created := CreateChangeSet(candidate, receipt, operations);
    if created.Refused? then (p, Raised)
    else
      var artifact := created.artifact;
      var id := artifact.changeSet.changeSetId;
      if id in p.d.journals then
        var existing := p.d.journals[id];
        if !ValidJournal(existing, id) || existing.changeSet != artifact.changeSet then (p, Raised)
        else
          var (prepared, ok) := PreparePublication(p, receipt, candidate, artifact);
          if !ok || !e.inspects || !e.dedicatedAndClean then (prepared, Raised) else Resume(prepared, existing, e)
      else if !e.inspects || !e.dedicatedAndClean || !e.validates then (p, Raised)
      else
        var (prepared, ok) := PreparePublication(p, receipt, candidate, artifact);
        if !ok then (prepared, Raised)
        else
          var j := JournalRecord(JournalPrepared, receipt.receiptId, candidate.checksum, artifact.changeSet,
                                 e.expectedTree, None);
          Resume(WriteJournal(prepared, j), j, e)
  }

  function RecoverPublication(p: Process, id: ChangeSetId, e: Replies): (Process, Outcome) {
    if id !in p.d.journals || !ValidJournal(p.d.journals[id], id) || !e.inspects || !e.dedicatedAndClean
       then (p, Raised)
    else Resume(p, p.d.journals[id], e)
  }

  /******* Runs *******/

  datatype Operation =
    | RecordOp(receipt: Receipt, candidate: Candidate)
    | PublishOp(candidate: Candidate, receipt: Receipt, operations: seq<PublicationOperation>, publish: Replies)
    | RecoverOp(changeSetId: ChangeSetId, recover: Replies)

  datatype Call = Call(operation: Operation, life: nat)

  function Invoke(d: Durable, c: Call): (Process, Outcome) {
    var p := Process(d, c.life);
    match c.operation
    case RecordOp(r, candidate) => (RecordApproval(p, r, candidate).0, Raised)
    case PublishOp(candidate, r, operations, e) => Publish(p, candidate, r, operations, e)
    case RecoverOp(id, e) => RecoverPublication(p, id, e)
  }

  function Perform(d: Durable, c: Call): Durable { Invoke(d, c).0.d }

  function Run(d: Durable, calls: seq<Call>): Durable
    decreases |calls|
  {
    if calls == [] then d else Run(Perform(d, calls[0]), calls[1..])
  }
}
