/**
 The publication coordinator over the candidate admission store, the other implementation of its approval port
 (`src/publication/index.ts`, `src/admission/persistence.ts`).  It refines the coordinator over approval records, so
 publication is at most once here too, whatever admission does in between.
 */
module AdmittedPublication {
  import opened Options
  import opened ChangeSets
  import A = AdmissionProtocol
  import AdmissionSafety
  import P = PublicationProtocol
  import PublicationSafety

  /******* The coordinator over the admission store *******/

  datatype World = World(admission: A.State, journals: map<ChangeSetId, P.JournalRecord>, commits: seq<P.Commit>)

  datatype Process = Process(w: World, life: nat)

  function Effect(p: Process, w: World): Process { if p.life == 0 then p else Process(w, p.life - 1) }

  function WriteJournal(p: Process, j: P.JournalRecord): Process {
    Effect(p, p.w.(journals := p.w.journals[j.changeSet.changeSetId := j]))
  }

  /** What a change set takes of a candidate revision. */
  function CandidateOf(r: A.Revision): Candidate {
    Candidate(r.candidateId, r.revision, r.checksum, r.baseVersion, r.baseChecksum)
  }

  /** One transaction on the row.  Storing the row as it was is no effect. */
  function Store(p: Process, s: A.State): Process {
    if s == p.w.admission then p else Effect(p, p.w.(admission := s))
  }

  function Prepare(p: Process, receipt: Receipt, candidate: A.Revision, artifact: Artifact, e: A.Environment)
    : (Process, bool)
  {
    var (s, outcome) := A.PrepareReceipt(p.w.admission, receipt, candidate, artifact, e);
    if outcome.Done? then (Store(p, s), true) else (p, false)
  }

  function Finalize(p: Process, f: P.Finalization): (Process, bool) {
    var (s, outcome) := A.FinalizeReceipt(p.w.admission, f);
    if outcome.Done? then (Store(p, s), true) else (p, false)
  }

  predicate Binds(r: A.ReceiptRecord, id: ChangeSetId) {
    r.artifact.Some? && r.artifact.value.changeSet.changeSetId == id
  }

  datatype Prepared = Prepared(record: A.ReceiptRecord, candidate: A.Revision)

  /**
   `loadPreparedPublication`: of the receipts bound to the change set, whichever is listed first, with its candidate
   revision; `None` where nothing is found and where the revision is missing.
   */
  ghost function LoadPrepared(s: A.State, id: ChangeSetId): Option<Prepared> {
    if !exists r | r in s.receipts :: Binds(s.receipts[r], id) then None
    else
      var r :| r in s.receipts && Binds(s.receipts[r], id);
      var receipt := s.receipts[r].receipt;
      var found := A.FindRevision(A.RevisionsOf(s, receipt.candidateId), receipt.candidateRevision);
      if found.None? then None else Some(Prepared(s.receipts[r], found.value))
  }

  ghost predicate PreparedFor(s: A.State, j: P.JournalRecord) {
    var prepared := LoadPrepared(s, j.changeSet.changeSetId);
    && prepared.Some?
    && prepared.value.record.receipt.receiptId == j.approvalReceiptId
    && prepared.value.candidate.checksum == j.candidateChecksum
    && prepared.value.record.artifact.Some? && prepared.value.record.artifact.value.changeSet == j.changeSet
  }

  /** The commit to finish with; only the authority checkout is involved. */
  function ObtainCommit(p: Process, j: P.JournalRecord, e: P.Replies): (Process, Option<P.Commit>) {
    var (q, commit) := P.ObtainCommit(P.Process(P.Durable(map[], p.w.journals, p.w.commits), p.life), j, e);
    (Process(p.w.(commits := q.d.commits), q.life), commit)
  }

  function FinalizationFor(prepared: Prepared, cs: ChangeSet, commit: P.Commit): P.Finalization {
    P.Finalization(prepared.record.receipt.receiptId, prepared.candidate.candidateId, prepared.candidate.revision,
                   prepared.candidate.checksum, cs.changeSetId, cs.checksum, commit.sourceRevision)
  }

  function Finish(p: Process, j: P.JournalRecord, prepared: Prepared, commit: P.Commit): (Process, P.Outcome) {
    var committed := if j.commit.None? then j.(status := P.JournalCommitted, commit := Some(commit)) else j;
    var journaled := if j.commit.None? then WriteJournal(p, committed) else p;
    var expected := FinalizationFor(prepared, j.changeSet, commit);
    if prepared.record.finalization.Some? && prepared.record.finalization.value != expected then (journaled, P.Raised)
    else
      var (finalized, ok) :=
        if prepared.record.finalization.Some? then (journaled, true) else Finalize(journaled, expected);
      if !ok then (finalized, P.Raised)
      else
        (if committed.status == P.JournalCompleted then finalized
         else WriteJournal(finalized, committed.(status := P.JournalCompleted)),
         P.Published(j.changeSet.changeSetId, commit.sourceRevision))
  }

  ghost function Resume(p: Process, j: P.JournalRecord, e: P.Replies): (Process, P.Outcome) {
    if !PreparedFor(p.w.admission, j) then (p, P.Raised)
    else
      var prepared := LoadPrepared(p.w.admission, j.changeSet.changeSetId).value;
      if prepared.record.finalization.Some? && e.finds
         && P.FindCommit(p.w.commits, j.changeSet.changeSetId).None? then (p, P.Raised)
      else
        var (obtained, commit) := ObtainCommit(p, j, e);
        if commit.None? then (obtained, P.Raised) else Finish(obtained, j, prepared, commit.value)
  }

  ghost function Publish(p: Process, candidate: A.Revision, receipt: Receipt, operations: seq<PublicationOperation>,
                         e: P.Replies, at: A.Environment)
    : (Process, P.Outcome)
  {
    var created := CreateChangeSet(CandidateOf(candidate), receipt, operations);
    if created.Refused? then (p, P.Raised)
    else
      var artifact := created.artifact;
      var id := artifact.changeSet.changeSetId;
      if id in p.w.journals then
        var existing := p.w.journals[id];
        if !P.ValidJournal(existing, id) || existing.changeSet != artifact.changeSet then (p, P.Raised)
        else
          var (prepared, ok) := Prepare(p, receipt, candidate, artifact, at);
          if !ok || !e.inspects || !e.dedicatedAndClean then (prepared, P.Raised) else Resume(prepared, existing, e)
      else if !e.inspects || !e.dedicatedAndClean || !e.validates then (p, P.Raised)
      else
        var (prepared, ok) := Prepare(p, receipt, candidate, artifact, at);
        if !ok then (prepared, P.Raised)
        else
          var j := P.JournalRecord(P.JournalPrepared, receipt.receiptId, candidate.checksum, artifact.changeSet,
                                   e.expectedTree, None);
          Resume(WriteJournal(prepared, j), j, e)
  }

  ghost function Recover(p: Process, id: ChangeSetId, e: P.Replies): (Process, P.Outcome) {
    if id !in p.w.journals || !P.ValidJournal(p.w.journals[id], id) || !e.inspects || !e.dedicatedAndClean then
      (p, P.Raised)
    else Resume(p, p.w.journals[id], e)
  }

  /******* Runs *******/

  /** Receipts are bound and finalized by the coordinator alone; every other admission call may come at any time. */
  datatype Call =
    | Admission(call: A.Call)
    | PublishCall(candidate: A.Revision, receipt: Receipt, operations: seq<PublicationOperation>, publish: P.Replies,
                  at: A.Environment, publishLife: nat)
    | RecoverCall(changeSetId: ChangeSetId, recover: P.Replies, recoverLife: nat)

  ghost predicate Allowed(w: World, c: Call) {
    c.Admission? ==>
      && !c.call.operation.Prepare? && !c.call.operation.Finalize?
      && AdmissionSafety.FreshId(w.admission, c.call.operation)
  }

  ghost function Perform(w: World, c: Call): World {
    match c
    case Admission(call) => w.(admission := A.Perform(w.admission, call))
    case PublishCall(candidate, receipt, operations, e, at, life) =>
      Publish(Process(w, life), candidate, receipt, operations, e, at).0.w
    case RecoverCall(id, e, life) => Recover(Process(w, life), id, e).0.w
  }

  ghost predicate AllAllowed(w: World, calls: seq<Call>)
    decreases |calls|
  {
    calls == [] || (Allowed(w, calls[0]) && AllAllowed(Perform(w, calls[0]), calls[1..]))
  }

  ghost function Run(w: World, calls: seq<Call>): World
    decreases |calls|
  {
    if calls == [] then w else Run(Perform(w, calls[0]), calls[1..])
  }

  /******* The approval records an admission store stands for *******/

  function RevisionFor(s: A.State, r: A.ReceiptRecord): Option<A.Revision> {
    A.FindRevision(A.RevisionsOf(s, r.receipt.candidateId), r.receipt.candidateRevision)
  }

  predicate Approves(s: A.State, r: A.ReceiptRecord) {
    RevisionFor(s, r).Some? && ReceiptApproves(r.receipt, CandidateOf(RevisionFor(s, r).value))
  }

  function RecordOf(s: A.State, r: A.ReceiptRecord): P.ApprovalRecord
    requires Approves(s, r)
  {
    P.ApprovalRecord(if r.finalization.Some? then P.Consumed
                     else if r.artifact.Some? then P.PreparedForPublication else P.Approved,
                     r.receipt, CandidateOf(RevisionFor(s, r).value), r.artifact, r.finalization)
  }

  function View(s: A.State): map<string, P.ApprovalRecord> {
    map r | r in s.receipts && Approves(s, s.receipts[r]) :: RecordOf(s, s.receipts[r])
  }

  function Abs(w: World): P.Durable { P.Durable(View(w.admission), w.journals, w.commits) }

  function AbsProcess(p: Process): P.Process { P.Process(Abs(p.w), p.life) }

  /** Only receipts that approve a recorded revision are bound. */
  predicate BoundApprove(s: A.State) {
    forall r | r in s.receipts && s.receipts[r].artifact.Some? :: Approves(s, s.receipts[r])
  }

  /** What the store keeps for the coordinator. */
  predicate Kept(s: A.State) {
    AdmissionSafety.Inv(s) && BoundApprove(s) && PublicationSafety.ApprovalsValid(View(s))
  }

  predicate Inv(w: World) { Kept(w.admission) && PublicationSafety.Inv(Abs(w)) }

  const EMPTY := World(AdmissionSafety.EMPTY, map[], [])

  /******* Refinement *******/

  lemma SameCandidates(s: A.State, t: A.State, r: A.ReceiptRecord)
    requires t.candidates == s.candidates
    ensures RevisionFor(t, r) == RevisionFor(s, r) && (Approves(t, r) <==> Approves(s, r))
    ensures Approves(s, r) ==> RecordOf(t, r) == RecordOf(s, r)
  {
    hide A.FindRevision, ReceiptApproves;
  }

  lemma SettingReceipt(s: A.State, id: string, r: A.ReceiptRecord)
    requires id in s.receipts && Approves(s, r)
    ensures View(A.SetReceipt(s, id, r)) == View(s)[id := RecordOf(s, r)]
    ensures BoundApprove(s) ==> BoundApprove(A.SetReceipt(s, id, r))
  {
    hide Approves, RecordOf;
    forall x
      ensures Approves(A.SetReceipt(s, id, r), x) <==> Approves(s, x)
    {
      SameCandidates(s, A.SetReceipt(s, id, r), x);
    }
    forall x | Approves(s, x) ensures RecordOf(A.SetReceipt(s, id, r), x) == RecordOf(s, x) {
      SameCandidates(s, A.SetReceipt(s, id, r), x);
    }
  }

  lemma ArtifactOfChangeSet(c: Candidate, receipt: Receipt, operations: seq<PublicationOperation>)
    requires CreateChangeSet(c, receipt, operations).Created?
    ensures var artifact := CreateChangeSet(c, receipt, operations).artifact;
            && ReceiptApproves(receipt, c)
            && CreateChangeSet(c, receipt, artifact.operations) == Created(artifact)
            && artifact.changeSet.changeSetId.identity.approvalReceiptId == receipt.receiptId
  {
    ArtifactRebuilds(c, receipt, operations);
  }

  /** What a successful `preparePublication` found and stored. */
  lemma PreparingFinds(s: A.State, receipt: Receipt, candidate: A.Revision, artifact: Artifact, e: A.Environment)
    requires A.PrepareReceipt(s, receipt, candidate, artifact, e).1.Done?
             && ReceiptApproves(receipt, CandidateOf(candidate))
    ensures receipt.receiptId in s.receipts
    ensures var record := s.receipts[receipt.receiptId];
            && record.receipt == receipt && Approves(s, record)
            && RecordOf(s, record).candidate == CandidateOf(candidate)
            && (record.artifact.Some? ==>
                  record.artifact.value == artifact && A.PrepareReceipt(s, receipt, candidate, artifact, e).0 == s)
            && (record.artifact.None? ==>
                  A.PrepareReceipt(s, receipt, candidate, artifact, e).0
                  == A.SetReceipt(s, receipt.receiptId, record.(artifact := Some(artifact))))
  {
    hide A.FindRevision;
  }

  /** A receipt stands for a valid record when what it is bound to was made for it. */
  lemma RecordIsValid(s: A.State, r: A.ReceiptRecord, id: string)
    requires Approves(s, r) && AdmissionSafety.ReceiptConsistent(r, id)
    requires r.artifact.Some? ==>
               CreateChangeSet(CandidateOf(RevisionFor(s, r).value), r.receipt, r.artifact.value.operations)
               == Created(r.artifact.value)
    requires r.finalization.Some? ==>
               P.FinalizationMatches(r.finalization.value, r.receipt, CandidateOf(RevisionFor(s, r).value),
                                     r.artifact.value.changeSet)
    ensures P.ValidApproval(RecordOf(s, r), id)
  {
    hide CreateChangeSet, A.FindRevision, ReceiptApproves;
  }

  lemma PreparedRecord(q: P.Process, receipt: Receipt, candidate: Candidate, artifact: Artifact)
    requires receipt.receiptId in q.d.approvals
    requires var record := q.d.approvals[receipt.receiptId];
             && P.ValidApproval(record, receipt.receiptId)
             && record.receipt == receipt && record.candidate == candidate
             && (record.artifact.Some? ==> record.artifact.value == artifact)
    requires CreateChangeSet(candidate, receipt, artifact.operations) == Created(artifact)
    ensures var record := q.d.approvals[receipt.receiptId];
            P.PreparePublication(q, receipt, candidate, artifact)
            == (if record.artifact.Some? then q
                else P.WriteApproval(q, record.(status := P.PreparedForPublication, artifact := Some(artifact))), true)
  {
    hide CreateChangeSet;
  }

  lemma PreparingKeepsAdmission(p: Process, receipt: Receipt, candidate: A.Revision, artifact: Artifact,
                                e: A.Environment)
    requires AdmissionSafety.Inv(p.w.admission)
    ensures AdmissionSafety.Inv(Prepare(p, receipt, candidate, artifact, e).0.w.admission)
  {
    hide AdmissionSafety.Inv, A.PrepareReceipt;
    AdmissionSafety.ApplyKeepsInv(p.w.admission, A.Operation.Prepare(receipt, candidate, artifact), e);
  }

  lemma ViewedRecord(s: A.State, id: string)
    requires Kept(s) && id in s.receipts && Approves(s, s.receipts[id])
    ensures id in View(s) && View(s)[id] == RecordOf(s, s.receipts[id])
    ensures P.ValidApproval(View(s)[id], id)
    ensures var r, x := s.receipts[id], View(s)[id];
            && r.receipt == x.receipt && r.artifact == x.artifact && r.finalization == x.finalization
            && (r.finalization.Some? ==> r.artifact.Some?)
  {
    hide P.ValidApproval, Approves;
  }

  /** Binding a receipt changes the record it stands for in nothing but that. */
  lemma BoundStandsFor(s: A.State, r: A.ReceiptRecord, artifact: Artifact)
    requires Approves(s, r) && r.artifact.None? && r.finalization.None?
    ensures var bound := r.(artifact := Some(artifact));
            && Approves(s, bound)
            && RecordOf(s, bound)
               == RecordOf(s, r).(status := P.PreparedForPublication, artifact := Some(artifact))
  {
    hide A.FindRevision, ReceiptApproves;
  }

  /** Binding through the store is binding the approval record it stands for. */
  lemma PreparingRefines(p: Process, receipt: Receipt, candidate: A.Revision, operations: seq<PublicationOperation>,
                         e: A.Environment)
    requires Kept(p.w.admission) && CreateChangeSet(CandidateOf(candidate), receipt, operations).Created?
    ensures var artifact := CreateChangeSet(CandidateOf(candidate), receipt, operations).artifact;
            var (q, ok) := Prepare(p, receipt, candidate, artifact, e);
            && (!ok ==> q == p)
            && (ok ==> (AbsProcess(q), ok)
                       == P.PreparePublication(AbsProcess(p), receipt, CandidateOf(candidate), artifact))
            && AdmissionSafety.Inv(q.w.admission) && BoundApprove(q.w.admission)
            && q.w.journals == p.w.journals && q.w.commits == p.w.commits
  {
    hide AdmissionSafety.Inv, PublicationSafety.Inv, CreateChangeSet, A.PrepareReceipt, P.PreparePublication, Approves,
         P.ValidApproval, BoundApprove, View, ReceiptApproves, RecordOf;
    ArtifactOfChangeSet(CandidateOf(candidate), receipt, operations);
    var s, artifact := p.w.admission, CreateChangeSet(CandidateOf(candidate), receipt, operations).artifact;
    PreparingKeepsAdmission(p, receipt, candidate, artifact, e);
    if Prepare(p, receipt, candidate, artifact, e).1 {
      PreparingFinds(s, receipt, candidate, artifact, e);
      var record := s.receipts[receipt.receiptId];
      ViewedRecord(s, receipt.receiptId);
      PreparedRecord(AbsProcess(p), receipt, CandidateOf(candidate), artifact);
      if record.artifact.None? {
        BoundStandsFor(s, record, artifact);
        SettingReceipt(s, receipt.receiptId, record.(artifact := Some(artifact)));
      }
    }
  }

  lemma FinalizingKeepsAdmission(p: Process, f: P.Finalization)
    requires AdmissionSafety.Inv(p.w.admission)
    ensures AdmissionSafety.Inv(Finalize(p, f).0.w.admission)
  {
    hide AdmissionSafety.Inv, A.FinalizeReceipt;
    AdmissionSafety.ApplyKeepsInv(p.w.admission, A.Operation.Finalize(f), A.Environment(0, A.Unavailable));
  }

  /** Both finalizations of a receipt, when it approves a recorded revision. */
  lemma FinalizationsAgree(s: A.State, record: A.ReceiptRecord, f: P.Finalization)
    requires Approves(s, record) && P.ValidApproval(RecordOf(s, record), f.receiptId) && f.sourceRevision != ""
    requires record.finalization.Some? ==> record.artifact.Some?
    ensures record.artifact.Some? ==>
              (P.FinalizationMatches(f, record.receipt, CandidateOf(RevisionFor(s, record).value),
                                     record.artifact.value.changeSet)
               <==> f == P.Finalization(record.receipt.receiptId, record.receipt.candidateId,
                                        record.receipt.candidateRevision, record.receipt.candidateChecksum,
                                        record.artifact.value.changeSet.changeSetId,
                                        record.artifact.value.changeSet.checksum, f.sourceRevision))
    ensures record.finalization == Some(f) ==>
              P.FinalizationMatches(f, record.receipt, CandidateOf(RevisionFor(s, record).value),
                                    record.artifact.value.changeSet)
  {
    hide CreateChangeSet, A.FindRevision;
  }

  /** Finalizing changes the record a receipt stands for in nothing but that. */
  lemma FinalizedStandsFor(s: A.State, r: A.ReceiptRecord, f: P.Finalization)
    requires Approves(s, r)
    ensures var finalized := r.(consumed := true, finalization := Some(f));
            && Approves(s, finalized)
            && RecordOf(s, finalized) == RecordOf(s, r).(status := P.Consumed, finalization := Some(f))
  {
    hide A.FindRevision, ReceiptApproves;
  }

  lemma FinalizingRefines(p: Process, f: P.Finalization)
    requires Kept(p.w.admission) && f.sourceRevision != "" && f.candidateRevision >= 1
    requires f.receiptId in p.w.admission.receipts && Approves(p.w.admission, p.w.admission.receipts[f.receiptId])
    ensures (AbsProcess(Finalize(p, f).0), Finalize(p, f).1) == P.FinalizePublication(AbsProcess(p), f)
    ensures var q := Finalize(p, f).0.w;
            && AdmissionSafety.Inv(q.admission) && BoundApprove(q.admission)
            && q.journals == p.w.journals && q.commits == p.w.commits
  {
    hide AdmissionSafety.Inv, PublicationSafety.ApprovalsValid, CreateChangeSet, Approves, P.ValidApproval,
         BoundApprove, View, RecordOf, P.FinalizationMatches;
    var s := p.w.admission;
    var record := s.receipts[f.receiptId];
    FinalizingKeepsAdmission(p, f);
    ViewedRecord(s, f.receiptId);
    NeverBoundAndInvalid(s, f.receiptId);
    FinalizationsAgree(s, record, f);
    FinalizedStandsFor(s, record, f);
    SettingReceipt(s, f.receiptId, record.(consumed := true, finalization := Some(f)));
    StatusOfRecord(s, record);
  }

  lemma StatusOfRecord(s: A.State, r: A.ReceiptRecord)
    requires Approves(s, r)
    ensures RecordOf(s, r).status == (if r.finalization.Some? then P.Consumed
                                      else if r.artifact.Some? then P.PreparedForPublication else P.Approved)
    ensures RecordOf(s, r).candidate == CandidateOf(RevisionFor(s, r).value)
    ensures RecordOf(s, r).receipt == r.receipt
  {}

  lemma NeverBoundAndInvalid(s: A.State, id: string)
    requires AdmissionSafety.Inv(s) && id in s.receipts
    ensures s.receipts[id].artifact.Some? ==> !s.receipts[id].invalidated
    ensures s.receipts[id].receipt.receiptId == id
  {}

  /** Whichever matching receipt is listed first, it is the one the change set names. */
  lemma BoundIsNamed(s: A.State, id: ChangeSetId, r: string)
    requires Kept(s) && r in s.receipts && Binds(s.receipts[r], id)
    ensures r == id.identity.approvalReceiptId && Approves(s, s.receipts[r])
  {
    hide Approves;
    assert Approves(s, s.receipts[r]);
    ViewedRecord(s, r);
    NamedByItsArtifact(View(s)[r], r);
  }

  lemma NamedByItsArtifact(record: P.ApprovalRecord, r: string)
    requires P.ValidApproval(record, r) && record.artifact.Some?
    ensures record.artifact.value.changeSet.changeSetId.identity.approvalReceiptId == r
  {}

  lemma LoadingRefines(s: A.State, d: P.Durable, id: ChangeSetId)
    requires Kept(s) && d.approvals == View(s)
    ensures LoadPrepared(s, id).None? <==> P.LoadPrepared(d, id).None?
    ensures LoadPrepared(s, id).Some? ==>
              var prepared, named := LoadPrepared(s, id).value, id.identity.approvalReceiptId;
              && named in s.receipts && prepared.record == s.receipts[named] && prepared.record.artifact.Some?
              && Approves(s, prepared.record) && Some(prepared.candidate) == RevisionFor(s, prepared.record)
              && P.LoadPrepared(d, id) == Some(RecordOf(s, prepared.record))
  {
    hide AdmissionSafety.Inv, P.ValidApproval, Approves, RecordOf;
    forall r | r in s.receipts && Binds(s.receipts[r], id)
      ensures r == id.identity.approvalReceiptId && Approves(s, s.receipts[r])
    {
      BoundIsNamed(s, id, r);
    }
    var named := id.identity.approvalReceiptId;
    if named in s.receipts && Approves(s, s.receipts[named]) {
      ViewedRecord(s, named);
      ApprovesFindsRevision(s, s.receipts[named]);
    }
  }

  lemma ApprovesFindsRevision(s: A.State, r: A.ReceiptRecord)
    requires Approves(s, r)
    ensures RevisionFor(s, r).Some?
  {}

  lemma PreparedForRefines(s: A.State, d: P.Durable, j: P.JournalRecord)
    requires Kept(s) && d.approvals == View(s)
    ensures PreparedFor(s, j) <==> P.PreparedFor(d, j)
  {
    hide Kept, Approves, RecordOf, LoadPrepared, P.LoadPrepared;
    LoadingRefines(s, d, j.changeSet.changeSetId);
    var prepared := LoadPrepared(s, j.changeSet.changeSetId);
    if prepared.Some? {
      StatusOfRecord(s, prepared.value.record);
      RecordKeepsArtifact(s, prepared.value.record);
    }
  }

  lemma RecordKeepsArtifact(s: A.State, r: A.ReceiptRecord)
    requires Approves(s, r)
    ensures RecordOf(s, r).artifact == r.artifact && RecordOf(s, r).finalization == r.finalization
  {}

  lemma ObtainingRefines(p: Process, j: P.JournalRecord, e: P.Replies)
    ensures var (q, commit) := ObtainCommit(p, j, e);
            && (AbsProcess(q), commit) == P.ObtainCommit(AbsProcess(p), j, e)
            && q.w.admission == p.w.admission
            && (commit.Some? ==> commit.value.sourceRevision != "")
  {
    hide View;
  }

  lemma RevisionsArePositive(s: A.State, r: A.ReceiptRecord)
    requires AdmissionSafety.Inv(s) && Approves(s, r)
    ensures RevisionFor(s, r).value.revision >= 1
  {
    hide AdmissionSafety.ReceiptsCurrent, AdmissionSafety.ConfirmationsCurrent, AdmissionSafety.ReceiptsConsistent;
  }

  lemma FinishingRefines(p: Process, j: P.JournalRecord, prepared: Prepared, commit: P.Commit)
    requires Kept(p.w.admission) && commit.sourceRevision != ""
    requires prepared.record.receipt.receiptId in p.w.admission.receipts
    requires prepared.record == p.w.admission.receipts[prepared.record.receipt.receiptId]
    requires Approves(p.w.admission, prepared.record)
             && Some(prepared.candidate) == RevisionFor(p.w.admission, prepared.record)
    ensures var (q, outcome) := Finish(p, j, prepared, commit);
            && (AbsProcess(q), outcome)
               == P.Finish(AbsProcess(p), j, RecordOf(p.w.admission, prepared.record), commit)
            && AdmissionSafety.Inv(q.w.admission) && BoundApprove(q.w.admission)
  {
    hide AdmissionSafety.Inv, PublicationSafety.ApprovalsValid, Approves, BoundApprove, View, RecordOf,
         P.FinalizePublication, Finalize;
    var s := p.w.admission;
    StatusOfRecord(s, prepared.record);
    RecordKeepsArtifact(s, prepared.record);
    RevisionsArePositive(s, prepared.record);
    var journaled :=
      if j.commit.None? then WriteJournal(p, j.(status := P.JournalCommitted, commit := Some(commit))) else p;
    FinalizingRefines(journaled, FinalizationFor(prepared, j.changeSet, commit));
  }

  lemma ResumingRefines(p: Process, j: P.JournalRecord, e: P.Replies)
    requires Kept(p.w.admission)
    ensures var (q, outcome) := Resume(p, j, e);
            && (AbsProcess(q), outcome) == P.Resume(AbsProcess(p), j, e)
            && AdmissionSafety.Inv(q.w.admission) && BoundApprove(q.w.admission)
  {
    hide AdmissionSafety.Inv, PublicationSafety.ApprovalsValid, Approves, BoundApprove, View, RecordOf, P.Finish,
         Finish, ObtainCommit, P.ObtainCommit, PreparedFor, P.PreparedFor, LoadPrepared, P.LoadPrepared;
    var s := p.w.admission;
    PreparedForRefines(s, Abs(p.w), j);
    LoadingRefines(s, Abs(p.w), j.changeSet.changeSetId);
    if PreparedFor(s, j) {
      PreparedIsLoaded(s, j);
      var prepared := LoadPrepared(s, j.changeSet.changeSetId).value;
      RecordKeepsArtifact(s, prepared.record);
      NeverBoundAndInvalid(s, j.changeSet.changeSetId.identity.approvalReceiptId);
      ObtainingRefines(p, j, e);
      var (obtained, commit) := ObtainCommit(p, j, e);
      if commit.Some? { FinishingRefines(obtained, j, prepared, commit.value); }
    }
  }

  lemma PreparedIsLoaded(s: A.State, j: P.JournalRecord)
    requires PreparedFor(s, j)
    ensures LoadPrepared(s, j.changeSet.changeSetId).Some?
  {}

  /** The store binds the receipt to what these operations make. */
  predicate Accepts(p: Process, candidate: A.Revision, receipt: Receipt, operations: seq<PublicationOperation>,
                    at: A.Environment)
  {
    var created := CreateChangeSet(CandidateOf(candidate), receipt, operations);
    created.Created? ==> Prepare(p, receipt, candidate, created.artifact, at).1
  }

  /** Where the store refuses to bind, nothing happens; otherwise this is publishing over the records it stands for. */
  lemma PublishingRefines(p: Process, candidate: A.Revision, receipt: Receipt, operations: seq<PublicationOperation>,
                          e: P.Replies, at: A.Environment)
    requires Inv(p.w)
    ensures var (q, outcome) := Publish(p, candidate, receipt, operations, e, at);
            && (if Accepts(p, candidate, receipt, operations, at)
                then (AbsProcess(q), outcome)
                     == P.Publish(AbsProcess(p), CandidateOf(candidate), receipt, operations, e)
                else (q, outcome) == (p, P.Raised))
            && AdmissionSafety.Inv(q.w.admission) && BoundApprove(q.w.admission)
  {
    hide AdmissionSafety.Inv, BoundApprove, View, CreateChangeSet, Prepare, P.PreparePublication, Resume, P.Resume,
         P.ValidJournal, PublicationSafety.JournalsValid, PublicationSafety.BoundTo, P.FindCommit;
    var created := CreateChangeSet(CandidateOf(candidate), receipt, operations);
    if created.Created? {
      var artifact := created.artifact;
      PreparingRefines(p, receipt, candidate, operations, at);
      PublicationSafety.PreparingKeepsInv(AbsProcess(p), receipt, CandidateOf(candidate), artifact);
      var (prepared, ok) := Prepare(p, receipt, candidate, artifact, at);
      if ok && artifact.changeSet.changeSetId in p.w.journals {
        ResumingRefines(prepared, p.w.journals[artifact.changeSet.changeSetId], e);
      } else if ok {
        var j := P.JournalRecord(P.JournalPrepared, receipt.receiptId, candidate.checksum, artifact.changeSet,
                                 e.expectedTree, None);
        ResumingRefines(WriteJournal(prepared, j), j, e);
      }
    }
  }

  lemma RecoveringRefines(p: Process, id: ChangeSetId, e: P.Replies)
    requires Inv(p.w)
    ensures var (q, outcome) := Recover(p, id, e);
            && (AbsProcess(q), outcome) == P.RecoverPublication(AbsProcess(p), id, e)
            && AdmissionSafety.Inv(q.w.admission) && BoundApprove(q.w.admission)
  {
    hide AdmissionSafety.Inv, BoundApprove, View, Resume, P.Resume, P.ValidJournal, PublicationSafety.Inv;
    if id in p.w.journals { ResumingRefines(p, p.w.journals[id], e); }
  }

  /******* Admission in between *******/

  /** Receipt `r` is bound and finalized after as it was before, or not at all. */
  predicate BoundAsBefore(before: A.Receipts, after: A.Receipts, r: string)
    requires r in after
  {
    if r in before && after[r].receipt == before[r].receipt then
      after[r].artifact == before[r].artifact && after[r].finalization == before[r].finalization
    else after[r].artifact.None? && after[r].finalization.None?
  }

  lemma NothingIsBound(s: A.State, op: A.Operation, e: A.Environment)
    requires AdmissionSafety.Inv(s) && !op.Prepare? && !op.Finalize? && AdmissionSafety.FreshId(s, op)
    ensures var t := A.Apply(s, op, e).0; forall r | r in t.receipts :: BoundAsBefore(s.receipts, t.receipts, r)
  {
    hide AdmissionSafety.Inv;
    if op.CreateCandidate? || op.Revise? {
      AdmissionSafety.OnlyRevisionsAreStored(s, op, e);
      AdmissionSafety.StoredOrUnchanged(s, op, e);
      hide A.Apply;
    } else {
      hide A.Apply, BoundAsBefore;
      OthersBindNothing(s, op, e);
    }
  }

  lemma OthersBindNothing(s: A.State, op: A.Operation, e: A.Environment)
    requires !op.CreateCandidate? && !op.Revise? && !op.Prepare? && !op.Finalize? && AdmissionSafety.FreshId(s, op)
    ensures var t := A.Apply(s, op, e).0; forall r | r in t.receipts :: BoundAsBefore(s.receipts, t.receipts, r)
  {
    if op.Consume? {
      ConsumingBindsNothing(s, op, e);
      hide A.Apply, BoundAsBefore;
    } else if op.Decide? {
      hide A.FindRevision, A.ActiveAuthorization;
    } else {
      ReceiptsAloneOrEnded(s, op, e);
      hide A.Apply;
    }
  }

  lemma ConsumingBindsNothing(s: A.State, op: A.Operation, e: A.Environment)
    requires op.Consume?
    ensures var t := A.Apply(s, op, e).0; forall r | r in t.receipts :: BoundAsBefore(s.receipts, t.receipts, r)
  {
    hide A.FindRevision, A.ActiveAuthorization, A.HeadError;
  }

  lemma ReceiptsAloneOrEnded(s: A.State, op: A.Operation, e: A.Environment)
    requires op.Authorize? || op.EndDiscovery? || op.PrepareConfirmation? || op.BindMessage? || op.Withdraw?
    ensures A.Apply(s, op, e).0.receipts == s.receipts
            || (op.EndDiscovery? && A.Apply(s, op, e).0.receipts == A.EndReceipts(s.receipts, op.authorizationId))
  {
    hide A.EndReceipts, A.FindRevision, A.ActiveAuthorization;
  }

  lemma AdmissionExtends(s: A.State, call: A.Call)
    requires AdmissionSafety.Inv(s) && AdmissionSafety.FreshId(s, call.operation)
    ensures AdmissionSafety.Inv(A.Perform(s, call)) && AdmissionSafety.Extends(s, A.Perform(s, call))
  {
    hide A.Apply, AdmissionSafety.Inv, AdmissionSafety.ReceiptExtends, AdmissionSafety.ReceiptConsistent;
    AdmissionSafety.ApplyKeepsInv(s, call.operation, call.environment);
    AdmissionSafety.ApplyExtends(s, call.operation, call.environment);
    SameExtends(s);
  }

  lemma SameExtends(s: A.State)
    requires AdmissionSafety.Inv(s)
    ensures AdmissionSafety.Extends(s, s)
  {
    AdmissionSafety.SameReceiptsExtend(s.receipts);
  }

  /** A receipt that stood for a record stands for it still. */
  lemma StandsForTheSame(s: A.State, t: A.State, r: A.ReceiptRecord, x: A.ReceiptRecord)
    requires AdmissionSafety.Inv(s) && AdmissionSafety.Inv(t)
    requires AdmissionSafety.RevisionsExtend(s.candidates, t.candidates)
    requires x.receipt == r.receipt && x.artifact == r.artifact && x.finalization == r.finalization && Approves(s, r)
    ensures Approves(t, x) && RecordOf(t, x) == RecordOf(s, r)
  {
    hide AdmissionSafety.Inv, A.FindRevision, AdmissionSafety.RevisionsExtend;
    var found := RevisionFor(s, r).value;
    FoundIsNamed(s, r);
    AdmissionSafety.RevisionIsStillThere(s, t, found);
  }

  lemma FoundIsNamed(s: A.State, r: A.ReceiptRecord)
    requires AdmissionSafety.Inv(s) && Approves(s, r)
    ensures var found := RevisionFor(s, r).value;
            found.candidateId == r.receipt.candidateId && found.revision == r.receipt.candidateRevision
  {
    hide AdmissionSafety.Inv;
  }

  lemma ReceiptAfter(s: A.State, t: A.State, r: string)
    requires Kept(s) && AdmissionSafety.Inv(t) && AdmissionSafety.Extends(s, t)
    requires r in t.receipts && BoundAsBefore(s.receipts, t.receipts, r)
    ensures t.receipts[r].artifact.Some? ==> Approves(t, t.receipts[r])
    ensures Approves(t, t.receipts[r]) ==>
              P.ValidApproval(RecordOf(t, t.receipts[r]), r)
    ensures t.receipts[r].finalization.Some? ==>
              r in View(s) && View(s)[r].finalization == t.receipts[r].finalization
  {
    hide P.ValidApproval, Approves, RecordOf;
    ConsistentReceipt(t, r);
    if t.receipts[r].artifact.Some? {
      assert Approves(s, s.receipts[r]);
      ViewedRecord(s, r);
      StandsForTheSame(s, t, s.receipts[r], t.receipts[r]);
    } else if Approves(t, t.receipts[r]) {
      RecordIsValid(t, t.receipts[r], r);
    }
  }

  lemma ConsistentReceipt(s: A.State, r: string)
    requires AdmissionSafety.Inv(s) && r in s.receipts
    ensures AdmissionSafety.ReceiptConsistent(s.receipts[r], r)
    ensures s.receipts[r].finalization.Some? ==> s.receipts[r].artifact.Some?
  {}

  /** What admission does leaves the coordinator's records consistent: bindings and finalizations stay. */
  lemma ExtendingKeepsInv(w: World, t: A.State)
    requires Inv(w) && AdmissionSafety.Inv(t) && AdmissionSafety.Extends(w.admission, t)
    requires forall r | r in t.receipts :: BoundAsBefore(w.admission.receipts, t.receipts, r)
    ensures Inv(w.(admission := t))
  {
    var s := w.admission;
    var before, after := View(s), View(t);
    assert Kept(s) && PublicationSafety.ApprovalsValid(before);
    hide AdmissionSafety.Inv, P.ValidApproval, Approves, RecordOf, BoundAsBefore, Kept, P.FindCommit, View,
         P.ValidJournal;
    ViewsExtend(s, t);
    ViewIsValid(s, t);
    assert PublicationSafety.ApprovalsExtend(before, after);
    PublicationSafety.ExtendingKeepsBindings(before, after, w.journals);
    KeptAfter(s, t);
  }

  lemma ViewsExtend(s: A.State, t: A.State)
    requires Kept(s) && AdmissionSafety.Inv(t) && AdmissionSafety.Extends(s, t)
    requires forall r | r in t.receipts :: BoundAsBefore(s.receipts, t.receipts, r)
    ensures PublicationSafety.ApprovalsExtend(View(s), View(t))
  {
    hide AdmissionSafety.Inv, P.ValidApproval, Approves, RecordOf, PublicationSafety.ApprovalsValid, BoundApprove,
         AdmissionSafety.RevisionsExtend;
    forall r | r in View(s) ensures r in View(t) && View(t)[r] == View(s)[r] {
      assert r in t.receipts && AdmissionSafety.ReceiptExtends(s.receipts[r], t.receipts[r]);
      assert BoundAsBefore(s.receipts, t.receipts, r);
      StandsForTheSame(s, t, s.receipts[r], t.receipts[r]);
    }
  }

  /** The records after are valid, and finalized only where they were before. */
  lemma ViewIsValid(s: A.State, t: A.State)
    requires Kept(s) && AdmissionSafety.Inv(t) && AdmissionSafety.Extends(s, t)
    requires forall r | r in t.receipts :: BoundAsBefore(s.receipts, t.receipts, r)
    ensures PublicationSafety.ApprovalsValid(View(t)) && BoundApprove(t)
    ensures forall r | r in View(t) && View(t)[r].finalization.Some? ::
              r in View(s) && View(s)[r].finalization == View(t)[r].finalization
  {
    hide AdmissionSafety.Inv, P.ValidApproval, Approves, RecordOf, Kept, BoundAsBefore, AdmissionSafety.Extends;
    forall r | r in t.receipts
      ensures t.receipts[r].artifact.Some? ==> Approves(t, t.receipts[r])
      ensures r in View(t) ==> P.ValidApproval(View(t)[r], r)
      ensures r in View(t) && View(t)[r].finalization.Some? ==>
                r in View(s) && View(s)[r].finalization == View(t)[r].finalization
    {
      ReceiptAfter(s, t, r);
      if r in View(t) { RecordKeepsArtifact(t, t.receipts[r]); }
    }
  }

  lemma KeptAfter(s: A.State, t: A.State)
    requires AdmissionSafety.Inv(t) && BoundApprove(t) && PublicationSafety.ApprovalsValid(View(t))
    ensures Kept(t)
  {}

  lemma AdmissionKeepsInv(w: World, call: A.Call)
    requires Inv(w) && Allowed(w, Admission(call))
    ensures Inv(w.(admission := A.Perform(w.admission, call)))
  {
    hide AdmissionSafety.Inv, A.Apply, BoundAsBefore, AdmissionSafety.Extends, PublicationSafety.Inv, BoundApprove,
         PublicationSafety.ApprovalsValid;
    AdmissionExtends(w.admission, call);
    NothingIsBound(w.admission, call.operation, call.environment);
    if A.Perform(w.admission, call) != w.admission { ExtendingKeepsInv(w, A.Perform(w.admission, call)); }
  }

  /******* Main results *******/

  lemma InitialInv()
    ensures Inv(EMPTY)
  {
    AdmissionSafety.EmptyInv();
  }

  lemma PerformKeepsInv(w: World, c: Call)
    requires Inv(w) && Allowed(w, c)
    ensures Inv(Perform(w, c))
  {
    hide AdmissionSafety.Inv, BoundApprove, Publish, Recover, P.Publish, P.RecoverPublication, PublicationSafety.Inv,
         View;
    match c
    case Admission(call) => AdmissionKeepsInv(w, call);
    case PublishCall(candidate, receipt, operations, e, at, life) =>
      PublishingRefines(Process(w, life), candidate, receipt, operations, e, at);
      PublicationSafety.PublishingKeepsInv(Abs(w), CandidateOf(candidate), receipt, operations, e, life);
      ApprovalsOf(Perform(w, c));
    case RecoverCall(id, e, life) =>
      RecoveringRefines(Process(w, life), id, e);
      PublicationSafety.CallKeepsInv(Abs(w), P.Call(P.RecoverOp(id, e), life));
      ApprovalsOf(Perform(w, c));
  }

  lemma ApprovalsOf(w: World)
    ensures PublicationSafety.Inv(Abs(w)) ==> PublicationSafety.ApprovalsValid(View(w.admission))
  {}

  lemma {:induction false} RunKeepsInv(w: World, calls: seq<Call>)
    requires Inv(w) && AllAllowed(w, calls)
    ensures Inv(Run(w, calls))
    decreases |calls|
  {
    hide Inv, Allowed, Perform;
    if calls != [] {
      PerformKeepsInv(w, calls[0]);
      RunKeepsInv(Perform(w, calls[0]), calls[1..]);
    }
  }

  /** The receipt a change set names is bound to it, was never invalidated, and approves a recorded revision. */
  predicate Admitted(s: A.State, cs: ChangeSet) {
    var id := cs.changeSetId.identity.approvalReceiptId;
    && id in s.receipts
    && var r := s.receipts[id];
       && r.artifact.Some? && r.artifact.value.changeSet == cs && !r.invalidated && Approves(s, r)
  }

  lemma CommitsAreAdmitted(w: World)
    requires Inv(w)
    ensures forall c | c in w.commits ::
              c.changeSetId in w.journals && Admitted(w.admission, w.journals[c.changeSetId].changeSet)
  {
    hide AdmissionSafety.Inv, Approves, RecordOf, P.ValidApproval, PublicationSafety.FinalizationsCommitted,
         PublicationSafety.JournaledCommitsLanded, PublicationSafety.CompletedAreFinalized,
         PublicationSafety.AtMostOneCommit;
    forall c | c in w.commits
      ensures c.changeSetId in w.journals && Admitted(w.admission, w.journals[c.changeSetId].changeSet)
    {
      var cs := w.journals[c.changeSetId].changeSet;
      assert PublicationSafety.BoundTo(View(w.admission), cs);
      var id := cs.changeSetId.identity.approvalReceiptId;
      RecordKeepsArtifact(w.admission, w.admission.receipts[id]);
      NeverBoundAndInvalid(w.admission, id);
    }
  }

  lemma FinalizedAreCommitted(w: World)
    requires Inv(w)
    ensures forall r | r in w.admission.receipts && w.admission.receipts[r].finalization.Some? ::
              var f := w.admission.receipts[r].finalization.value;
              PublicationSafety.CommittedAs(w.commits, f.changeSetId, f.sourceRevision)
  {
    hide AdmissionSafety.Inv, Approves, RecordOf, P.ValidApproval, PublicationSafety.CommittedAs;
    forall r | r in w.admission.receipts && w.admission.receipts[r].finalization.Some?
      ensures var f := w.admission.receipts[r].finalization.value;
              PublicationSafety.CommittedAs(w.commits, f.changeSetId, f.sourceRevision)
    {
      ConsistentReceipt(w.admission, r);
      ViewedRecord(w.admission, r);
    }
  }

  lemma CompletedAreFinal(w: World)
    requires Inv(w)
    ensures forall id | id in w.journals && w.journals[id].status == P.JournalCompleted ::
              && w.journals[id].commit.Some?
              && P.FindCommit(w.commits, id) == w.journals[id].commit
              && PublicationSafety.FinalizedAs(View(w.admission), w.journals[id].changeSet,
                                               w.journals[id].commit.value.sourceRevision)
  {
    hide Kept, View, PublicationSafety.FinalizedAs, P.FindCommit;
  }

  /**
   From the empty store on, whatever admission and publication calls run, each publication dying after any effect: no
   two commits name one receipt, let alone one change set; every commit is of the change set its receipt is bound to,
   and that receipt was never invalidated and approves a recorded revision; a finalized receipt has its commit; and a
   completed journal has its commit and a finalization of the same source revision.
   */
  lemma PublishedAtMostOnce(calls: seq<Call>)
    requires AllAllowed(EMPTY, calls)
    ensures var w := Run(EMPTY, calls);
            && (forall i, j | 0 <= i < j < |w.commits| ::
                  w.commits[i].changeSetId.identity.approvalReceiptId
                    != w.commits[j].changeSetId.identity.approvalReceiptId)
            && (forall c | c in w.commits ::
                  c.changeSetId in w.journals && Admitted(w.admission, w.journals[c.changeSetId].changeSet))
            && (forall r | r in w.admission.receipts && w.admission.receipts[r].finalization.Some? ::
                  var f := w.admission.receipts[r].finalization.value;
                  PublicationSafety.CommittedAs(w.commits, f.changeSetId, f.sourceRevision))
            && (forall id | id in w.journals && w.journals[id].status == P.JournalCompleted ::
                  && w.journals[id].commit.Some?
                  && P.FindCommit(w.commits, id) == w.journals[id].commit
                  && PublicationSafety.FinalizedAs(View(w.admission), w.journals[id].changeSet,
                                                   w.journals[id].commit.value.sourceRevision))
  {
    hide Run, AllAllowed;
    InitialInv();
    RunKeepsInv(EMPTY, calls);
    var w := Run(EMPTY, calls);
    CommitsAreAdmitted(w);
    FinalizedAreCommitted(w);
    CompletedAreFinal(w);
    PublicationSafety.OneCommitPerReceipt(Abs(w), []);
    assert P.Run(Abs(w), []) == Abs(w);
  }
}
