/**
 The activation barrier of `src/sync/index.ts` as a specification.

 Durable state is one value.  A running process is that state plus `life`, the
 number of further effects it will perform before it dies.  Every durable write and
 every host call is one effect; a dead process performs none, so a crash between any
 two effects is one value of `life`.  What a host call leaves behind is chosen freely
 by the caller of the model, whether the call succeeds or not.
 */
module SyncProtocol {
  import opened Options

  /******* Records *******/

  datatype SourceReference = SourceReference(id: string, path: string)

  datatype DomainDocument = DomainDocument(stableId: string, checksum: string, sourceReferences: seq<SourceReference>)

  datatype DomainIndex = DomainIndex(domainId: string, projectionRevision: string, manifestChecksum: string,
                                     desiredCount: nat, retractionCount: nat, documents: seq<DomainDocument>)

  datatype DomainEvidence = DomainEvidence(domainId: string, projectionRevision: string, manifestChecksum: string,
                                           desiredCount: nat, indexedCount: nat, previousRevision: Option<string>,
                                           previousStableIdHits: nat, previousTextSentinelHits: nat,
                                           previousSourceReferenceHits: nat)

  datatype HostEvidence = HostEvidence(deepPass: bool, generationId: GenerationId, sourceRevision: string,
                                       projectionChecksum: string, hostConfigChecksum: string,
                                       searchSentinel: string, getSentinel: string,
                                       domains: Option<seq<DomainEvidence>>)

  /** What the host answers retrieval from.  A host in an unknown state never verifies. */
  datatype Host = Serving(index: HostEvidence) | Unknown

  /** `generation-<digest>`; its receipt is `activation-<digest>`. */
  datatype GenerationId = GenerationId(digest: string)

  datatype ReceiptId = ReceiptId(digest: string)

  datatype Generation = Generation(sourceRevision: string, manifestChecksum: string, projectionChecksum: string,
                                   composite: bool, domains: seq<DomainIndex>)

  datatype Receipt = Receipt(generationId: GenerationId, sourceRevision: string, manifestChecksum: string,
                             projectionChecksum: string, hostConfigChecksum: string,
                             searchSentinel: string, getSentinel: string, fitness: Option<DomainEvidence>)

  datatype Pointer = Pointer(generationId: GenerationId, sourceRevision: string, manifestChecksum: string,
                             receiptId: ReceiptId)

  datatype Gate = Gate(targetSourceRevision: string, drift: bool)

  datatype Phase =
    | Prepared | GateClosed | RunsDrained | HostApplying | HostApplied | HostVerified
    | ReceiptWritten | PointerWritten | Completed | PriorRestored | RecoveryFailed

  datatype Journal = Journal(targetSourceRevision: string, syncGeneration: GenerationId, prior: Host,
                             priorPointer: Option<Pointer>, phase: Phase, receiptId: Option<ReceiptId>,
                             priorRestoreForbidden: bool)

  datatype Durable = Durable(journal: Option<Journal>, gate: Option<Gate>, pointer: Option<Pointer>,
                             receipts: map<ReceiptId, Receipt>, generations: map<GenerationId, Generation>,
                             host: Host)

  datatype Target = Target(sourceRevision: string, syncGeneration: GenerationId, manifestChecksum: string,
                           projectionChecksum: string, hostConfigChecksum: string,
                           domainIndexes: seq<DomainIndex>, previousDomainIndexes: seq<DomainIndex>,
                           expectedIndexEvidence: Option<(string, string)>,
                           expectedDomainEvidence: seq<DomainEvidence>)

  /******* Destructive replacement *******/

  function FindDomain(domains: seq<DomainIndex>, id: string): (r: Option<DomainIndex>)
    ensures r.Some? ==> r.value in domains && r.value.domainId == id
    ensures r.None? ==> forall d | d in domains :: d.domainId != id
  {
    if domains == [] then None
    else if domains[0].domainId == id then Some(domains[0])
    else FindDomain(domains[1..], id)
  }

  function FindDocument(documents: seq<DomainDocument>, stableId: string): (r: Option<DomainDocument>)
    ensures r.Some? ==> r.value in documents && r.value.stableId == stableId
    ensures r.None? ==> forall d | d in documents :: d.stableId != stableId
  {
    if documents == [] then None
    else if documents[0].stableId == stableId then Some(documents[0])
    else FindDocument(documents[1..], stableId)
  }

  predicate DocumentDroppedOrChanged(current: DomainIndex, prior: DomainDocument) {
    var found := FindDocument(current.documents, prior.stableId);
    || found.None?
    || found.value.checksum != prior.checksum
    || found.value.sourceReferences != prior.sourceReferences
  }

  predicate DomainReplacementIsDestructive(domain: DomainIndex, previous: seq<DomainIndex>) {
    var prior := FindDomain(previous, domain.domainId);
    && prior.Some?
    && prior.value.projectionRevision != domain.projectionRevision
    && (domain.retractionCount > 0
        || exists document | document in prior.value.documents :: DocumentDroppedOrChanged(domain, document))
  }

  predicate ReplacementForbidsPriorRestore(target: seq<DomainIndex>, previous: seq<DomainIndex>) {
    exists domain | domain in target :: DomainReplacementIsDestructive(domain, previous)
  }

  ghost predicate UniqueDomains(domains: seq<DomainIndex>) {
    forall a, b | a in domains && b in domains && a.domainId == b.domainId :: a == b
  }

  ghost predicate UniqueDocuments(documents: seq<DomainDocument>) {
    forall a, b | a in documents && b in documents && a.stableId == b.stableId :: a == b
  }

  /** Going back from `domain` to `prior` would serve nothing that `domain` has withdrawn. */
  ghost predicate PriorStillVouchedFor(domain: DomainIndex, prior: DomainIndex) {
    domain.retractionCount == 0 && (set d | d in prior.documents) <= (set d | d in domain.documents)
  }

  /** The prior may be restored exactly when every replaced domain still vouches for all of it. */
  lemma {:induction false} ForbiddenExactlyWhenPriorIsWithdrawn(target: seq<DomainIndex>, previous: seq<DomainIndex>)
    requires UniqueDomains(previous)
    requires forall domain | domain in target :: UniqueDocuments(domain.documents)
    ensures !ReplacementForbidsPriorRestore(target, previous) <==>
            forall domain, prior | domain in target && prior in previous && prior.domainId == domain.domainId ::
              prior.projectionRevision == domain.projectionRevision || PriorStillVouchedFor(domain, prior)
  {
    forall domain, prior | domain in target && prior in previous && prior.domainId == domain.domainId
      ensures DomainReplacementIsDestructive(domain, previous) <==>
              !(prior.projectionRevision == domain.projectionRevision || PriorStillVouchedFor(domain, prior))
    {
      assert FindDomain(previous, domain.domainId).value == prior;
      forall document | document in prior.documents
        ensures DocumentDroppedOrChanged(domain, document) <==> document !in domain.documents
      {
        var found := FindDocument(domain.documents, document.stableId);
        if found.Some? && !DocumentDroppedOrChanged(domain, document) {
          assert found.value == document;
        }
      }
      var before, after := set d | d in prior.documents, set d | d in domain.documents;
      assert before <= after <==> forall d | d in before :: d in after;
      assert forall d :: d in prior.documents <==> d in before;
    }
    if ReplacementForbidsPriorRestore(target, previous) {
      var domain :| domain in target && DomainReplacementIsDestructive(domain, previous);
      var prior := FindDomain(previous, domain.domainId).value;
      assert prior in previous && prior.domainId == domain.domainId;
    }
  }

  /******* Host evidence *******/

  function FindEvidence(domains: seq<DomainEvidence>, id: string): (r: Option<DomainEvidence>)
    ensures r.Some? ==> r.value in domains && r.value.domainId == id
    ensures r.None? ==> forall d | d in domains :: d.domainId != id
  {
    if domains == [] then None
    else if domains[0].domainId == id then Some(domains[0])
    else FindEvidence(domains[1..], id)
  }

  function ExpectedPreviousRevision(domain: DomainIndex, target: Target): Option<string> {
    var expected := FindEvidence(target.expectedDomainEvidence, domain.domainId);
    if expected.Some? && expected.value.previousRevision.Some? then expected.value.previousRevision
    else
      var previous := FindDomain(target.previousDomainIndexes, domain.domainId);
      if previous.Some? then Some(previous.value.projectionRevision) else None
  }

  predicate DomainEvidenceAccepted(domains: seq<DomainEvidence>, domain: DomainIndex, target: Target) {
    var actual := FindEvidence(domains, domain.domainId);
    && actual.Some?
    && actual.value.projectionRevision == domain.projectionRevision
    && actual.value.manifestChecksum == domain.manifestChecksum
    && actual.value.desiredCount == domain.desiredCount
    && actual.value.indexedCount == domain.desiredCount
    && actual.value.previousRevision == ExpectedPreviousRevision(domain, target)
    && actual.value.previousStableIdHits == 0
    && actual.value.previousTextSentinelHits == 0
    && actual.value.previousSourceReferenceHits == 0
  }

  predicate HostEvidenceAccepted(evidence: HostEvidence, target: Target) {
    && evidence.deepPass
    && evidence.generationId == target.syncGeneration
    && evidence.sourceRevision == target.sourceRevision
    && evidence.projectionChecksum == target.projectionChecksum
    && evidence.hostConfigChecksum == target.hostConfigChecksum
    && (target.expectedIndexEvidence.Some? ==>
          evidence.searchSentinel == target.expectedIndexEvidence.value.0 &&
          evidence.getSentinel == target.expectedIndexEvidence.value.1)
    && (target.domainIndexes != [] ==>
          && evidence.domains.Some?
          && |evidence.domains.value| == |target.domainIndexes|
          && forall domain | domain in target.domainIndexes ::
               DomainEvidenceAccepted(evidence.domains.value, domain, target))
  }

  /** `verifyTarget`/`verifyPrior`: an answering host reports what it really serves. */
  predicate HostConfirms(host: Host, answers: bool, target: Target) {
    answers && host.Serving? && HostEvidenceAccepted(host.index, target)
  }

  /******* Effects *******/

  datatype Process = Process(d: Durable, life: nat) {
    predicate Alive() { life > 0 }
  }

  function Effect(p: Process, d: Durable): Process {
    if p.life == 0 then p else Process(d, p.life - 1)
  }

  function WriteJournal(p: Process, j: Journal): Process { Effect(p, p.d.(journal := Some(j))) }

  function WriteGate(p: Process, g: Gate): Process { Effect(p, p.d.(gate := Some(g))) }

  function OpenGate(p: Process): Process { Effect(p, p.d.(gate := None)) }

  function WritePointer(p: Process, pointer: Option<Pointer>): Process { Effect(p, p.d.(pointer := pointer)) }

  function WriteReceipt(p: Process, id: ReceiptId, r: Receipt): Process {
    Effect(p, p.d.(receipts := p.d.receipts[id := r]))
  }

  function StoreGeneration(p: Process, id: GenerationId, g: Generation): Process {
    if id in p.d.generations then p else Effect(p, p.d.(generations := p.d.generations[id := g]))
  }

  function HostCall(p: Process, leaves: Host): Process { Effect(p, p.d.(host := leaves)) }

  function JournalAt(j: Journal, phase: Phase): Journal { j.(phase := phase) }

  /******* Recovery *******/

  /** Whether a host call returns, and the host state it leaves either way. */
  datatype HostReply = HostReply(ok: bool, leaves: Host)

  datatype RecoveryReplies = RecoveryReplies(bindingCompiles: bool, hostConfigChecksum: string, hostAnswers: bool,
                                             restore: HostReply)

  datatype RecoveryOutcome = Clean | Inherited(journal: Journal) | Blocked

  function ExpectedDomainEvidence(r: Receipt): seq<DomainEvidence> {
    if r.fitness.None? then []
    else [r.fitness.value.(previousStableIdHits := 0, previousTextSentinelHits := 0, previousSourceReferenceHits := 0)]
  }

  function ActiveTarget(d: Durable, e: RecoveryReplies): Option<Target> {
    if d.pointer.None? || d.pointer.value.receiptId !in d.receipts || !e.bindingCompiles then None
    else
      var pointer := d.pointer.value;
      if pointer.generationId !in d.generations
         || d.generations[pointer.generationId].manifestChecksum != pointer.manifestChecksum then None
      else
        var receipt := d.receipts[pointer.receiptId];
        var generation := d.generations[pointer.generationId];
        Some(Target(pointer.sourceRevision, pointer.generationId, generation.manifestChecksum,
                    generation.projectionChecksum, e.hostConfigChecksum, generation.domains, [],
                    Some((receipt.searchSentinel, receipt.getSentinel)), ExpectedDomainEvidence(receipt)))
  }

  predicate ActiveTargetConfirmed(d: Durable, e: RecoveryReplies) {
    var target := ActiveTarget(d, e);
    target.Some? && HostConfirms(d.host, e.hostAnswers, target.value)
  }

  function RecoverPrior(p: Process, j: Journal, e: RecoveryReplies): (Process, bool) {
    if j.priorPointer.None? then (p, false)
    else
      var restored := HostCall(p, e.restore.leaves);
      if !e.restore.ok then (restored, false)
      else
        var repointed := WritePointer(restored, j.priorPointer);
        if !ActiveTargetConfirmed(repointed.d, e) then (repointed, false)
        else (OpenGate(WriteJournal(repointed, JournalAt(j, PriorRestored))), true)
  }

  predicate BeforeHostPhase(phase: Phase) { phase in {Prepared, GateClosed, RunsDrained} }

  predicate DestructivePhase(phase: Phase) {
    phase in {HostApplying, HostApplied, HostVerified, ReceiptWritten, PointerWritten, RecoveryFailed}
  }

  predicate PointerIsJournalTarget(d: Durable, j: Journal) {
    && d.pointer.Some?
    && d.pointer.value.generationId == j.syncGeneration
    && Some(d.pointer.value.receiptId) == j.receiptId
  }

  predicate AwaitsTargetConfirmation(d: Durable, j: Journal) {
    j.phase in {ReceiptWritten, PointerWritten} && PointerIsJournalTarget(d, j)
  }

  function RecoverInterrupted(p: Process, allowDestructiveReplacement: bool, e: RecoveryReplies)
    : (Process, RecoveryOutcome)
  {
    match p.d.journal
    case None => (p, Clean)
    case Some(j) =>
      if BeforeHostPhase(j.phase) then (OpenGate(WriteJournal(p, JournalAt(j, PriorRestored))), Clean)
      else if j.phase == PriorRestored then (OpenGate(p), Clean)
      else if j.phase == Completed && p.d.gate.None? then (p, Clean)
      else if j.phase == Completed && p.d.gate.value.drift then (p, Clean)
      else if AwaitsTargetConfirmation(p.d, j) then
        if ActiveTargetConfirmed(p.d, e) then (OpenGate(WriteJournal(p, JournalAt(j, Completed))), Clean)
        else (p, Blocked)
      else if j.priorRestoreForbidden && DestructivePhase(j.phase) then
        if allowDestructiveReplacement then (p, Inherited(j))
        else (WriteJournal(p, JournalAt(j, RecoveryFailed)), Blocked)
      else if j.phase == Completed then
        if ActiveTargetConfirmed(p.d, e) then (OpenGate(p), Clean)
        else (WriteJournal(p, JournalAt(j, RecoveryFailed)), Blocked)
      else
        var (q, ok) := RecoverPrior(p, j, e);
        if ok then (q, Clean) else (WriteJournal(q, JournalAt(j, RecoveryFailed)), Blocked)
  }

  /******* Sync *******/

  datatype Request = Request(generationId: GenerationId, built: Generation, hostConfigChecksum: string,
                             readerConfigured: bool)

  datatype SyncReplies = SyncReplies(recovery: RecoveryReplies, builds: bool, captures: bool, drains: bool,
                                     currentBeforeApply: bool, apply: HostReply, cutoverIndexed: bool,
                                     targetAnswers: bool, currentAfterVerify: bool, cutoverAccepted: bool,
                                     currentBeforePointer: bool, handler: RecoveryReplies)

  datatype SyncOutcome = Activated | Raised

  /**
   The store is content addressed: a stored generation is reused, and carries the revision its id was derived from.
   */
  predicate Buildable(d: Durable, q: Request) {
    q.generationId in d.generations ==> d.generations[q.generationId].sourceRevision == q.built.sourceRevision
  }

  predicate PriorGenerationReadable(d: Durable) {
    d.pointer.Some? ==> d.pointer.value.generationId in d.generations
  }

  function PreviousDomains(d: Durable): seq<DomainIndex>
    requires PriorGenerationReadable(d)
  {
    if d.pointer.None? then [] else d.generations[d.pointer.value.generationId].domains
  }

  function TargetOf(q: Request, g: Generation, previous: seq<DomainIndex>): Target {
    Target(g.sourceRevision, q.generationId, g.manifestChecksum, g.projectionChecksum, q.hostConfigChecksum,
           g.domains, previous, None, [])
  }

  function ReceiptIdFor(id: GenerationId): ReceiptId { ReceiptId(id.digest) }

  function FitnessEvidence(t: Target, e: HostEvidence): Option<DomainEvidence> {
    if e.domains.None? then None else FindEvidence(e.domains.value, "fitness")
  }

  predicate ReportsFitness(t: Target, composite: bool) {
    composite && FindDomain(t.domainIndexes, "fitness").Some?
  }

  function ReceiptFor(t: Target, e: HostEvidence, composite: bool): Receipt {
    Receipt(t.syncGeneration, t.sourceRevision, t.manifestChecksum, t.projectionChecksum, t.hostConfigChecksum,
            e.searchSentinel, e.getSentinel, if ReportsFitness(t, composite) then FitnessEvidence(t, e) else None)
  }

  function PointerFor(t: Target): Pointer {
    Pointer(t.syncGeneration, t.sourceRevision, t.manifestChecksum, ReceiptIdFor(t.syncGeneration))
  }

  function NewJournal(t: Target, prior: Host, priorPointer: Option<Pointer>): Journal {
    Journal(t.sourceRevision, t.syncGeneration, prior, priorPointer, Prepared, None,
            ReplacementForbidsPriorRestore(t.domainIndexes, t.previousDomainIndexes))
  }

  /** The failure handler: a blocked destructive replacement is parked, anything else goes back to the prior. */
  function HandleFailure(p: Process, j: Journal, e: RecoveryReplies): Process {
    if j.priorRestoreForbidden && DestructivePhase(j.phase) then WriteJournal(p, JournalAt(j, RecoveryFailed))
    else
      var (q, ok) := RecoverPrior(p, j, e);
      if ok then q else WriteJournal(q, JournalAt(j, RecoveryFailed))
  }

  /** Journal, gate, journal: from `prepared` to `gate_closed`. */
  function CloseForSync(p: Process, j: Journal): Process {
    WriteJournal(WriteGate(WriteJournal(p, j), Gate(j.targetSourceRevision, false)), JournalAt(j, GateClosed))
  }

  function ActivateTarget(p: Process, j: Journal, t: Target, composite: bool, e: SyncReplies): (Process, SyncOutcome)
    requires p.d.host.Serving?
  {
    var evidence := p.d.host.index;
    var verified := WriteJournal(p, JournalAt(j, HostVerified));
    if ReportsFitness(t, composite) && FitnessEvidence(t, evidence).None? then
      (HandleFailure(verified, JournalAt(j, HostVerified), e.handler), Raised)
    else
      var id := ReceiptIdFor(t.syncGeneration);
      var j' := JournalAt(j, ReceiptWritten).(receiptId := Some(id));
      var receipted := WriteJournal(WriteReceipt(verified, id, ReceiptFor(t, evidence, composite)), j');
      if composite && !e.currentBeforePointer then (HandleFailure(receipted, j', e.handler), Raised)
      else
        var pointed := WriteJournal(WritePointer(receipted, Some(PointerFor(t))), JournalAt(j', PointerWritten));
        (OpenGate(WriteJournal(pointed, JournalAt(j', Completed))), Activated)
  }

  function ApplyAndActivate(p: Process, j: Journal, t: Target, composite: bool, e: SyncReplies)
    : (Process, SyncOutcome)
  {
    var applying := HostCall(WriteJournal(p, JournalAt(j, HostApplying)), e.apply.leaves);
    if !e.apply.ok then (HandleFailure(applying, JournalAt(j, HostApplying), e.handler), Raised)
    else
      var applied := WriteJournal(applying, JournalAt(j, HostApplied));
      if !e.cutoverIndexed || !HostConfirms(applied.d.host, e.targetAnswers, t)
         || (composite && !e.currentAfterVerify) || !e.cutoverAccepted then
        (HandleFailure(applied, JournalAt(j, HostApplied), e.handler), Raised)
      else ActivateTarget(applied, j, t, composite, e)
  }

  /** Everything inside the `try` block. */
  function RunBarrier(p: Process, j: Journal, t: Target, composite: bool, e: SyncReplies): (Process, SyncOutcome) {
    if !e.drains then (HandleFailure(p, JournalAt(j, GateClosed), e.handler), Raised)
    else
      var drained := WriteJournal(p, JournalAt(j, RunsDrained));
      if composite && !e.currentBeforeApply then (HandleFailure(drained, JournalAt(j, RunsDrained), e.handler), Raised)
      else ApplyAndActivate(drained, j, t, composite, e)
  }

  /** What a sync plans once recovery has finished and the generation is stored. */
  datatype Plan = Plan(target: Target, composite: bool, journal: Journal)

  function PlanFor(d: Durable, q: Request, inherited: RecoveryOutcome): Plan
    requires q.generationId in d.generations && PriorGenerationReadable(d)
  {
    var g := d.generations[q.generationId];
    var t := TargetOf(q, g, PreviousDomains(d));
    Plan(t, g.composite,
         if inherited.Inherited? then NewJournal(t, inherited.journal.prior, inherited.journal.priorPointer)
         else NewJournal(t, d.host, d.pointer))
  }

  function SyncGeneration(p: Process, q: Request, e: SyncReplies): (Process, SyncOutcome) {
    var (r, outcome) := RecoverInterrupted(p, true, e.recovery);
    if outcome.Blocked? || !e.builds || !Buildable(r.d, q) then (r, Raised)
    else
      var s := StoreGeneration(r, q.generationId, q.built);
      if q.generationId !in s.d.generations || (s.d.generations[q.generationId].composite && !q.readerConfigured)
         || !PriorGenerationReadable(s.d) || (outcome.Clean? && !e.captures) then (s, Raised)
      else
        var plan := PlanFor(s.d, q, outcome);
        RunBarrier(CloseForSync(s, plan.journal), plan.journal, plan.target, plan.composite, e)
  }

  /** `closeMaintenanceGate`: without a revision it needs an active pointer. */
  function CloseMaintenanceGate(p: Process, revision: Option<string>): Process {
    if revision.Some? then WriteGate(p, Gate(revision.value, true))
    else if p.d.pointer.Some? then WriteGate(p, Gate(p.d.pointer.value.sourceRevision, true))
    else p
  }

  /******* Runs *******/

  datatype Operation =
    | Sync(request: Request, sync: SyncReplies)
    | Recover(recovery: RecoveryReplies)
    | CloseGate(revision: Option<string>)

  /** One call by a process that performs `life` effects and then dies. */
  datatype Call = Call(operation: Operation, life: nat)

  function Perform(d: Durable, c: Call): Durable {
    var p := Process(d, c.life);
    match c.operation
    case Sync(q, e) => SyncGeneration(p, q, e).0.d
    case Recover(e) => RecoverInterrupted(p, false, e).0.d
    case CloseGate(revision) => CloseMaintenanceGate(p, revision).d
  }

  function Run(d: Durable, calls: seq<Call>): Durable
    decreases |calls|
  {
    if calls == [] then d else Run(Perform(d, calls[0]), calls[1..])
  }
}
