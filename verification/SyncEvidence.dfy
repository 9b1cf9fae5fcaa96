/** What the host has reported when a pointer moves or a gate opens, field by field. */
module SyncEvidence {
  import opened Options
  import opened SyncProtocol
  import opened SyncSafety
  import opened SyncGuarantees

  /******* What a report says *******/

  /** All of `x` is indexed, it replaced `replaced`, and nothing of that is found any more. */
  predicate Reports(e: DomainEvidence, x: DomainIndex, replaced: Option<string>) {
    && e.domainId == x.domainId
    && e.projectionRevision == x.projectionRevision && e.manifestChecksum == x.manifestChecksum
    && e.desiredCount == x.desiredCount && e.indexedCount == x.desiredCount
    && e.previousRevision == replaced
    && e.previousStableIdHits == 0 && e.previousTextSentinelHits == 0 && e.previousSourceReferenceHits == 0
  }

  /** The first entry for the domain reports it. */
  ghost predicate FirstReports(entries: seq<DomainEvidence>, x: DomainIndex, replaced: Option<string>) {
    exists i | 0 <= i < |entries| ::
      Reports(entries[i], x, replaced) && forall j | 0 <= j < i :: entries[j].domainId != x.domainId
  }

  /** The revision the first domain called `id` has among `domains`. */
  ghost predicate FirstRevision(domains: seq<DomainIndex>, id: string, revision: Option<string>) {
    match revision
    case None => forall x | x in domains :: x.domainId != id
    case Some(r) =>
      exists i | 0 <= i < |domains| ::
        domains[i].domainId == id && domains[i].projectionRevision == r
        && forall j | 0 <= j < i :: domains[j].domainId != id
  }

  /** The host serves generation `g`, under this configuration. */
  predicate ReportsGeneration(index: HostEvidence, id: GenerationId, g: Generation, hostConfig: string) {
    && index.deepPass
    && index.generationId == id && index.sourceRevision == g.sourceRevision
    && index.projectionChecksum == g.projectionChecksum && index.hostConfigChecksum == hostConfig
  }

  /** Every domain of `g` is indexed in place of what it was in `previous`, and no other is reported. */
  ghost predicate ReportsDomains(index: HostEvidence, g: Generation, previous: seq<DomainIndex>) {
    g.domains != [] ==>
      && index.domains.Some? && |index.domains.value| == |g.domains|
      && forall x | x in g.domains ::
           exists replaced :: FirstRevision(previous, x.domainId, replaced)
                              && FirstReports(index.domains.value, x, replaced)
  }

  lemma {:induction false} FindEvidenceIsFirst(entries: seq<DomainEvidence>, id: string)
    ensures var r := FindEvidence(entries, id);
            r.Some? ==> exists i | 0 <= i < |entries| ::
              entries[i] == r.value && entries[i].domainId == id && forall j | 0 <= j < i :: entries[j].domainId != id
  {
    if entries != [] {
      if entries[0].domainId == id {
        assert entries[0] == FindEvidence(entries, id).value;
      } else {
        FindEvidenceIsFirst(entries[1..], id);
        if FindEvidence(entries, id).Some? {
          var i :| 0 <= i < |entries[1..]| && entries[1..][i] == FindEvidence(entries, id).value
                   && entries[1..][i].domainId == id && forall j | 0 <= j < i :: entries[1..][j].domainId != id;
          assert entries[i + 1] == entries[1..][i];
          assert forall j | 0 < j < i + 1 :: entries[j] == entries[1..][j - 1];
        }
      }
    }
  }

  lemma {:induction false} FindDomainIsFirst(domains: seq<DomainIndex>, id: string)
    ensures var r := FindDomain(domains, id);
            FirstRevision(domains, id, if r.Some? then Some(r.value.projectionRevision) else None)
  {
    if domains != [] && domains[0].domainId != id {
      FindDomainIsFirst(domains[1..], id);
      var r := FindDomain(domains, id);
      if r.Some? {
        var i :| 0 <= i < |domains[1..]| && domains[1..][i].domainId == id
                 && domains[1..][i].projectionRevision == r.value.projectionRevision
                 && forall j | 0 <= j < i :: domains[1..][j].domainId != id;
        assert domains[i + 1] == domains[1..][i];
        assert forall j | 0 < j < i + 1 :: domains[j] == domains[1..][j - 1];
      }
    }
  }

  lemma FirstRevisionIsOne(domains: seq<DomainIndex>, id: string, a: Option<string>, b: Option<string>)
    requires FirstRevision(domains, id, a) && FirstRevision(domains, id, b)
    ensures a == b
  {}

  /** An entry is accepted exactly when the first one for the domain reports all of it. */
  lemma EntryAcceptedExactly(entries: seq<DomainEvidence>, x: DomainIndex, t: Target)
    ensures DomainEvidenceAccepted(entries, x, t) <==> FirstReports(entries, x, ExpectedPreviousRevision(x, t))
  {
    hide ExpectedPreviousRevision;
    FindEvidenceIsFirst(entries, x.domainId);
    var found := FindEvidence(entries, x.domainId);
    if FirstReports(entries, x, ExpectedPreviousRevision(x, t)) {
      var i :| 0 <= i < |entries| && Reports(entries[i], x, ExpectedPreviousRevision(x, t))
               && forall j | 0 <= j < i :: entries[j].domainId != x.domainId;
      var k :| 0 <= k < |entries| && entries[k] == found.value && entries[k].domainId == x.domainId
               && forall j | 0 <= j < k :: entries[j].domainId != x.domainId;
      assert i == k;
    }
  }

  /** What `verifyTarget` answers is accepted exactly when it reports the generation and its domains, in its fields. */
  lemma TargetAcceptedExactly(index: HostEvidence, q: Request, g: Generation, previous: seq<DomainIndex>)
    ensures HostEvidenceAccepted(index, TargetOf(q, g, previous))
            <==> ReportsGeneration(index, q.generationId, g, q.hostConfigChecksum) && ReportsDomains(index, g, previous)
  {
    hide DomainEvidenceAccepted, FirstReports, FirstRevision;
    var t := TargetOf(q, g, previous);
    if g.domains != [] && index.domains.Some? {
      forall x | x in g.domains
        ensures DomainEvidenceAccepted(index.domains.value, x, t)
                <==> exists replaced :: FirstRevision(previous, x.domainId, replaced)
                                        && FirstReports(index.domains.value, x, replaced)
      {
        FindDomainIsFirst(previous, x.domainId);
        EntryAcceptedExactly(index.domains.value, x, t);
        var expected := ExpectedPreviousRevision(x, t);
        if exists replaced :: FirstRevision(previous, x.domainId, replaced)
                              && FirstReports(index.domains.value, x, replaced) {
          var replaced :| FirstRevision(previous, x.domainId, replaced)
                          && FirstReports(index.domains.value, x, replaced);
          FirstRevisionIsOne(previous, x.domainId, replaced, expected);
        }
      }
    }
  }

  /******* What is active *******/

  /** What the receipt says a domain replaced; it keeps this for one domain only. */
  function ReplacedPerReceipt(r: Receipt, id: string): Option<string> {
    if r.fitness.Some? && r.fitness.value.domainId == id then r.fitness.value.previousRevision else None
  }

  /** The host serves the generation of the active pointer, as its receipt recorded it. */
  ghost predicate ReportsActive(d: Durable, hostConfig: string) {
    && d.host.Serving? && d.pointer.Some?
    && d.pointer.value.generationId in d.generations && d.pointer.value.receiptId in d.receipts
    && var g, r, index := d.generations[d.pointer.value.generationId], d.receipts[d.pointer.value.receiptId],
       d.host.index;
       && d.pointer.value.sourceRevision == g.sourceRevision && d.pointer.value.manifestChecksum == g.manifestChecksum
       && ReportsGeneration(index, d.pointer.value.generationId, g, hostConfig)
       && index.searchSentinel == r.searchSentinel && index.getSentinel == r.getSentinel
       && (g.domains != [] ==>
             && index.domains.Some? && |index.domains.value| == |g.domains|
             && forall x | x in g.domains :: FirstReports(index.domains.value, x, ReplacedPerReceipt(r, x.domainId)))
  }

  /** What `verifyPrior` answers is accepted exactly when the host answers, and serves what is active in every field. */
  lemma ActiveConfirmedExactly(d: Durable, e: RecoveryReplies)
    requires Inv(d) || Backed(d.receipts, d.generations, d.pointer)
    ensures ActiveTargetConfirmed(d, e)
            <==> e.bindingCompiles && e.hostAnswers && ReportsActive(d, e.hostConfigChecksum)
  {
    hide DomainEvidenceAccepted, FirstReports, ReceiptsMatchStore, JournalGuardsHost;
    var target := ActiveTarget(d, e);
    if target.Some? && d.host.Serving? && d.host.index.domains.Some? {
      var r := d.receipts[d.pointer.value.receiptId];
      forall x | x in target.value.domainIndexes
        ensures DomainEvidenceAccepted(d.host.index.domains.value, x, target.value)
                <==> FirstReports(d.host.index.domains.value, x, ReplacedPerReceipt(r, x.domainId))
      {
        EntryAcceptedExactly(d.host.index.domains.value, x, target.value);
        assert ExpectedPreviousRevision(x, target.value) == ReplacedPerReceipt(r, x.domainId);
      }
    }
  }

  /** The host has answered, and serves what is active in every field. */
  ghost predicate Confirmed(d: Durable, e: RecoveryReplies) {
    e.bindingCompiles && e.hostAnswers && ReportsActive(d, e.hostConfigChecksum)
  }

  /** Receipts and pointers name what is stored.  Unlike `Inv`, this holds in the two windows too. */
  predicate Stored(d: Durable) { ReceiptsMatchStore(d.receipts, d.generations) && PointersBacked(d) }

  /** Journal and gate do not matter to what is active, and a stored generation stays what it is. */
  lemma ReportsActiveFrame(before: Durable, after: Durable, hostConfig: string)
    requires ReportsActive(before, hostConfig) && SameActive(before, after)
    ensures ReportsActive(after, hostConfig)
  {
    hide FirstReports;
  }

  /** Host, pointer and receipts are untouched, and no stored generation has changed. */
  predicate SameActive(before: Durable, after: Durable) {
    && after.host == before.host && after.pointer == before.pointer && after.receipts == before.receipts
    && forall id | id in before.generations ::
         id in after.generations && after.generations[id] == before.generations[id]
  }

  lemma RollbackOpensOnReports(p: Process, j: Journal, e: RecoveryReplies)
    requires p.d.gate.Some? && Backed(p.d.receipts, p.d.generations, j.priorPointer)
    ensures var (q, ok) := RecoverPrior(p, j, e);
            && (q.d.gate.None? ==> ok && Confirmed(q.d, e))
            && (ok && q.Alive() ==> q.d.gate.None?)
            && (!ok ==> q.d.gate == p.d.gate)
  {
    hide ReportsActive, ActiveTarget, HostConfirms, Backed;
    if j.priorPointer.Some? && e.restore.ok {
      var repointed := WritePointer(HostCall(p, e.restore.leaves), j.priorPointer);
      var (q, ok) := RecoverPrior(p, j, e);
      if ok && q.d.gate.None? {
        ActiveConfirmedExactly(repointed.d, e);
        ReportsActiveFrame(repointed.d, q.d, e.hostConfigChecksum);
      }
    }
  }

  /** A recovery opens a gate only on a host that has reported the active generation, sentinels included. */
  lemma RecoveryOpensOnReports(p: Process, allow: bool, e: RecoveryReplies)
    requires Stored(p.d) && p.d.gate.Some? && RecoverInterrupted(p, allow, e).0.d.gate.None?
    requires p.d.journal.Some? ==> p.d.journal.value.phase !in {Prepared, GateClosed, RunsDrained, PriorRestored}
    ensures Confirmed(RecoverInterrupted(p, allow, e).0.d, e)
  {
    hide ReportsActive, ActiveTarget, HostConfirms, ReceiptsMatchStore, Settled;
    var j := p.d.journal.value;
    if AwaitsTargetConfirmation(p.d, j) || j.phase == Completed {
      ActiveConfirmedExactly(p.d, e);
      ReportsActiveFrame(p.d, RecoverInterrupted(p, allow, e).0.d, e.hostConfigChecksum);
    } else {
      RollbackOpensOnReports(p, j, e);
    }
  }

  lemma RecoveryKeepsStored(p: Process, allow: bool, e: RecoveryReplies)
    requires Stored(p.d)
    ensures var (r, outcome) := RecoverInterrupted(p, allow, e);
            && Stored(r.d) && r.d.receipts == p.d.receipts && r.d.generations == p.d.generations
            && r.d.pointer in {p.d.pointer, if p.d.journal.Some? then p.d.journal.value.priorPointer else None}
            && (outcome.Inherited? ==> r == p && p.d.journal == Some(outcome.journal))
  {
    hide ReceiptsMatchStore, Backed, ActiveTargetConfirmed;
    RecoveryIsSameAttempt(p, allow, e);
  }

  /******* New pointers *******/

  /** The receipt of an activation: everything the host reported that it keeps, and what it was activated from. */
  predicate ReceiptRecords(r: Receipt, id: GenerationId, g: Generation, hostConfig: string, index: HostEvidence) {
    && r.generationId == id && r.sourceRevision == g.sourceRevision && r.manifestChecksum == g.manifestChecksum
    && r.projectionChecksum == g.projectionChecksum && r.hostConfigChecksum == hostConfig
    && r.searchSentinel == index.searchSentinel && r.getSentinel == index.getSentinel
    && (r.fitness.Some? <==> g.composite && exists x | x in g.domains :: x.domainId == "fitness")
    && (r.fitness.Some? ==> index.domains.Some? && r.fitness.value in index.domains.value
                            && r.fitness.value.domainId == "fitness")
  }

  /** The pointer is of the requested generation, and the host has reported it, over what was active before. */
  ghost predicate ActivatedOn(d: Durable, q: Request, e: SyncReplies, previous: seq<DomainIndex>) {
    && q.generationId in d.generations
    && var g, id := d.generations[q.generationId], ReceiptIdFor(q.generationId);
       && d.pointer == Some(Pointer(q.generationId, g.sourceRevision, g.manifestChecksum, id))
       && e.apply.ok && e.targetAnswers && e.apply.leaves.Serving?
       && ReportsGeneration(e.apply.leaves.index, q.generationId, g, q.hostConfigChecksum)
       && ReportsDomains(e.apply.leaves.index, g, previous)
       && id in d.receipts
       && ReceiptRecords(d.receipts[id], q.generationId, g, q.hostConfigChecksum, e.apply.leaves.index)
  }

  /** Inside the barrier: the target has been pointed at, over the host's accepted report. */
  predicate MovedTo(d: Durable, t: Target, composite: bool, e: SyncReplies) {
    && d.pointer == Some(PointerFor(t))
    && e.apply.ok && e.targetAnswers && e.apply.leaves.Serving? && d.host == e.apply.leaves
    && HostEvidenceAccepted(e.apply.leaves.index, t)
    && ReceiptIdFor(t.syncGeneration) in d.receipts
    && d.receipts[ReceiptIdFor(t.syncGeneration)] == ReceiptFor(t, e.apply.leaves.index, composite)
    && (ReportsFitness(t, composite) ==> FitnessEvidence(t, e.apply.leaves.index).Some?)
    && EveryCheckPassed(composite, e)
  }

  /** The preflight, cutover and currency checks between the closed gate and the pointer. */
  predicate EveryCheckPassed(composite: bool, e: SyncReplies) {
    && e.drains && e.cutoverIndexed && e.cutoverAccepted
    && (composite ==> e.currentBeforeApply && e.currentAfterVerify && e.currentBeforePointer)
  }

  /** The gate is closed, and the journaled prior is stored. */
  predicate Gated(p: Process, j: Journal) {
    Stored(p.d) && (p.Alive() ==> p.d.gate.Some? && Backed(p.d.receipts, p.d.generations, j.priorPointer))
  }

  lemma HandlerOpensOnReports(p: Process, j: Journal, e: RecoveryReplies)
    requires Gated(p, j)
    ensures var after := HandleFailure(p, j, e).d;
            && Stored(after) && after.generations == p.d.generations
            && (p.Alive() && after.gate.None? ==> Confirmed(after, e))
            && after.pointer in {p.d.pointer, j.priorPointer}
            && (!p.Alive() ==> HandleFailure(p, j, e) == p)
  {
    hide Confirmed, Backed, ReceiptsMatchStore, ActiveTargetConfirmed;
    if p.Alive() { RollbackOpensOnReports(p, j, e); }
  }

  /** What a stage of the barrier leaves: the gate closed, or opened on the prior or on the target. */
  ghost predicate StageEnds(p: Process, j: Journal, t: Target, composite: bool, e: SyncReplies,
                            r: Process, outcome: SyncOutcome) {
    && Stored(r.d) && r.d.generations == p.d.generations
    && (p.Alive() && r.d.gate.None? ==> Confirmed(r.d, e.handler) || MovedTo(r.d, t, composite, e))
    && (r.d.pointer in {p.d.pointer, j.priorPointer} || MovedTo(r.d, t, composite, e))
    && (!p.Alive() ==> r.d == p.d && !r.Alive())
    && (outcome.Activated? && r.Alive() ==>
          MovedTo(r.d, t, composite, e) && r.d.gate.None? && r.d.journal.Some? && r.d.journal.value.phase == Completed)
  }

  lemma ActivationEnds(p: Process, j: Journal, t: Target, composite: bool, e: SyncReplies)
    requires Gated(p, j) && TargetStored(p.d, t)
    requires p.Alive() ==> p.d.host == e.apply.leaves
    requires e.apply.ok && HostConfirms(p.d.host, e.targetAnswers, t)
    requires e.drains && e.cutoverIndexed && e.cutoverAccepted
    requires composite ==> e.currentBeforeApply && e.currentAfterVerify
    ensures var (r, outcome) := ActivateTarget(p, j, t, composite, e); StageEnds(p, j, t, composite, e, r, outcome)
  {
    hide HandleFailure, HostEvidenceAccepted, Confirmed, ReceiptFor, FitnessEvidence, ReportsFitness, Backed,
         ReceiptsMatchStore;
    if !p.Alive() {
      DeadActivation(p, j, t, composite, e);
    } else {
      var verified := WriteJournal(p, JournalAt(j, HostVerified));
      HandlerOpensOnReports(verified, JournalAt(j, HostVerified), e.handler);
      if !(ReportsFitness(t, composite) && FitnessEvidence(t, p.d.host.index).None?) {
        StageReceipt(verified, j, t, p.d.host.index, composite);
        var j' := JournalAt(j, ReceiptWritten).(receiptId := Some(ReceiptIdFor(t.syncGeneration)));
        var receipted := ReceiptStage(verified, j', t, p.d.host.index, composite);
        HandlerOpensOnReports(receipted, j', e.handler);
        CommitEnds(receipted, j', t);
      }
    }
  }

  function ReceiptStage(p: Process, j: Journal, t: Target, index: HostEvidence, composite: bool): Process {
    WriteJournal(WriteReceipt(p, ReceiptIdFor(t.syncGeneration), ReceiptFor(t, index, composite)), j)
  }

  lemma StageReceipt(p: Process, j: Journal, t: Target, index: HostEvidence, composite: bool)
    requires Gated(p, j) && TargetStored(p.d, t)
    ensures var j' := JournalAt(j, ReceiptWritten).(receiptId := Some(ReceiptIdFor(t.syncGeneration)));
            var q := ReceiptStage(p, j', t, index, composite);
            && Gated(q, j')
            && q.d.generations == p.d.generations && q.d.pointer == p.d.pointer && q.d.host == p.d.host
            && q.d.gate == p.d.gate && (!p.Alive() ==> q == p)
            && (q.Alive() ==> ReceiptIdFor(t.syncGeneration) in q.d.receipts
                              && q.d.receipts[ReceiptIdFor(t.syncGeneration)] == ReceiptFor(t, index, composite))
            && ReceiptFor(t, index, composite).generationId == t.syncGeneration
  {}

  /** The last four effects: pointer, `pointer_written`, `completed`, gate. */
  lemma CommitEnds(p: Process, j: Journal, t: Target)
    requires Gated(p, j)
    requires p.Alive() ==> TargetStored(p.d, t) && ReceiptIdFor(t.syncGeneration) in p.d.receipts
                           && p.d.receipts[ReceiptIdFor(t.syncGeneration)].generationId == t.syncGeneration
    ensures var pointed := WriteJournal(WritePointer(p, Some(PointerFor(t))), JournalAt(j, PointerWritten));
            var q := OpenGate(WriteJournal(pointed, JournalAt(j, Completed)));
            && Stored(q.d)
            && q.d.generations == p.d.generations && q.d.receipts == p.d.receipts && q.d.host == p.d.host
            && (q.d.pointer == p.d.pointer || (p.Alive() && q.d.pointer == Some(PointerFor(t))))
            && (q.d.gate == p.d.gate || (q.d.gate.None? && q.d.pointer == Some(PointerFor(t)) && p.Alive()))
            && (q.Alive() ==> q.d == p.d.(pointer := Some(PointerFor(t)), gate := None,
                                          journal := Some(JournalAt(j, Completed))))
  {}

  lemma ApplyEnds(p: Process, j: Journal, t: Target, composite: bool, e: SyncReplies)
    requires Gated(p, j) && TargetStored(p.d, t) && e.drains && (composite ==> e.currentBeforeApply)
    ensures var (r, outcome) := ApplyAndActivate(p, j, t, composite, e); StageEnds(p, j, t, composite, e, r, outcome)
  {
    hide HandleFailure, HostEvidenceAccepted, Confirmed, ActivateTarget, Backed, ReceiptsMatchStore, MovedTo;
    var applying := HostCall(WriteJournal(p, JournalAt(j, HostApplying)), e.apply.leaves);
    HandlerOpensOnReports(applying, JournalAt(j, HostApplying), e.handler);
    var applied := WriteJournal(applying, JournalAt(j, HostApplied));
    HandlerOpensOnReports(applied, JournalAt(j, HostApplied), e.handler);
    if e.apply.ok && e.cutoverIndexed && HostConfirms(applied.d.host, e.targetAnswers, t)
       && (composite ==> e.currentAfterVerify) && e.cutoverAccepted {
      ActivationEnds(applied, j, t, composite, e);
    }
  }

  lemma BarrierEnds(p: Process, j: Journal, t: Target, composite: bool, e: SyncReplies)
    requires Gated(p, j) && TargetStored(p.d, t)
    ensures var (r, outcome) := RunBarrier(p, j, t, composite, e); StageEnds(p, j, t, composite, e, r, outcome)
  {
    hide HandleFailure, Confirmed, ApplyAndActivate, Backed, ReceiptsMatchStore, MovedTo;
    HandlerOpensOnReports(p, JournalAt(j, GateClosed), e.handler);
    var drained := WriteJournal(p, JournalAt(j, RunsDrained));
    HandlerOpensOnReports(drained, JournalAt(j, RunsDrained), e.handler);
    if e.drains && (composite ==> e.currentBeforeApply) { ApplyEnds(drained, j, t, composite, e); }
  }

  /** The domains of what is active. */
  function ServedDomains(d: Durable): seq<DomainIndex> {
    if d.pointer.Some? && d.pointer.value.generationId in d.generations
    then d.generations[d.pointer.value.generationId].domains else []
  }

  /** What the activation of a generation needs beside the host's report, preconditions and checks together. */
  predicate Admissible(q: Request, g: Generation, e: SyncReplies) {
    && e.builds && g.sourceRevision == q.built.sourceRevision && (g.composite ==> q.readerConfigured)
    && EveryCheckPassed(g.composite, e)
  }

  /** Activated on the host's report, with every check passed. */
  ghost predicate Activates(d: Durable, q: Request, e: SyncReplies, previous: seq<DomainIndex>) {
    ActivatedOn(d, q, e, previous) && Admissible(q, d.generations[q.generationId], e)
  }

  lemma MovedActivates(d: Durable, q: Request, e: SyncReplies, previous: seq<DomainIndex>)
    requires q.generationId in d.generations
    requires var g := d.generations[q.generationId];
             && e.builds && g.sourceRevision == q.built.sourceRevision && (g.composite ==> q.readerConfigured)
             && MovedTo(d, TargetOf(q, g, previous), g.composite, e)
    ensures Activates(d, q, e, previous)
  {
    var g, index := d.generations[q.generationId], e.apply.leaves.index;
    TargetAcceptedExactly(index, q, g, previous);
    assert ActivatedOn(d, q, e, previous) by {
      hide ReportsGeneration, ReportsDomains, HostEvidenceAccepted;
      assert FindDomain(g.domains, "fitness").Some? <==> exists x | x in g.domains :: x.domainId == "fitness";
    }
  }

  /** A planned target as the generation it was planned from. */
  function PlannedGeneration(t: Target, composite: bool): Generation {
    Generation(t.sourceRevision, t.manifestChecksum, t.projectionChecksum, composite, t.domainIndexes)
  }

  /** The barrier ends here when it returns: `t` is activated on what the host reported, and the gate is open. */
  ghost predicate TargetActivated(d: Durable, t: Target, composite: bool, e: SyncReplies) {
    var q := Request(t.syncGeneration, PlannedGeneration(t, composite), t.hostConfigChecksum, true);
    var stored := d.(generations := d.generations[t.syncGeneration := PlannedGeneration(t, composite)]);
    && ActivatedOn(stored, q, e, t.previousDomainIndexes) && EveryCheckPassed(composite, e)
    && d.host == e.apply.leaves && d.gate.None? && d.journal.Some? && d.journal.value.phase == Completed
  }

  lemma ReturningBarrierActivates(p: Process, j: Journal, t: Target, composite: bool, e: SyncReplies)
    requires t.expectedIndexEvidence.None? && t.expectedDomainEvidence == []
    requires var (r, outcome) := RunBarrier(p, j, t, composite, e); outcome.Activated? && r.Alive()
    ensures TargetActivated(RunBarrier(p, j, t, composite, e).0.d, t, composite, e)
  {
    hide HandleFailure, ActivatedOn, HostEvidenceAccepted, ReceiptFor, FitnessEvidence, ReportsFitness;
    var d, g := RunBarrier(p, j, t, composite, e).0.d, PlannedGeneration(t, composite);
    var q := Request(t.syncGeneration, g, t.hostConfigChecksum, true);
    assert MovedTo(d.(generations := d.generations[t.syncGeneration := g]), TargetOf(q, g, t.previousDomainIndexes),
                   composite, e.(builds := true));
    MovedActivates(d.(generations := d.generations[t.syncGeneration := g]), q, e.(builds := true),
                   t.previousDomainIndexes);
    assert ActivatedOn(d.(generations := d.generations[t.syncGeneration := g]), q, e, t.previousDomainIndexes) by {
      hide *;
      IgnoresBuild(d.(generations := d.generations[t.syncGeneration := g]), q, e, t.previousDomainIndexes);
    }
  }

  lemma IgnoresBuild(d: Durable, q: Request, e: SyncReplies, previous: seq<DomainIndex>)
    requires ActivatedOn(d, q, e.(builds := true), previous)
    ensures ActivatedOn(d, q, e, previous)
  {}

  /** A recovered, built sync reaches the barrier behind its gate, over stored receipts and pointers. */
  lemma GateCloses(s: Process, j: Journal)
    requires Stored(s.d) && Backed(s.d.receipts, s.d.generations, j.priorPointer)
    ensures var b := CloseForSync(s, j);
            && Gated(b, j) && SameActive(s.d, b.d)
            && b.d.generations == s.d.generations && (!b.Alive() && b.d.gate.None? ==> s.d.gate.None?)
  {
    hide ReceiptsMatchStore, Backed;
  }

  /** Where a sync can end: past a recovery that has answered for itself, and past the barrier. */
  lemma SyncEnds(p: Process, q: Request, e: SyncReplies)
    requires Stored(p.d)
    ensures var (after, outcome) := SyncGeneration(p, q, e);
            var (r, recovered) := RecoverInterrupted(p, true, e.recovery);
            && Stored(after.d)
            && (|| after.d.pointer == r.d.pointer
                || (recovered.Inherited? && after.d.pointer == recovered.journal.priorPointer)
                || Activates(after.d, q, e, ServedDomains(r.d)))
            && (after.d.gate.None? ==>
                  || Confirmed(after.d, e.handler)
                  || Activates(after.d, q, e, ServedDomains(r.d))
                  || (r.d.gate.None? && SameActive(r.d, after.d)))
            && (outcome.Activated? && after.Alive() ==>
                  && Activates(after.d, q, e, ServedDomains(r.d))
                  && after.d.gate.None? && after.d.journal.Some? && after.d.journal.value.phase == Completed)
  {
    hide Confirmed, RunBarrier, ReceiptsMatchStore, Backed, Activates, RecoverInterrupted, CloseForSync, MovedTo,
         NewJournal;
    RecoveryKeepsStored(p, true, e.recovery);
    var (r, recovered) := RecoverInterrupted(p, true, e.recovery);
    if !recovered.Blocked? && e.builds && Buildable(r.d, q) {
      var s := StoreGeneration(r, q.generationId, q.built);
      StoringKeepsStored(r, q.generationId, q.built);
      var barrier := AtBarrier(p, q, e);
      if barrier.Some? {
        var (b, plan) := barrier.value;
        PlanIsFor(s.d, q, recovered);
        GateCloses(s, plan.journal);
        BarrierEnds(b, plan.journal, plan.target, plan.composite, e);
        var after := SyncGeneration(p, q, e).0;
        if MovedTo(after.d, plan.target, plan.composite, e) { MovedActivates(after.d, q, e, ServedDomains(r.d)); }
      }
    }
  }

  lemma StoringKeepsStored(p: Process, id: GenerationId, g: Generation)
    requires Stored(p.d)
    ensures var s := StoreGeneration(p, id, g);
            Stored(s.d) && SameActive(p.d, s.d) && s.d.gate == p.d.gate && ServedDomains(s.d) == ServedDomains(p.d)
  {}

  lemma PlanIsFor(d: Durable, q: Request, recovered: RecoveryOutcome)
    requires q.generationId in d.generations && PriorGenerationReadable(d)
    ensures var plan, g := PlanFor(d, q, recovered), d.generations[q.generationId];
            && plan.target == TargetOf(q, g, ServedDomains(d)) && plan.composite == g.composite
            && PreviousDomains(d) == ServedDomains(d)
            && plan.journal.priorPointer == (if recovered.Inherited? then recovered.journal.priorPointer else d.pointer)
            && TargetStored(d, plan.target)
  {}

  /******* Main results *******/

  lemma CallKeepsStored(d: Durable, c: Call)
    requires Stored(d)
    ensures Stored(Perform(d, c))
  {
    hide Stored;
    match c.operation
    case Sync(q, e) => SyncEnds(Process(d, c.life), q, e);
    case Recover(e) => RecoveryKeepsStored(Process(d, c.life), false, e);
    case CloseGate(revision) => ClosingKeepsStored(Process(d, c.life), revision);
  }

  lemma ClosingKeepsStored(p: Process, revision: Option<string>)
    requires Stored(p.d)
    ensures Stored(CloseMaintenanceGate(p, revision).d)
  {}

  /** Over every run, the two windows included, receipts and pointers name what is stored. */
  lemma {:induction false} RunsKeepStored(d: Durable, calls: seq<Call>)
    requires Stored(d)
    ensures Stored(Run(d, calls))
    decreases |calls|
  {
    if calls != [] {
      CallKeepsStored(d, calls[0]);
      RunsKeepStored(Perform(d, calls[0]), calls[1..]);
    }
  }

  /**
   Over every run, each call leaves the pointer, returns it to the journaled prior, or moves it to a generation whose
   every domain the host has reported, in full and with nothing left of what it replaced.
   */
  lemma PointerMovesOnReports(start: Durable, calls: seq<Call>, c: Call)
    requires Initial(start)
    ensures var d := Run(start, calls);
            var after := Perform(d, c);
            || after.pointer == d.pointer
            || (d.journal.Some? && after.pointer == d.journal.value.priorPointer)
            || (c.operation.Sync? &&
                var e := c.operation.sync;
                var recovered := RecoverInterrupted(Process(d, c.life), true, e.recovery).0.d;
                Activates(after, c.operation.request, e, ServedDomains(recovered)))
  {
    hide Stored, Activates;
    assert Stored(start) by { InitialIsStored(start); }
    RunsKeepStored(start, calls);
    var d := Run(start, calls);
    match c.operation
    case Sync(q, e) =>
      RecoveryKeepsStored(Process(d, c.life), true, e.recovery);
      SyncEnds(Process(d, c.life), q, e);
    case Recover(e) => RecoveryKeepsStored(Process(d, c.life), false, e);
    case CloseGate(_) =>
  }

  lemma InitialIsStored(d: Durable)
    requires Initial(d)
    ensures Stored(d)
  {}

  /** A sync that returns has activated its target, on all of its checks and all of the host's report. */
  lemma ActivatedOnReports(d: Durable, q: Request, e: SyncReplies, life: nat)
    requires Stored(d)
    requires var (p, outcome) := SyncGeneration(Process(d, life), q, e); outcome.Activated? && p.Alive()
    ensures var after := SyncGeneration(Process(d, life), q, e).0.d;
            var recovered := RecoverInterrupted(Process(d, life), true, e.recovery).0.d;
            && Activates(after, q, e, ServedDomains(recovered))
            && after.gate.None? && after.journal.Some? && after.journal.value.phase == Completed
  {
    SyncEnds(Process(d, life), q, e);
  }

  /**
   Once an interrupted sync may have touched the host, a closed gate is opened only on a host that has reported
   the active generation, sentinels included, or the activated target.
   */
  lemma GateOpensOnReports(start: Durable, calls: seq<Call>, c: Call)
    requires Initial(start)
    requires var d := Run(start, calls);
             && d.gate.Some? && Perform(d, c).gate.None?
             && (d.journal.Some? ==> d.journal.value.phase !in {Prepared, GateClosed, RunsDrained, PriorRestored})
    ensures var d := Run(start, calls);
            var after := Perform(d, c);
            || (c.operation.Recover? && Confirmed(after, c.operation.recovery))
            || (c.operation.Sync? &&
                var e := c.operation.sync;
                var recovered := RecoverInterrupted(Process(d, c.life), true, e.recovery).0.d;
                || Confirmed(after, e.recovery) || Confirmed(after, e.handler)
                || Activates(after, c.operation.request, e, ServedDomains(recovered)))
  {
    hide Stored, Activates, Confirmed;
    assert Stored(start) by { InitialIsStored(start); }
    RunsKeepStored(start, calls);
    var d := Run(start, calls);
    match c.operation
    case Sync(q, e) =>
      SyncEnds(Process(d, c.life), q, e);
      var r := RecoverInterrupted(Process(d, c.life), true, e.recovery).0;
      if r.d.gate.None? {
        RecoveryOpensOnReports(Process(d, c.life), true, e.recovery);
        if SameActive(r.d, Perform(d, c)) { ConfirmedFrame(r.d, Perform(d, c), e.recovery); }
      }
    case Recover(e) => RecoveryOpensOnReports(Process(d, c.life), false, e);
    case CloseGate(_) => ClosingStaysClosed(Process(d, c.life), c.operation.revision);
  }

  lemma ConfirmedFrame(before: Durable, after: Durable, e: RecoveryReplies)
    requires Confirmed(before, e) && SameActive(before, after)
    ensures Confirmed(after, e)
  {
    ReportsActiveFrame(before, after, e.hostConfigChecksum);
  }

  lemma ClosingStaysClosed(p: Process, revision: Option<string>)
    requires p.d.gate.Some?
    ensures CloseMaintenanceGate(p, revision).d.gate.Some?
  {}
}
