/**
 What each call of the activation barrier decides when nothing disturbs it, on the journal, the gate and the replies.
 */
module SyncDecisions {
  import opened Options
  import opened SyncProtocol
  import opened SyncSafety
  import opened SyncEvidence

  /** The pointer is already the journaled target's. */
  predicate PointedAt(d: Durable, j: Journal) {
    && d.pointer.Some? && d.pointer.value.generationId == j.syncGeneration
    && j.receiptId.Some? && d.pointer.value.receiptId == j.receiptId.value
  }

  /** Where the journal stood decides which way a recovery goes: on to the target, back to the prior, or nowhere. */
  ghost predicate Recovered(d: Durable, j: Journal, allow: bool, e: RecoveryReplies, after: Durable,
                            outcome: RecoveryOutcome) {
    var failed := Some(j.(phase := RecoveryFailed));
    match j.phase
    case Prepared | GateClosed | RunsDrained =>
      outcome == Clean && after == d.(journal := Some(j.(phase := PriorRestored)), gate := None)
    case PriorRestored => outcome == Clean && after == d.(gate := None)
    case Completed =>
      if d.gate.None? || d.gate.value.drift then outcome == Clean && after == d
      else if Confirmed(d, e) then outcome == Clean && after == d.(gate := None)
      else outcome == Blocked && after == d.(journal := failed)
    case _ =>
      if (j.phase == ReceiptWritten || j.phase == PointerWritten) && PointedAt(d, j) then
        if Confirmed(d, e) then
          outcome == Clean && after == d.(journal := Some(j.(phase := Phase.Completed)), gate := None)
        else outcome == Blocked && after == d
      else if j.priorRestoreForbidden then
        if allow then outcome == Inherited(j) && after == d else outcome == Blocked && after == d.(journal := failed)
      else if j.priorPointer.None? then outcome == Blocked && after == d.(journal := failed)
      else if !e.restore.ok then outcome == Blocked && after == d.(host := e.restore.leaves, journal := failed)
      else
        var restored := d.(host := e.restore.leaves, pointer := j.priorPointer);
        if Confirmed(restored, e) then
          outcome == Clean && after == restored.(journal := Some(j.(phase := PriorRestored)), gate := None)
        else outcome == Blocked && after == restored.(journal := failed)
  }

  /** An undisturbed recovery, of any journal over any disk. */
  lemma RecoversExactly(d: Durable, allow: bool, e: RecoveryReplies, life: nat)
    requires Stored(d) && life >= 4
    ensures var (r, outcome) := RecoverInterrupted(Process(d, life), allow, e);
            if d.journal.None? then outcome == Clean && r.d == d
            else Recovered(d, d.journal.value, allow, e, r.d, outcome)
  {
    hide ReportsActive, ActiveTarget, HostConfirms, ReceiptsMatchStore, Backed;
    if d.journal.Some? {
      ActiveConfirmedExactly(d, e);
      var restored := d.(host := e.restore.leaves, pointer := d.journal.value.priorPointer);
      ActiveConfirmedExactly(restored, e);
    }
  }

  /******* Failure *******/

  /** What the handler leaves: a forbidden prior is parked once the host may have been touched, any other comes back. */
  ghost predicate Undone(d: Durable, j: Journal, e: RecoveryReplies, after: Durable) {
    var failed := Some(j.(phase := RecoveryFailed));
    if j.priorPointer.None? || (j.priorRestoreForbidden && j.phase !in {GateClosed, RunsDrained}) then
      after == d.(journal := failed)
    else if !e.restore.ok then after == d.(journal := failed, host := e.restore.leaves)
    else
      var restored := d.(host := e.restore.leaves, pointer := j.priorPointer);
      after == if Confirmed(restored, e) then restored.(journal := Some(j.(phase := PriorRestored)), gate := None)
               else restored.(journal := failed)
  }

  lemma HandlesExactly(p: Process, j: Journal, e: RecoveryReplies)
    requires p.life >= 4 && Backed(p.d.receipts, p.d.generations, j.priorPointer)
    requires j.phase in {GateClosed, RunsDrained, HostApplying, HostApplied, HostVerified, ReceiptWritten}
    ensures Undone(p.d, j, e, HandleFailure(p, j, e).d)
  {
    hide ReportsActive, ActiveTarget, HostConfirms, ReceiptsMatchStore, Backed;
    ActiveConfirmedExactly(p.d.(host := e.restore.leaves, pointer := j.priorPointer), e);
  }

  /** Where an attempt that began on `d` had got to when it failed, and on what disk. */
  predicate FailedAt(d: Durable, j: Journal, composite: bool, e: SyncReplies, before: Durable, at: Journal) {
    && at == j.(phase := at.phase, receiptId := at.receiptId)
    && at.phase in {GateClosed, RunsDrained, HostApplying, HostApplied, HostVerified, ReceiptWritten}
    && (at.phase == GateClosed <==> !e.drains)
    && (at.phase == RunsDrained <==> e.drains && composite && !e.currentBeforeApply)
    && (at.phase == HostApplying <==> e.drains && (composite ==> e.currentBeforeApply) && !e.apply.ok)
    && before == d.(host := if at.phase in {GateClosed, RunsDrained} then d.host else e.apply.leaves,
                    journal := before.journal, receipts := before.receipts)
    && (at.phase == ReceiptWritten ==> composite && !e.currentBeforePointer)
    && (at.phase != ReceiptWritten ==> before.receipts == d.receipts)
  }

  lemma ActivationFails(p: Process, j: Journal, t: Target, composite: bool, e: SyncReplies)
    returns (before: Durable, at: Journal)
    requires p.life >= 8 && Gated(p, j) && TargetStored(p.d, t) && p.d.host.Serving? && p.d.host == e.apply.leaves
    requires ActivateTarget(p, j, t, composite, e).1.Raised?
    ensures at.phase in {HostVerified, ReceiptWritten} && at == j.(phase := at.phase, receiptId := at.receiptId)
    ensures before == p.d.(journal := before.journal, receipts := before.receipts)
    ensures at.phase == ReceiptWritten ==> composite && !e.currentBeforePointer
    ensures at.phase == HostVerified ==> before.receipts == p.d.receipts
    ensures Undone(before, at, e.handler, ActivateTarget(p, j, t, composite, e).0.d)
  {
    hide HandleFailure, HostEvidenceAccepted, ReceiptFor, FitnessEvidence, ReportsFitness, Undone, Backed,
         ReceiptsMatchStore;
    var verified := WriteJournal(p, JournalAt(j, HostVerified));
    if ReportsFitness(t, composite) && FitnessEvidence(t, p.d.host.index).None? {
      before, at := verified.d, JournalAt(j, HostVerified);
      HandlesExactly(verified, at, e.handler);
    } else {
      StageReceipt(verified, j, t, p.d.host.index, composite);
      at := JournalAt(j, ReceiptWritten).(receiptId := Some(ReceiptIdFor(t.syncGeneration)));
      var receipted := ReceiptStage(verified, at, t, p.d.host.index, composite);
      before := receipted.d;
      HandlesExactly(receipted, at, e.handler);
    }
  }

  lemma AppliedIsGated(p: Process, j: Journal, t: Target, leaves: Host)
    requires p.life >= 12 && Gated(p, j) && TargetStored(p.d, t)
    ensures var applying := HostCall(WriteJournal(WriteJournal(p, JournalAt(j, RunsDrained)),
                                                  JournalAt(j, HostApplying)), leaves);
            var applied := WriteJournal(applying, JournalAt(j, HostApplied));
            Gated(applied, j) && TargetStored(applied.d, t)
  {}

  /** An undisturbed attempt that fails leaves what its handler makes of where it had got to. */
  lemma FailsExactly(p: Process, j: Journal, t: Target, composite: bool, e: SyncReplies)
    returns (before: Durable, at: Journal)
    requires p.life >= 12 && Gated(p, j) && TargetStored(p.d, t)
    requires RunBarrier(p, j, t, composite, e).1.Raised?
    ensures FailedAt(p.d, j, composite, e, before, at)
    ensures Undone(before, at, e.handler, RunBarrier(p, j, t, composite, e).0.d)
  {
    hide HandleFailure, HostEvidenceAccepted, ActivateTarget, Undone, Backed, ReceiptsMatchStore, PointersBacked,
         TargetStored;
    var drained := WriteJournal(p, JournalAt(j, RunsDrained));
    var applying := HostCall(WriteJournal(drained, JournalAt(j, HostApplying)), e.apply.leaves);
    var applied := WriteJournal(applying, JournalAt(j, HostApplied));
    if !e.drains {
      before, at := p.d, JournalAt(j, GateClosed);
      HandlesExactly(p, at, e.handler);
    } else if composite && !e.currentBeforeApply {
      before, at := drained.d, JournalAt(j, RunsDrained);
      HandlesExactly(drained, at, e.handler);
    } else if !e.apply.ok {
      before, at := applying.d, JournalAt(j, HostApplying);
      HandlesExactly(applying, at, e.handler);
    } else if !e.cutoverIndexed || !HostConfirms(applied.d.host, e.targetAnswers, t)
              || (composite && !e.currentAfterVerify) || !e.cutoverAccepted {
      before, at := applied.d, JournalAt(j, HostApplied);
      HandlesExactly(applied, at, e.handler);
    } else {
      AppliedIsGated(p, j, t, e.apply.leaves);
      before, at := ActivationFails(applied, j, t, composite, e);
    }
  }

  /******* Success *******/

  lemma BarrierActivates(p: Process, j: Journal, t: Target, composite: bool, e: SyncReplies)
    requires p.life >= 4
    ensures RunBarrier(p, j, t, composite, e).1.Activated? <==>
            && EveryCheckPassed(composite, e) && e.apply.ok && e.targetAnswers && e.apply.leaves.Serving?
            && HostEvidenceAccepted(e.apply.leaves.index, t)
            && (ReportsFitness(t, composite) ==> FitnessEvidence(t, e.apply.leaves.index).Some?)
  {
    hide HandleFailure, HostEvidenceAccepted, FitnessEvidence, ReportsFitness, ReceiptFor;
  }

  /** Fitness is reported wherever it is a domain that is reported. */
  lemma FitnessIsReported(index: HostEvidence, q: Request, g: Generation, previous: seq<DomainIndex>)
    requires ReportsDomains(index, g, previous)
    ensures ReportsFitness(TargetOf(q, g, previous), g.composite) ==>
              FitnessEvidence(TargetOf(q, g, previous), index).Some?
  {
    hide FirstRevision;
    var found := FindDomain(g.domains, "fitness");
    if found.Some? {
      var replaced :| FirstRevision(previous, found.value.domainId, replaced)
                      && FirstReports(index.domains.value, found.value, replaced);
    }
  }

  /** What a sync needs to go through, in the fields of its request and replies. */
  ghost predicate GoesThrough(d: Durable, recovered: RecoveryOutcome, q: Request, e: SyncReplies) {
    var g := if q.generationId in d.generations then d.generations[q.generationId] else q.built;
    && recovered != Blocked && (recovered.Clean? ==> e.captures) && Admissible(q, g, e)
    && e.apply.ok && e.targetAnswers && e.apply.leaves.Serving?
    && ReportsGeneration(e.apply.leaves.index, q.generationId, g, q.hostConfigChecksum)
    && ReportsDomains(e.apply.leaves.index, g, ServedDomains(d))
  }

  /** An undisturbed sync activates exactly when its recovery, its checks and the host's report allow it. */
  lemma ActivatesExactly(d: Durable, q: Request, e: SyncReplies, life: nat)
    requires Stored(d) && life >= 20
    ensures var (r, recovered) := RecoverInterrupted(Process(d, life), true, e.recovery);
            SyncGeneration(Process(d, life), q, e).1.Activated? <==> GoesThrough(r.d, recovered, q, e)
  {
    hide RunBarrier, RecoverInterrupted, Backed, ReceiptsMatchStore, HostEvidenceAccepted, ReportsGeneration,
         ReportsDomains, FitnessEvidence, ReportsFitness, NewJournal, CloseForSync;
    var p := Process(d, life);
    var (r, recovered) := RecoverInterrupted(p, true, e.recovery);
    RecoveryKeepsStored(p, true, e.recovery);
    RecoveryIsShort(p, e.recovery);
    if !recovered.Blocked? && e.builds && Buildable(r.d, q) {
      var s := StoreGeneration(r, q.generationId, q.built);
      StoringKeepsStored(r, q.generationId, q.built);
      assert PriorGenerationReadable(s.d) by { StoredIsReadable(s.d); }
      var g := s.d.generations[q.generationId];
      var barrier := AtBarrier(p, q, e);
      if barrier.Some? {
        var (b, plan) := barrier.value;
        PlanIsFor(s.d, q, recovered);
        ClosingIsShort(s, plan.journal);
        BarrierActivates(b, plan.journal, plan.target, plan.composite, e);
        if e.apply.leaves.Serving? {
          TargetAcceptedExactly(e.apply.leaves.index, q, g, ServedDomains(s.d));
          if ReportsDomains(e.apply.leaves.index, g, ServedDomains(s.d)) {
            FitnessIsReported(e.apply.leaves.index, q, g, ServedDomains(s.d));
          }
        }
      }
    }
  }

  lemma RecoveryIsShort(p: Process, e: RecoveryReplies)
    requires p.life >= 4
    ensures RecoverInterrupted(p, true, e).0.life >= p.life - 4
  {
    hide ActiveTargetConfirmed;
  }

  lemma StoredIsReadable(d: Durable)
    requires Stored(d)
    ensures PriorGenerationReadable(d)
  {}

  lemma ClosingIsShort(s: Process, j: Journal)
    requires s.life >= 3
    ensures CloseForSync(s, j).life == s.life - 3
  {}

  /** A gate closed for maintenance names the revision given or the active one, and stays closed over startups. */
  lemma MaintenanceStaysClosed(d: Durable, revision: Option<string>, e: RecoveryReplies, life: nat)
    requires Stored(d) && life >= 4 && (revision.Some? || d.pointer.Some?)
    requires d.journal.None? || d.journal.value.phase == Completed
    ensures var after := Perform(d, Call(CloseGate(revision), life));
            && after.gate.Some?
            && after.gate.value.targetSourceRevision
               == (if revision.Some? then revision.value else d.pointer.value.sourceRevision)
            && after == d.(gate := after.gate)
            && Perform(after, Call(Recover(e), life)) == after
  {}
}
