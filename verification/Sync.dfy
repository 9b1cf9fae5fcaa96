/**
 The activation barrier as `src/sync/index.ts` runs it: files overwritten in place, a journal variable
 stepped through its phases, and one handler for whatever the `try` block throws.  Every method is proved
 equal to its specification in `SyncProtocol`, for every point at which the process may die.
 */
module Sync {
  import opened Options
  import opened SyncProtocol
  import Spec = SyncProtocol
  import opened SyncEvidence
  import opened SyncSafety

  /** An activation overwrites the phase it is entered with. */
  lemma SameActivation(p: Process, a: Journal, b: Journal, t: Target, composite: bool, e: SyncReplies)
    requires p.d.host.Serving? && JournalAt(a, Prepared) == JournalAt(b, Prepared)
    ensures Spec.ActivateTarget(p, a, t, composite, e) == Spec.ActivateTarget(p, b, t, composite, e)
  {
    hide Spec.HandleFailure, FitnessEvidence, ReceiptFor, ReportsFitness;
    assert forall phase :: JournalAt(a, phase) == JournalAt(JournalAt(a, Prepared), phase);
    assert forall phase :: JournalAt(b, phase) == JournalAt(JournalAt(b, Prepared), phase);
  }

  class SyncRuntime {
    var journalFile: Option<Journal>
    var gateFile: Option<Gate>
    var pointerFile: Option<Pointer>
    var receiptFiles: map<ReceiptId, Receipt>
    var generationStore: map<GenerationId, Generation>
    var host: Host
    /** Effects this process still performs before it dies. */
    var life: nat

    function Disk(): Durable
      reads this
    {
      Durable(journalFile, gateFile, pointerFile, receiptFiles, generationStore, host)
    }

    function State(): Process
      reads this
    {
      Process(Disk(), life)
    }

    constructor (d: Durable, life: nat)
      ensures State() == Process(d, life)
    {
      journalFile, gateFile, pointerFile := d.journal, d.gate, d.pointer;
      receiptFiles, generationStore, host := d.receipts, d.generations, d.host;
      this.life := life;
    }

    method WriteJournal(journal: Journal)
      modifies this`journalFile, this`life
      ensures State() == Spec.WriteJournal(old(State()), journal)
    {
      if life > 0 { journalFile, life := Some(journal), life - 1; }
    }

    method WriteGate(gate: Gate)
      modifies this`gateFile, this`life
      ensures State() == Spec.WriteGate(old(State()), gate)
    {
      if life > 0 { gateFile, life := Some(gate), life - 1; }
    }

    method OpenGate()
      modifies this`gateFile, this`life
      ensures State() == Spec.OpenGate(old(State()))
    {
      if life > 0 { gateFile, life := None, life - 1; }
    }

    method WritePointer(pointer: Option<Pointer>)
      modifies this`pointerFile, this`life
      ensures State() == Spec.WritePointer(old(State()), pointer)
    {
      if life > 0 { pointerFile, life := pointer, life - 1; }
    }

    method WriteReceipt(id: ReceiptId, receipt: Receipt)
      modifies this`receiptFiles, this`life
      ensures State() == Spec.WriteReceipt(old(State()), id, receipt)
    {
      if life > 0 { receiptFiles, life := receiptFiles[id := receipt], life - 1; }
    }

    method StoreGeneration(id: GenerationId, generation: Generation)
      modifies this`generationStore, this`life
      ensures State() == Spec.StoreGeneration(old(State()), id, generation)
    {
      if id !in generationStore && life > 0 {
        generationStore, life := generationStore[id := generation], life - 1;
      }
    }

    method CallHost(leaves: Host)
      modifies this`host, this`life
      ensures State() == Spec.HostCall(old(State()), leaves)
    {
      if life > 0 { host, life := leaves, life - 1; }
    }

    method RecoverPrior(interrupted: Journal, e: RecoveryReplies) returns (restored: bool)
      modifies this
      ensures (State(), restored) == Spec.RecoverPrior(old(State()), interrupted, e)
      ensures old(Inv(Disk()) && gateFile.Some? && journalFile.Some? && DestructivePhase(journalFile.value.phase)
                  && journalFile.value.priorPointer == interrupted.priorPointer) ==>
                Inv(Disk()) && (restored && life > 0 ==> Settled(Disk()))
    {
      hide Inv, Settled, ActiveTargetConfirmed;
      if Inv(Disk()) && gateFile.Some? && journalFile.Some? && DestructivePhase(journalFile.value.phase)
         && journalFile.value.priorPointer == interrupted.priorPointer {
        RecoverPriorKeepsInv(State(), interrupted, e);
      }
      if interrupted.priorPointer.None? { return false; }
      CallHost(e.restore.leaves);
      if !e.restore.ok { return false; }
      WritePointer(interrupted.priorPointer);
      if !ActiveTargetConfirmed(Disk(), e) { return false; }
      WriteJournal(JournalAt(interrupted, PriorRestored));
      OpenGate();
      return true;
    }

    /** `recoverInterruptedSyncLocked`.  Started on a safe disk it leaves a safe one, wherever it dies. */
    method RecoverInterrupted(allowDestructiveReplacement: bool, e: RecoveryReplies) returns (outcome: RecoveryOutcome)
      modifies this
      ensures (State(), outcome) == Spec.RecoverInterrupted(old(State()), allowDestructiveReplacement, e)
      ensures old(Inv(Disk())) ==> Inv(Disk()) && GateSafe(Disk())
    {
      if Inv(Disk()) { RecoveryKeepsInv(State(), allowDestructiveReplacement, e); }
      if journalFile.None? { return Clean; }
      var interrupted := journalFile.value;
      if interrupted.phase in {Prepared, GateClosed, RunsDrained} {
        WriteJournal(JournalAt(interrupted, PriorRestored));
        OpenGate();
        return Clean;
      }
      if interrupted.phase == PriorRestored {
        OpenGate();
        return Clean;
      }
      if gateFile.None? && interrupted.phase == Completed { return Clean; }
      if interrupted.phase == Completed && gateFile.value.drift { return Clean; }
      if interrupted.phase in {ReceiptWritten, PointerWritten} && PointerIsJournalTarget(Disk(), interrupted) {
        if !ActiveTargetConfirmed(Disk(), e) { return Blocked; }
        WriteJournal(JournalAt(interrupted, Completed));
        OpenGate();
        return Clean;
      }
      if interrupted.priorRestoreForbidden && DestructivePhase(interrupted.phase) {
        if allowDestructiveReplacement { return Inherited(interrupted); }
        WriteJournal(JournalAt(interrupted, RecoveryFailed));
        return Blocked;
      }
      var recovered;
      if interrupted.phase == Completed {
        recovered := ActiveTargetConfirmed(Disk(), e);
        if recovered { OpenGate(); }
      } else {
        recovered := RecoverPrior(interrupted, e);
      }
      if recovered { return Clean; }
      WriteJournal(JournalAt(interrupted, RecoveryFailed));
      return Blocked;
    }

    method HandleFailure(journal: Journal, e: RecoveryReplies)
      modifies this
      ensures State() == Spec.HandleFailure(old(State()), journal, e)
      ensures old(BehindGate(State(), journal)) ==> Inv(Disk()) && GateSafe(Disk())
      ensures journal.priorRestoreForbidden && DestructivePhase(journal.phase) ==>
                host == old(host) && pointerFile == old(pointerFile)
    {
      hide Inv, Spec.RecoverPrior;
      if BehindGate(State(), journal) { LateHandlerKeepsInv(State(), journal, e); }
      ghost var after := Spec.HandleFailure(State(), journal, e).d;
      if Inv(after) { InvIsGateSafe(after); }
      if journal.priorRestoreForbidden && DestructivePhase(journal.phase) {
        WriteJournal(JournalAt(journal, RecoveryFailed));
        return;
      }
      var restored := RecoverPrior(journal, e);
      if !restored { WriteJournal(JournalAt(journal, RecoveryFailed)); }
    }

    /** The rest of the `try` block once the host is verified to serve the target. */
    method CommitTarget(applied: Journal, t: Target, composite: bool, e: SyncReplies)
      returns (journal: Journal, threw: bool)
      requires host.Serving?
      modifies this
      ensures var handled := if threw then Spec.HandleFailure(State(), journal, e.handler) else State();
              (handled, if threw then Raised else Activated)
                == Spec.ActivateTarget(old(State()), applied, t, composite, e)
    {
      hide Spec.HandleFailure, FitnessEvidence, ReceiptFor, ReportsFitness;
      var evidence := host.index;
      journal := JournalAt(applied, HostVerified);
      WriteJournal(journal);
      if ReportsFitness(t, composite) && FitnessEvidence(t, evidence).None? { return journal, true; }
      var receiptId := ReceiptIdFor(t.syncGeneration);
      WriteReceipt(receiptId, ReceiptFor(t, evidence, composite));
      journal := JournalAt(journal, ReceiptWritten).(receiptId := Some(receiptId));
      WriteJournal(journal);
      if composite && !e.currentBeforePointer { return journal, true; }
      WritePointer(Some(PointerFor(t)));
      journal := JournalAt(journal, PointerWritten);
      WriteJournal(journal);
      journal := JournalAt(journal, Completed);
      WriteJournal(journal);
      OpenGate();
      return journal, false;
    }

    /** The `try` block, from `gate_closed` on.  `threw` hands the journal variable to the handler. */
    method TryActivate(closed: Journal, t: Target, composite: bool, e: SyncReplies)
      returns (journal: Journal, threw: bool)
      requires closed.phase == GateClosed
      modifies this
      ensures var handled := if threw then Spec.HandleFailure(State(), journal, e.handler) else State();
              (handled, if threw then Raised else Activated)
              == Spec.RunBarrier(old(State()), JournalAt(closed, Prepared), t, composite, e)
      ensures !threw && life > 0 && t.expectedIndexEvidence.None? && t.expectedDomainEvidence == [] ==>
                TargetActivated(Disk(), t, composite, e)
    {
      hide Spec.HandleFailure, Spec.ActivateTarget, HostEvidenceAccepted, TargetActivated;
      ghost var (ended, outcome) := Spec.RunBarrier(State(), JournalAt(closed, Prepared), t, composite, e);
      if outcome.Activated? && ended.Alive() && t.expectedIndexEvidence.None? && t.expectedDomainEvidence == [] {
        ReturningBarrierActivates(State(), JournalAt(closed, Prepared), t, composite, e);
      }
      journal := closed;
      if !e.drains { return journal, true; }
      journal := JournalAt(journal, RunsDrained);
      WriteJournal(journal);
      if composite && !e.currentBeforeApply { return journal, true; }

      journal := JournalAt(journal, HostApplying);
      WriteJournal(journal);
      CallHost(e.apply.leaves);
      if !e.apply.ok { return journal, true; }
      journal := JournalAt(journal, HostApplied);
      WriteJournal(journal);
      if !e.cutoverIndexed || !HostConfirms(host, e.targetAnswers, t) { return journal, true; }
      if (composite && !e.currentAfterVerify) || !e.cutoverAccepted { return journal, true; }
      SameActivation(State(), journal, JournalAt(closed, Prepared), t, composite, e);
      journal, threw := CommitTarget(journal, t, composite, e);
    }

    /** `syncGenerationLocked`. */
    method SyncGeneration(q: Request, e: SyncReplies) returns (outcome: SyncOutcome)
      modifies this
      ensures (State(), outcome) == Spec.SyncGeneration(old(State()), q, e)
      ensures old(Inv(Disk()) && !Hazard(Disk(), Call(Operation.Sync(q, e), life))) ==> Inv(Disk()) && GateSafe(Disk())
    {
      hide Hazard, PointersBacked, ReceiptsMatchStore, SettledOn, Spec.RunBarrier, Spec.HandleFailure,
           Spec.RecoverInterrupted, ReplacementForbidsPriorRestore, TargetOf;
      if Inv(Disk()) && !Hazard(Disk(), Call(Operation.Sync(q, e), life)) { SyncKeepsInv(Disk(), q, e, life); }
      var recovered := RecoverInterrupted(true, e.recovery);
      if recovered.Blocked? || !e.builds || !Buildable(Disk(), q) { return Raised; }
      StoreGeneration(q.generationId, q.built);
      if q.generationId !in generationStore { return Raised; }
      var generation := generationStore[q.generationId];
      if (generation.composite && !q.readerConfigured) || !PriorGenerationReadable(Disk()) { return Raised; }
      var target := TargetOf(q, generation, PreviousDomains(Disk()));
      if recovered.Clean? && !e.captures { return Raised; }
      var prior := if recovered.Inherited? then recovered.journal.prior else host;
      var priorPointer := if recovered.Inherited? then recovered.journal.priorPointer else pointerFile;
      var journal := NewJournal(target, prior, priorPointer);
      WriteJournal(journal);
      WriteGate(Gate(journal.targetSourceRevision, false));
      journal := JournalAt(journal, GateClosed);
      WriteJournal(journal);
      var threw;
      journal, threw := TryActivate(journal, target, generation.composite, e);
      if threw {
        HandleFailure(journal, e.handler);
        return Raised;
      }
      return Activated;
    }

    method CloseMaintenanceGate(revision: Option<string>)
      modifies this`gateFile, this`life
      ensures State() == Spec.CloseMaintenanceGate(old(State()), revision)
      ensures old(Inv(Disk())) ==> Inv(Disk()) && GateSafe(Disk())
    {
      hide ReceiptsMatchStore, Backed, SettledOn;
      if revision.Some? {
        WriteGate(Gate(revision.value, true));
      } else if pointerFile.Some? {
        WriteGate(Gate(pointerFile.value.sourceRevision, true));
      }
    }
  }
}
