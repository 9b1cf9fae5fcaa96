/** What every run of the activation barrier keeps, and the two windows in which it keeps less. */
module SyncSafety {
  import opened Options
  import opened SyncProtocol

  /******* Invariant *******/

  /** The host serves exactly the generation, revision and projection of the active pointer. */
  predicate Serves(generations: map<GenerationId, Generation>, host: Host, pointer: Pointer) {
    && pointer.generationId in generations
    && host.Serving?
    && host.index.deepPass
    && host.index.generationId == pointer.generationId
    && host.index.sourceRevision == pointer.sourceRevision
    && host.index.projectionChecksum == generations[pointer.generationId].projectionChecksum
  }

  predicate SettledOn(generations: map<GenerationId, Generation>, host: Host, pointer: Option<Pointer>) {
    pointer.Some? ==> Serves(generations, host, pointer.value)
  }

  predicate Settled(d: Durable) { SettledOn(d.generations, d.host, d.pointer) }

  predicate GateSafe(d: Durable) { d.gate.None? ==> Settled(d) }

  /** A pointer, if any, names a stored generation and a stored activation receipt for it. */
  predicate Backed(receipts: map<ReceiptId, Receipt>, generations: map<GenerationId, Generation>,
                   pointer: Option<Pointer>) {
    pointer.Some? ==>
      var p := pointer.value;
      && p.generationId in generations
      && p.sourceRevision == generations[p.generationId].sourceRevision
      && p.manifestChecksum == generations[p.generationId].manifestChecksum
      && p.receiptId in receipts
      && receipts[p.receiptId].generationId == p.generationId
      && receipts[p.receiptId].sourceRevision == p.sourceRevision
      && receipts[p.receiptId].manifestChecksum == p.manifestChecksum
  }

  predicate ReceiptsMatchStore(receipts: map<ReceiptId, Receipt>, generations: map<GenerationId, Generation>) {
    forall id | id in receipts ::
      && id == ReceiptIdFor(receipts[id].generationId)
      && receipts[id].generationId in generations
      && receipts[id].sourceRevision == generations[receipts[id].generationId].sourceRevision
      && receipts[id].manifestChecksum == generations[receipts[id].generationId].manifestChecksum
  }

  predicate PointersBacked(d: Durable) {
    && Backed(d.receipts, d.generations, d.pointer)
    && (d.journal.Some? ==> Backed(d.receipts, d.generations, d.journal.value.priorPointer))
  }

  /** While the host may be anything the gate is closed; in every other phase the host is settled. */
  predicate JournalGuardsHost(d: Durable) {
    if d.journal.Some? && DestructivePhase(d.journal.value.phase) then d.gate.Some? else Settled(d)
  }

  predicate Inv(d: Durable) {
    ReceiptsMatchStore(d.receipts, d.generations) && PointersBacked(d) && JournalGuardsHost(d)
  }

  lemma InvIsGateSafe(d: Durable)
    requires Inv(d)
    ensures GateSafe(d)
  {}

  predicate Initial(d: Durable) {
    d.journal.None? && d.pointer.None? && d.receipts == map[]
  }

  /******* The two windows *******/

  /** The next sync takes over an interrupted destructive replacement instead of recovering it. */
  predicate InheritsReplacement(d: Durable) {
    && d.journal.Some?
    && d.journal.value.priorRestoreForbidden
    && DestructivePhase(d.journal.value.phase)
    && !AwaitsTargetConfirmation(d, d.journal.value)
  }

  predicate PreflightPasses(composite: bool, e: SyncReplies) { e.drains && (composite ==> e.currentBeforeApply) }

  /** The process as it enters the barrier: recovered, built and gated. */
  function AtBarrier(p: Process, q: Request, e: SyncReplies): Option<(Process, Plan)> {
    var (r, outcome) := RecoverInterrupted(p, true, e.recovery);
    if outcome.Blocked? || !e.builds || !Buildable(r.d, q) then None
    else
      var s := StoreGeneration(r, q.generationId, q.built);
      if q.generationId !in s.d.generations || (s.d.generations[q.generationId].composite && !q.readerConfigured)
         || !PriorGenerationReadable(s.d) || (outcome.Clean? && !e.captures) then None
      else
        var plan := PlanFor(s.d, q, outcome);
        Some((CloseForSync(s, plan.journal), plan))
  }

  /** What `RecoverPrior` leaves when the process dies after `host.restore` and before journaling the outcome. */
  function DeadInRollback(p: Process, j: Journal, e: RecoveryReplies): Option<Durable> {
    if j.priorPointer.None? then None
    else if p.life == 1 then Some(p.d.(host := e.restore.leaves))
    else if p.life == 2 && e.restore.ok then Some(p.d.(host := e.restore.leaves, pointer := j.priorPointer))
    else None
  }

  /**
   The failure handler ran before the host was touched, called `host.restore`, and the process died
   before journaling it, so the journal still says `gate_closed` or `runs_drained` over an unsettled host.
   */
  predicate UnverifiedRollback(d: Durable, c: Call) {
    c.operation.Sync? &&
    var e := c.operation.sync;
    var barrier := AtBarrier(Process(d, c.life), c.operation.request, e);
    barrier.Some? &&
    var (p, plan) := barrier.value;
    && !PreflightPasses(plan.composite, e)
    && var q := if e.drains then WriteJournal(p, JournalAt(plan.journal, RunsDrained)) else p;
       var dead := DeadInRollback(q, plan.journal, e.handler);
       dead.Some? && !Settled(dead.value)
  }

  predicate Hazard(d: Durable, c: Call) {
    (c.operation.Sync? && InheritsReplacement(d) && !Settled(d)) || UnverifiedRollback(d, c)
  }

  predicate HazardFree(d: Durable, calls: seq<Call>)
    decreases |calls|
  {
    calls == [] || (!Hazard(d, calls[0]) && HazardFree(Perform(d, calls[0]), calls[1..]))
  }

  /******* Preservation *******/

  lemma ConfirmationSettles(d: Durable, e: RecoveryReplies)
    requires ActiveTargetConfirmed(d, e)
    ensures Settled(d)
  {}

  /** Rolling back with the gate closed and a destructive-phase journal on disk is always safe. */
  lemma RecoverPriorKeepsInv(p: Process, j: Journal, e: RecoveryReplies)
    requires Inv(p.d) && p.d.gate.Some?
    requires p.d.journal.Some? && DestructivePhase(p.d.journal.value.phase)
    requires p.d.journal.value.priorPointer == j.priorPointer
    ensures Inv(RecoverPrior(p, j, e).0.d)
    ensures !RecoverPrior(p, j, e).1 ==>
              var q := RecoverPrior(p, j, e).0;
              q.d.gate.Some? && Inv(WriteJournal(q, JournalAt(j, RecoveryFailed)).d)
    ensures var (q, ok) := RecoverPrior(p, j, e); ok && q.Alive() ==> Settled(q.d)
  {
    hide ReceiptsMatchStore, Backed, HostEvidenceAccepted, Serves, ActiveTarget;
    if j.priorPointer.Some? && e.restore.ok {
      var restored := HostCall(p, e.restore.leaves);
      var repointed := WritePointer(restored, j.priorPointer);
      assert Inv(restored.d) && Inv(repointed.d);
      if ActiveTargetConfirmed(repointed.d, e) {
        ConfirmationSettles(repointed.d, e);
        var journaled := WriteJournal(repointed, JournalAt(j, PriorRestored));
        assert Inv(journaled.d);
      }
    }
  }

  lemma ReopeningKeepsInv(p: Process, j: Journal, phase: Phase)
    requires Inv(p.d) && Settled(p.d) && p.d.journal == Some(j) && !DestructivePhase(phase)
    ensures var q := OpenGate(WriteJournal(p, JournalAt(j, phase))); Inv(q.d) && Settled(q.d)
    ensures !DestructivePhase(j.phase) ==> var q := OpenGate(p); Inv(q.d) && Settled(q.d)
  {}

  lemma FailingKeepsInv(p: Process, j: Journal)
    requires Inv(p.d) && p.d.journal == Some(j) && p.d.gate.Some?
    ensures Inv(WriteJournal(p, JournalAt(j, RecoveryFailed)).d)
  {}

  lemma {:induction false} RecoveryKeepsInv(p: Process, allow: bool, e: RecoveryReplies)
    requires Inv(p.d)
    ensures var (r, outcome) := RecoverInterrupted(p, allow, e);
            && Inv(r.d)
            && (outcome.Clean? && r.Alive() ==> Settled(r.d))
            && (outcome.Inherited? ==> r == p && InheritsReplacement(p.d) && outcome.journal == p.d.journal.value)
  {
    hide ReceiptsMatchStore, PointersBacked, SettledOn, ActiveTargetConfirmed, RecoverPrior;
    if p.d.journal.Some? {
      var j := p.d.journal.value;
      if BeforeHostPhase(j.phase) {
        ReopeningKeepsInv(p, j, PriorRestored);
      } else if j.phase == PriorRestored || (j.phase == Completed && (p.d.gate.None? || p.d.gate.value.drift)) {
        ReopeningKeepsInv(p, j, PriorRestored);
      } else if ActiveTargetConfirmed(p.d, e) && (AwaitsTargetConfirmation(p.d, j) || j.phase == Completed) {
        ConfirmationSettles(p.d, e);
        ReopeningKeepsInv(p, j, Completed);
      } else {
        FailingKeepsInv(p, j);
        if DestructivePhase(j.phase) { RecoverPriorKeepsInv(p, j, e); }
      }
    }
  }

  lemma StoreKeepsInv(p: Process, id: GenerationId, g: Generation)
    requires Inv(p.d)
    ensures Inv(StoreGeneration(p, id, g).d)
    ensures Settled(p.d) ==> Settled(StoreGeneration(p, id, g).d)
  {}

  lemma ClosingKeepsInv(p: Process, j: Journal)
    requires Inv(p.d) && (p.Alive() ==> Settled(p.d))
    requires j.phase == Prepared && Backed(p.d.receipts, p.d.generations, j.priorPointer)
    ensures var q := CloseForSync(p, j);
            && Inv(q.d)
            && (q.Alive() ==> q.d == p.d.(journal := Some(JournalAt(j, GateClosed)),
                                          gate := Some(Gate(j.targetSourceRevision, false))))
    ensures CloseForSync(p, j).d.generations == p.d.generations
  {}

  /** The barrier has closed the gate over a settled host and journaled `j` at a phase before the host is touched. */
  predicate AtGate(p: Process, j: Journal) {
    && Inv(p.d)
    && (p.Alive() ==>
          && p.d.gate.Some?
          && p.d.journal.Some? && BeforeHostPhase(p.d.journal.value.phase)
          && p.d.journal.value.priorPointer == j.priorPointer
          && Settled(p.d))
  }

  lemma EarlyHandlerKeepsInv(p: Process, j: Journal, e: RecoveryReplies)
    requires AtGate(p, j) && BeforeHostPhase(j.phase)
    requires var dead := DeadInRollback(p, j, e); dead.Some? ==> Settled(dead.value)
    ensures Inv(HandleFailure(p, j, e).d)
  {
    hide ReceiptsMatchStore, Backed, HostEvidenceAccepted, Serves, ActiveTarget;
    if p.Alive() && j.priorPointer.Some? && e.restore.ok {
      var repointed := WritePointer(HostCall(p, e.restore.leaves), j.priorPointer);
      if ActiveTargetConfirmed(repointed.d, e) {
        ConfirmationSettles(repointed.d, e);
        assert Inv(WriteJournal(repointed, JournalAt(j, PriorRestored)).d);
      }
    }
  }

  /** The gate is closed and `j` is journaled at a phase in which the host may be anything. */
  predicate BehindGate(p: Process, j: Journal) {
    && Inv(p.d)
    && (p.Alive() ==> p.d.gate.Some? && p.d.journal == Some(j) && DestructivePhase(j.phase))
  }

  lemma LateHandlerKeepsInv(p: Process, j: Journal, e: RecoveryReplies)
    requires BehindGate(p, j)
    ensures Inv(HandleFailure(p, j, e).d)
  {
    if p.Alive() { RecoverPriorKeepsInv(p, j, e); }
  }

  predicate TargetStored(d: Durable, t: Target) {
    && t.syncGeneration in d.generations
    && var g := d.generations[t.syncGeneration];
       t.sourceRevision == g.sourceRevision && t.manifestChecksum == g.manifestChecksum &&
       t.projectionChecksum == g.projectionChecksum
  }

  lemma JournalStaysBehindGate(p: Process, j: Journal, phase: Phase)
    requires BehindGate(p, j) && DestructivePhase(phase)
    ensures BehindGate(WriteJournal(p, JournalAt(j, phase)), JournalAt(j, phase))
  {}

  lemma ReceiptStaysBehindGate(p: Process, j: Journal, t: Target, r: Receipt)
    requires BehindGate(p, j) && TargetStored(p.d, t)
    requires r.generationId == t.syncGeneration && r.sourceRevision == t.sourceRevision
    requires r.manifestChecksum == t.manifestChecksum
    ensures var q := WriteReceipt(p, ReceiptIdFor(t.syncGeneration), r);
            && BehindGate(q, j)
            && (q.Alive() ==> Backed(q.d.receipts, q.d.generations, Some(PointerFor(t))))
  {}

  /** Pointer, `pointer_written`, `completed`, gate: the last four effects of an activation. */
  lemma CommitKeepsInv(p: Process, j: Journal, t: Target)
    requires BehindGate(p, j)
    requires p.Alive() ==> Backed(p.d.receipts, p.d.generations, Some(PointerFor(t)))
    requires p.Alive() ==> Serves(p.d.generations, p.d.host, PointerFor(t))
    ensures var pointed := WriteJournal(WritePointer(p, Some(PointerFor(t))), JournalAt(j, PointerWritten));
            Inv(OpenGate(WriteJournal(pointed, JournalAt(j, Completed))).d)
  {
    var repointed := WritePointer(p, Some(PointerFor(t)));
    assert BehindGate(repointed, j);
    assert repointed.Alive() ==> Settled(repointed.d);
    var pointed := WriteJournal(repointed, JournalAt(j, PointerWritten));
    JournalStaysBehindGate(repointed, j, PointerWritten);
    assert Inv(WriteJournal(pointed, JournalAt(j, Completed)).d);
  }

  lemma ActivationKeepsInv(p: Process, j: Journal, t: Target, composite: bool, e: SyncReplies)
    requires BehindGate(p, JournalAt(j, HostApplied)) && TargetStored(p.d, t)
    requires p.d.host.Serving? && HostEvidenceAccepted(p.d.host.index, t)
    ensures Inv(ActivateTarget(p, j, t, composite, e).0.d)
  {
    var verified := WriteJournal(p, JournalAt(j, HostVerified));
    JournalStaysBehindGate(p, JournalAt(j, HostApplied), HostVerified);
    LateHandlerKeepsInv(verified, JournalAt(j, HostVerified), e.handler);
    var id := ReceiptIdFor(t.syncGeneration);
    var j' := JournalAt(j, ReceiptWritten).(receiptId := Some(id));
    var receipt := ReceiptFor(t, p.d.host.index, composite);
    ReceiptStaysBehindGate(verified, JournalAt(j, HostVerified), t, receipt);
    var receipted := WriteJournal(WriteReceipt(verified, id, receipt), j');
    assert BehindGate(receipted, j');
    LateHandlerKeepsInv(receipted, j', e.handler);
    CommitKeepsInv(receipted, j', t);
  }

  lemma ApplyKeepsInv(p: Process, j: Journal, t: Target, composite: bool, e: SyncReplies)
    requires AtGate(p, j) && TargetStored(p.d, t)
    ensures Inv(ApplyAndActivate(p, j, t, composite, e).0.d)
  {
    var journaled := WriteJournal(p, JournalAt(j, HostApplying));
    assert BehindGate(journaled, JournalAt(j, HostApplying));
    var applying := HostCall(journaled, e.apply.leaves);
    assert BehindGate(applying, JournalAt(j, HostApplying));
    LateHandlerKeepsInv(applying, JournalAt(j, HostApplying), e.handler);
    var applied := WriteJournal(applying, JournalAt(j, HostApplied));
    JournalStaysBehindGate(applying, JournalAt(j, HostApplying), HostApplied);
    LateHandlerKeepsInv(applied, JournalAt(j, HostApplied), e.handler);
    if HostConfirms(applied.d.host, e.targetAnswers, t) {
      ActivationKeepsInv(applied, j, t, composite, e);
    }
  }

  lemma BarrierKeepsInv(p: Process, j: Journal, t: Target, composite: bool, e: SyncReplies)
    requires AtGate(p, j) && j.phase == Prepared && TargetStored(p.d, t)
    requires !PreflightPasses(composite, e) ==>
               var q := if e.drains then WriteJournal(p, JournalAt(j, RunsDrained)) else p;
               var dead := DeadInRollback(q, j, e.handler);
               dead.Some? ==> Settled(dead.value)
    ensures Inv(RunBarrier(p, j, t, composite, e).0.d)
  {
    if !e.drains {
      EarlyHandlerKeepsInv(p, JournalAt(j, GateClosed), e.handler);
    } else {
      var drained := WriteJournal(p, JournalAt(j, RunsDrained));
      assert AtGate(drained, j);
      if composite && !e.currentBeforeApply {
        EarlyHandlerKeepsInv(drained, JournalAt(j, RunsDrained), e.handler);
      } else {
        ApplyKeepsInv(drained, j, t, composite, e);
      }
    }
  }

  lemma {:induction false} SyncKeepsInv(d: Durable, q: Request, e: SyncReplies, life: nat)
    requires Inv(d) && !Hazard(d, Call(Sync(q, e), life))
    ensures Inv(SyncGeneration(Process(d, life), q, e).0.d)
  {
    hide RunBarrier, DeadInRollback, CloseForSync, RecoverInterrupted, ReceiptsMatchStore, Backed, SettledOn,
         HostEvidenceAccepted;
    var p := Process(d, life);
    RecoveryKeepsInv(p, true, e.recovery);
    var (r, outcome) := RecoverInterrupted(p, true, e.recovery);
    if !outcome.Blocked? && e.builds && Buildable(r.d, q) {
      StoreKeepsInv(r, q.generationId, q.built);
      var s := StoreGeneration(r, q.generationId, q.built);
      var barrier := AtBarrier(p, q, e);
      if barrier.Some? {
        var (b, plan) := barrier.value;
        ClosingKeepsInv(s, plan.journal);
        BarrierKeepsInv(b, plan.journal, plan.target, plan.composite, e);
      }
    }
  }

  lemma CallKeepsInv(d: Durable, c: Call)
    requires Inv(d) && !Hazard(d, c)
    ensures Inv(Perform(d, c))
  {
    match c.operation
    case Sync(q, e) => SyncKeepsInv(d, q, e, c.life);
    case Recover(e) => RecoveryKeepsInv(Process(d, c.life), false, e);
    case CloseGate(_) =>
  }

  /******* Main results *******/

  /**
   Gate safety over all runs: any calls, dying after any effect, with any host replies.
   Outside the two windows, whenever the gate is open the host serves what the active pointer is for,
   and the active pointer is at a stored generation with a stored receipt for it.
   */
  lemma {:induction false} GateSafety(d: Durable, calls: seq<Call>)
    requires Inv(d) && HazardFree(d, calls)
    ensures Inv(Run(d, calls)) && GateSafe(Run(d, calls))
    ensures var after := Run(d, calls); Backed(after.receipts, after.generations, after.pointer)
    decreases |calls|
  {
    if calls != [] {
      CallKeepsInv(d, calls[0]);
      GateSafety(Perform(d, calls[0]), calls[1..]);
    }
  }

  lemma InitialInv(d: Durable)
    requires Initial(d)
    ensures Inv(d)
  {}
}
