/** Where gate safety stops, what a destructive replacement never does, and where syncs and recoveries end. */
module SyncGuarantees {
  import opened Options
  import opened SyncProtocol
  import opened SyncSafety

  /******* Syncs that start and go through *******/

  /** Nothing to build, configure or read stops this sync from reaching the barrier. */
  predicate Startable(d: Durable, q: Request) {
    Buildable(d, q) && (GenerationFor(d, q).composite ==> q.readerConfigured)
  }

  function GenerationFor(d: Durable, q: Request): Generation {
    if q.generationId in d.generations then d.generations[q.generationId] else q.built
  }

  function WillingRecovery(leaves: Host): RecoveryReplies { RecoveryReplies(true, "", true, HostReply(true, leaves)) }

  /** Everything goes through, except that runs may not drain and domains may be stale before the host is touched. */
  function PreflightSync(drains: bool, current: bool, apply: Host, rollback: Host): SyncReplies {
    SyncReplies(WillingRecovery(rollback), true, true, drains, current, HostReply(true, apply), true, true, true, true,
                true, WillingRecovery(rollback))
  }

  function WillingSync(apply: Host, rollback: Host): SyncReplies { PreflightSync(true, true, apply, rollback) }

  /** Recovery has nothing to do: the last attempt, if any, is over, and the gate is open or closed for maintenance. */
  predicate AtRest(d: Durable) {
    match d.journal
    case None => true
    case Some(j) =>
      || (j.phase == PriorRestored && d.gate.None?)
      || (j.phase == Completed && (d.gate.None? || d.gate.value.drift))
  }

  /** A rolled back attempt has its gate opened once more before the next one. */
  function RestEffects(d: Durable): nat { if d.journal.Some? && d.journal.value.phase == PriorRestored then 1 else 0 }

  lemma RestRecoversClean(d: Durable, life: nat, allow: bool, e: RecoveryReplies)
    requires AtRest(d)
    ensures var (r, outcome) := RecoverInterrupted(Process(d, life), allow, e);
            && r.d == d && outcome == Clean && (life >= RestEffects(d) ==> r.life == life - RestEffects(d))
  {
    assert d.gate.None? ==> d.(gate := None) == d;
  }

  /******* Destructive replacement *******/

  predicate OnlyStartup(calls: seq<Call>) {
    forall c | c in calls :: c.operation.Recover? || c.operation.CloseGate?
  }

  /** `d` is what startup recoveries may have made of `start`, whose journal holds a forbidden replacement. */
  predicate StillForbidden(start: Durable, d: Durable) {
    && d.host == start.host && d.pointer == start.pointer
    && d.receipts == start.receipts && d.generations == start.generations
    && start.journal.Some? && d.journal.Some?
    && d.journal == Some(JournalAt(start.journal.value, d.journal.value.phase))
    && start.journal.value.priorRestoreForbidden
    && (DestructivePhase(d.journal.value.phase) || d.journal.value.phase == Completed)
    && (d.journal.value.phase == Completed ==> PointerIsJournalTarget(start, start.journal.value))
  }

  lemma StartupKeepsForbidden(start: Durable, d: Durable, c: Call)
    requires StillForbidden(start, d) && Inv(d)
    requires c.operation.Recover? || c.operation.CloseGate?
    ensures StillForbidden(start, Perform(d, c))
  {
    hide HostEvidenceAccepted, Backed, ReceiptsMatchStore, ActiveTarget, RecoverPrior, SyncGeneration;
  }

  /**
   A replacement that forbids restoring the prior and was interrupted once it had journaled `host_applying`:
   no number of startup recoveries (or gate closings) moves the host or the pointer, and if the gate is ever
   open again the active pointer is at the target and the host serves it.
   */
  lemma {:induction false} ForbiddenReplacementIsNeverUndone(start: Durable, d: Durable, calls: seq<Call>)
    requires StillForbidden(start, d) && Inv(d) && OnlyStartup(calls)
    ensures var after := Run(d, calls);
            && after.host == start.host && after.pointer == start.pointer
            && (after.gate.None? ==>
                  && PointerIsJournalTarget(start, start.journal.value)
                  && Serves(after.generations, after.host, start.pointer.value))
    decreases |calls|
  {
    if calls == [] {
    } else {
      assert calls[0] in calls;
      StartupKeepsForbidden(start, d, calls[0]);
      CallKeepsInv(d, calls[0]);
      assert OnlyStartup(calls[1..]) by { assert forall c | c in calls[1..] :: c in calls; }
      ForbiddenReplacementIsNeverUndone(start, Perform(d, calls[0]), calls[1..]);
    }
  }

  /**
   The failure handler of the same sync obeys it too: once `host_applying` is journaled its host replies are
   irrelevant, the host is what it was or what the target left, and the pointer is what it was or the target's.
   */
  lemma ForbiddenSyncIgnoresHandler(p: Process, j: Journal, t: Target, composite: bool, e: SyncReplies,
                                    handler: RecoveryReplies)
    requires j.priorRestoreForbidden
    ensures ApplyAndActivate(p, j, t, composite, e) == ApplyAndActivate(p, j, t, composite, e.(handler := handler))
    ensures var after := ApplyAndActivate(p, j, t, composite, e).0.d;
            && after.host in {p.d.host, e.apply.leaves}
            && after.pointer in {p.d.pointer, Some(PointerFor(t))}
  {}

  /******* Receipt before pointer *******/

  /** The only way to a new pointer: accepted evidence from the applied host, recorded in the receipt it names. */
  predicate PointsAtVerifiedTarget(after: Durable, e: SyncReplies, t: Target) {
    && after.pointer == Some(PointerFor(t))
    && e.apply.ok && e.targetAnswers && e.apply.leaves.Serving?
    && HostEvidenceAccepted(e.apply.leaves.index, t)
    && ReceiptIdFor(t.syncGeneration) in after.receipts
    && var receipt := after.receipts[ReceiptIdFor(t.syncGeneration)];
       && receipt.generationId == t.syncGeneration
       && receipt.sourceRevision == t.sourceRevision
       && receipt.manifestChecksum == t.manifestChecksum
       && receipt.searchSentinel == e.apply.leaves.index.searchSentinel
       && receipt.getSentinel == e.apply.leaves.index.getSentinel
  }

  lemma HandlerPointer(p: Process, j: Journal, e: RecoveryReplies)
    ensures HandleFailure(p, j, e).d.pointer in {p.d.pointer, j.priorPointer}
  {}

  lemma BarrierPointer(p: Process, j: Journal, t: Target, composite: bool, e: SyncReplies)
    ensures var after := RunBarrier(p, j, t, composite, e).0.d;
            || after.pointer in {p.d.pointer, j.priorPointer}
            || PointsAtVerifiedTarget(after, e, t)
  {
    if e.drains && (composite ==> e.currentBeforeApply) {
      var drained := WriteJournal(p, JournalAt(j, RunsDrained));
      ApplyPointer(drained, j, t, composite, e);
    }
  }

  lemma ApplyPointer(p: Process, j: Journal, t: Target, composite: bool, e: SyncReplies)
    ensures var after := ApplyAndActivate(p, j, t, composite, e).0.d;
            || after.pointer in {p.d.pointer, j.priorPointer}
            || PointsAtVerifiedTarget(after, e, t)
  {
    hide HandleFailure, HostEvidenceAccepted, ActivateTarget, PointsAtVerifiedTarget;
    var applying := HostCall(WriteJournal(p, JournalAt(j, HostApplying)), e.apply.leaves);
    var applied := WriteJournal(applying, JournalAt(j, HostApplied));
    HandlerPointer(applying, JournalAt(j, HostApplying), e.handler);
    HandlerPointer(applied, JournalAt(j, HostApplied), e.handler);
    if e.apply.ok && HostConfirms(applied.d.host, e.targetAnswers, t) {
      if applied.Alive() {
        ActivatePointer(applied, j, t, composite, e);
      } else {
        DeadActivation(applied, j, t, composite, e);
      }
    }
  }

  lemma DeadActivation(p: Process, j: Journal, t: Target, composite: bool, e: SyncReplies)
    requires !p.Alive() && p.d.host.Serving?
    ensures ActivateTarget(p, j, t, composite, e).0 == p
  {}

  lemma ActivatePointer(p: Process, j: Journal, t: Target, composite: bool, e: SyncReplies)
    requires p.d.host == e.apply.leaves && e.apply.ok && HostConfirms(p.d.host, e.targetAnswers, t)
    ensures var after := ActivateTarget(p, j, t, composite, e).0.d;
            || after.pointer in {p.d.pointer, j.priorPointer}
            || PointsAtVerifiedTarget(after, e, t)
  {
    var verified := WriteJournal(p, JournalAt(j, HostVerified));
    HandlerPointer(verified, JournalAt(j, HostVerified), e.handler);
    if p.Alive() && !(ReportsFitness(t, composite) && FitnessEvidence(t, p.d.host.index).None?) {
      var id := ReceiptIdFor(t.syncGeneration);
      var j' := JournalAt(j, ReceiptWritten).(receiptId := Some(id));
      var stored := WriteReceipt(verified, id, ReceiptFor(t, p.d.host.index, composite));
      var receipted := WriteJournal(stored, j');
      assert receipted.d.pointer == p.d.pointer;
      HandlerPointer(receipted, j', e.handler);
      if receipted.Alive() && !(composite && !e.currentBeforePointer) {
        assert receipted.d.receipts == p.d.receipts[id := ReceiptFor(t, p.d.host.index, composite)];
        CommitPointer(receipted, j', t);
      }
    }
  }

  lemma CommitPointer(p: Process, j: Journal, t: Target)
    requires p.Alive()
    ensures var pointed := WriteJournal(WritePointer(p, Some(PointerFor(t))), JournalAt(j, PointerWritten));
            var after := OpenGate(WriteJournal(pointed, JournalAt(j, Completed))).d;
            && after.pointer == Some(PointerFor(t)) && after.receipts == p.d.receipts
  {}

  /**
   Every call either keeps the pointer, goes back to the journaled prior, or points at a verified, receipted target.
   */
  lemma {:induction false} PointerMovesOnlyOnEvidence(d: Durable, c: Call)
    ensures var after := Perform(d, c);
            || after.pointer == d.pointer
            || (d.journal.Some? && after.pointer == d.journal.value.priorPointer)
            || (c.operation.Sync? &&
                var barrier := AtBarrier(Process(d, c.life), c.operation.request, c.operation.sync);
                barrier.Some? && PointsAtVerifiedTarget(after, c.operation.sync, barrier.value.1.target))
  {
    if c.operation.Sync? {
      var p, q, e := Process(d, c.life), c.operation.request, c.operation.sync;
      var barrier := AtBarrier(p, q, e);
      if barrier.Some? {
        var (b, plan) := barrier.value;
        BarrierPointer(b, plan.journal, plan.target, plan.composite, e);
        assert Perform(d, c) == RunBarrier(b, plan.journal, plan.target, plan.composite, e).0.d;
      }
      RecoveryPointer(p, true, e.recovery);
    } else if c.operation.Recover? {
      RecoveryPointer(Process(d, c.life), false, c.operation.recovery);
    }
  }

  lemma RecoveryPointer(p: Process, allow: bool, e: RecoveryReplies)
    ensures var (r, outcome) := RecoverInterrupted(p, allow, e);
            && (r.d.pointer == p.d.pointer || (p.d.journal.Some? && r.d.pointer == p.d.journal.value.priorPointer))
            && (outcome.Inherited? ==> p.d.journal == Some(outcome.journal))
  {
    hide ActiveTargetConfirmed;
  }

  /******* Recovery ends at the prior or the target *******/

  predicate NamesTarget(pointer: Option<Pointer>, j: Journal) {
    pointer.Some? && pointer.value.generationId == j.syncGeneration
  }

  /** The pointer is the journaled prior or the journaled target, never anything else. */
  predicate Bracketed(d: Durable) {
    d.journal.Some? ==> d.pointer == d.journal.value.priorPointer || NamesTarget(d.pointer, d.journal.value)
  }

  predicate NoRetry(d: Durable, c: Call) { c.operation.Sync? ==> !InheritsReplacement(d) }

  /** `d` holds the journal of the attempt `j`, at some phase. */
  predicate Attempt(d: Durable, j: Journal) {
    && d.journal.Some?
    && d.journal.value.syncGeneration == j.syncGeneration
    && d.journal.value.priorPointer == j.priorPointer
  }

  lemma RollbackKeepsBracket(p: Process, j: Journal, e: RecoveryReplies)
    requires Bracketed(p.d) && (p.Alive() ==> Attempt(p.d, j))
    ensures var (q, ok) := RecoverPrior(p, j, e);
            && Bracketed(q.d)
            && q.d.pointer in {p.d.pointer, j.priorPointer}
            && (if ok then q.d.journal in {p.d.journal, Some(JournalAt(j, PriorRestored))}
                else q.d.journal == p.d.journal)
    ensures Bracketed(HandleFailure(p, j, e).d)
  {}

  /** `after` is the same attempt as `before`, with the pointer where it was or back at the prior. */
  predicate SameAttempt(before: Durable, after: Durable) {
    if before.journal.None? then after == before
    else
      && after.journal.Some?
      && after.journal.value == JournalAt(before.journal.value, after.journal.value.phase)
      && after.pointer in {before.pointer, before.journal.value.priorPointer}
  }

  lemma SameAttemptKeepsBracket(before: Durable, after: Durable)
    requires Bracketed(before) && SameAttempt(before, after)
    ensures Bracketed(after)
  {}

  lemma RecoveryIsSameAttempt(p: Process, allow: bool, e: RecoveryReplies)
    ensures SameAttempt(p.d, RecoverInterrupted(p, allow, e).0.d)
  {
    if p.d.journal.Some? && !BeforeHostPhase(p.d.journal.value.phase)
       && !AwaitsTargetConfirmation(p.d, p.d.journal.value)
       && !p.d.journal.value.priorRestoreForbidden && DestructivePhase(p.d.journal.value.phase) {
      var j := p.d.journal.value;
      var (q, ok) := RecoverPrior(p, j, e);
      assert q.d.pointer in {p.d.pointer, j.priorPointer};
      assert q.d.journal in {p.d.journal, Some(JournalAt(j, PriorRestored))};
    }
  }

  lemma RecoveryKeepsBracket(p: Process, allow: bool, e: RecoveryReplies)
    requires Bracketed(p.d)
    ensures Bracketed(RecoverInterrupted(p, allow, e).0.d)
    ensures RecoverInterrupted(p, allow, e).1.Clean? && p.d.journal.None? ==> RecoverInterrupted(p, allow, e).0 == p
  {
    RecoveryIsSameAttempt(p, allow, e);
    SameAttemptKeepsBracket(p.d, RecoverInterrupted(p, allow, e).0.d);
  }

  /** The barrier's own stages: the attempt is journaled and the pointer is not yet moved, or is moved to the target. */
  predicate UnderWay(p: Process, j: Journal) { Bracketed(p.d) && (p.Alive() ==> Attempt(p.d, j)) }

  lemma BarrierKeepsBracket(p: Process, j: Journal, t: Target, composite: bool, e: SyncReplies)
    requires UnderWay(p, j) && t.syncGeneration == j.syncGeneration
    ensures Bracketed(RunBarrier(p, j, t, composite, e).0.d)
  {
    RollbackKeepsBracket(p, JournalAt(j, GateClosed), e.handler);
    var drained := WriteJournal(p, JournalAt(j, RunsDrained));
    RollbackKeepsBracket(drained, JournalAt(j, RunsDrained), e.handler);
    ApplyKeepsBracket(drained, j, t, composite, e);
  }

  lemma ApplyKeepsBracket(p: Process, j: Journal, t: Target, composite: bool, e: SyncReplies)
    requires UnderWay(p, j) && t.syncGeneration == j.syncGeneration
    ensures Bracketed(ApplyAndActivate(p, j, t, composite, e).0.d)
  {
    var applying := HostCall(WriteJournal(p, JournalAt(j, HostApplying)), e.apply.leaves);
    RollbackKeepsBracket(applying, JournalAt(j, HostApplying), e.handler);
    var applied := WriteJournal(applying, JournalAt(j, HostApplied));
    RollbackKeepsBracket(applied, JournalAt(j, HostApplied), e.handler);
    if HostConfirms(applied.d.host, e.targetAnswers, t) {
      ActivateKeepsBracket(applied, j, t, composite, e);
    }
  }

  lemma ActivateKeepsBracket(p: Process, j: Journal, t: Target, composite: bool, e: SyncReplies)
    requires p.d.host.Serving? && UnderWay(p, j) && t.syncGeneration == j.syncGeneration
    ensures Bracketed(ActivateTarget(p, j, t, composite, e).0.d)
  {
    hide HandleFailure, ReceiptFor, FitnessEvidence, ReportsFitness;
    var verified := WriteJournal(p, JournalAt(j, HostVerified));
    RollbackKeepsBracket(verified, JournalAt(j, HostVerified), e.handler);
    var id := ReceiptIdFor(t.syncGeneration);
    var j' := JournalAt(j, ReceiptWritten).(receiptId := Some(id));
    var receipted := WriteJournal(WriteReceipt(verified, id, ReceiptFor(t, p.d.host.index, composite)), j');
    RollbackKeepsBracket(receipted, j', e.handler);
    var repointed := WritePointer(receipted, Some(PointerFor(t)));
    assert Bracketed(repointed.d)
           && (repointed.Alive() ==> Attempt(repointed.d, j) && NamesTarget(repointed.d.pointer, j));
  }

  lemma CallKeepsBracket(d: Durable, c: Call)
    requires Bracketed(d) && NoRetry(d, c)
    ensures Bracketed(Perform(d, c))
  {
    if c.operation.Sync? {
      var p, q, e := Process(d, c.life), c.operation.request, c.operation.sync;
      RecoveryKeepsBracket(p, true, e.recovery);
      var barrier := AtBarrier(p, q, e);
      if barrier.Some? {
        var (b, plan) := barrier.value;
        BarrierKeepsBracket(b, plan.journal, plan.target, plan.composite, e);
      }
    } else if c.operation.Recover? {
      RecoveryKeepsBracket(Process(d, c.life), false, c.operation.recovery);
    }
  }

  predicate OnlyRecoveries(calls: seq<Call>) { forall c | c in calls :: c.operation.Recover? }

  /**
   Interrupting recovery and rerunning it any number of times ends at the journaled prior or at the target the
   interrupted sync had already pointed to; and with the gate open the host serves whichever it is.
   */
  lemma {:induction false} RecoveriesEndAtPriorOrTarget(d: Durable, calls: seq<Call>)
    requires Inv(d) && Bracketed(d) && d.journal.Some? && OnlyRecoveries(calls)
    ensures var after, j := Run(d, calls), d.journal.value;
            && after.pointer in {d.pointer, j.priorPointer}
            && (after.pointer == j.priorPointer || NamesTarget(after.pointer, j))
            && GateSafe(after)
    decreases |calls|
  {
    if calls != [] {
      assert calls[0] in calls;
      RecoveryIsSameAttempt(Process(d, calls[0].life), false, calls[0].operation.recovery);
      SameAttemptKeepsBracket(d, Perform(d, calls[0]));
      CallKeepsInv(d, calls[0]);
      assert OnlyRecoveries(calls[1..]) by { assert forall c | c in calls[1..] :: c in calls; }
      RecoveriesEndAtPriorOrTarget(Perform(d, calls[0]), calls[1..]);
    }
  }

  /******* What a call achieves when nothing fails *******/

  /** An undisturbed recovery over a host that goes back reopens the gate on the prior generation. */
  lemma UndisturbedRecoveryRestoresPrior(d: Durable, e: RecoveryReplies, life: nat)
    requires d.journal.Some? && DestructivePhase(d.journal.value.phase) && !d.journal.value.priorRestoreForbidden
    requires !AwaitsTargetConfirmation(d, d.journal.value) && d.journal.value.priorPointer.Some?
    requires e.restore.ok && life >= 4
    requires ActiveTargetConfirmed(d.(host := e.restore.leaves, pointer := d.journal.value.priorPointer), e)
    ensures var after := Perform(d, Call(Recover(e), life));
            && after == d.(host := e.restore.leaves, pointer := d.journal.value.priorPointer, gate := None,
                           journal := Some(JournalAt(d.journal.value, PriorRestored)))
            && Settled(after)
  {}
}
