/** Exactly where gate safety, and the withdrawal of a replaced prior, stop holding. */
module SyncExactness {
  import opened Options
  import opened SyncProtocol
  import opened SyncSafety
  import opened SyncGuarantees

  /******* A sync and the startup after it *******/

  function SyncThenRecover(d: Durable, q: Request, e: SyncReplies, life: nat, r: RecoveryReplies, life': nat): Durable {
    Run(d, [Call(Sync(q, e), life), Call(Recover(r), life')])
  }

  lemma TwoCalls(d: Durable, a: Call, b: Call)
    ensures Run(d, [a, b]) == Perform(Perform(d, a), b)
  {
    assert [a, b][1..] == [b];
    assert [b][1..] == [];
    assert Run(Perform(d, a), [b]) == Perform(Perform(d, a), b);
  }

  lemma SafeSyncThenRecover(d: Durable, q: Request, e: SyncReplies, life: nat, r: RecoveryReplies, life': nat)
    requires Inv(d) && !Hazard(d, Call(Sync(q, e), life))
    ensures GateSafe(SyncThenRecover(d, q, e, life, r, life'))
  {
    var a, b := Call(Sync(q, e), life), Call(Recover(r), life');
    TwoCalls(d, a, b);
    CallKeepsInv(d, a);
    CallKeepsInv(Perform(d, a), b);
  }

  function EffectsToStored(d: Durable, q: Request): nat { if q.generationId in d.generations then 0 else 1 }

  /** Effects up to and including the write of `gate_closed`, for a sync at rest or retrying. */
  function EffectsToClosed(d: Durable, q: Request): nat { RestEffects(d) + EffectsToStored(d, q) + 3 }

  /** What lets this disk start a sync: it is at rest, or its forbidden replacement is inherited. */
  predicate Enterable(d: Durable) { AtRest(d) || InheritsReplacement(d) }

  function OutcomeOf(d: Durable): RecoveryOutcome
    requires Enterable(d)
  {
    if InheritsReplacement(d) then Inherited(d.journal.value) else Clean
  }

  /** What the attempt rolls back to: the inherited prior of a retry, the active pointer otherwise. */
  function PriorOf(d: Durable): Option<Pointer>
    requires Enterable(d)
  {
    if InheritsReplacement(d) then d.journal.value.priorPointer else d.pointer
  }

  function StoredDisk(d: Durable, q: Request): Durable {
    d.(generations := d.generations[q.generationId := GenerationFor(d, q)])
  }

  lemma EntryRecovers(d: Durable, life: nat, e: RecoveryReplies)
    requires Enterable(d)
    ensures var (r, outcome) := RecoverInterrupted(Process(d, life), true, e);
            && r.d == d && outcome == OutcomeOf(d) && (life >= RestEffects(d) ==> r.life == life - RestEffects(d))
  {
    if !InheritsReplacement(d) { RestRecoversClean(d, life, true, e); }
  }

  lemma StoreMakes(d: Durable, q: Request, life: nat)
    requires life >= EffectsToStored(d, q)
    ensures StoreGeneration(Process(d, life), q.generationId, q.built)
            == Process(StoredDisk(d, q), life - EffectsToStored(d, q))
  {
    if q.generationId in d.generations { assert StoredDisk(d, q).generations == d.generations; }
  }

  function PlanOf(d: Durable, q: Request): Plan
    requires Inv(d) && Enterable(d)
  {
    PlanFor(StoredDisk(d, q), q, OutcomeOf(d))
  }

  /** A sync that lives past `gate_closed` is at the barrier with its plan. */
  lemma EntersBarrier(d: Durable, q: Request, e: SyncReplies, life: nat)
    requires Inv(d) && Enterable(d) && Startable(d, q) && e.builds && e.captures && life >= EffectsToClosed(d, q)
    ensures var plan := PlanOf(d, q);
            var closed := Process(StoredDisk(d, q).(journal := Some(JournalAt(plan.journal, GateClosed)),
                                                    gate := Some(Gate(plan.journal.targetSourceRevision, false))),
                                  life - EffectsToClosed(d, q));
            && plan.composite == GenerationFor(d, q).composite && plan.target.syncGeneration == q.generationId
            && plan.journal.priorPointer == PriorOf(d) && plan.journal.phase == Prepared
            && AtBarrier(Process(d, life), q, e) == Some((closed, plan))
            && SyncGeneration(Process(d, life), q, e)
               == RunBarrier(closed, plan.journal, plan.target, plan.composite, e)
  {
    EntryRecovers(d, life, e.recovery);
    StoreMakes(d, q, life - RestEffects(d));
    hide RecoverInterrupted, StoreGeneration, RunBarrier, ReplacementForbidsPriorRestore;
  }

  function TargetFrom(d: Durable, q: Request): Target
    requires PriorGenerationReadable(d)
  {
    TargetOf(q, GenerationFor(d, q), PreviousDomains(d))
  }

  lemma PlannedTarget(d: Durable, q: Request)
    requires Inv(d) && Enterable(d)
    ensures PlanOf(d, q).target == TargetFrom(d, q)
  {
    hide ReplacementForbidsPriorRestore, ReceiptsMatchStore;
  }

  /******* A sync that goes through *******/

  /** The host serves the target, and reports on fitness where the receipt needs it. */
  predicate ServesTarget(t: Target, composite: bool, apply: Host) {
    && HostConfirms(apply, true, t)
    && (ReportsFitness(t, composite) ==> FitnessEvidence(t, apply.index).Some?)
  }

  function ActivatedDisk(d: Durable, plan: Plan, apply: Host, gate: Option<Gate>): Durable
    requires apply.Serving?
  {
    var id := ReceiptIdFor(plan.target.syncGeneration);
    d.(host := apply, pointer := Some(PointerFor(plan.target)), gate := gate,
       receipts := d.receipts[id := ReceiptFor(plan.target, apply.index, plan.composite)],
       journal := Some(JournalAt(plan.journal, Completed).(receiptId := Some(id))))
  }

  /** With ten effects left the activation dies having journaled `completed`; with one more it opens the gate. */
  lemma BarrierActivates(closed: Process, plan: Plan, apply: Host)
    requires ServesTarget(plan.target, plan.composite, apply) && closed.life >= 10
    ensures var (r, outcome) :=
            RunBarrier(closed, plan.journal, plan.target, plan.composite, WillingSync(apply, Unknown));
            && outcome == Activated
            && r.d == ActivatedDisk(closed.d, plan, apply, if closed.life == 10 then closed.d.gate else None)
  {
    hide HostEvidenceAccepted, HandleFailure, ReceiptFor, PointerFor;
  }

  /** An undisturbed sync over a host that really serves the target ends with it active, receipted and open. */
  lemma {:induction false} UndisturbedSyncActivates(d: Durable, q: Request, apply: Host, life: nat)
    requires Inv(d) && AtRest(d) && Startable(d, q) && life >= EffectsToClosed(d, q) + 11
    requires ServesTarget(TargetFrom(d, q), GenerationFor(d, q).composite, apply)
    ensures var t := TargetFrom(d, q);
            var (r, outcome) := SyncGeneration(Process(d, life), q, WillingSync(apply, Unknown));
            && outcome == Activated
            && r.d.pointer == Some(PointerFor(t)) && r.d.gate.None? && r.d.host == apply
            && r.d.receipts
               == d.receipts[ReceiptIdFor(q.generationId) := ReceiptFor(t, apply.index, GenerationFor(d, q).composite)]
            && r.d.generations == d.generations[q.generationId := GenerationFor(d, q)]
            && r.d.journal.Some? && r.d.journal.value.phase == Completed && r.d.journal.value.priorPointer == d.pointer
  {
    hide PlanOf, RunBarrier, SyncGeneration, Inv, ServesTarget, TargetFrom, ReceiptFor, PointerFor, Startable;
    PlannedTarget(d, q);
    EntersBarrier(d, q, WillingSync(apply, Unknown), life);
    var closed := AtBarrier(Process(d, life), q, WillingSync(apply, Unknown)).value.0;
    BarrierActivates(closed, PlanOf(d, q), apply);
  }

  /******* First window: a retry that dies having journaled `prepared` *******/

  /** The replacement is retried, dies having journaled `prepared`, and startup recovery opens the gate. */
  lemma InheritedReplacementOpensUnverified(d: Durable, q: Request, e: SyncReplies, r: RecoveryReplies)
    requires Inv(d) && InheritsReplacement(d) && Startable(d, q) && !Settled(d) && e.builds
    ensures !GateSafe(SyncThenRecover(d, q, e, EffectsToStored(d, q) + 1, r, 2))
  {
    var a, b := Call(Sync(q, e), EffectsToStored(d, q) + 1), Call(Recover(r), 2);
    TwoCalls(d, a, b);
    RetryPrepares(d, q, e);
    var recovered := Perform(Perform(d, a), b);
    assert recovered.gate.None? && recovered.pointer == d.pointer && recovered.host == d.host by {
      hide SyncGeneration, PlanFor;
    }
  }

  lemma DeadBarrierDoesNothing(p: Process, j: Journal, t: Target, composite: bool, e: SyncReplies)
    requires !p.Alive()
    ensures RunBarrier(p, j, t, composite, e).0 == p
  {}

  /******* Second window: a rollback that dies before it is journaled *******/

  /**
   The handler runs before the host is touched, and the process dies with the prior pointer back over an unknown host.
   */
  lemma EarlyRollbackDies(closed: Process, j: Journal, t: Target, composite: bool, e: SyncReplies)
    requires j.priorPointer.Some? && e.handler.restore == HostReply(true, Unknown) && !PreflightPasses(composite, e)
    requires closed.life == (if e.drains then 3 else 2) && closed.d.journal == Some(JournalAt(j, GateClosed))
    ensures var dead := RunBarrier(closed, j, t, composite, e).0.d;
            && dead.pointer == j.priorPointer && dead.host == Unknown
            && dead.journal.Some? && BeforeHostPhase(dead.journal.value.phase)
  {
    hide ApplyAndActivate, ActiveTargetConfirmed;
  }

  /** A preflight that fails, with something to roll back to: the next startup opens over an unknown host. */
  lemma PreflightFailureOpensUnverified(d: Durable, q: Request, drains: bool, current: bool, r: RecoveryReplies)
    requires Inv(d) && Enterable(d) && Startable(d, q) && PriorOf(d).Some?
    requires !drains || (GenerationFor(d, q).composite && !current)
    ensures !GateSafe(SyncThenRecover(d, q, PreflightSync(drains, current, Unknown, Unknown),
                                      EffectsToClosed(d, q) + (if drains then 3 else 2), r, 2))
  {
    var e := PreflightSync(drains, current, Unknown, Unknown);
    var a, b := Call(Sync(q, e), EffectsToClosed(d, q) + (if drains then 3 else 2)), Call(Recover(r), 2);
    TwoCalls(d, a, b);
    EntersBarrier(d, q, e, a.life);
    var plan := PlanOf(d, q);
    var closed := AtBarrier(Process(d, a.life), q, e).value.0;
    EarlyRollbackDies(closed, plan.journal, plan.target, plan.composite, e);
    hide RunBarrier, AtBarrier, PlanOf;
    var died := Perform(d, a);
    var recovered := Perform(died, b);
    assert recovered.gate.None? && recovered.pointer == PriorOf(d) && recovered.host == Unknown;
  }

  /** The runs do not drain. */
  lemma UndrainedSyncOpensUnverified(d: Durable, q: Request, r: RecoveryReplies)
    requires Inv(d) && AtRest(d) && Startable(d, q) && d.pointer.Some?
    ensures !GateSafe(SyncThenRecover(d, q, PreflightSync(false, true, Unknown, Unknown),
                                      EffectsToClosed(d, q) + 2, r, 2))
  {
    PreflightFailureOpensUnverified(d, q, false, true, r);
  }

  /** The runs drain, and a domain of the generation is no longer current. */
  lemma StaleSyncOpensUnverified(d: Durable, q: Request, r: RecoveryReplies)
    requires Inv(d) && AtRest(d) && Startable(d, q) && d.pointer.Some? && GenerationFor(d, q).composite
    ensures !GateSafe(SyncThenRecover(d, q, PreflightSync(true, false, Unknown, Unknown),
                                      EffectsToClosed(d, q) + 3, r, 2))
  {
    PreflightFailureOpensUnverified(d, q, true, false, r);
  }

  /** From a fresh runtime: the first sync activates, the second does not drain and dies, and startup opens the gate. */
  lemma SecondSyncOpensUnverified(d: Durable, q: Request, apply: Host, life: nat, r: RecoveryReplies)
    requires Initial(d) && d.gate.None? && Startable(d, q) && life >= EffectsToClosed(d, q) + 11
    requires PriorGenerationReadable(d) && ServesTarget(TargetFrom(d, q), GenerationFor(d, q).composite, apply)
    ensures var first := Perform(d, Call(Sync(q, WillingSync(apply, Unknown)), life));
            && AtRest(first) && first.pointer.Some? && Inv(first) && Startable(first, q)
            && !GateSafe(SyncThenRecover(first, q, PreflightSync(false, true, Unknown, Unknown),
                                         EffectsToClosed(first, q) + 2, r, 2))
  {
    hide SyncGeneration, Hazard, ServesTarget, TargetFrom, ReceiptFor, SyncThenRecover, ReceiptsMatchStore;
    InitialInv(d);
    UndisturbedSyncActivates(d, q, apply, life);
    EnteringIsHazardFree(d, q, WillingSync(apply, Unknown), life);
    SyncKeepsInv(d, q, WillingSync(apply, Unknown), life);
    var first := Perform(d, Call(Sync(q, WillingSync(apply, Unknown)), life));
    UndrainedSyncOpensUnverified(first, q, r);
  }

  /******* Exactly when *******/

  predicate PreflightHolds(composite: bool, drains: bool, current: bool) { drains && (composite ==> current) }

  lemma EnteringIsHazardFree(d: Durable, q: Request, e: SyncReplies, life: nat)
    requires Inv(d) && Enterable(d) && Settled(d)
    requires PreflightPasses(GenerationFor(d, q).composite, e) || PriorOf(d).None?
    ensures !Hazard(d, Call(Sync(q, e), life))
  {
    EntryRecovers(d, life, e.recovery);
    hide RecoverInterrupted, ReplacementForbidsPriorRestore, CloseForSync;
    var barrier := AtBarrier(Process(d, life), q, e);
    if barrier.Some? {
      var plan := barrier.value.1;
      assert plan.composite == GenerationFor(d, q).composite && plan.journal.priorPointer == PriorOf(d);
    }
  }

  /**
   A sync from rest is gate safe, whatever dies and whatever the host replies, exactly when its preflight, that is
   draining and the domains being current, succeeds, or there is nothing active to roll back to.
   */
  lemma SyncFromRestIsGateSafeExactly(d: Durable, q: Request, drains: bool, current: bool)
    requires Inv(d) && AtRest(d) && Startable(d, q)
    ensures (forall e: SyncReplies, life: nat, r: RecoveryReplies, life': nat |
               e.drains == drains && e.currentBeforeApply == current ::
               GateSafe(SyncThenRecover(d, q, e, life, r, life')))
            <==> PreflightHolds(GenerationFor(d, q).composite, drains, current) || d.pointer.None?
  {
    hide SyncThenRecover;
    if PreflightHolds(GenerationFor(d, q).composite, drains, current) || d.pointer.None? {
      forall e: SyncReplies, life: nat, r: RecoveryReplies, life': nat |
        e.drains == drains && e.currentBeforeApply == current
        ensures GateSafe(SyncThenRecover(d, q, e, life, r, life'))
      {
        EnteringIsHazardFree(d, q, e, life);
        SafeSyncThenRecover(d, q, e, life, r, life');
      }
    } else {
      PreflightFailureOpensUnverified(d, q, drains, current, WillingRecovery(Unknown));
    }
  }

  /**
   Retrying an inherited destructive replacement is gate safe, whatever dies and whatever the host replies, exactly
   when the host still serves what the active pointer is for, and the preflight succeeds or there is no prior.
   */
  lemma RetryIsGateSafeExactly(d: Durable, q: Request, drains: bool, current: bool)
    requires Inv(d) && InheritsReplacement(d) && Startable(d, q)
    ensures (forall e: SyncReplies, life: nat, r: RecoveryReplies, life': nat |
               e.drains == drains && e.currentBeforeApply == current ::
               GateSafe(SyncThenRecover(d, q, e, life, r, life')))
            <==> Settled(d) && (PreflightHolds(GenerationFor(d, q).composite, drains, current) || PriorOf(d).None?)
  {
    hide SyncThenRecover;
    if !Settled(d) {
      InheritedReplacementOpensUnverified(d, q, PreflightSync(drains, current, Unknown, Unknown),
                                          WillingRecovery(Unknown));
    } else if PreflightHolds(GenerationFor(d, q).composite, drains, current) || PriorOf(d).None? {
      forall e: SyncReplies, life: nat, r: RecoveryReplies, life': nat |
        e.drains == drains && e.currentBeforeApply == current
        ensures GateSafe(SyncThenRecover(d, q, e, life, r, life'))
      {
        EnteringIsHazardFree(d, q, e, life);
        SafeSyncThenRecover(d, q, e, life, r, life');
      }
    } else {
      PreflightFailureOpensUnverified(d, q, drains, current, WillingRecovery(Unknown));
    }
  }

  /******* From any disk *******/

  /**
   What the recovery a sync begins with makes of a disk when nothing kills it: it never takes more than four effects.
   */
  function Recovery(d: Durable, e: RecoveryReplies): (Process, RecoveryOutcome) {
    RecoverInterrupted(Process(d, 4), true, e)
  }

  /** The last rung of the ladder. */
  function RollBack(p: Process, j: Journal, e: RecoveryReplies): (Process, RecoveryOutcome) {
    var (q, ok) := RecoverPrior(p, j, e);
    if ok then (q, Clean) else (WriteJournal(q, JournalAt(j, RecoveryFailed)), Blocked)
  }

  /** `run` is `full` with another number of effects to live, unless it died. */
  predicate DiedOrEnded(run: (Process, RecoveryOutcome), full: (Process, RecoveryOutcome), life: nat) {
    && full.0.life <= 4
    && (run.0.life > 0 || life >= 4 - full.0.life ==>
          run.1 == full.1 && run.0.d == full.0.d && run.0.life == life - (4 - full.0.life))
  }

  lemma RollingBackDiesOrEnds(d: Durable, j: Journal, e: RecoveryReplies, life: nat)
    ensures DiedOrEnded(RollBack(Process(d, life), j, e), RollBack(Process(d, 4), j, e), life)
    ensures var (full, ended) := RollBack(Process(d, 4), j, e);
            && !ended.Inherited? && full.d.generations == d.generations && (ended.Clean? ==> AtRest(full.d))
  {
    hide ActiveTargetConfirmed;
  }

  /** Every rung before the last: the outcome does not depend on the effects left. */
  lemma EarlyRungs(d: Durable, e: RecoveryReplies, life: nat)
    ensures var run := RecoverInterrupted(Process(d, life), true, e);
            var full := RecoverInterrupted(Process(d, 4), true, e);
            || (DiedOrEnded(run, full, life) && (full.1.Inherited? <==> InheritsReplacement(d))
                && (full.1.Clean? ==> AtRest(full.0.d)) && full.0.d.generations == d.generations)
            || (d.journal.Some? && run == RollBack(Process(d, life), d.journal.value, e)
                && full == RollBack(Process(d, 4), d.journal.value, e) && !InheritsReplacement(d))
  {
    hide ActiveTargetConfirmed, RecoverPrior;
  }

  /** A recovery dies, or does what it does with all its effects. */
  lemma RecoveryDiesOrEnds(d: Durable, e: RecoveryReplies, life: nat)
    ensures DiedOrEnded(RecoverInterrupted(Process(d, life), true, e), Recovery(d, e), life)
    ensures Recovery(d, e).1.Inherited? <==> InheritsReplacement(d)
    ensures Recovery(d, e).1.Clean? ==> AtRest(Recovery(d, e).0.d)
    ensures Recovery(d, e).0.d.generations == d.generations
  {
    hide RecoverInterrupted, RollBack, AtRest, InheritsReplacement, DiedOrEnded;
    EarlyRungs(d, e, life);
    if d.journal.Some? { RollingBackDiesOrEnds(d, d.journal.value, e, life); }
  }

  /** A sync after a clean recovery is a sync from the recovered disk. */
  lemma SyncGoesOnFromRecovered(d: Durable, q: Request, e: SyncReplies, life: nat)
    requires Recovery(d, e.recovery).1.Clean? && life >= 4 - Recovery(d, e.recovery).0.life
    ensures var full := Recovery(d, e.recovery).0;
            SyncGeneration(Process(d, life), q, e)
            == SyncGeneration(Process(full.d, life - (4 - full.life) + RestEffects(full.d)), q, e)
  {
    hide RunBarrier, PlanFor, CloseForSync, StoreGeneration, Recovery, RecoverInterrupted, Buildable;
    RecoveryDiesOrEnds(d, e.recovery, life);
    var full := Recovery(d, e.recovery).0;
    RestRecoversClean(full.d, life - (4 - full.life) + RestEffects(full.d), true, e.recovery);
  }

  /** From a disk that recovery has nothing to do on, or that is inherited, its replies do not matter. */
  lemma EntryIgnoresRecovery(d: Durable, q: Request, e: SyncReplies, recovery: RecoveryReplies, life: nat)
    requires Enterable(d)
    ensures SyncGeneration(Process(d, life), q, e) == SyncGeneration(Process(d, life), q, e.(recovery := recovery))
  {
    hide RunBarrier, PlanFor, CloseForSync, Buildable, RecoverInterrupted;
    RepliesDoNotMatter(d, life, e.recovery, recovery);
    var barrier := AtBarrier(Process(d, life), q, e);
    if barrier.Some? {
      var (p, plan) := barrier.value;
      BarrierIgnoresRecovery(p, plan.journal, plan.target, plan.composite, e, recovery);
    }
  }

  lemma BarrierIgnoresRecovery(p: Process, j: Journal, t: Target, composite: bool, e: SyncReplies,
                               recovery: RecoveryReplies)
    ensures RunBarrier(p, j, t, composite, e) == RunBarrier(p, j, t, composite, e.(recovery := recovery))
  {
    hide HandleFailure, HostConfirms, ReceiptFor, FitnessEvidence;
  }

  lemma RepliesDoNotMatter(d: Durable, life: nat, a: RecoveryReplies, b: RecoveryReplies)
    requires Enterable(d)
    ensures RecoverInterrupted(Process(d, life), true, a) == RecoverInterrupted(Process(d, life), true, b)
  {}

  /** Nothing happens to a sync that dies in its recovery, is blocked by it or cannot start. */
  lemma StoppedSyncIsHazardFree(d: Durable, q: Request, e: SyncReplies, life: nat)
    requires Inv(d) && !InheritsReplacement(d)
    requires Recovery(d, e.recovery).1.Blocked? || RecoverInterrupted(Process(d, life), true, e.recovery).0.life == 0
    ensures !Hazard(d, Call(Sync(q, e), life))
  {
    hide RunBarrier, PlanFor, Recovery, RecoverInterrupted;
    RecoveryDiesOrEnds(d, e.recovery, life);
  }

  lemma UnstartedSyncKeepsInv(d: Durable, q: Request, e: SyncReplies, life: nat)
    requires Inv(d) && !Startable(d, q)
    ensures Inv(SyncGeneration(Process(d, life), q, e).0.d)
  {
    hide RunBarrier, PlanFor, Recovery, RecoverInterrupted, ReceiptsMatchStore, Backed, SettledOn;
    RecoveryKeepsInv(Process(d, life), true, e.recovery);
    RecoveryKeepsGenerations(Process(d, life), e.recovery);
    StoreKeepsInv(RecoverInterrupted(Process(d, life), true, e.recovery).0, q.generationId, q.built);
  }

  lemma RecoveryKeepsGenerations(p: Process, e: RecoveryReplies)
    ensures RecoverInterrupted(p, true, e).0.d.generations == p.d.generations
  {
    hide ActiveTargetConfirmed;
  }

  /** What the attempt has to fall back on, once the recovery it begins with is through. */
  function FallbackOf(d: Durable, recovery: RecoveryReplies): Option<Pointer> {
    if InheritsReplacement(d) then d.journal.value.priorPointer else Recovery(d, recovery).0.d.pointer
  }

  /**
   It cannot start, or the recovery it begins with blocks it; or it inherits nothing, or a host that serves the active
   pointer, and its preflight succeeds or it has nothing to fall back on.
   */
  predicate SafeToSync(d: Durable, q: Request, recovery: RecoveryReplies, drains: bool, current: bool) {
    || !Startable(d, q)
    || Recovery(d, recovery).1.Blocked?
    || ((InheritsReplacement(d) ==> Settled(d))
        && (PreflightHolds(GenerationFor(d, q).composite, drains, current) || FallbackOf(d, recovery).None?))
  }

  /** Every run of this sync and of the startup after it, with these answers given, leaves the gate safe. */
  ghost predicate AlwaysGateSafe(d: Durable, q: Request, recovery: RecoveryReplies, drains: bool, current: bool) {
    forall e: SyncReplies, life: nat, r: RecoveryReplies, life': nat |
      e.recovery == recovery && e.drains == drains && e.currentBeforeApply == current ::
      GateSafe(SyncThenRecover(d, q, e, life, r, life'))
  }

  lemma StartedSyncIsHazardFree(d: Durable, q: Request, e: SyncReplies, life: nat)
    requires Inv(d) && Recovery(d, e.recovery).1.Clean?
    requires RecoverInterrupted(Process(d, life), true, e.recovery).0.life > 0
    requires PreflightPasses(GenerationFor(d, q).composite, e) || FallbackOf(d, e.recovery).None?
    ensures !Hazard(d, Call(Sync(q, e), life))
  {
    RecoveryDiesOrEnds(d, e.recovery, life);
    hide Recovery, RecoverInterrupted, ReplacementForbidsPriorRestore, CloseForSync;
    var barrier := AtBarrier(Process(d, life), q, e);
    if barrier.Some? {
      var plan := barrier.value.1;
      assert plan.composite == GenerationFor(d, q).composite && plan.journal.priorPointer == FallbackOf(d, e.recovery);
    }
  }

  lemma SafeToSyncIsSafe(d: Durable, q: Request, e: SyncReplies, life: nat, r: RecoveryReplies, life': nat)
    requires Inv(d) && SafeToSync(d, q, e.recovery, e.drains, e.currentBeforeApply)
    ensures GateSafe(SyncThenRecover(d, q, e, life, r, life'))
  {
    hide SyncGeneration, Hazard, Recovery, RecoverInterrupted, Inv, Startable, GenerationFor;
    if !Startable(d, q) {
      UnstartedSyncKeepsInv(d, q, e, life);
      TwoCalls(d, Call(Sync(q, e), life), Call(Recover(r), life'));
      RecoveryKeepsInv(Process(Perform(d, Call(Sync(q, e), life)), life'), false, r);
      InvIsGateSafe(SyncThenRecover(d, q, e, life, r, life'));
    } else {
      RecoveryDiesOrEnds(d, e.recovery, life);
      if InheritsReplacement(d) {
        EnteringIsHazardFree(d, q, e, life);
      } else if Recovery(d, e.recovery).1.Blocked?
                || RecoverInterrupted(Process(d, life), true, e.recovery).0.life == 0 {
        StoppedSyncIsHazardFree(d, q, e, life);
      } else {
        StartedSyncIsHazardFree(d, q, e, life);
      }
      SafeSyncThenRecover(d, q, e, life, r, life');
    }
  }

  lemma RecoveredCanStart(d: Durable, q: Request, recovery: RecoveryReplies)
    requires Inv(d) && Recovery(d, recovery).1.Clean?
    ensures var full := Recovery(d, recovery).0;
            && full.life <= 4 && Inv(full.d) && AtRest(full.d) && !InheritsReplacement(d)
            && PriorOf(full.d) == FallbackOf(d, recovery)
            && GenerationFor(full.d, q) == GenerationFor(d, q) && (Startable(full.d, q) <==> Startable(d, q))
  {
    RecoveryDiesOrEnds(d, recovery, 4);
    RecoveryKeepsInv(Process(d, 4), true, recovery);
    hide RecoverInterrupted, Inv;
  }

  lemma SameSyncSameStartup(d: Durable, a: nat, full: Durable, b: nat, q: Request, e: SyncReplies, r: RecoveryReplies)
    requires SyncGeneration(Process(d, a), q, e) == SyncGeneration(Process(full, b), q, e)
    ensures SyncThenRecover(d, q, e, a, r, 2) == SyncThenRecover(full, q, e, b, r, 2)
  {
    hide SyncGeneration, RecoverInterrupted;
    TwoCalls(d, Call(Sync(q, e), a), Call(Recover(r), 2));
    TwoCalls(full, Call(Sync(q, e), b), Call(Recover(r), 2));
  }

  /** A failing run from the recovered disk is one from the disk before. */
  lemma UnsafeOnceRecovered(d: Durable, q: Request, recovery: RecoveryReplies, drains: bool, current: bool)
    requires Inv(d) && Startable(d, q) && Recovery(d, recovery).1.Clean?
    requires !PreflightHolds(GenerationFor(d, q).composite, drains, current) && FallbackOf(d, recovery).Some?
    ensures !AlwaysGateSafe(d, q, recovery, drains, current)
  {
    hide Recovery, RecoverInterrupted, Inv, SyncGeneration, AtRest, SyncThenRecover, Startable, GenerationFor, GateSafe,
         WillingRecovery, InheritsReplacement, PriorOf, FallbackOf;
    RecoveredCanStart(d, q, recovery);
    var full := Recovery(d, recovery).0;
    var r, willing := WillingRecovery(Unknown), PreflightSync(drains, current, Unknown, Unknown);
    PreflightFailureOpensUnverified(full.d, q, drains, current, r);
    var life: nat := EffectsToClosed(full.d, q) + (if drains then 3 else 2);
    var earlier: nat := life - RestEffects(full.d) + (4 - full.life);
    var e := willing.(recovery := recovery);
    EntryIgnoresRecovery(full.d, q, willing, recovery, life);
    SyncGoesOnFromRecovered(d, q, e, earlier);
    SameDisk(full.d, q, willing, e, life, r);
    SameSyncSameStartup(d, earlier, full.d, life, q, e, r);
    assert !GateSafe(SyncThenRecover(d, q, e, earlier, r, 2));
  }

  lemma SameDisk(d: Durable, q: Request, a: SyncReplies, b: SyncReplies, life: nat, r: RecoveryReplies)
    requires SyncGeneration(Process(d, life), q, a) == SyncGeneration(Process(d, life), q, b)
    ensures SyncThenRecover(d, q, a, life, r, 2) == SyncThenRecover(d, q, b, life, r, 2)
  {
    hide SyncGeneration, RecoverInterrupted;
    TwoCalls(d, Call(Sync(q, a), life), Call(Recover(r), 2));
    TwoCalls(d, Call(Sync(q, b), life), Call(Recover(r), 2));
  }

  lemma UnsafeRetry(d: Durable, q: Request, recovery: RecoveryReplies, drains: bool, current: bool)
    requires Inv(d) && Startable(d, q) && InheritsReplacement(d)
    requires !Settled(d)
             || (!PreflightHolds(GenerationFor(d, q).composite, drains, current) && FallbackOf(d, recovery).Some?)
    ensures !AlwaysGateSafe(d, q, recovery, drains, current)
  {
    hide Inv, SyncGeneration, SyncThenRecover, RecoverInterrupted, Startable;
    var r, willing := WillingRecovery(Unknown), PreflightSync(drains, current, Unknown, Unknown);
    var e := willing.(recovery := recovery);
    var life: nat;
    if !Settled(d) {
      life := EffectsToStored(d, q) + 1;
      InheritedReplacementOpensUnverified(d, q, willing, r);
    } else {
      life := EffectsToClosed(d, q) + (if drains then 3 else 2);
      PreflightFailureOpensUnverified(d, q, drains, current, r);
    }
    EntryIgnoresRecovery(d, q, willing, recovery, life);
    SameDisk(d, q, willing, e, life, r);
    assert !GateSafe(SyncThenRecover(d, q, e, life, r, 2));
  }

  /**
   From any disk at all, whatever dies and whatever else the host replies, a sync and the startup after it leave the
   gate safe exactly when the sync cannot start, or the recovery it begins with blocks it, or what it inherits is over
   a host that serves the active pointer and its preflight succeeds or it has nothing to fall back on.
   */
  lemma SyncIsGateSafeExactly(d: Durable, q: Request, recovery: RecoveryReplies, drains: bool, current: bool)
    requires Inv(d)
    ensures AlwaysGateSafe(d, q, recovery, drains, current) <==> SafeToSync(d, q, recovery, drains, current)
  {
    if SafeToSync(d, q, recovery, drains, current) {
      forall e: SyncReplies, life: nat, r: RecoveryReplies, life': nat |
        e.recovery == recovery && e.drains == drains && e.currentBeforeApply == current
        ensures GateSafe(SyncThenRecover(d, q, e, life, r, life'))
      {
        SafeToSyncIsSafe(d, q, e, life, r, life');
      }
    } else {
      RecoveryDiesOrEnds(d, recovery, 4);
      hide Recovery, RecoverInterrupted, Inv, AlwaysGateSafe, Startable;
      if InheritsReplacement(d) {
        UnsafeRetry(d, q, recovery, drains, current);
      } else {
        UnsafeOnceRecovered(d, q, recovery, drains, current);
      }
    }
  }

  /******* A withdrawn prior *******/

  lemma BarrierIgnoresHandler(p: Process, j: Journal, t: Target, composite: bool, e: SyncReplies,
                              handler: RecoveryReplies)
    requires j.priorPointer.None? || (PreflightPasses(composite, e) && j.priorRestoreForbidden)
    ensures RunBarrier(p, j, t, composite, e) == RunBarrier(p, j, t, composite, e.(handler := handler))
  {
    hide HostEvidenceAccepted, ReceiptFor, FitnessEvidence, ActiveTargetConfirmed;
    if j.priorPointer.Some? {
      ForbiddenSyncIgnoresHandler(p, JournalAt(j, j.phase), t, composite, e, handler);
    }
  }

  lemma ForbiddenAsPlanned(d: Durable, q: Request)
    requires Inv(d) && Enterable(d)
    ensures PlanOf(d, q).journal.priorRestoreForbidden
            == ReplacementForbidsPriorRestore(GenerationFor(d, q).domains, PreviousDomains(d))
  {
    hide ReplacementForbidsPriorRestore, ReceiptsMatchStore;
  }

  /** The handler's host call decides what the host serves when the process dies in it. */
  lemma HandlerDecidesHost(closed: Process, j: Journal, t: Target, composite: bool, e: SyncReplies)
    requires j.priorPointer.Some? && !e.apply.ok
    requires !PreflightPasses(composite, e) || !j.priorRestoreForbidden
    requires closed.life == (if !e.drains then 1 else if PreflightPasses(composite, e) then 4 else 2)
    ensures RunBarrier(closed, j, t, composite, e).0.d.host == e.handler.restore.leaves
  {
    hide ActiveTargetConfirmed, HostConfirms, ActivateTarget;
  }

  lemma SyncIgnoresHandler(d: Durable, q: Request, e: SyncReplies, handler: RecoveryReplies, life: nat)
    requires Inv(d) && Enterable(d)
    requires PriorOf(d).None?
             || (PreflightPasses(GenerationFor(d, q).composite, e)
                 && ReplacementForbidsPriorRestore(GenerationFor(d, q).domains, PreviousDomains(d)))
    ensures SyncGeneration(Process(d, life), q, e) == SyncGeneration(Process(d, life), q, e.(handler := handler))
  {
    hide ReplacementForbidsPriorRestore, CloseForSync, RunBarrier, ReceiptsMatchStore, RecoverInterrupted;
    var e' := e.(handler := handler);
    EntryRecovers(d, life, e.recovery);
    var barrier := AtBarrier(Process(d, life), q, e);
    assert AtBarrier(Process(d, life), q, e') == barrier;
    if barrier.Some? {
      var (b, plan) := barrier.value;
      assert plan.composite == GenerationFor(d, q).composite && plan.journal.priorPointer == PriorOf(d);
      BarrierIgnoresHandler(b, plan.journal, plan.target, plan.composite, e, handler);
    }
  }

  function Elsewhere(): Host { Serving(HostEvidence(false, GenerationId(""), "", "", "", "", "", None)) }

  function FailingSync(drains: bool, current: bool, rollback: Host): SyncReplies {
    PreflightSync(drains, current, Unknown, Unknown).(apply := HostReply(false, Unknown),
                                                      handler := WillingRecovery(rollback))
  }

  lemma SyncConsultsHandler(d: Durable, q: Request, drains: bool, current: bool, rollback: Host)
    requires Inv(d) && Enterable(d) && Startable(d, q) && PriorOf(d).Some?
    requires !PreflightHolds(GenerationFor(d, q).composite, drains, current)
             || !ReplacementForbidsPriorRestore(GenerationFor(d, q).domains, PreviousDomains(d))
    ensures var passes := PreflightHolds(GenerationFor(d, q).composite, drains, current);
            var life := EffectsToClosed(d, q) + (if !drains then 1 else if passes then 4 else 2);
            SyncGeneration(Process(d, life), q, FailingSync(drains, current, rollback)).0.d.host == rollback
  {
    hide RunBarrier, PlanOf, SyncGeneration, ReplacementForbidsPriorRestore, AtBarrier, Startable, Inv, EffectsToClosed;
    var e := FailingSync(drains, current, rollback);
    var passes := PreflightHolds(GenerationFor(d, q).composite, drains, current);
    var life := EffectsToClosed(d, q) + (if !drains then 1 else if passes then 4 else 2);
    EntersBarrier(d, q, e, life);
    ForbiddenAsPlanned(d, q);
    var plan := PlanOf(d, q);
    var closed := AtBarrier(Process(d, life), q, e).value.0;
    HandlerDecidesHost(closed, plan.journal, plan.target, plan.composite, e);
  }

  /**
   A retry never goes back to the prior of the replacement it inherits, whatever dies and whatever the host replies,
   exactly when there is no prior, or its preflight succeeds and it is itself destructive against what is active now:
   what the inherited replacement withdrew is not remembered.
   */
  lemma RetryKeepsPriorWithdrawnExactly(d: Durable, q: Request, drains: bool, current: bool)
    requires Inv(d) && InheritsReplacement(d) && Startable(d, q)
    ensures (forall e: SyncReplies, handler: RecoveryReplies, life: nat |
               e.drains == drains && e.currentBeforeApply == current ::
               SyncGeneration(Process(d, life), q, e) == SyncGeneration(Process(d, life), q, e.(handler := handler)))
            <==> d.journal.value.priorPointer.None?
                 || (PreflightHolds(GenerationFor(d, q).composite, drains, current)
                     && ReplacementForbidsPriorRestore(GenerationFor(d, q).domains, PreviousDomains(d)))
  {
    hide SyncGeneration, ReplacementForbidsPriorRestore;
    if PriorOf(d).None? || (PreflightHolds(GenerationFor(d, q).composite, drains, current)
                            && ReplacementForbidsPriorRestore(GenerationFor(d, q).domains, PreviousDomains(d))) {
      forall e: SyncReplies, handler: RecoveryReplies, life: nat | e.drains == drains && e.currentBeforeApply == current
        ensures SyncGeneration(Process(d, life), q, e) == SyncGeneration(Process(d, life), q, e.(handler := handler))
      {
        SyncIgnoresHandler(d, q, e, handler, life);
      }
    } else {
      SyncConsultsHandler(d, q, drains, current, Unknown);
      SyncConsultsHandler(d, q, drains, current, Elsewhere());
      var e := FailingSync(drains, current, Unknown);
      assert FailingSync(drains, current, Elsewhere()) == e.(handler := WillingRecovery(Elsewhere()));
      var passes := PreflightHolds(GenerationFor(d, q).composite, drains, current);
      var life: nat := EffectsToClosed(d, q) + (if !drains then 1 else if passes then 4 else 2);
      assert SyncGeneration(Process(d, life), q, e)
             != SyncGeneration(Process(d, life), q, e.(handler := WillingRecovery(Elsewhere())));
    }
  }

  /** Applying fails and the host goes back to the prior, which it is verified to serve: the gate opens on the prior. */
  lemma RollsBackOpen(closed: Process, j: Journal, t: Target, composite: bool, e: SyncReplies)
    requires e.drains && e.currentBeforeApply && !e.apply.ok && e.handler.restore.ok && closed.life == 7
    requires j.priorPointer.Some? && !j.priorRestoreForbidden
    requires ActiveTargetConfirmed(closed.d.(host := e.handler.restore.leaves, pointer := j.priorPointer), e.handler)
    ensures RunBarrier(closed, j, t, composite, e).0.d
            == closed.d.(host := e.handler.restore.leaves, pointer := j.priorPointer, gate := None,
                         journal := Some(JournalAt(j, PriorRestored)))
  {
    ConfirmationReadsStore(closed.d.(host := e.handler.restore.leaves, pointer := j.priorPointer),
                           closed.d.(host := e.handler.restore.leaves, pointer := j.priorPointer,
                                     journal := Some(JournalAt(j, HostApplying))), e.handler);
    hide ActiveTargetConfirmed;
  }

  lemma ConfirmationReadsStore(a: Durable, b: Durable, e: RecoveryReplies)
    requires a.pointer == b.pointer && a.host == b.host && a.receipts == b.receipts && a.generations == b.generations
    ensures ActiveTargetConfirmed(a, e) == ActiveTargetConfirmed(b, e)
  {}

  lemma ConfirmationReadsItsOwn(a: Durable, b: Durable, e: RecoveryReplies)
    requires a.pointer.Some? && ActiveTargetConfirmed(a, e) && b.pointer == a.pointer && b.host == a.host
    requires a.pointer.value.receiptId in a.receipts && a.pointer.value.generationId in a.generations
    requires a.pointer.value.receiptId in b.receipts && a.pointer.value.generationId in b.generations
    requires b.receipts[a.pointer.value.receiptId] == a.receipts[a.pointer.value.receiptId]
    requires b.generations[a.pointer.value.generationId] == a.generations[a.pointer.value.generationId]
    ensures ActiveTargetConfirmed(b, e)
  {
    hide HostConfirms;
  }

  lemma NotDestructiveAgainstItself(domains: seq<DomainIndex>)
    requires UniqueDomains(domains)
    ensures !ReplacementForbidsPriorRestore(domains, domains)
  {}

  /** A destructive replacement of what is active, by a generation whose host evidence would be accepted. */
  predicate Replaces(d: Durable, q: Request, apply: Host)
    requires Inv(d)
  {
    && AtRest(d) && d.pointer.Some? && Startable(d, q)
    && ServesTarget(TargetFrom(d, q), GenerationFor(d, q).composite, apply)
    && ReplacementForbidsPriorRestore(GenerationFor(d, q).domains, PreviousDomains(d))
  }

  function ReplacedDisk(d: Durable, q: Request, apply: Host): Durable {
    Perform(d, Call(Sync(q, WillingSync(apply, Unknown)), EffectsToClosed(d, q) + 10))
  }

  predicate OtherReceiptsKept(d: Durable, q: Request, after: Durable) {
    forall id | id in d.receipts && id != ReceiptIdFor(q.generationId) ::
      id in after.receipts && after.receipts[id] == d.receipts[id]
  }

  lemma ReplacedDiskIsSafe(d: Durable, q: Request, apply: Host)
    requires Inv(d) && Replaces(d, q, apply)
    ensures Inv(ReplacedDisk(d, q, apply))
  {
    var e, life := WillingSync(apply, Unknown), EffectsToClosed(d, q) + 10;
    hide SyncGeneration, Hazard, ServesTarget, ReplacementForbidsPriorRestore, TargetFrom;
    EnteringIsHazardFree(d, q, e, life);
    SyncKeepsInv(d, q, e, life);
  }

  lemma ReplacedDiskUnfolds(d: Durable, q: Request, apply: Host)
    requires Inv(d) && Replaces(d, q, apply)
    ensures var plan, stored := PlanOf(d, q), StoredDisk(d, q);
            && plan.target == TargetFrom(d, q) && plan.target.syncGeneration == q.generationId
            && plan.journal.priorRestoreForbidden && plan.journal.priorPointer == d.pointer
            && ReplacedDisk(d, q, apply)
               == ActivatedDisk(stored, plan, apply, Some(Gate(plan.journal.targetSourceRevision, false)))
  {
    hide SyncGeneration, RunBarrier, PlanOf, Inv, ServesTarget, ReplacementForbidsPriorRestore, TargetFrom, ReceiptFor,
         PointerFor, JournalAt, Startable, AtBarrier;
    PlannedTarget(d, q);
    ForbiddenAsPlanned(d, q);
    var e, life := WillingSync(apply, Unknown), EffectsToClosed(d, q) + 10;
    EntersBarrier(d, q, e, life);
    BarrierActivates(AtBarrier(Process(d, life), q, e).value.0, PlanOf(d, q), apply);
  }

  lemma ReplacedDiskIs(d: Durable, q: Request, apply: Host)
    requires Inv(d) && Replaces(d, q, apply)
    ensures var t, after := TargetFrom(d, q), ReplacedDisk(d, q, apply);
            && Inv(after) && after.pointer == Some(PointerFor(t)) && after.generations == StoredDisk(d, q).generations
            && OtherReceiptsKept(d, q, after)
            && after.gate.Some? && !after.gate.value.drift
            && after.journal.Some? && after.journal.value.phase == Completed
               && after.journal.value.priorRestoreForbidden
            && after.journal.value.priorPointer == d.pointer
  {
    hide ReplacedDisk, PlanOf, Inv, Replaces, TargetFrom, ReceiptFor, PointerFor;
    ReplacedDiskIsSafe(d, q, apply);
    ReplacedDiskUnfolds(d, q, apply);
  }

  /** What a retry of the same replacement starts from: startup could not confirm it and parked it. */
  predicate Parked(d: Durable, q: Request, after: Durable)
    requires d.pointer.Some?
  {
    && InheritsReplacement(after) && after.journal.value.priorPointer == d.pointer
    && after.pointer.Some? && after.pointer.value.generationId == q.generationId && after.gate.Some?
    && after.generations == StoredDisk(d, q).generations
    && OtherReceiptsKept(d, q, after)
  }

  lemma MuteRecoveryParks(d: Durable, mute: RecoveryReplies)
    requires d.journal.Some? && d.journal.value.phase == Completed && d.gate.Some? && !d.gate.value.drift
             && !mute.hostAnswers
    ensures Perform(d, Call(Recover(mute), 1)) == d.(journal := Some(JournalAt(d.journal.value, RecoveryFailed)))
  {}

  lemma MuteStartupParks(d: Durable, q: Request, apply: Host, mute: RecoveryReplies)
    requires Inv(d) && Replaces(d, q, apply) && !mute.hostAnswers
    ensures var after := Perform(ReplacedDisk(d, q, apply), Call(Recover(mute), 1));
            Inv(after) && Parked(d, q, after)
  {
    ReplacedDiskIs(d, q, apply);
    assert TargetFrom(d, q).syncGeneration == q.generationId && d.pointer.Some?;
    hide ReplacedDisk, Inv, Replaces, TargetFrom, OtherReceiptsKept, Perform;
    var replaced := ReplacedDisk(d, q, apply);
    CallKeepsInv(replaced, Call(Recover(mute), 1));
    MuteRecoveryParks(replaced, mute);
  }

  /** The withdrawn prior is still confirmed on the parked disk: the replacement stored only things of its own. */
  lemma PriorStaysConfirmed(d: Durable, q: Request, after: Durable, back: RecoveryReplies)
    requires Inv(d) && d.pointer.Some? && Parked(d, q, after) && ActiveTargetConfirmed(d, back)
    requires d.pointer.value.generationId != q.generationId
    ensures ActiveTargetConfirmed(StoredDisk(after, q).(host := d.host, pointer := d.pointer), back)
  {
    hide ActiveTargetConfirmed;
    assert d.receipts[d.pointer.value.receiptId].generationId == d.pointer.value.generationId;
    assert d.pointer.value.receiptId == ReceiptIdFor(d.pointer.value.generationId);
    assert ReceiptIdFor(d.pointer.value.generationId) != ReceiptIdFor(q.generationId);
    ConfirmationReadsItsOwn(d, StoredDisk(after, q).(host := d.host, pointer := d.pointer), back);
  }

  /**
   A replacement that withdrew documents of the active generation completes, dies before opening the gate, cannot be
   confirmed by startup, and is retried: applying fails, and the gate opens on the withdrawn generation again.
   */
  lemma WithdrawnPriorComesBack(d: Durable, q: Request, apply: Host, mute: RecoveryReplies, back: RecoveryReplies)
    requires Inv(d) && Replaces(d, q, apply) && UniqueDomains(GenerationFor(d, q).domains)
    requires !mute.hostAnswers && back.restore == HostReply(true, d.host) && ActiveTargetConfirmed(d, back)
    ensures var parked := Perform(ReplacedDisk(d, q, apply), Call(Recover(mute), 1));
            var e := FailingSync(true, true, Unknown).(handler := back);
            var after := Perform(parked, Call(Sync(q, e), EffectsToClosed(parked, q) + 7));
            && ReplacedDisk(d, q, apply).pointer == Some(PointerFor(TargetFrom(d, q)))
            && TargetFrom(d, q).syncGeneration != d.pointer.value.generationId
            && after.pointer == d.pointer && after.host == d.host && after.gate.None?
  {
    hide Perform, ReplacedDisk, Replaces, ActiveTargetConfirmed, UniqueDomains, Inv, Parked, Startable;
    MuteStartupParks(d, q, apply, mute);
    ReplacedDiskIs(d, q, apply);
    ReplacesAnother(d, q, apply);
    var parked := Perform(ReplacedDisk(d, q, apply), Call(Recover(mute), 1));
    RetryOpensOnPrior(d, q, parked, back);
  }

  lemma ReplacesAnother(d: Durable, q: Request, apply: Host)
    requires Inv(d) && Replaces(d, q, apply) && UniqueDomains(GenerationFor(d, q).domains)
    ensures d.pointer.Some? && AtRest(d) && Startable(d, q) && d.pointer.value.generationId != q.generationId
    ensures TargetFrom(d, q).syncGeneration == q.generationId
  {
    NotDestructiveAgainstItself(GenerationFor(d, q).domains);
    hide ReplacementForbidsPriorRestore, UniqueDomains, ReceiptsMatchStore, HostConfirms;
  }

  lemma RetryOpensOnPrior(d: Durable, q: Request, parked: Durable, back: RecoveryReplies)
    requires Inv(d) && d.pointer.Some? && Startable(d, q) && UniqueDomains(GenerationFor(d, q).domains)
    requires Inv(parked) && Parked(d, q, parked) && d.pointer.value.generationId != q.generationId
    requires back.restore == HostReply(true, d.host) && ActiveTargetConfirmed(d, back)
    ensures var e := FailingSync(true, true, Unknown).(handler := back);
            var after := Perform(parked, Call(Sync(q, e), EffectsToClosed(parked, q) + 7));
            after.pointer == d.pointer && after.host == d.host && after.gate.None?
  {
    hide ActiveTargetConfirmed, ReplacementForbidsPriorRestore, UniqueDomains, Inv, PlanOf, AtBarrier, RunBarrier,
         SyncGeneration;
    NotDestructiveAgainstItself(GenerationFor(d, q).domains);
    PriorStaysConfirmed(d, q, parked, back);
    ParkedAgain(d, q, parked);
    var e, life := FailingSync(true, true, Unknown).(handler := back), EffectsToClosed(parked, q) + 7;
    ForbiddenAsPlanned(parked, q);
    EntersBarrier(parked, q, e, life);
    var plan := PlanOf(parked, q);
    var closed := AtBarrier(Process(parked, life), q, e).value.0;
    ConfirmationReadsStore(StoredDisk(parked, q).(host := d.host, pointer := d.pointer),
                           closed.d.(host := d.host, pointer := d.pointer), back);
    RollsBackOpen(closed, plan.journal, plan.target, plan.composite, e);
  }

  lemma ParkedAgain(d: Durable, q: Request, parked: Durable)
    requires d.pointer.Some? && Parked(d, q, parked) && Startable(d, q)
    ensures GenerationFor(parked, q) == GenerationFor(d, q) && Startable(parked, q) && PriorOf(parked) == d.pointer
    ensures PriorGenerationReadable(parked) && PreviousDomains(parked) == GenerationFor(d, q).domains
  {}

  /******* Retries and the bracket *******/

  /**
   A retry keeps the pointer at its journaled prior or its target, whatever dies and whatever the host replies, exactly
   when the pointer was never moved off the inherited prior, or already names the generation that is retried.
   */
  lemma RetryKeepsBracketExactly(d: Durable, q: Request)
    requires Inv(d) && InheritsReplacement(d) && Startable(d, q)
    ensures (forall e: SyncReplies, life: nat :: Bracketed(Perform(d, Call(Sync(q, e), life))))
            <==> Bracketed(d) && (d.pointer == d.journal.value.priorPointer
                                  || (d.pointer.Some? && d.pointer.value.generationId == q.generationId))
  {
    hide Perform, Bracketed, Startable;
    var kept := Bracketed(d) && (d.pointer == d.journal.value.priorPointer
                                 || (d.pointer.Some? && d.pointer.value.generationId == q.generationId));
    if kept {
      forall e: SyncReplies, life: nat
        ensures Bracketed(Perform(d, Call(Sync(q, e), life)))
      {
        RetryKeepsBracket(d, q, e, life);
      }
    } else {
      RetryLeavesBracket(d, q, WillingSync(Unknown, Unknown));
    }
  }

  lemma RetryKeepsBracket(d: Durable, q: Request, e: SyncReplies, life: nat)
    requires Inv(d) && InheritsReplacement(d) && Bracketed(d)
    requires d.pointer == d.journal.value.priorPointer
             || (d.pointer.Some? && d.pointer.value.generationId == q.generationId)
    ensures Bracketed(Perform(d, Call(Sync(q, e), life)))
  {
    EntryRecovers(d, life, e.recovery);
    hide RecoverInterrupted, RunBarrier, ReplacementForbidsPriorRestore, ReceiptsMatchStore;
    var barrier := AtBarrier(Process(d, life), q, e);
    if barrier.Some? {
      var (b, plan) := barrier.value;
      BarrierKeepsBracket(b, plan.journal, plan.target, plan.composite, e);
    }
  }

  /** It does nothing, or dies having journaled `prepared`. */
  lemma RetryLeavesBracket(d: Durable, q: Request, e: SyncReplies)
    requires Inv(d) && InheritsReplacement(d) && Startable(d, q) && e.builds
    requires !(Bracketed(d) && (d.pointer == d.journal.value.priorPointer
                                || (d.pointer.Some? && d.pointer.value.generationId == q.generationId)))
    ensures exists life: nat :: !Bracketed(Perform(d, Call(Sync(q, e), life)))
  {
    if !Bracketed(d) {
      assert !Bracketed(Perform(d, Call(Sync(q, e), 0))) by { DeadRetryDoesNothing(d, q, e); }
    } else {
      RetryPrepares(d, q, e);
      assert !Bracketed(Perform(d, Call(Sync(q, e), EffectsToStored(d, q) + 1)));
    }
  }

  lemma DeadRetryDoesNothing(d: Durable, q: Request, e: SyncReplies)
    requires Inv(d) && InheritsReplacement(d)
    ensures Perform(d, Call(Sync(q, e), 0)) == d
  {
    EntryRecovers(d, 0, e.recovery);
    hide RecoverInterrupted, RunBarrier, ReplacementForbidsPriorRestore;
    var barrier := AtBarrier(Process(d, 0), q, e);
    if barrier.Some? {
      var (b, plan) := barrier.value;
      DeadBarrierDoesNothing(b, plan.journal, plan.target, plan.composite, e);
    }
  }

  lemma RetryPrepares(d: Durable, q: Request, e: SyncReplies)
    requires Inv(d) && InheritsReplacement(d) && Startable(d, q) && e.builds
    ensures Perform(d, Call(Sync(q, e), EffectsToStored(d, q) + 1))
            == StoredDisk(d, q).(journal := Some(PlanOf(d, q).journal))
    ensures PlanOf(d, q).journal.priorPointer == d.journal.value.priorPointer
            && PlanOf(d, q).journal.syncGeneration == q.generationId
  {
    var life := EffectsToStored(d, q) + 1;
    EntryRecovers(d, life, e.recovery);
    StoreMakes(d, q, life);
    var plan := PlanOf(d, q);
    var died := Process(StoredDisk(d, q).(journal := Some(plan.journal)), 0);
    assert CloseForSync(Process(StoredDisk(d, q), 1), plan.journal) == died;
    DeadBarrierDoesNothing(died, plan.journal, plan.target, plan.composite, e);
    hide RecoverInterrupted, StoreGeneration, RunBarrier, ReplacementForbidsPriorRestore;
  }
}
