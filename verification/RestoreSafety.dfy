/** Restore is all or nothing: what recovery will make of the files changes at one effect only, the last. */
module RestoreSafety {
  import StateProtocol
  import R = RestoreProtocol
  import opened RestoreProtocol

  /******* Destiny *******/

  /** A readable journal can be rolled back. */
  predicate Recoverable(d: Durable) {
    d.journal.Journal? && d.journal.targetExisted ==> d.journal.restoreHash in d.rollbacks
  }

  /** The target as it will be once recovery has run. */
  function Destiny(d: Durable): File
    requires Recoverable(d)
  {
    match d.journal
    case Journal(hash, true) => Holds(d.rollbacks[hash])
    case Journal(hash, false) => Absent
    case _ => d.target
  }

  predicate Keeps(p: R.Process, goal: File) { Recoverable(p.d) && Destiny(p.d) == goal }

  lemma RollingBackKeeps(p: R.Process, e: RecoveryReplies)
    requires Recoverable(p.d) && p.d.journal.Journal?
    ensures var (q, outcome) := RollBack(p, p.d.journal.restoreHash, p.d.journal.targetExisted, e);
            && Keeps(q, Destiny(p.d))
            && (outcome == Recovered && q.Alive() ==> q.d.target == Destiny(p.d) && q.d.journal == NoJournal)
  {}

  lemma RecoveryKeeps(p: R.Process, e: RecoveryReplies)
    requires Recoverable(p.d)
    ensures var (q, outcome) := RecoverInterrupted(p, e);
            && Keeps(q, Destiny(p.d))
            && (outcome != RecoveryThrew && q.Alive() ==>
                  q.d.target == Destiny(p.d) && q.d.journal == NoJournal && q.d.lock == NoLock)
  {}

  /******* Restore *******/

  /** Before the journal: the target is the goal and nothing is pending. */
  predicate Untouched(p: R.Process, goal: File) { p.d.target == goal && p.d.journal == NoJournal }

  lemma FailingEarlyKeeps(p: R.Process, hash: string, existed: bool, e: RestoreReplies, goal: File)
    requires Keeps(p, goal)
    requires p.Alive() ==> p.d.target == goal
    ensures Keeps(HandleFailure(p, hash, existed, false, e).0, goal)
  {}

  /** After the rename: the journal points at the goal. */
  predicate Pending(p: R.Process, hash: string, existed: bool, goal: File) {
    && Keeps(p, goal)
    && (p.Alive() ==> p.d.journal == Journal(hash, existed))
  }

  lemma FailingLateKeeps(p: R.Process, hash: string, existed: bool, e: RestoreReplies, goal: File)
    requires Pending(p, hash, existed, goal)
    ensures Keeps(HandleFailure(p, hash, existed, true, e).0, goal)
  {}

  /** Unless the last step was passed the destiny is `goal`; once it has been, it is `staged`. */
  predicate AllOrNothing(result: (R.Process, Outcome), goal: File, staged: File) {
    var (r, outcome) := result;
    && Recoverable(r.d)
    && (outcome != Restored ==> Destiny(r.d) == goal)
    && (outcome == Restored ==> Destiny(r.d) == goal || Destiny(r.d) == staged)
    && (outcome == Restored && r.Alive() ==> r.d.target == staged && r.d.journal == NoJournal)
  }

  /** Only the final removal of the journal changes the destiny. */
  lemma ReplacingIsAllOrNothing(p: R.Process, q: Request, staged: Database, existed: bool, e: RestoreReplies,
                                goal: File)
    requires Keeps(p, goal)
    requires p.Alive() ==> Untouched(p, goal) && existed == goal.Holds?
    requires p.Alive() && existed ==> q.hash in p.d.rollbacks && Holds(p.d.rollbacks[q.hash]) == goal
    ensures AllOrNothing(Replace(p, q, staged, existed, e), goal, Holds(Db(staged)))
  {
    var torn := SetJournal(p, TornJournal);
    var journaled := SetJournal(torn, Journal(q.hash, existed));
    var replaced := RenameStage(journaled, q.hash, Db(staged));
    assert Keeps(torn, goal) && Keeps(journaled, goal) && Pending(replaced, q.hash, existed, goal);
    FailingEarlyKeeps(torn, q.hash, existed, e, goal);
    FailingEarlyKeeps(journaled, q.hash, existed, e, goal);
    FailingLateKeeps(replaced, q.hash, existed, e, goal);
    hide HandleFailure;
  }

  lemma KeepingTargetKeeps(p: R.Process, hash: string, e: RestoreReplies, goal: File)
    requires Keeps(p, goal) && (p.Alive() ==> Untouched(p, goal))
    ensures var (r, ok) := KeepTarget(p, hash, e);
            && Keeps(r, goal) && (r.Alive() ==> Untouched(r, goal))
            && (ok && r.Alive() && goal.Holds? ==> hash in r.d.rollbacks && Holds(r.d.rollbacks[hash]) == goal)
  {}

  lemma ProceedingIsAllOrNothing(p: R.Process, q: Request, staged: Database, e: RestoreReplies, goal: File)
    requires Keeps(p, goal) && (p.Alive() ==> Untouched(p, goal))
    ensures AllOrNothing(Proceed(p, q, staged, e), goal, Holds(Db(staged)))
  {
    var existed := p.d.target.Holds?;
    FailingEarlyKeeps(p, q.hash, false, e, goal);
    FailingEarlyKeeps(p, q.hash, existed, e, goal);
    KeepingTargetKeeps(p, q.hash, e, goal);
    var (kept, ok) := KeepTarget(p, q.hash, e);
    assert kept.Alive() ==> p.Alive();
    FailingEarlyKeeps(kept, q.hash, existed, e, goal);
    if ok { ReplacingIsAllOrNothing(kept, q, staged, existed, e, goal); }
    FailureIsNoSuccess(p, q.hash, false, e);
    FailureIsNoSuccess(p, q.hash, existed, e);
    FailureIsNoSuccess(kept, q.hash, existed, e);
    hide HandleFailure, Replace, KeepTarget, AlreadyHolds, Readable;
  }

  lemma FailureIsNoSuccess(p: R.Process, hash: string, existed: bool, e: RestoreReplies)
    ensures HandleFailure(p, hash, existed, false, e).1 != Restored
  {}

  lemma AttemptIsAllOrNothing(p: R.Process, q: Request, e: RestoreReplies, goal: File)
    requires Keeps(p, goal) && (p.Alive() ==> Untouched(p, goal))
    ensures AllOrNothing(Attempt(p, q, e), goal, Holds(Db(Staged(q.snapshot, q.schema))))
  {
    hide HandleFailure, Proceed, Staged;
    var torn := SetStage(p, q.hash, Torn);
    var copied := SetStage(torn, q.hash, Db(q.snapshot));
    var staged := Staged(q.snapshot, q.schema);
    var ready := SetStage(copied, q.hash, Db(staged));
    FailingEarlyKeeps(p, q.hash, false, e, goal);
    FailingEarlyKeeps(torn, q.hash, false, e, goal);
    FailingEarlyKeeps(copied, q.hash, false, e, goal);
    FailureIsNoSuccess(p, q.hash, false, e);
    FailureIsNoSuccess(torn, q.hash, false, e);
    FailureIsNoSuccess(copied, q.hash, false, e);
    ProceedingIsAllOrNothing(ready, q, staged, e, goal);
  }

  /**
   One restore that crashes, is aborted or fails anywhere: recovery will give back exactly what was there, unless
   the restore got past its last step, and then it will leave exactly the staged snapshot.
   */
  lemma {:induction false} RestoreIsAllOrNothing(d: Durable, q: Request, e: RestoreReplies, life: nat)
    requires Recoverable(d)
    ensures var (r, outcome) := Restore(R.Process(d, life), q, e);
            && Recoverable(r.d)
            && (outcome != Restored ==> Destiny(r.d) == Destiny(d))
            && (outcome == Restored ==> Destiny(r.d) in {Destiny(d), Holds(Db(Staged(q.snapshot, q.schema)))})
            && (outcome == Restored && r.Alive() ==>
                  r.d.target == Holds(Db(Staged(q.snapshot, q.schema))) && r.d.journal == NoJournal
                    && r.d.lock == NoLock)
  {
    hide RecoverInterrupted, GuardAllows, Attempt, Staged;
    var p := R.Process(d, life);
    RecoveryKeeps(p, e.recovery);
    var (r, recovered) := RecoverInterrupted(p, e.recovery);
    if recovered == NothingToRecover {
      var locked := SetLock(SetLock(r, TornLock), Locked);
      AttemptIsAllOrNothing(locked, q, e, Destiny(d));
    }
  }

  /******* Runs *******/

  /** What some restore of the run would have staged. */
  predicate StagedBy(calls: seq<Call>, f: File) {
    exists i | 0 <= i < |calls| ::
      calls[i].RestoreCall? && f == Holds(Db(Staged(calls[i].request.snapshot, calls[i].request.schema)))
  }

  /**
   Over every run of restores and recoveries, each dying or failing anywhere: recovery will leave the target as it
   was before the run, or as the whole of one of the snapshots restored in it, never a mix and never a torn file.
   */
  lemma {:induction false} RunsAreAllOrNothing(d: Durable, calls: seq<Call>)
    requires Recoverable(d)
    ensures Recoverable(Run(d, calls))
    ensures Destiny(Run(d, calls)) == Destiny(d) || StagedBy(calls, Destiny(Run(d, calls)))
    decreases |calls|
  {
    if calls != [] {
      var next := Perform(d, calls[0]);
      match calls[0] {
        case RestoreCall(q, e, life) => RestoreIsAllOrNothing(d, q, e, life);
        case RecoverCall(e, life) => RecoveryKeeps(R.Process(d, life), e);
      }
      hide Perform, Staged;
      RunsAreAllOrNothing(next, calls[1..]);
      var last := Destiny(Run(d, calls));
      if StagedBy(calls[1..], last) {
        var i :| 0 <= i < |calls[1..]| && calls[1..][i].RestoreCall?
                 && last == Holds(Db(Staged(calls[1..][i].request.snapshot, calls[1..][i].request.schema)));
        assert calls[i + 1] == calls[1..][i];
      }
    }
  }

  predicate OnlyRecoveries(calls: seq<Call>) { forall c | c in calls :: c.RecoverCall? }

  lemma {:induction false} InterruptedRecoveriesKeep(d: Durable, calls: seq<Call>)
    requires Recoverable(d) && OnlyRecoveries(calls)
    ensures Recoverable(Run(d, calls)) && Destiny(Run(d, calls)) == Destiny(d)
    decreases |calls|
  {
    if calls != [] {
      RecoveryKeeps(R.Process(d, calls[0].life), calls[0].recover);
      InterruptedRecoveriesKeep(Perform(d, calls[0]), calls[1..]);
    }
  }

  /**
   A restore that died anywhere, any number of interrupted recoveries, and one that gets through: the target is
   exactly as before, or exactly the staged snapshot; a recovery torn off in the middle of its copy is repaired.
   */
  lemma {:induction false} RestoreThenRecover(d: Durable, q: Request, e: RestoreReplies, life: nat,
                                              interrupted: seq<Call>, r: RecoveryReplies,
                           life': nat)
    requires d.journal == NoJournal && OnlyRecoveries(interrupted)
    ensures var before := Run(Restore(R.Process(d, life), q, e).0.d, interrupted);
            var (after, outcome) := RecoverInterrupted(R.Process(before, life'), r);
            outcome != RecoveryThrew && after.Alive() ==>
              && after.d.target in {d.target, Holds(Db(Staged(q.snapshot, q.schema)))}
              && after.d.journal == NoJournal && after.d.lock == NoLock
  {
    RestoreIsAllOrNothing(d, q, e, life);
    var died := Restore(R.Process(d, life), q, e).0.d;
    InterruptedRecoveriesKeep(died, interrupted);
    RecoveryKeeps(R.Process(Run(died, interrupted), life'), r);
    hide Restore, Run, RecoverInterrupted, Staged;
  }

  /******* Files torn while being written *******/

  /** A restore that dies inside its second effect, the first half of writing the lock. */
  lemma DiesTakingLock(d: Durable, q: Request, e: RestoreReplies)
    requires d.journal == NoJournal && d.lock == NoLock && e.verified && e.locks
    ensures Restore(R.Process(d, 2), q, e).0.d == d.(lock := TornLock)
  {
    hide Attempt, GuardAllows;
    var locked := SetLock(SetLock(SetLock(R.Process(d, 2), NoLock), TornLock), Locked);
    assert d.(lock := NoLock) == d;
    if GuardAllows(locked.d.target) { DeadAttemptDoesNothing(locked, q, e); }
  }

  lemma DeadAttemptDoesNothing(p: R.Process, q: Request, e: RestoreReplies)
    requires !p.Alive()
    ensures Attempt(p, q, e).0 == p
  {
    hide AlreadyHolds, Readable, Staged, Migratable;
  }

  /** A restore that dies inside the first half of writing the journal, having kept what was there. */
  lemma DiesWritingJournal(d: Durable, q: Request, e: RestoreReplies)
    requires d.journal == NoJournal && d.lock == NoLock && GuardAllows(d.target)
    requires Migratable(q.snapshot.schema, q.schema) && Readable(Staged(q.snapshot, q.schema).store)
    requires !AlreadyHolds(d.target, Staged(q.snapshot, q.schema))
    requires e == Undisturbed()
    ensures var after := Restore(R.Process(d, if d.target.Holds? then 9 else 8), q, e).0.d;
            after.journal == TornJournal && after.lock == Locked && after.target == d.target
  {
    hide Staged, AlreadyHolds, Readable, Migratable;
  }

  /** Every step succeeds and nobody aborts. */
  function Undisturbed(): RestoreReplies {
    RestoreReplies(RecoveryReplies(false, true, true, true), true, true, false, true, true, false, true, true, true,
                   false, true, true, true, true)
  }

  predicate TornOnDisk(d: Durable) { d.lock == TornLock || d.journal == TornJournal }

  /** What a call reports when it cannot get past a torn file. */
  predicate GivesUp(d: Durable, c: Call) {
    match c
    case RestoreCall(q, e, life) => Restore(R.Process(d, life), q, e).1 == Refused
    case RecoverCall(e, life) => RecoverInterrupted(R.Process(d, life), e).1 == RecoveryThrew
  }

  /** Recovery gets through exactly when it can read the lock and the journal and its own steps succeed. */
  lemma RecoverySucceedsExactly(d: Durable, e: RecoveryReplies, life: nat)
    ensures RecoverInterrupted(R.Process(d, life), e).1 != RecoveryThrew
            <==> && d.lock != TornLock && (d.lock == Locked ==> !e.ownerAlive)
                 && d.journal != TornJournal
                 && (d.journal.Journal? ==>
                       e.removesJournal
                       && (if d.journal.targetExisted then d.journal.restoreHash in d.rollbacks && e.copies
                           else d.target.Holds? ==> e.removesTarget))
  {}

  lemma TornCallGivesUp(d: Durable, c: Call)
    requires TornOnDisk(d)
    ensures GivesUp(d, c) && Perform(d, c) == d
  {
    RecoverySucceedsExactly(d, if c.RestoreCall? then c.restore.recovery else c.recover, c.life);
    hide RollBack, Attempt;
  }

  /**
   A torn lock or journal is never repaired: every later restore and recovery gives up and leaves every file as it is.
   */
  lemma {:induction false} TornFilesBlockForever(d: Durable, calls: seq<Call>)
    requires TornOnDisk(d)
    ensures Run(d, calls) == d && forall c | c in calls :: GivesUp(d, c)
    decreases |calls|
  {
    if calls != [] {
      TornCallGivesUp(d, calls[0]);
      hide GivesUp;
      TornFilesBlockForever(d, calls[1..]);
      forall c | c in calls ensures GivesUp(d, c) {
        if c != calls[0] { assert c in calls[1..]; }
      }
    }
  }

  /******* Targets that are kept *******/

  /** A target that is not a readable database, or has served a run, is never replaced. */
  lemma GuardedTargetIsNeverReplaced(d: Durable, q: Request, e: RestoreReplies, life: nat)
    requires d.journal == NoJournal && !GuardAllows(d.target)
    ensures Restore(R.Process(d, life), q, e).0.d.target == d.target
    ensures Restore(R.Process(d, life), q, e).1 == Refused
  {}

  lemma AttemptingAgain(p: R.Process, q: Request, e: RestoreReplies)
    requires AlreadyHolds(p.d.target, Staged(q.snapshot, q.schema))
    ensures Attempt(p, q, e).0.d.target == p.d.target && Attempt(p, q, e).1 != Restored
  {}

  /** Restoring again what is already there changes nothing. */
  lemma RestoringAgainChangesNothing(d: Durable, q: Request, e: RestoreReplies, life: nat)
    requires Recoverable(d) && d.journal == NoJournal
    requires AlreadyHolds(d.target, Staged(q.snapshot, q.schema))
    ensures Restore(R.Process(d, life), q, e).0.d.target == d.target
    ensures Restore(R.Process(d, life), q, e).1 != Restored
  {
    var locked := SetLock(SetLock(RecoverInterrupted(R.Process(d, life), e.recovery).0, TornLock), Locked);
    AttemptingAgain(locked, q, e);
    hide AlreadyHolds, Staged, GuardAllows, Attempt;
  }

  /** The parts of a database that `authorityDigest` does not read. */
  predicate AgreeBeyondDigest(a: Database, b: Database) {
    && a.schema == b.schema && a.store.instanceId == b.store.instanceId
    && a.store.head.activatedAt == b.store.head.activatedAt && a.store.history == b.store.history
    && a.store.imports == b.store.imports && a.store.confirmations == b.store.confirmations
    && a.store.served == b.store.served
  }

  lemma NothingInFlight(a: StateProtocol.Outbox)
    requires InFlightCount(a) == 0
    ensures AllPending(a) == a
  {
    var inFlight := set k | k in a && a[k].status == StateProtocol.InFlight;
    forall k | k in a ensures a[k].status != StateProtocol.InFlight { assert k !in inFlight; }
  }

  lemma StagedHasNothingInFlight(snapshot: Database, schema: nat)
    ensures InFlightCount(Staged(snapshot, schema).store.outbox) == 0
    ensures Staged(snapshot, schema).store.served == {}
  {
    var outbox := Staged(snapshot, schema).store.outbox;
    forall k | k in outbox ensures outbox[k].status != StateProtocol.InFlight {}
    assert (set k | k in outbox && outbox[k].status == StateProtocol.InFlight) == {};
  }

  /** The digest agrees with a staged snapshot: so does the outbox as stored, and what may differ is the rest. */
  lemma AlreadyHoldsExactly(target: File, snapshot: Database, schema: nat)
    requires AlreadyHolds(target, Staged(snapshot, schema))
    ensures target == Holds(Db(Staged(snapshot, schema)))
            <==> AgreeBeyondDigest(target.content.database, Staged(snapshot, schema))
  {
    StagedHasNothingInFlight(snapshot, schema);
    hide Staged, Readable, AllPending, InFlightCount, PendingCount;
    NothingInFlight(target.content.database.store.outbox);
    NothingInFlight(Staged(snapshot, schema).store.outbox);
  }

  /**
   A restore that reports the snapshot as already applied leaves the target as it was, and that is the staged snapshot
   exactly when schema, instance, activation time, history, imports and confirmations agree too.
   */
  lemma AlreadyAppliedIsSnapshotExactly(d: Durable, q: Request, e: RestoreReplies, life: nat)
    requires Restore(R.Process(d, life), q, e).1 == AlreadyApplied
    ensures Restore(R.Process(d, life), q, e).0.d.target == d.target
    ensures AlreadyHolds(d.target, Staged(q.snapshot, q.schema))
    ensures d.target == Holds(Db(Staged(q.snapshot, q.schema)))
            <==> AgreeBeyondDigest(d.target.content.database, Staged(q.snapshot, q.schema))
  {
    AppliedMeansHeld(d, q, e, life);
    AlreadyHoldsExactly(d.target, q.snapshot, q.schema);
  }

  lemma AppliedMeansHeld(d: Durable, q: Request, e: RestoreReplies, life: nat)
    requires Restore(R.Process(d, life), q, e).1 == AlreadyApplied
    ensures Restore(R.Process(d, life), q, e).0.d.target == d.target
    ensures AlreadyHolds(d.target, Staged(q.snapshot, q.schema))
  {
    hide AlreadyHolds, Staged, GuardAllows, Attempt;
    var p := R.Process(d, life);
    var (r, recovered) := RecoverInterrupted(p, e.recovery);
    var locked := SetLock(SetLock(r, TornLock), Locked);
    assert recovered == NothingToRecover && locked.d.target == d.target;
    AttemptAppliedMeansHeld(locked, q, e);
  }

  lemma AttemptAppliedMeansHeld(p: R.Process, q: Request, e: RestoreReplies)
    requires Attempt(p, q, e).1 == AlreadyApplied
    ensures Attempt(p, q, e).0.d.target == p.d.target
    ensures AlreadyHolds(p.d.target, Staged(q.snapshot, q.schema))
  {
    hide AlreadyHolds, Staged, Readable, Migratable;
  }
}
