/**
 `restore` and `recoverInterruptedRuntimeRestore` as `src/recovery/index.ts` runs them: files changed in place, the
 flags `targetExisted` and `targetReplaced`, a `catch` block and a `finally`.  Proved equal to `RestoreProtocol`.
 */
module Restore {
  import opened Options
  import opened RestoreProtocol
  import Spec = RestoreProtocol
  import opened RestoreSafety

  class RuntimeRecovery {
    var target: File
    var stages: map<string, Content>
    var rollbacks: map<string, Content>
    var absentMarkers: set<string>
    var journal: JournalFile
    var lock: LockFile
    /** Effects this process still performs before it dies. */
    var life: nat

    function Files(): Durable
      reads this
    {
      Durable(target, stages, rollbacks, absentMarkers, journal, lock)
    }

    function Current(): Spec.Process
      reads this
    {
      Spec.Process(Files(), life)
    }

    constructor (d: Durable, life: nat)
      ensures Current() == Spec.Process(d, life)
    {
      target, stages, rollbacks := d.target, d.stages, d.rollbacks;
      absentMarkers, journal, lock := d.absentMarkers, d.journal, d.lock;
      this.life := life;
    }

    method SetTarget(f: File)
      modifies this`target, this`life
      ensures Current() == Spec.SetTarget(old(Current()), f)
    {
      if life > 0 { target, life := f, life - 1; }
    }

    method SetStage(hash: string, c: Content)
      modifies this`stages, this`life
      ensures Current() == Spec.SetStage(old(Current()), hash, c)
    {
      if life > 0 { stages, life := stages[hash := c], life - 1; }
    }

    method RemoveStage(hash: string)
      modifies this`stages, this`life
      ensures Current() == Spec.RemoveStage(old(Current()), hash)
    {
      if life > 0 { stages, life := stages - {hash}, life - 1; }
    }

    method SetRollback(hash: string, c: Content)
      modifies this`rollbacks, this`life
      ensures Current() == Spec.SetRollback(old(Current()), hash, c)
    {
      if life > 0 { rollbacks, life := rollbacks[hash := c], life - 1; }
    }

    method MarkAbsent(hash: string)
      modifies this`absentMarkers, this`life
      ensures Current() == Spec.MarkAbsent(old(Current()), hash)
    {
      if life > 0 { absentMarkers, life := absentMarkers + {hash}, life - 1; }
    }

    method SetJournal(j: JournalFile)
      modifies this`journal, this`life
      ensures Current() == Spec.SetJournal(old(Current()), j)
    {
      if life > 0 { journal, life := j, life - 1; }
    }

    method SetLock(l: LockFile)
      modifies this`lock, this`life
      ensures Current() == Spec.SetLock(old(Current()), l)
    {
      if life > 0 { lock, life := l, life - 1; }
    }

    method RenameStage(hash: string, c: Content)
      modifies this`target, this`stages, this`life
      ensures Current() == Spec.RenameStage(old(Current()), hash, c)
    {
      if life > 0 { target, stages, life := Holds(c), stages - {hash}, life - 1; }
    }

    /** `copyFile(source, targetPath)`: torn first, whole when it gets through. */
    method CopyToTarget(c: Content, completes: bool)
      modifies this`target, this`life
      ensures var torn := Spec.SetTarget(old(Current()), Holds(Torn));
              Current() == if completes then Spec.SetTarget(torn, Holds(c)) else torn
    {
      SetTarget(Holds(Torn));
      if completes { SetTarget(Holds(c)); }
    }

    /** `recoverInterruptedRestore`.  Following the journal, it never changes what the target will end as. */
    method RollBack(hash: string, existed: bool, e: RecoveryReplies) returns (outcome: RecoveryOutcome)
      modifies this
      ensures (Current(), outcome) == Spec.RollBack(old(Current()), hash, existed, e)
      ensures old(Recoverable(Files()) && journal == Journal(hash, existed)) ==>
                Recoverable(Files()) && Destiny(Files()) == old(Destiny(Files()))
      ensures old(Recoverable(Files()) && journal == Journal(hash, existed)) && outcome == Recovered && life > 0 ==>
                target == old(Destiny(Files())) && journal == NoJournal
    {
      if Recoverable(Files()) && journal == Journal(hash, existed) { RollingBackKeeps(Current(), e); }
      if existed {
        if hash !in rollbacks { return RecoveryThrew; }
        CopyToTarget(rollbacks[hash], e.copies);
        if !e.copies { return RecoveryThrew; }
      } else if target.Holds? {
        if !e.removesTarget { return RecoveryThrew; }
        SetTarget(Absent);
      }
      RemoveStage(hash);
      if !e.removesJournal { return RecoveryThrew; }
      SetJournal(NoJournal);
      return Recovered;
    }

    /** `recoverInterruptedRuntimeRestore`.  Whatever it dies at, the target it will end with stays the same. */
    method RecoverInterrupted(e: RecoveryReplies) returns (outcome: RecoveryOutcome)
      modifies this
      ensures (Current(), outcome) == Spec.RecoverInterrupted(old(Current()), e)
      ensures old(Recoverable(Files())) ==> Recoverable(Files()) && Destiny(Files()) == old(Destiny(Files()))
    {
      hide Spec.RollBack, Destiny;
      if Recoverable(Files()) { RecoveryKeeps(Current(), e); }
      if lock == TornLock || (lock == Locked && e.ownerAlive) { return RecoveryThrew; }
      if journal.NoJournal? {
        SetLock(NoLock);
        return NothingToRecover;
      }
      if journal.TornJournal? { return RecoveryThrew; }
      outcome := RollBack(journal.restoreHash, journal.targetExisted, e);
      if outcome == Recovered { SetLock(NoLock); }
    }

    /** The `catch` block, over the two flags. */
    method HandleFailure(hash: string, targetExisted: bool, targetReplaced: bool, e: RestoreReplies)
      returns (outcome: Outcome)
      modifies this
      ensures (Current(), outcome) == Spec.HandleFailure(old(Current()), hash, targetExisted, targetReplaced, e)
      ensures forall goal |
                old(if targetReplaced then Pending(Current(), hash, targetExisted, goal)
                    else Keeps(Current(), goal) && (life > 0 ==> target == goal)) :: Keeps(Current(), goal)
    {
      forall goal |
        if targetReplaced then Pending(Current(), hash, targetExisted, goal)
        else Keeps(Current(), goal) && (life > 0 ==> target == goal)
        ensures Keeps(Spec.HandleFailure(Current(), hash, targetExisted, targetReplaced, e).0, goal)
      {
        if targetReplaced {
          FailingLateKeeps(Current(), hash, targetExisted, e, goal);
        } else {
          FailingEarlyKeeps(Current(), hash, targetExisted, e, goal);
        }
      }
      hide Keeps, Pending;
      var status := if targetReplaced then RollbackCompleted else NotRequired;
      if targetReplaced {
        if targetExisted {
          SetTarget(Holds(Torn));
          if e.handlerRestores && hash in rollbacks {
            SetTarget(Holds(rollbacks[hash]));
          } else {
            status := RollbackFailed;
          }
        } else if e.handlerRestores {
          SetTarget(Absent);
        } else {
          status := RollbackFailed;
        }
      }
      if status != RollbackFailed && e.handlerRemovesJournal { SetJournal(NoJournal); }
      RemoveStage(hash);
      return Failed(status);
    }

    /** The `try` block up to the staged database; `None` when it threw. */
    method StageSnapshot(q: Request, e: RestoreReplies) returns (staged: Option<Database>)
      modifies this`stages, this`life
      ensures var p := old(Current());
              var torn := if e.abortsFirst then p else Spec.SetStage(p, q.hash, Torn);
              var copied := if e.abortsFirst || !e.copiesStage then torn
                else Spec.SetStage(torn, q.hash, Db(q.snapshot));
              var works := !e.abortsFirst && e.copiesStage && e.opensStage && Migratable(q.snapshot.schema, q.schema);
              && staged == (if works then Some(Staged(q.snapshot, q.schema)) else None)
              && Current() == if works then Spec.SetStage(copied, q.hash, Db(staged.value)) else copied
      ensures old(Recoverable(Files())) ==> Recoverable(Files()) && Destiny(Files()) == old(Destiny(Files()))
    {
      hide Staged, Migratable;
      if e.abortsFirst { return None; }
      SetStage(q.hash, Torn);
      if !e.copiesStage { return None; }
      SetStage(q.hash, Db(q.snapshot));
      if !e.opensStage || !Migratable(q.snapshot.schema, q.schema) { return None; }
      var database := Staged(q.snapshot, q.schema);
      SetStage(q.hash, Db(database));
      return Some(database);
    }

    /** The rest of the `try` block, with the flags it leaves to the `catch`. */
    method ReplaceTarget(q: Request, staged: Database, e: RestoreReplies) returns (outcome: Outcome)
      modifies this
      ensures (Current(), outcome) == Spec.Proceed(old(Current()), q, staged, e)
    {
      hide Spec.HandleFailure, Readable, AlreadyHolds;
      var targetExisted, targetReplaced := false, false;
      if !Readable(staged.store) {
        outcome := HandleFailure(q.hash, targetExisted, targetReplaced, e);
        return;
      }
      targetExisted := target.Holds?;
      if AlreadyHolds(target, staged) {
        RemoveStage(q.hash);
        return AlreadyApplied;
      }
      if e.abortsSecond {
        outcome := HandleFailure(q.hash, targetExisted, targetReplaced, e);
        return;
      }
      if targetExisted {
        SetRollback(q.hash, Torn);
        if !e.copiesRollback {
          outcome := HandleFailure(q.hash, targetExisted, targetReplaced, e);
          return;
        }
        SetRollback(q.hash, target.content);
      } else {
        MarkAbsent(q.hash);
      }
      SetJournal(TornJournal);
      if e.writesJournal { SetJournal(Journal(q.hash, targetExisted)); }
      if !e.writesJournal || !e.renames {
        outcome := HandleFailure(q.hash, targetExisted, targetReplaced, e);
        return;
      }
      RenameStage(q.hash, Db(staged));
      targetReplaced := true;
      if e.abortsThird || !e.readsRestored || !e.removesJournal {
        outcome := HandleFailure(q.hash, targetExisted, targetReplaced, e);
        return;
      }
      SetJournal(NoJournal);
      return Restored;
    }

    /** `restore`.  Unless it passed its last step, what recovery will make of the files is what it was before. */
    method Restore(q: Request, e: RestoreReplies) returns (outcome: Outcome)
      modifies this
      ensures (Current(), outcome) == Spec.Restore(old(Current()), q, e)
      ensures old(Recoverable(Files())) ==>
                && Recoverable(Files())
                && (outcome != Restored ==> Destiny(Files()) == old(Destiny(Files())))
    {
      hide Spec.RecoverInterrupted, Spec.HandleFailure, Proceed, GuardAllows, Destiny, Staged;
      if Recoverable(Files()) { RestoreIsAllOrNothing(Files(), q, e, life); }
      var recovered := RecoverInterrupted(e.recovery);
      if recovered == RecoveryThrew { return Refused; }
      if recovered == Recovered { return RecoveredFirst; }
      if !e.verified || !e.locks { return Refused; }
      SetLock(TornLock);
      SetLock(Locked);
      if !GuardAllows(target) {
        SetLock(NoLock);
        return Refused;
      }
      var staged := StageSnapshot(q, e);
      if staged.None? {
        outcome := HandleFailure(q.hash, false, false, e);
      } else {
        outcome := ReplaceTarget(q, staged.value, e);
      }
      SetLock(NoLock);
    }
  }
}
