/** What a restore stages, and what each of its calls decides when nothing kills it, file by file. */
module RestoreDecisions {
  import opened Options
  import StateProtocol
  import R = RestoreProtocol
  import opened RestoreProtocol
  import opened RestoreSafety

  /******* Staging *******/

  /** Schema 2 may be reached from 0 and 1, and 1 from 0; anything else must be the same. */
  predicate MayMigrate(source: nat, target: nat) {
    source == target || (source < target && (target == 1 || target == 2))
  }

  /** An interrupted re-answer starts over; any other row is as it was. */
  predicate RowStaged(r: StateProtocol.OutboxRow, t: StateProtocol.OutboxRow) {
    if r.status.InFlight? then
      t == r.(status := StateProtocol.OutboxStatus.Pending, attempt := None,
              lastError := Some("RECOVERY_INTERRUPTED_ATTEMPT"))
    else t == r
  }

  /** The snapshot as it goes in place: its rows, nothing in flight, no run served, and a history row for its head. */
  ghost predicate StagedAs(snapshot: Database, schema: nat, x: Database) {
    var s, t := snapshot.store, x.store;
    && x.schema == schema && t.served == {}
    && t.instanceId == s.instanceId && t.events == s.events && t.head == s.head && t.imports == s.imports
    && t.confirmations == s.confirmations
    && t.outbox.Keys == s.outbox.Keys && (forall k | k in s.outbox :: RowStaged(s.outbox[k], t.outbox[k]))
    && t.history
       == (if snapshot.schema < 2 && schema == 2 && s.head.activeSeq !in s.history
           then s.history[s.head.activeSeq := StateProtocol.HistoryRow(s.head.version, s.head.checksum,
                                                                       s.head.activatedAt)]
           else s.history)
  }

  lemma StagesExactly(snapshot: Database, schema: nat, x: Database)
    ensures x == Staged(snapshot, schema) <==> StagedAs(snapshot, schema, x)
  {
    var staged := Staged(snapshot, schema);
    assert StagedAs(snapshot, schema, staged);
    if StagedAs(snapshot, schema, x) { assert x.store.outbox == staged.store.outbox; }
  }

  /** Nothing lies beyond the head, every correction is open and uncompleted, and no session has two. */
  predicate Reads(s: StateProtocol.Store) {
    && (forall e | e in s.events :: e.seqNo <= s.head.activeSeq)
    && (forall k | k in s.outbox :: !s.outbox[k].status.Completed? && s.outbox[k].completions == 0)
    && (forall a, b | a in s.outbox && b in s.outbox && s.outbox[a].sessionKeyHash == s.outbox[b].sessionKeyHash ::
        a == b)
  }

  lemma ReadsExactly(s: StateProtocol.Store)
    ensures Readable(s) <==> Reads(s)
  {}

  /** The target has the staged head, ledger and outbox already. */
  predicate Agrees(target: File, staged: Database) {
    && target.Holds? && target.content.Db?
    && var t, s := target.content.database.store, staged.store;
       && Reads(t) && Reads(s)
       && t.head.activeSeq == s.head.activeSeq && t.head.version == s.head.version && t.head.checksum == s.head.checksum
       && t.events == s.events && t.outbox == s.outbox
  }

  lemma AgreesExactly(target: File, snapshot: Database, schema: nat)
    ensures AlreadyHolds(target, Staged(snapshot, schema)) <==> Agrees(target, Staged(snapshot, schema))
  {
    hide Staged, AllPending, Readable, Reads;
    var staged := Staged(snapshot, schema);
    StagedHasNothingInFlight(snapshot, schema);
    NothingInFlight(staged.store.outbox);
    ReadsExactly(staged.store);
    if target.Holds? && target.content.Db? {
      var t := target.content.database.store;
      ReadsExactly(t);
      if InFlightCount(t.outbox) == 0 { NothingInFlight(t.outbox); }
    }
  }

  /******* Recovery *******/

  /** The rollback copy goes back, or what was not there is removed; then stage, journal and lock go. */
  ghost predicate Recovers(d: Durable, e: RecoveryReplies, after: Durable, outcome: RecoveryOutcome) {
    if d.lock == TornLock || (d.lock == Locked && e.ownerAlive) || d.journal == TornJournal then
      outcome == RecoveryThrew && after == d
    else if d.journal == NoJournal then outcome == NothingToRecover && after == d.(lock := NoLock)
    else
      var hash, existed := d.journal.restoreHash, d.journal.targetExisted;
      if existed && hash !in d.rollbacks then outcome == RecoveryThrew && after == d
      else if existed && !e.copies then outcome == RecoveryThrew && after == d.(target := Holds(Torn))
      else if !existed && d.target != Absent && !e.removesTarget then outcome == RecoveryThrew && after == d
      else
        var back := d.(target := if existed then Holds(d.rollbacks[hash]) else Absent, stages := d.stages - {hash});
        if e.removesJournal then outcome == Recovered && after == back.(journal := NoJournal, lock := NoLock)
        else outcome == RecoveryThrew && after == back
  }

  /** An undisturbed recovery, over any files. */
  lemma RecoversExactly(d: Durable, e: RecoveryReplies, life: nat)
    requires life >= 5
    ensures var (p, outcome) := RecoverInterrupted(R.Process(d, life), e); Recovers(d, e, p.d, outcome)
  {}

  /** A recovery that dies in the middle of copying back leaves a torn target, and the journal to try again with. */
  lemma DiesCopyingBack(d: Durable, e: RecoveryReplies)
    requires d.lock != TornLock && (d.lock == Locked ==> !e.ownerAlive)
    requires d.journal.Journal? && d.journal.targetExisted && d.journal.restoreHash in d.rollbacks
    ensures RecoverInterrupted(R.Process(d, 1), e).0.d == d.(target := Holds(Torn))
  {}

  /******* Failure *******/

  /** What the handler of a failed restore leaves. */
  ghost predicate Handled(d: Durable, hash: string, existed: bool, replaced: bool, e: RestoreReplies, after: Durable,
                          outcome: Outcome) {
    var undone := replaced ==> e.handlerRestores && (existed ==> hash in d.rollbacks);
    && outcome == Failed(if !replaced then NotRequired else if undone then RollbackCompleted else RollbackFailed)
    && after.target == (if !replaced then d.target
                        else if undone then (if existed then Holds(d.rollbacks[hash]) else Absent)
                        else if existed then Holds(Torn) else d.target)
    && after.journal == (if undone && e.handlerRemovesJournal then NoJournal else d.journal)
    && after == d.(target := after.target, journal := after.journal, stages := d.stages - {hash})
  }

  lemma HandlesExactly(d: Durable, hash: string, existed: bool, replaced: bool, e: RestoreReplies, life: nat)
    requires life >= 4 && (existed && replaced && e.handlerRestores ==> hash in d.rollbacks)
    ensures var (p, outcome) := HandleFailure(R.Process(d, life), hash, existed, replaced, e);
            Handled(d, hash, existed, replaced, e, p.d, outcome)
  {}

  /** Once the target was replaced, a handler that dies at once leaves it torn, or gone where nothing was. */
  lemma DiesInHandler(d: Durable, hash: string, existed: bool, e: RestoreReplies)
    requires e.handlerRestores && (existed ==> hash in d.rollbacks)
    ensures HandleFailure(R.Process(d, 1), hash, existed, true, e).0.d
            == d.(target := if existed then Holds(Torn) else Absent)
  {}

  /******* Restore *******/

  /** Only a missing target, or a database no run was served from, is replaced. */
  predicate MayReplace(target: File) {
    target == Absent || (target.Holds? && target.content.Db? && target.content.database.store.served == {})
  }

  /** The restore gets as far as a readable staged database. */
  predicate GetsStaged(d: Durable, q: Request, e: RestoreReplies) {
    && e.verified && e.locks && MayReplace(d.target) && !e.abortsFirst && e.copiesStage && e.opensStage
    && MayMigrate(q.snapshot.schema, q.schema) && Reads(Staged(q.snapshot, q.schema).store)
  }

  /** Every step from there on succeeds, and nobody aborts. */
  predicate GetsThrough(d: Durable, e: RestoreReplies) {
    && !e.abortsSecond && (d.target != Absent ==> e.copiesRollback) && e.writesJournal && e.renames
    && !e.abortsThird && e.readsRestored && e.removesJournal
  }

  /** The staged database in place, what was there kept beside it, and no stage, journal or lock. */
  ghost predicate Replaced(d: Durable, q: Request, after: Durable) {
    && after.target.Holds? && after.target.content.Db? && StagedAs(q.snapshot, q.schema, after.target.content.database)
    && after == d.(target := after.target, stages := d.stages - {q.hash}, lock := NoLock,
                   rollbacks := if d.target == Absent then d.rollbacks
                                else d.rollbacks[q.hash := d.target.content],
                   absentMarkers := if d.target == Absent then d.absentMarkers + {q.hash} else d.absentMarkers)
  }

  /** Of those steps, the ones up to the rename. */
  predicate GetsRenamed(d: Durable, e: RestoreReplies) {
    !e.abortsSecond && (d.target != Absent ==> e.copiesRollback) && e.writesJournal && e.renames
  }

  /** A failed attempt leaves the target, or a journal and a copy to put it back from. */
  ghost predicate Fails(d: Durable, hash: string, e: RestoreReplies, after: Durable, outcome: Outcome) {
    && outcome.Failed? && after.lock == d.lock && hash !in after.stages
    && (outcome.rollback != RollbackFailed ==> after.target == d.target)
    && (outcome.rollback == RollbackFailed ==>
          && !e.handlerRestores && after.journal == RestoreProtocol.Journal(hash, d.target != Absent)
          && (d.target != Absent ==> hash in after.rollbacks && Holds(after.rollbacks[hash]) == d.target))
  }

  lemma FailsBefore(d: Durable, kept: Durable, hash: string, existed: bool, e: RestoreReplies, life: nat)
    requires life >= 4 && kept.target == d.target && kept.lock == d.lock
    ensures var (p, outcome) := HandleFailure(R.Process(kept, life), hash, existed, false, e);
            Fails(d, hash, e, p.d, outcome) && p.life >= life - 2 && outcome.rollback == NotRequired
  {}

  /** From the journal on. */
  lemma ReplacesExactly(d: Durable, q: Request, staged: Database, e: RestoreReplies, life: nat)
    requires life >= 8 && (d.target != Absent ==> q.hash in d.rollbacks && Holds(d.rollbacks[q.hash]) == d.target)
    ensures var (p, outcome) := Replace(R.Process(d, life), q, staged, d.target.Holds?, e);
            && p.life >= life - 7
            && (outcome == Restored <==>
                  e.writesJournal && e.renames && !e.abortsThird && e.readsRestored && e.removesJournal)
            && (outcome == Restored ==>
                  p.d == d.(target := Holds(Db(staged)), stages := d.stages - {q.hash}, journal := NoJournal))
            && (outcome != Restored ==>
                  Fails(d, q.hash, e, p.d, outcome)
                  && (outcome.rollback == NotRequired <==> !(e.writesJournal && e.renames)))
  {}

  /** From the staged database on. */
  lemma ProceedsExactly(d: Durable, q: Request, staged: Database, e: RestoreReplies, life: nat)
    requires life >= 10
    ensures var (p, outcome) := Proceed(R.Process(d, life), q, staged, e);
            && p.life >= life - 9
            && (outcome == AlreadyApplied <==> Readable(staged.store) && AlreadyHolds(d.target, staged))
            && (outcome == Restored <==>
                  Readable(staged.store) && !AlreadyHolds(d.target, staged) && GetsThrough(d, e))
            && (outcome == AlreadyApplied ==> p.d == d.(stages := d.stages - {q.hash}))
            && (outcome == Restored ==>
                  p.d == d.(target := Holds(Db(staged)), stages := d.stages - {q.hash}, journal := NoJournal,
                            rollbacks := if d.target == Absent then d.rollbacks
                                         else d.rollbacks[q.hash := d.target.content],
                            absentMarkers := if d.target == Absent then d.absentMarkers + {q.hash}
                                             else d.absentMarkers))
            && (outcome !in {AlreadyApplied, Restored} ==>
                  Fails(d, q.hash, e, p.d, outcome)
                  && (outcome.rollback == NotRequired <==> !(Readable(staged.store) && GetsRenamed(d, e))))
  {
    hide Readable, AlreadyHolds, Replace, HandleFailure;
    var p := R.Process(d, life);
    FailsBefore(d, d, q.hash, false, e, life);
    FailsBefore(d, d, q.hash, d.target.Holds?, e, life);
    var (kept, ok) := KeepTarget(p, q.hash, e);
    FailsBefore(d, kept.d, q.hash, d.target.Holds?, e, kept.life);
    if ok { ReplacesExactly(kept.d, q, staged, e, kept.life); }
  }

  /** The `try` block, under the lock. */
  lemma AttemptsExactly(d: Durable, q: Request, e: RestoreReplies, life: nat)
    requires life >= 13
    ensures var staged := Staged(q.snapshot, q.schema);
            var (p, outcome) := Attempt(R.Process(d, life), q, e);
            var gets := !e.abortsFirst && e.copiesStage && e.opensStage && Migratable(q.snapshot.schema, q.schema)
                        && Readable(staged.store);
            && p.life >= life - 12
            && (outcome == AlreadyApplied <==> gets && AlreadyHolds(d.target, staged))
            && (outcome == Restored <==> gets && !AlreadyHolds(d.target, staged) && GetsThrough(d, e))
            && (outcome == AlreadyApplied ==> p.d == d.(stages := d.stages - {q.hash}))
            && (outcome == Restored ==>
                  p.d == d.(target := Holds(Db(staged)), stages := d.stages - {q.hash}, journal := NoJournal,
                            rollbacks := if d.target == Absent then d.rollbacks
                                         else d.rollbacks[q.hash := d.target.content],
                            absentMarkers := if d.target == Absent then d.absentMarkers + {q.hash}
                                             else d.absentMarkers))
            && (outcome !in {AlreadyApplied, Restored} ==>
                  Fails(d, q.hash, e, p.d, outcome)
                  && (outcome.rollback == NotRequired <==> !(gets && GetsRenamed(d, e))))
  {
    hide Readable, AlreadyHolds, Proceed, HandleFailure, Staged, Migratable;
    var staged := Staged(q.snapshot, q.schema);
    var torn := SetStage(R.Process(d, life), q.hash, Torn);
    var copied := SetStage(torn, q.hash, Db(q.snapshot));
    var ready := SetStage(copied, q.hash, Db(staged));
    FailsBefore(d, d, q.hash, false, e, life);
    FailsBefore(d, torn.d, q.hash, false, e, torn.life);
    FailsBefore(d, copied.d, q.hash, false, e, copied.life);
    ProceedsExactly(ready.d, q, staged, e, ready.life);
    assert ready.d.stages - {q.hash} == d.stages - {q.hash};
  }

  /**
   An undisturbed restore over no journal and a free lock: it replaces the target, finds it applied already, refuses or
   fails, exactly as its steps and the staged contents say; and failing leaves the target unless it cannot roll back.
   */
  lemma RestoresExactly(d: Durable, q: Request, e: RestoreReplies, life: nat)
    requires life >= 20 && d.journal == NoJournal && d.lock == NoLock
    ensures var (p, outcome) := Restore(R.Process(d, life), q, e);
            var applied := Agrees(d.target, Staged(q.snapshot, q.schema));
            && (outcome == Restored <==> GetsStaged(d, q, e) && !applied && GetsThrough(d, e))
            && (outcome == AlreadyApplied <==> GetsStaged(d, q, e) && applied)
            && (outcome == Refused <==> !e.verified || !e.locks || !MayReplace(d.target))
            && (outcome == Restored ==> Replaced(d, q, p.d))
            && (outcome == AlreadyApplied ==> p.d == d.(stages := d.stages - {q.hash}))
            && (outcome == Refused ==> p.d == d)
            && (outcome.Failed? ==>
                  && (outcome.rollback == NotRequired <==> !(GetsStaged(d, q, e) && GetsRenamed(d, e)))
                  && (outcome.rollback != RollbackFailed ==> p.d.target == d.target)
                  && (outcome.rollback == RollbackFailed ==>
                        && !e.handlerRestores && p.d.journal == RestoreProtocol.Journal(q.hash, d.target != Absent)
                        && (d.target != Absent ==>
                              q.hash in p.d.rollbacks && Holds(p.d.rollbacks[q.hash]) == d.target)))
            && p.d.lock == NoLock && (outcome != Refused ==> q.hash !in p.d.stages)
  {
    hide Staged, AlreadyHolds, Agrees, Readable, Reads, StagedAs, Migratable, Attempt;
    AgreesExactly(d.target, q.snapshot, q.schema);
    ReadsExactly(Staged(q.snapshot, q.schema).store);
    StagesExactly(q.snapshot, q.schema, Staged(q.snapshot, q.schema));
    MigratesExactly(q.snapshot.schema, q.schema);
    var locked := SetLock(SetLock(SetLock(R.Process(d, life), NoLock), TornLock), Locked);
    assert d.(lock := NoLock) == d;
    AttemptsExactly(locked.d, q, e, locked.life);
  }

  lemma MigratesExactly(source: nat, target: nat)
    ensures Migratable(source, target) <==> MayMigrate(source, target)
  {}
}
