/**
 Backup and restore of the state database (`src/recovery/index.ts`) as a specification over the files a restore
 touches.  Copying a file and writing a small JSON file are two effects, torn and then whole; renaming and removing
 are one.  A process is the files plus the number of effects it performs before it dies.
 */
module RestoreProtocol {
  import opened Options
  import opened StateProtocol
  import opened StateConstraints

  /******* Files *******/

  datatype Database = Database(schema: nat, store: Store)

  datatype Content = Torn | Malformed(bytes: string) | Db(database: Database)

  datatype File = Absent | Holds(content: Content)

  datatype JournalFile = NoJournal | TornJournal | Journal(restoreHash: string, targetExisted: bool)

  datatype LockFile = NoLock | TornLock | Locked

  datatype Durable = Durable(target: File, stages: map<string, Content>, rollbacks: map<string, Content>,
                             absentMarkers: set<string>, journal: JournalFile, lock: LockFile)

  datatype Process = Process(d: Durable, life: nat) {
    predicate Alive() { life > 0 }
  }

  function Effect(p: Process, d: Durable): Process { if p.life == 0 then p else Process(d, p.life - 1) }

  function SetTarget(p: Process, f: File): Process { Effect(p, p.d.(target := f)) }

  function SetStage(p: Process, hash: string, c: Content): Process {
    Effect(p, p.d.(stages := p.d.stages[hash := c]))
  }

  function RemoveStage(p: Process, hash: string): Process { Effect(p, p.d.(stages := p.d.stages - {hash})) }

  function SetRollback(p: Process, hash: string, c: Content): Process {
    Effect(p, p.d.(rollbacks := p.d.rollbacks[hash := c]))
  }

  function MarkAbsent(p: Process, hash: string): Process {
    Effect(p, p.d.(absentMarkers := p.d.absentMarkers + {hash}))
  }

  function SetJournal(p: Process, j: JournalFile): Process { Effect(p, p.d.(journal := j)) }

  function SetLock(p: Process, l: LockFile): Process { Effect(p, p.d.(lock := l)) }

  /** `rename(stagePath, targetPath)`. */
  function RenameStage(p: Process, hash: string, c: Content): Process {
    Effect(p, p.d.(target := Holds(c), stages := p.d.stages - {hash}))
  }

  /******* Snapshot contents *******/

  /** What a backup selects: rows up to the head, corrections still open, and the confirmations that join one. */
  function Selected(s: Store): Store {
    s.(events := RowsUpTo(s.events, s.head.activeSeq),
       history := map r | r in s.history && r <= s.head.activeSeq :: s.history[r],
       outbox := map k | k in s.outbox && Open(s.outbox[k]) :: s.outbox[k],
       confirmations := map k | k in s.confirmations && k in s.outbox && Open(s.outbox[k]) :: s.confirmations[k],
       served := {})
  }

  /** `backup`: the rows are inserted under the constraints of the snapshot's tables and read back. */
  function Backup(s: Store): Option<Store> {
    var t := Selected(s);
    if !AllInsertable([], t.events) || !DistinctRows(t.outbox) || !DistinctImports(t.imports)
       || !DistinctReceipts(t.confirmations) || !Readable(t) then None
    else Some(t)
  }

  const INTERRUPTED: string := "RECOVERY_INTERRUPTED_ATTEMPT"

  function PendingAgain(r: OutboxRow): OutboxRow {
    if r.status == InFlight then r.(status := Pending, attempt := None, lastError := Some(INTERRUPTED)) else r
  }

  predicate Migratable(source: nat, target: nat) {
    source == target || (source == 0 && target in {1, 2}) || (source == 1 && target == 2)
  }

  /** Schema 2 adds the history table, with the head as its first row. */
  function Migrate(s: Store, source: nat, target: nat): Store {
    if source < 2 && target == 2 && s.head.activeSeq !in s.history
    then s.(history := s.history[s.head.activeSeq := HistoryRow(s.head.version, s.head.checksum, s.head.activatedAt)])
    else s
  }

  function AllPending(outbox: Outbox): Outbox { map k | k in outbox :: PendingAgain(outbox[k]) }

  /** The staged database: migrated, with nothing in flight and, since a snapshot has no such table, no run served. */
  function Staged(snapshot: Database, schema: nat): Database {
    var migrated := Migrate(snapshot.store, snapshot.schema, schema);
    Database(schema, migrated.(outbox := AllPending(migrated.outbox), served := {}))
  }

  /** `readSnapshotState`: what it checks. */
  predicate Readable(s: Store) {
    && (forall e | e in s.events :: e.seqNo <= s.head.activeSeq)
    && (forall k | k in s.outbox :: Open(s.outbox[k]) && s.outbox[k].completions == 0)
    && (forall a, b | a in s.outbox && b in s.outbox && a != b ::
        s.outbox[a].sessionKeyHash != s.outbox[b].sessionKeyHash)
  }

  function InFlightCount(outbox: Outbox): nat { |set k | k in outbox && outbox[k].status == InFlight| }

  function PendingCount(outbox: Outbox): nat { |set k | k in outbox && outbox[k].status == Pending| }

  /** `authorityDigest` agrees: head, counts, events, and the outbox as a restore would leave it. */
  predicate SameAuthority(a: Store, b: Store) {
    && Readable(a) && Readable(b)
    && a.head.activeSeq == b.head.activeSeq && a.head.version == b.head.version && a.head.checksum == b.head.checksum
    && PendingCount(a.outbox) == PendingCount(b.outbox) && InFlightCount(a.outbox) == InFlightCount(b.outbox)
    && a.events == b.events
    && AllPending(a.outbox) == AllPending(b.outbox)
  }

  predicate AlreadyHolds(target: File, staged: Database) {
    target.Holds? && target.content.Db? && SameAuthority(target.content.database.store, staged.store)
  }

  /** `targetRunGuardReason`: only a missing target, or a database no run was served from, may be replaced. */
  predicate GuardAllows(target: File) {
    target.Absent? || (target.content.Db? && target.content.database.store.served == {})
  }

  /******* Recovery *******/

  datatype RecoveryReplies = RecoveryReplies(ownerAlive: bool, copies: bool, removesTarget: bool, removesJournal: bool)

  datatype RecoveryOutcome = NothingToRecover | Recovered | RecoveryThrew

  /** `recoverInterruptedRestore`. */
  function RollBack(p: Process, hash: string, existed: bool, e: RecoveryReplies): (Process, RecoveryOutcome) {
    if existed && hash !in p.d.rollbacks then (p, RecoveryThrew)
    else
      var torn := if existed then SetTarget(p, Holds(Torn)) else p;
      if existed && !e.copies then (torn, RecoveryThrew)
      else if !existed && p.d.target.Holds? && !e.removesTarget then (p, RecoveryThrew)
      else
        var back := if existed then SetTarget(torn, Holds(p.d.rollbacks[hash]))
                    else if p.d.target.Holds? then SetTarget(p, Absent) else p;
        var cleaned := RemoveStage(back, hash);
        if e.removesJournal then (SetJournal(cleaned, NoJournal), Recovered) else (cleaned, RecoveryThrew)
  }

  /** `recoverInterruptedRuntimeRestore`. */
  function RecoverInterrupted(p: Process, e: RecoveryReplies): (Process, RecoveryOutcome) {
    if p.d.lock == TornLock || (p.d.lock == Locked && e.ownerAlive) then (p, RecoveryThrew)
    else
      match p.d.journal
      case NoJournal => (SetLock(p, NoLock), NothingToRecover)
      case TornJournal => (p, RecoveryThrew)
      case Journal(hash, existed) =>
        var (q, outcome) := RollBack(p, hash, existed, e);
        (if outcome == Recovered then SetLock(q, NoLock) else q, outcome)
  }

  /******* Restore *******/

  datatype Request = Request(snapshot: Database, hash: string, schema: nat)

  /** Which steps fail, and where the caller aborts. */
  datatype RestoreReplies = RestoreReplies(recovery: RecoveryReplies, verified: bool, locks: bool, abortsFirst: bool,
                                           copiesStage: bool, opensStage: bool, abortsSecond: bool,
                                           copiesRollback: bool, writesJournal: bool, renames: bool, abortsThird: bool,
                                           readsRestored: bool, removesJournal: bool, handlerRestores: bool,
                                           handlerRemovesJournal: bool)

  datatype RollbackStatus = NotRequired | RollbackCompleted | RollbackFailed

  datatype Outcome = RecoveredFirst | Refused | AlreadyApplied | Restored | Failed(rollback: RollbackStatus)

  /** The `catch` block. */
  function HandleFailure(p: Process, hash: string, existed: bool, replaced: bool, e: RestoreReplies)
    : (Process, Outcome)
  {
    var torn := if replaced && existed then SetTarget(p, Holds(Torn)) else p;
    var undone := !replaced || (e.handlerRestores && (existed ==> hash in p.d.rollbacks));
    var back := if !replaced || !undone then torn
                else SetTarget(torn, if existed then Holds(p.d.rollbacks[hash]) else Absent);
    var settled := if undone && e.handlerRemovesJournal then SetJournal(back, NoJournal) else back;
    (RemoveStage(settled, hash),
     Failed(if !replaced then NotRequired else if undone then RollbackCompleted else RollbackFailed))
  }

  /** From the journal on. */
  function Replace(p: Process, q: Request, staged: Database, existed: bool, e: RestoreReplies): (Process, Outcome) {
    var torn := SetJournal(p, TornJournal);
    if !e.writesJournal then HandleFailure(torn, q.hash, existed, false, e)
    else
      var journaled := SetJournal(torn, Journal(q.hash, existed));
      if !e.renames then HandleFailure(journaled, q.hash, existed, false, e)
      else
        var replaced := RenameStage(journaled, q.hash, Db(staged));
        if e.abortsThird || !e.readsRestored || !e.removesJournal then HandleFailure(replaced, q.hash, existed, true, e)
        else (SetJournal(replaced, NoJournal), Restored)
  }

  /** Keeping what is there: the rollback copy, or the marker that nothing was. */
  function KeepTarget(p: Process, hash: string, e: RestoreReplies): (Process, bool) {
    if p.d.target.Absent? then (MarkAbsent(p, hash), true)
    else
      var torn := SetRollback(p, hash, Torn);
      if e.copiesRollback then (SetRollback(torn, hash, p.d.target.content), true) else (torn, false)
  }

  /** From the staged database on. */
  function Proceed(p: Process, q: Request, staged: Database, e: RestoreReplies): (Process, Outcome) {
    var existed := p.d.target.Holds?;
    if !Readable(staged.store) then HandleFailure(p, q.hash, false, false, e)
    else if AlreadyHolds(p.d.target, staged) then (RemoveStage(p, q.hash), AlreadyApplied)
    else if e.abortsSecond then HandleFailure(p, q.hash, existed, false, e)
    else
      var (kept, ok) := KeepTarget(p, q.hash, e);
      if ok then Replace(kept, q, staged, existed, e) else HandleFailure(kept, q.hash, existed, false, e)
  }

  /** The `try` block. */
  function Attempt(p: Process, q: Request, e: RestoreReplies): (Process, Outcome) {
    if e.abortsFirst then HandleFailure(p, q.hash, false, false, e)
    else
      var torn := SetStage(p, q.hash, Torn);
      if !e.copiesStage then HandleFailure(torn, q.hash, false, false, e)
      else
        var copied := SetStage(torn, q.hash, Db(q.snapshot));
        if !e.opensStage || !Migratable(q.snapshot.schema, q.schema) then HandleFailure(copied, q.hash, false, false, e)
        else
          var staged := Staged(q.snapshot, q.schema);
          Proceed(SetStage(copied, q.hash, Db(staged)), q, staged, e)
  }

  function Restore(p: Process, q: Request, e: RestoreReplies): (Process, Outcome) {
    var (r, recovered) := RecoverInterrupted(p, e.recovery);
    if recovered == RecoveryThrew then (r, Refused)
    else if recovered == Recovered then (r, RecoveredFirst)
    else if !e.verified || !e.locks then (r, Refused)
    else
      var locked := SetLock(SetLock(r, TornLock), Locked);
      if !GuardAllows(locked.d.target) then (SetLock(locked, NoLock), Refused)
      else
        var (done, outcome) := Attempt(locked, q, e);
        (SetLock(done, NoLock), outcome)
  }

  /******* Runs *******/

  datatype Call = RestoreCall(request: Request, restore: RestoreReplies, life: nat)
                | RecoverCall(recover: RecoveryReplies, life: nat)

  function Perform(d: Durable, c: Call): Durable {
    match c
    case RestoreCall(q, e, life) => Restore(Process(d, life), q, e).0.d
    case RecoverCall(e, life) => RecoverInterrupted(Process(d, life), e).0.d
  }

  function Run(d: Durable, calls: seq<Call>): Durable
    decreases |calls|
  {
    if calls == [] then d else Run(Perform(d, calls[0]), calls[1..])
  }
}
