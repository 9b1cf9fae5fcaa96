/** What a backup keeps and a restore brings back: the whole ledger, every view, and every open correction, pending. */
module RestoreContents {
  import opened Options
  import opened StateViews
  import opened StateProtocol
  import opened StateSafety
  import opened Reanswers
  import opened StateConstraints
  import opened RestoreProtocol
  import opened RestoreSafety

  /******* What a backup selects *******/

  lemma {:induction false} InsertedRows(e: Event, rows: seq<Event>)
    ensures multiset(InsertRow(e, rows)) == multiset(rows) + multiset{e}
  {
    if rows != [] && e.seqNo > rows[0].seqNo {
      InsertedRows(e, rows[1..]);
      assert rows == [rows[0]] + rows[1..];
    }
  }

  /** The selection drops exactly the rows beyond the revision. */
  lemma {:induction false} SelectedRows(events: seq<Event>, revision: int)
    ensures multiset(RowsUpTo(events, revision)) <= multiset(events)
    ensures forall e :: e in RowsUpTo(events, revision) <==> e in events && e.seqNo <= revision
    ensures (forall e | e in events :: e.seqNo <= revision) ==> multiset(RowsUpTo(events, revision)) == multiset(events)
  {
    if events != [] {
      var rest := RowsUpTo(events[1..], revision);
      SelectedRows(events[1..], revision);
      InsertedRows(events[0], rest);
      assert events == [events[0]] + events[1..];
      var rows := RowsUpTo(events, revision);
      forall e ensures e in rows <==> e in events && e.seqNo <= revision {
        assert e in rows <==> e in multiset(rows);
        assert e in rest <==> e in multiset(rest);
      }
    }
  }

  lemma {:induction false} DistinctAfterInsert(e: Event, rows: seq<Event>)
    requires DistinctEvents(rows) && forall x | x in rows :: Differ(e, x)
    ensures DistinctEvents(InsertRow(e, rows))
  {
    if rows != [] && e.seqNo > rows[0].seqNo {
      assert rows == [rows[0]] + rows[1..];
      forall i, j | 0 <= i < j < |rows[1..]|
        ensures Differ(rows[1..][i], rows[1..][j])
      {
        assert Differ(rows[i + 1], rows[j + 1]);
      }
      DistinctAfterInsert(e, rows[1..]);
      var rest := InsertRow(e, rows[1..]);
      InsertedRows(e, rows[1..]);
      forall j | 0 <= j < |rest| ensures Differ(rows[0], rest[j]) {
        assert rest[j] in multiset(rest);
        if rest[j] == e {
          assert rows[0] in rows && Differ(e, rows[0]);
        } else {
          assert rest[j] in multiset(rows[1..]);
          var k :| 0 <= k < |rows[1..]| && rows[1..][k] == rest[j];
          assert Differ(rows[0], rows[k + 1]);
        }
      }
    }
  }

  lemma {:induction false} SelectedRowsAreDistinct(events: seq<Event>, revision: int)
    requires DistinctEvents(events)
    ensures DistinctEvents(RowsUpTo(events, revision))
  {
    if events != [] {
      var rest := RowsUpTo(events[1..], revision);
      forall i, j | 0 <= i < j < |events[1..]| ensures Differ(events[1..][i], events[1..][j]) {
        assert Differ(events[i + 1], events[j + 1]);
      }
      SelectedRowsAreDistinct(events[1..], revision);
      SelectedRows(events[1..], revision);
      if events[0].seqNo <= revision {
        forall x | x in rest ensures Differ(events[0], x) {
          var k :| 0 <= k < |events[1..]| && events[1..][k] == x;
          assert Differ(events[0], events[k + 1]);
        }
        DistinctAfterInsert(events[0], rest);
      }
    }
  }

  /** No ledger row, that is no event and no history row, lies beyond the head. */
  predicate WithinHead(s: Store) {
    (forall e | e in s.events :: e.seqNo <= s.head.activeSeq) && (forall r | r in s.history :: r <= s.head.activeSeq)
  }

  /**
   A backup drops exactly the ledger rows beyond the head; nothing of the ledger is lost exactly when there are none.
   */
  lemma BackupDropsExactly(s: Store)
    requires Backup(s).Some?
    ensures var t := Backup(s).value;
            && (forall e :: e in t.events <==> e in s.events && e.seqNo <= s.head.activeSeq)
            && (forall r :: r in t.history <==> r in s.history && r <= s.head.activeSeq)
            && (forall k :: k in t.confirmations <==> k in s.confirmations && k in t.outbox)
            && (multiset(t.events) == multiset(s.events) && t.history == s.history <==> WithinHead(s))
  {
    hide Readable, AllInsertable, DistinctRows, DistinctImports, DistinctReceipts;
    var t := Backup(s).value;
    SelectedRows(s.events, s.head.activeSeq);
    if multiset(t.events) == multiset(s.events) {
      forall e | e in s.events ensures e.seqNo <= s.head.activeSeq {
        assert e in multiset(t.events);
        assert e in t.events;
      }
    }
  }

  /** A backup of constrained tables fails exactly when its outbox counts a completion on an open row. */
  lemma BackupSucceedsExactly(s: Store)
    requires Constrained(s)
    ensures Backup(s).Some? <==> forall k | k in s.outbox && Open(s.outbox[k]) :: s.outbox[k].completions == 0
  {
    var t := Selected(s);
    SelectedEventsInsert(s.events, s.head.activeSeq);
    SelectedRows(s.events, s.head.activeSeq);
    assert forall k :: k in t.outbox <==> k in s.outbox && Open(s.outbox[k]);
    assert forall k | k in t.outbox :: t.outbox[k] == s.outbox[k];
    hide AllInsertable, RowsUpTo, DistinctEvents;
    assert DistinctRows(t.outbox) && DistinctImports(t.imports) && DistinctReceipts(t.confirmations);
    assert Readable(t) <==> forall k | k in t.outbox :: t.outbox[k].completions == 0;
  }

  lemma SelectedEventsInsert(events: seq<Event>, revision: int)
    requires DistinctEvents(events)
    ensures AllInsertable([], RowsUpTo(events, revision))
  {
    SelectedRowsAreDistinct(events, revision);
    hide RowsUpTo, DistinctEvents, AllInsertable;
    InsertableIsDistinct([], RowsUpTo(events, revision));
    assert [] + RowsUpTo(events, revision) == RowsUpTo(events, revision);
  }

  /******* What comes back *******/

  /** A store whose ledger, outbox and constraints hold, as every run from an initialized store leaves it. */
  ghost predicate Sound(s: Store) { Inv(s) && OutboxInv(s.outbox) && Constrained(s) }

  lemma {:induction false} RunsAreSound(s: Store, calls: seq<StateProtocol.Call>)
    requires Sound(s)
    ensures Sound(StateProtocol.Run(s, calls))
  {
    LedgerHeadAndHistoryAgree(s, calls);
    OutboxStaysConsistent(s, calls);
    RunsKeepConstrained(s, calls);
  }

  lemma SoundIsBackedUp(s: Store)
    requires Sound(s)
    ensures Backup(s) == Some(Selected(s))
  {
    forall k | k in s.outbox && Open(s.outbox[k])
      ensures s.outbox[k].completions == 0
    {
      assert RowConsistent(s.outbox[k]);
    }
    hide Inv, Constrained, Readable;
    BackupSucceedsExactly(s);
  }

  /** The store a backup of `s` restores to, at the schema it was taken with. */
  function RoundTrip(s: Store, schema: nat): Store
    requires Backup(s).Some?
  {
    Staged(Database(schema, Backup(s).value), schema).store
  }

  /** Selected row by row and inserted again, head, events, history and imports come back as they were. */
  lemma RestoredLedger(s: Store, schema: nat)
    requires Sound(s)
    ensures Backup(s).Some?
    ensures var t := RoundTrip(s, schema);
            && t.instanceId == s.instanceId && t.head == s.head && t.events == s.events
            && t.history == s.history && t.imports == s.imports
  {
    SoundIsBackedUp(s);
    RowsAreAPrefix(s.events, 0, s.head.activeSeq);
    var selected := map r | r in s.history && r <= s.head.activeSeq :: s.history[r];
    assert selected == s.history;
    hide Backup, RowsUpTo, RowMatches, OutboxInv, Constrained;
  }

  /** So every view is the same, and the store keeps working: ledger, head and history still agree. */
  lemma RestoredViews(s: Store, schema: nat, revision: nat)
    requires Sound(s)
    ensures Backup(s).Some? && Inv(RoundTrip(s, schema))
    ensures ViewAt(RoundTrip(s, schema), revision) == ViewAt(s, revision)
  {
    RestoredLedger(s, schema);
    hide RoundTrip, ContractViewFrom, RowMatches, Backup;
  }

  /** Exactly the open corrections come back, each pending with its attempts counted, and nothing is in flight. */
  lemma RestoredOutbox(s: Store, schema: nat)
    requires OutboxInv(s.outbox) && Backup(s).Some?
    ensures var t := RoundTrip(s, schema);
            && (forall k :: k in t.outbox <==> k in s.outbox && Open(s.outbox[k]))
            && (forall k | k in t.outbox ::
                  && t.outbox[k].status == Pending && t.outbox[k].attempt.None?
                  && t.outbox[k] == (if s.outbox[k].status == InFlight
                                     then s.outbox[k].(status := Pending, attempt := None,
                                                       lastError := Some(INTERRUPTED))
                                     else s.outbox[k]))
            && (forall k :: k in t.confirmations <==> k in s.confirmations && k in t.outbox)
            && (forall k | k in t.confirmations :: t.confirmations[k] == s.confirmations[k])
            && t.served == {}
            && OutboxInv(t.outbox)
  {
    hide Readable, AllInsertable, DistinctRows, DistinctImports, DistinctReceipts, RowsUpTo;
  }

  /** The restored store is sound again, so whatever it runs keeps it so and it can be backed up in turn. */
  lemma RestoredIsSound(s: Store, schema: nat)
    requires Sound(s)
    ensures Backup(s).Some? && Sound(RoundTrip(s, schema))
  {
    RestoredViews(s, schema, 0);
    RestoredOutbox(s, schema);
    RestoredLedger(s, schema);
    var t := RoundTrip(s, schema);
    assert DistinctRows(t.outbox) && DistinctReceipts(t.confirmations) && t.confirmations.Keys <= t.outbox.Keys by {
      hide Inv, OutboxInv, DistinctEvents, Backup, RoundTrip;
    }
    hide Inv, OutboxInv, Backup, RoundTrip;
  }

  /** A claim that was in flight when the backup was taken can never act on the restored store. */
  lemma ClaimsDoNotSurvive(s: Store, schema: nat, claim: Claim, calls: seq<StateProtocol.Call>, act: StateProtocol.Call)
    requires OutboxInv(s.outbox) && Backup(s).Some? && ActsFor(s.outbox, claim) && Acts(act, claim)
    ensures !Succeeds(StateProtocol.Run(RoundTrip(s, schema), calls), act)
  {
    RestoredOutbox(s, schema);
    RetiredForever(RoundTrip(s, schema), calls, claim);
    hide StateProtocol.Run;
  }

  /** The backup of a sound store is one a restore accepts, before and after staging. */
  lemma BackupIsReadable(s: Store, schema: nat)
    requires Sound(s)
    ensures Backup(s).Some? && Readable(Backup(s).value) && Readable(RoundTrip(s, schema))
  {
    SoundIsBackedUp(s);
    RestoredOutbox(s, schema);
    RestoredLedger(s, schema);
    hide RowsUpTo, DistinctRows, AllInsertable, DistinctReceipts, Inv, OutboxInv, Constrained;
  }

  /**
   An undisturbed restore of a backup, onto a missing target or a database no run was served from that holds
   something else, ends with the restored store in place, the journal and the lock gone.
   */
  lemma {:induction false} BackupThenRestore(d: Durable, s: Store, schema: nat, hash: string, e: RestoreReplies,
                                             life: nat)
    requires Sound(s) && Backup(s).Some?
    requires d.journal == NoJournal && d.lock == NoLock && GuardAllows(d.target)
    requires !AlreadyHolds(d.target, Database(schema, RoundTrip(s, schema)))
    requires e == Undisturbed() && life >= 13
    ensures var (p, outcome) :=
            Restore(RestoreProtocol.Process(d, life), Request(Database(schema, Backup(s).value), hash, schema), e);
            && outcome == Restored
            && p.d.target == Holds(Db(Database(schema, RoundTrip(s, schema))))
            && p.d.journal == NoJournal && p.d.lock == NoLock
  {
    BackupIsReadable(s, schema);
    hide Staged, Backup, AlreadyHolds, Readable, GuardAllows, Inv, OutboxInv, Constrained, Restore;
    UndisturbedRestores(d, Request(Database(schema, Backup(s).value), hash, schema), life);
  }

  /** What an undisturbed restore of a readable snapshot does: it puts it in place unless the digest agrees already. */
  lemma UndisturbedRestores(d: Durable, q: Request, life: nat)
    requires d.journal == NoJournal && d.lock == NoLock && GuardAllows(d.target) && life >= 13
    requires Migratable(q.snapshot.schema, q.schema) && Readable(Staged(q.snapshot, q.schema).store)
    ensures var (p, outcome) := Restore(RestoreProtocol.Process(d, life), q, Undisturbed());
            && p.d.journal == NoJournal && p.d.lock == NoLock
            && (if AlreadyHolds(d.target, Staged(q.snapshot, q.schema))
                then outcome == AlreadyApplied && p.d.target == d.target
                else outcome == Restored && p.d.target == Holds(Db(Staged(q.snapshot, q.schema))))
  {
    hide Staged, AlreadyHolds, Readable, GuardAllows, Migratable;
  }

  /******* Already applied, and not the snapshot *******/

  /** What an import without events makes of a freshly initialized store: only its own row is new. */
  function EmptyImport(instanceId: string, now: string, importId: string): Store
    requires PrepareManifest(Initialized(instanceId, now), importId, [], now).Ok?
  {
    Import(Initialized(instanceId, now), PrepareManifest(Initialized(instanceId, now), importId, [], now).value, true).0
  }

  lemma EmptyImportAddsItsRow(instanceId: string, now: string, importId: string)
    ensures var s := Initialized(instanceId, now);
            && PrepareManifest(s, importId, [], now).Ok?
            && EmptyImport(instanceId, now, importId)
               == s.(imports := map[importId := PrepareManifest(s, importId, [], now).value.checksum])
  {}

  lemma EmptyImportLooksApplied(instanceId: string, now: string, importId: string, schema: nat)
    requires PrepareManifest(Initialized(instanceId, now), importId, [], now).Ok?
    ensures var s := Initialized(instanceId, now);
            && Backup(s).Some? && Readable(RoundTrip(s, schema))
            && SameAuthority(EmptyImport(instanceId, now, importId), RoundTrip(s, schema))
            && EmptyImport(instanceId, now, importId).served == {}
            && EmptyImport(instanceId, now, importId).imports != RoundTrip(s, schema).imports
  {
    EmptyImportAddsItsRow(instanceId, now, importId);
    var s := Initialized(instanceId, now);
    InitializedInv(instanceId, now);
    InitializedIsConstrained(instanceId, now);
    hide EmptyImport, Inv, Constrained, PrepareManifest, ContractViewFrom, RowsUpTo;
    RestoredLedger(s, schema);
    BackupIsReadable(s, schema);
    assert RoundTrip(s, schema).outbox == map[];
    assert importId in EmptyImport(instanceId, now, importId).imports && RoundTrip(s, schema).imports == map[];
  }

  /**
   A snapshot taken before an import without events, restored onto the store after it: reported as already applied, and
   the import's row stays, which the snapshot does not have.
   */
  lemma {:induction false} ImportCountsAsApplied(instanceId: string, now: string, importId: string, schema: nat,
                                                 hash: string, d: Durable, life: nat)
    requires PrepareManifest(Initialized(instanceId, now), importId, [], now).Ok?
    requires d.target == Holds(Db(Database(schema, EmptyImport(instanceId, now, importId))))
    requires d.journal == NoJournal && d.lock == NoLock && life >= 13
    ensures var s := Initialized(instanceId, now);
            && Backup(s).Some?
            && var q := Request(Database(schema, Backup(s).value), hash, schema);
               var (p, outcome) := Restore(RestoreProtocol.Process(d, life), q, Undisturbed());
               && outcome == AlreadyApplied && p.d.target == d.target
               && d.target != Holds(Db(Staged(q.snapshot, q.schema)))
  {
    EmptyImportLooksApplied(instanceId, now, importId, schema);
    hide Staged, Backup, Readable, EmptyImport, Restore, SameAuthority, PrepareManifest, Initialized;
    var q := Request(Database(schema, Backup(Initialized(instanceId, now)).value), hash, schema);
    UndisturbedRestores(d, q, life);
  }
}
