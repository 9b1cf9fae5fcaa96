/**
 `SqliteStateStore` as `src/state/index.ts` runs it: tables changed row by row inside a transaction that is rolled
 back when a constraint fails.  Every method is proved equal to its specification in `StateProtocol`.
 */
module State {
  import opened Options
  import opened Canonical
  import opened StateViews
  import opened StateProtocol
  import Spec = StateProtocol
  import opened StateSafety
  import opened Reanswers

  class SqliteStateStore {
    const instanceId: string
    var events: seq<Event>
    var head: Head
    var history: History
    var imports: map<string, ManifestChecksum>
    var outbox: Outbox
    var confirmations: map<string, Confirmation>
    var served: set<string>

    function Tables(): Store
      reads this
    {
      Store(instanceId, events, head, history, imports, outbox, confirmations, served)
    }

    constructor (s: Store)
      ensures Tables() == s
    {
      instanceId, events, head, history := s.instanceId, s.events, s.head, s.history;
      imports, outbox, confirmations, served := s.imports, s.outbox, s.confirmations, s.served;
    }

    method Rollback(s: Store)
      requires s.instanceId == instanceId
      modifies this
      ensures Tables() == s
    {
      events, head, history := s.events, s.head, s.history;
      imports, outbox, confirmations, served := s.imports, s.outbox, s.confirmations, s.served;
    }

    /** `#reduceView`: the rows in order, folded into a map, sorted by state. */
    method ReduceView(revision: nat) returns (states: seq<Entry>, checksum: ViewChecksum)
      ensures states == EntriesAt(Tables(), revision)
      ensures checksum == ChecksumAt(Tables(), revision)
    {
      var rows := RowsUpTo(events, revision);
      var current: seq<Entry> := [];
      for i := 0 to |rows|
        invariant current == Fold(rows[..i], EntryOf, EntryKey())
      {
        current := Set(current, EntryOf(rows[i]), EntryKey());
        assert rows[..i + 1][..i] == rows[..i];
      }
      assert rows[..|rows|] == rows;
      states := Sort(current, EntryKey());
      checksum := ChecksumOf(instanceId, revision, Values(states));
    }

    /** The `INSERT`s of an import, stopping at the first violated constraint. */
    method InsertEvents(added: seq<Event>) returns (ok: bool)
      modifies this`events
      ensures ok <==> AllInsertable(old(events), added)
      ensures ok ==> events == old(events) + added
    {
      var i := 0;
      assert added[0..] == added;
      while i < |added|
        invariant 0 <= i <= |added|
        invariant events == old(events) + added[..i]
        invariant AllInsertable(old(events), added) <==> AllInsertable(events, added[i..])
      {
        if !Insertable(events, added[i]) { return false; }
        assert added[..i + 1] == added[..i] + [added[i]];
        assert old(events) + added[..i + 1] == events + [added[i]];
        assert added[i..][1..] == added[i + 1..];
        events := events + [added[i]];
        i := i + 1;
      }
      assert added[..|added|] == added;
      return true;
    }

    /** The history rows of an import, stopping at the first one that is already there. */
    method InsertHistory(added: seq<Event>, activatedAt: string) returns (ok: bool)
      modifies this`history
      ensures ok <==> AddHistory(Tables(), old(history), added, activatedAt).Some?
      ensures ok ==> AddHistory(Tables(), old(history), added, activatedAt) == Some(history)
    {
      hide EntriesAt;
      var i := 0;
      assert added[0..] == added;
      while i < |added|
        invariant 0 <= i <= |added|
        invariant AddHistory(Tables(), old(history), added, activatedAt)
                  == AddHistory(Tables(), history, added[i..], activatedAt)
      {
        var seqNo := added[i].seqNo;
        if seqNo < 0 || seqNo in history { return false; }
        var states, checksum := ReduceView(seqNo);
        assert added[i..][1..] == added[i + 1..];
        ghost var s := Tables();
        history := history[seqNo := HistoryRow(ViewVersion(seqNo, checksum), checksum, activatedAt)];
        HistoryDoesNotMatter(s, Tables(), history, added[i + 1..], activatedAt);
        HistoryDoesNotMatter(s, Tables(), old(history), added, activatedAt);
        HistoryDoesNotMatter(s, Tables(), s.history, added[i..], activatedAt);
        i := i + 1;
      }
      return true;
    }

    method ImportBaseline(importId: string, checksum: ManifestChecksum, initialChecksum: ViewChecksum,
                          added: seq<Event>, expected: Head)
      returns (reply: Reply<bool>)
      modifies this
      ensures (Tables(), reply)
              == Spec.ImportBaseline(old(Tables()), importId, checksum, initialChecksum, added, expected)
    {
      hide AddHistory, AllInsertable, HistoryRowAt;
      if importId in imports || exists i | i in imports :: imports[i] == checksum {
        return if importId in imports && imports[importId] == checksum then Ok(false) else Throws(ImportConflict);
      }
      if served != {} { return Throws(ImportAfterFirstRun); }
      if head.activeSeq != 0 || |events| != 0 || head.checksum != initialChecksum {
        return Throws(ImportRequiresEmptyHead);
      }
      var saved := Tables();
      var ok := InsertEvents(added);
      if !ok {
        Rollback(saved);
        return Throws(UniqueConstraint);
      }
      ghost var inserted := Tables();
      ok := InsertHistory(added, expected.activatedAt);
      HistoryDoesNotMatter(inserted, Tables(), saved.history, added, expected.activatedAt);
      if !ok {
        Rollback(saved);
        return Throws(UniqueConstraint);
      }
      head := expected;
      imports := imports[importId := checksum];
      if expected.activeSeq !in history {
        history := history[expected.activeSeq := HistoryRow(expected.version, expected.checksum, expected.activatedAt)];
      }
      return Ok(true);
    }

    /** `correct`, as one transaction. */
    method Correct(c: Correction) returns (reply: Reply<CorrectionResult>)
      modifies this
      ensures (Tables(), reply) == Spec.Correct(old(Tables()), c)
      ensures old(Inv(Tables())) ==> Inv(Tables())
    {
      hide Inv, ChecksumAt, EntriesAt;
      if Inv(Tables()) { CorrectKeepsInv(Tables(), c); }
      if c.instanceId != instanceId { return Throws(InstanceMismatch); }
      if AlreadyRecorded(Tables(), c) {
        return if ConfirmationRepeats(Tables(), c) then Ok(Repeated) else Throws(IdempotencyConflict);
      }
      if exists k | k in outbox :: outbox[k].sessionKeyHash == c.sessionKeyHash && Open(outbox[k]) {
        return Throws(SessionBusy);
      }
      if head.activeSeq + 1 != c.event.seqNo { return Throws(HeadCasFailed); }
      if !Insertable(events, c.event) { return Throws(UniqueConstraint); }
      var saved := Tables();
      events := events + [c.event];
      var states, checksum := ReduceView(c.event.seqNo);
      ghost var inserted := Tables();
      assert checksum == ChecksumAt(inserted, c.event.seqNo);
      var version := ViewVersion(c.event.seqNo, checksum);
      head := Head(c.event.seqNo, version, checksum, c.createdAt);
      if head.activeSeq in history {
        Rollback(saved);
        return Throws(UniqueConstraint);
      }
      history := history[head.activeSeq := HistoryRow(version, checksum, c.createdAt)];
      outbox := outbox[c.correctionId := OutboxRow(c.sessionKeyHash, c.priorRunId, version, Pending, 0, 0, None, None,
                                                   c.idempotencyKey, c.createdAt, c.createdAt)];
      if c.confirmation.Some? {
        if !ReceiptUnused(confirmations, c) {
          Rollback(saved);
          return Throws(UniqueConstraint);
        }
        confirmations := confirmations[c.correctionId := c.confirmation.value];
      }
      return Ok(Created);
    }

    method Claim(id: string, attempt: Attempt, now: string) returns (reply: Reply<Option<Claim>>)
      modifies this`outbox
      ensures (Tables(), reply) == ClaimRow(old(Tables()), id, attempt, now)
      ensures old(OutboxInv(outbox)) ==> OutboxInv(outbox)
    {
      if OutboxInv(outbox) { CallSteps(Tables(), ClaimCall(id, attempt, now)); }
      if id !in outbox || outbox[id].status != Pending { return Ok(None); }
      if outbox[id].priorRunId == attempt.successorRunId { return Throws(SuccessorNotDistinct); }
      var row := outbox[id].(status := InFlight, attempts := outbox[id].attempts + 1, attempt := Some(attempt),
                             lastError := None, updatedAt := now);
      outbox := outbox[id := row];
      return Ok(Some(Spec.Claim(id, attempt, row.attempts)));
    }

    /** `claimForSession`: any pending row of the session will do, since there is never a second one. */
    method ClaimForSession(session: string, attempt: Attempt, now: string) returns (reply: Reply<Option<Claim>>)
      requires OutboxInv(outbox)
      modifies this`outbox
      ensures forall id | id in old(outbox) && PendingFor(old(outbox)[id], session) ::
                (Tables(), reply) == ClaimRow(old(Tables()), id, attempt, now)
      ensures (forall id | id in old(outbox) :: !PendingFor(old(outbox)[id], session)) ==>
                reply == Ok(None) && outbox == old(outbox)
    {
      if forall id | id in outbox :: !PendingFor(outbox[id], session) { return Ok(None); }
      var pending :| pending in outbox && PendingFor(outbox[pending], session);
      reply := Claim(pending, attempt, now);
    }

    method Complete(c: Spec.Claim, now: string) returns (reply: Reply<()>)
      modifies this`outbox
      ensures (Tables(), reply) == CompleteClaim(old(Tables()), c, now)
      ensures old(OutboxInv(outbox)) ==> OutboxInv(outbox)
      ensures reply.Ok? ==> Retired(outbox, c) && outbox[c.correctionId].completions == 1
    {
      if OutboxInv(outbox) { CallSteps(Tables(), CompleteCall(c, now)); }
      if !ActsFor(outbox, c) || outbox[c.correctionId].completions != 0 { return Throws(ReanswerCasFailed); }
      var row := outbox[c.correctionId].(status := OutboxStatus.Completed, completions := 1, updatedAt := now);
      outbox := outbox[c.correctionId := row];
      return Ok(());
    }

    method Release(c: Spec.Claim, reason: string, now: string) returns (reply: Reply<()>)
      modifies this`outbox
      ensures (Tables(), reply) == ReleaseClaim(old(Tables()), c, reason, now)
      ensures old(OutboxInv(outbox)) ==> OutboxInv(outbox)
      ensures reply.Ok? ==>
                Retired(outbox, c) && PendingFor(outbox[c.correctionId], outbox[c.correctionId].sessionKeyHash)
    {
      if OutboxInv(outbox) { CallSteps(Tables(), ReleaseCall(c, reason, now)); }
      if !ReasonCode(reason) { return Throws(ReasonCodeInvalid); }
      if !ActsFor(outbox, c) { return Throws(ReanswerCasFailed); }
      var row := outbox[c.correctionId].(status := Pending, attempt := None, lastError := Some(reason),
                                         updatedAt := now);
      outbox := outbox[c.correctionId := row];
      return Ok(());
    }
  }

  predicate PendingFor(r: OutboxRow, session: string) { r.sessionKeyHash == session && r.status == Pending }

  /** The rows an import adds to the history do not depend on the history they are added to. */
  lemma {:induction false} HistoryDoesNotMatter(s: Store, t: Store, history: History, added: seq<Event>,
                                                activatedAt: string)
    requires t.instanceId == s.instanceId && t.events == s.events
    ensures AddHistory(s, history, added, activatedAt) == AddHistory(t, history, added, activatedAt)
    decreases |added|
  {
    if added != [] && added[0].seqNo >= 0 {
      HistoryDoesNotMatter(s, t, history[added[0].seqNo := HistoryRowAt(s, added[0].seqNo, activatedAt)], added[1..],
                           activatedAt);
    }
  }
}
