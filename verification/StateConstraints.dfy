/** The unique constraints of the state tables, which every run of the store keeps. */
module StateConstraints {
  import opened StateViews
  import opened StateProtocol

  predicate Differ(a: Event, b: Event) {
    a.seqNo != b.seqNo && a.eventId != b.eventId && a.idempotencyKey != b.idempotencyKey
  }

  predicate DistinctEvents(events: seq<Event>) { forall i, j | 0 <= i < j < |events| :: Differ(events[i], events[j]) }

  predicate DistinctRows(outbox: Outbox) {
    forall a, b | a in outbox && b in outbox && a != b ::
      && outbox[a].idempotencyKey != outbox[b].idempotencyKey
      && (Open(outbox[a]) && Open(outbox[b]) ==> outbox[a].sessionKeyHash != outbox[b].sessionKeyHash)
  }

  predicate DistinctImports(imports: map<string, ManifestChecksum>) {
    forall a, b | a in imports && b in imports && a != b :: imports[a] != imports[b]
  }

  predicate DistinctReceipts(confirmations: map<string, Confirmation>) {
    forall a, b | a in confirmations && b in confirmations && a != b ::
      confirmations[a].receiptId.Some? ==> confirmations[a].receiptId != confirmations[b].receiptId
  }

  predicate Constrained(s: Store) {
    && DistinctEvents(s.events) && DistinctRows(s.outbox) && DistinctImports(s.imports)
    && DistinctReceipts(s.confirmations) && s.confirmations.Keys <= s.outbox.Keys
  }

  /******* Events *******/

  lemma {:induction false} InsertableIsDistinct(events: seq<Event>, added: seq<Event>)
    ensures DistinctEvents(events) && AllInsertable(events, added) <==> DistinctEvents(events + added)
    decreases |added|
  {
    if added == [] {
      assert events + added == events;
    } else {
      assert events + added == (events + [added[0]]) + added[1..];
      InsertableIsDistinct(events + [added[0]], added[1..]);
      OneMoreEvent(events, added[0]);
      if DistinctEvents(events + added) {
        forall i, j | 0 <= i < j < |events + [added[0]]|
          ensures Differ((events + [added[0]])[i], (events + [added[0]])[j])
        {
          assert Differ((events + added)[i], (events + added)[j]);
        }
      }
    }
  }

  lemma OneMoreEvent(events: seq<Event>, e: Event)
    ensures DistinctEvents(events + [e]) <==> DistinctEvents(events) && Insertable(events, e)
  {
    var all := events + [e];
    if DistinctEvents(all) {
      forall x | x in events ensures Differ(x, e) {
        var i :| 0 <= i < |events| && events[i] == x;
        assert Differ(all[i], all[|events|]);
      }
      forall i, j | 0 <= i < j < |events| ensures Differ(events[i], events[j]) { assert Differ(all[i], all[j]); }
    }
    if DistinctEvents(events) && Insertable(events, e) {
      forall i, j | 0 <= i < j < |all| ensures Differ(all[i], all[j]) {
        if j == |events| { assert events[i] in events; } else { assert Differ(events[i], events[j]); }
      }
    }
  }

  /******* Preservation *******/

  lemma InitializedIsConstrained(instanceId: string, now: string)
    ensures Constrained(Initialized(instanceId, now))
  {}

  lemma ImportKeepsConstrained(s: Store, m: Manifest, accepted: bool)
    requires Constrained(s)
    ensures Constrained(Import(s, m, accepted).0)
  {
    hide AddHistory, ReduceEvents, DistinctEvents, AllInsertable, DistinctRows, DistinctReceipts;
    InsertableIsDistinct(s.events, m.body.events);
  }

  lemma NewRowKeepsDistinct(outbox: Outbox, id: string, row: OutboxRow)
    requires DistinctRows(outbox) && id !in outbox
    requires forall k | k in outbox ::
               outbox[k].idempotencyKey != row.idempotencyKey
                 && !(outbox[k].sessionKeyHash == row.sessionKeyHash && Open(outbox[k]))
    ensures DistinctRows(outbox[id := row])
  {}

  lemma SameRowKeepsDistinct(outbox: Outbox, id: string, row: OutboxRow)
    requires DistinctRows(outbox) && id in outbox
    requires row.idempotencyKey == outbox[id].idempotencyKey && row.sessionKeyHash == outbox[id].sessionKeyHash
    requires Open(row) ==> Open(outbox[id])
    ensures DistinctRows(outbox[id := row])
  {}

  lemma CorrectKeepsConstrained(s: Store, c: Correction)
    requires Constrained(s)
    ensures Constrained(Correct(s, c).0)
  {
    hide DistinctEvents, DistinctRows, Insertable, HistoryRowAt, DistinctImports, ConfirmationRepeats;
    OneMoreEvent(s.events, c.event);
    var t := Correct(s, c).0;
    if t != s {
      NewRowKeepsDistinct(s.outbox, c.correctionId, t.outbox[c.correctionId]);
    }
  }

  lemma CallKeepsConstrained(s: Store, c: Call)
    requires Constrained(s)
    ensures Constrained(Perform(s, c))
  {
    hide DistinctEvents, DistinctRows, DistinctImports, DistinctReceipts, Import, Correct, ViewAt;
    match c
    case ImportCall(m, accepted) => ImportKeepsConstrained(s, m, accepted);
    case CorrectCall(correction) => CorrectKeepsConstrained(s, correction);
    case ApplyCall(input) => CorrectKeepsConstrained(s, CorrectionFor(input, s.instanceId));
    case ClaimCall(id, attempt, now) =>
      if id in s.outbox { SameRowKeepsDistinct(s.outbox, id, ClaimRow(s, id, attempt, now).0.outbox[id]); }
    case CompleteCall(claim, now) =>
      var id := claim.correctionId;
      if id in s.outbox { SameRowKeepsDistinct(s.outbox, id, CompleteClaim(s, claim, now).0.outbox[id]); }
    case ReleaseCall(claim, reason, now) =>
      var id := claim.correctionId;
      if id in s.outbox { SameRowKeepsDistinct(s.outbox, id, ReleaseClaim(s, claim, reason, now).0.outbox[id]); }
    case ServeCall(_) =>
  }

  /** Over every run, the rows of each table keep the constraints the schema declares. */
  lemma {:induction false} RunsKeepConstrained(s: Store, calls: seq<Call>)
    requires Constrained(s)
    ensures Constrained(Run(s, calls))
    decreases |calls|
  {
    if calls != [] {
      CallKeepsConstrained(s, calls[0]);
      hide Perform, Constrained;
      RunsKeepConstrained(Perform(s, calls[0]), calls[1..]);
    }
  }
}
