/** Which transactions of the state store go through, in the fields of its rows, and what each of them writes. */
module StateDecisions {
  import opened Options
  import opened Canonical
  import opened StateViews
  import opened StateProtocol
  import opened StateSafety
  import opened StateConstraints

  /******* Views *******/

  /** The value of the last event of a state: its own `value`, or the whole payload. */
  predicate ValueReports(v: Value, e: Event) {
    && v.stateId == e.stateId && v.sourceEventId == e.eventId
    && (e.payload.value.Some? ==> v.value == Own(e.payload.value.value))
    && (e.payload.value.None? ==> v.value == Whole(e.payload))
  }

  ghost predicate ReportsLast(v: Value, events: seq<Event>) {
    exists i | 0 <= i < |events| ::
      ValueReports(v, events[i]) && forall j | i < j < |events| :: events[j].stateId != events[i].stateId
  }

  /** By state, each once, exactly the values of the last events. */
  ghost predicate ValuesSay(values: seq<Value>, events: seq<Event>) {
    && (forall i, j | 0 <= i < j < |values| :: TextLess(values[i].stateId, values[j].stateId))
    && forall v :: v in values <==> ReportsLast(v, events)
  }

  /** A view of these events: numbered by them, with its values and a checksum over all of that. */
  ghost predicate ViewSays(v: ContractView, instanceId: string, events: seq<Event>, createdAt: string) {
    && v.instanceId == instanceId && v.activeSeq == |events| && v.createdAt == createdAt && ValuesSay(v.values, events)
    && v.checksum == ViewChecksum(instanceId, |events|, v.values) && v.version == ViewVersion(|events|, v.checksum)
  }

  lemma ReportsIsReportsLast(events: seq<Event>, v: Value)
    ensures Reports(events, ValueOfEvent, v) <==> ReportsLast(v, events)
  {
    forall e: Event ensures v == ValueOfEvent(e) <==> ValueReports(v, e) {}
    if ReportsLast(v, events) {
      var i :| 0 <= i < |events|
               && ValueReports(v, events[i]) && forall j | i < j < |events| :: events[j].stateId != events[i].stateId;
      assert IsLatest(events, i);
    }
  }

  lemma ReducedValuesSay(events: seq<Event>)
    ensures ValuesSay(ReduceValues(events), events)
  {
    hide TextLess;
    var fold := Fold(events, ValueOfEvent, ValueKey());
    var sorted := ReduceValues(events);
    FoldIsLatest(events, ValueOfEvent, ValueKey());
    SortSorts(fold, ValueKey());
    DistinctIsAboutContents(fold, sorted, ValueKey());
    forall v ensures v in sorted <==> ReportsLast(v, events) {
      assert v in multiset(sorted) <==> v in multiset(fold);
      ReportsIsReportsLast(events, v);
    }
    forall i, j | 0 <= i < j < |sorted| ensures TextLess(sorted[i].stateId, sorted[j].stateId) {
      assert TextAtMost(ValueKey()(sorted[i]), ValueKey()(sorted[j])) && ValueKey()(sorted[i]) != ValueKey()(sorted[j]);
    }
  }

  /** Two strictly sorted lists of the same values are the same list. */
  lemma {:induction false} StrictlySortedIsUnique(a: seq<Value>, b: seq<Value>)
    requires forall i, j | 0 <= i < j < |a| :: TextLess(a[i].stateId, a[j].stateId)
    requires forall i, j | 0 <= i < j < |b| :: TextLess(b[i].stateId, b[j].stateId)
    requires forall v :: v in a <==> v in b
    ensures a == b
  {
    assert (a != [] ==> a[0] in a) && (b != [] ==> b[0] in b);
    if a != [] && b != [] {
      FirstIsLeast(a, b);
      assert a == [a[0]] + a[1..] && b == [b[0]] + b[1..];
      RestOmitsFirst(a);
      RestOmitsFirst(b);
      forall v ensures v in a[1..] <==> v in b[1..] { assert v in [a[0]] + a[1..] <==> v in [b[0]] + b[1..]; }
      StrictlySortedIsUnique(a[1..], b[1..]);
    }
  }

  lemma RestOmitsFirst(a: seq<Value>)
    requires a != [] && forall i, j | 0 <= i < j < |a| :: TextLess(a[i].stateId, a[j].stateId)
    ensures a[0] !in a[1..]
  {
    if a[0] in a[1..] {
      var k :| 0 <= k < |a[1..]| && a[1..][k] == a[0];
      assert TextLess(a[0].stateId, a[k + 1].stateId);
      TextLessTrichotomy(a[0].stateId, a[0].stateId);
    }
  }

  lemma FirstIsLeast(a: seq<Value>, b: seq<Value>)
    requires a != [] && b != []
    requires forall i, j | 0 <= i < j < |a| :: TextLess(a[i].stateId, a[j].stateId)
    requires forall i, j | 0 <= i < j < |b| :: TextLess(b[i].stateId, b[j].stateId)
    requires forall v :: v in a <==> v in b
    ensures a[0] == b[0]
  {
    assert a[0] in a && b[0] in b;
    var i :| 0 <= i < |a| && a[i] == b[0];
    var j :| 0 <= j < |b| && b[j] == a[0];
    if i > 0 && j > 0 {
      assert TextLess(a[0].stateId, a[i].stateId) && TextLess(b[0].stateId, b[j].stateId);
      TextLessTrichotomy(a[0].stateId, b[0].stateId);
    }
  }

  /** `reduceEvents` returns the one view of these events. */
  lemma ReducesExactly(instanceId: string, events: seq<Event>, createdAt: string, v: ContractView)
    ensures v == ReduceEvents(instanceId, events, createdAt) <==> ViewSays(v, instanceId, events, createdAt)
  {
    hide TextLess, Fold;
    ReducedValuesSay(events);
    PredictionMatches(instanceId, events, createdAt);
    ReductionsAgree(instanceId, events);
    assert ReduceEvents(instanceId, events, createdAt).values == ReduceValues(events);
    if ViewSays(v, instanceId, events, createdAt) { StrictlySortedIsUnique(v.values, ReduceValues(events)); }
  }

  /******* Import *******/

  /** A manifest of this instance, whole, numbered, with the view and head its events reduce to. */
  ghost predicate ManifestSays(m: Manifest, instanceId: string) {
    var b, v := m.body, m.body.expectedView;
    && b.instanceId == instanceId && m.checksum == ManifestChecksum(b)
    && (forall i | 0 <= i < |b.events| :: b.events[i].seqNo == i + 1)
    && ViewSays(v, instanceId, b.events, b.createdAt)
    && b.expectedHead == Head(v.activeSeq, v.version, v.checksum, v.createdAt)
  }

  /** No event of the manifest repeats another's id or key. */
  predicate EventsDiffer(events: seq<Event>) {
    forall i, j | 0 <= i < j < |events| ::
      events[i].eventId != events[j].eventId && events[i].idempotencyKey != events[j].idempotencyKey
  }

  lemma ChecksManifestExactly(s: Store, m: Manifest, accepted: bool)
    ensures var simulated := ReduceEvents(s.instanceId, m.body.events, m.body.createdAt);
            ManifestSays(m, s.instanceId) && accepted <==>
            && m.body.instanceId == s.instanceId && m.checksum == ManifestChecksum(m.body)
            && NumberedFromOne(m.body.events) && accepted
            && simulated == m.body.expectedView && HeadFromView(simulated) == m.body.expectedHead
  {
    hide ViewSays, ReduceEvents;
    ReducesExactly(s.instanceId, m.body.events, m.body.createdAt, m.body.expectedView);
  }

  lemma DistinctExactly(events: seq<Event>)
    requires NumberedFromOne(events)
    ensures DistinctEvents(events) <==> EventsDiffer(events)
  {
    forall i, j | 0 <= i < j < |events|
      ensures Differ(events[i], events[j]) <==>
              events[i].eventId != events[j].eventId && events[i].idempotencyKey != events[j].idempotencyKey
    {}
  }

  lemma InsertsExactly(events: seq<Event>)
    requires NumberedFromOne(events)
    ensures AllInsertable([], events) <==> EventsDiffer(events)
  {
    hide AllInsertable, DistinctEvents, EventsDiffer;
    InsertableIsDistinct([], events);
    assert [] + events == events;
    EmptyIsDistinct();
    DistinctExactly(events);
  }

  lemma EmptyIsDistinct()
    ensures DistinctEvents([])
  {}

  /** A baseline is imported exactly once, from a manifest that says so, into an empty store no run was served from. */
  lemma ImportsExactly(s: Store, m: Manifest, accepted: bool)
    requires Inv(s)
    ensures var (t, reply) := Import(s, m, accepted);
            var id, known := m.body.importId, exists i | i in s.imports :: s.imports[i] == m.checksum;
            && (reply == Ok(false) <==>
                  ManifestSays(m, s.instanceId) && accepted && id in s.imports && s.imports[id] == m.checksum)
            && (reply == Ok(true) <==>
                  && ManifestSays(m, s.instanceId) && accepted && id !in s.imports && !known
                  && s.served == {} && s.events == [] && s.head.checksum == m.body.initializedHeadChecksum
                  && EventsDiffer(m.body.events))
            && (reply != Ok(true) ==> t == s)
            && (reply == Ok(true) ==>
                  && t == s.(events := m.body.events, head := m.body.expectedHead, history := t.history,
                             imports := s.imports[id := m.checksum])
                  && (forall r: nat :: r in t.history <==> r <= |m.body.events|)
                  && (forall r | r in t.history && r != 0 :: t.history[r].activatedAt == m.body.createdAt))
  {
    hide ManifestSays, ReduceEvents, HeadFromView, AllInsertable, EventsDiffer, RowMatches, AddHistory;
    ChecksManifestExactly(s, m, accepted);
    if m.body.instanceId == s.instanceId && NumberedFromOne(m.body.events) && s.events == [] {
      InsertsExactly(m.body.events);
      EmptyHistoryIsAStart(s, m.body.events);
      AddingHistory(s.(events := m.body.events), s.history, 0, m.body.expectedHead.activatedAt);
      assert m.body.events[0..] == m.body.events && [] + m.body.events == m.body.events;
      assert s.(events := s.events + m.body.events) == s.(events := m.body.events);
      PredictedHeadMatches(s.instanceId, m.body.events, m.body.createdAt);
    }
  }

  /******* Corrections *******/

  /** The correction, or its idempotency key, is in the outbox already. */
  predicate Known(s: Store, correctionId: string, key: string) {
    correctionId in s.outbox || exists k | k in s.outbox :: s.outbox[k].idempotencyKey == key
  }

  /** The session has nothing open, the event is next and new, and the receipt was never used. */
  predicate MayCreate(s: Store, correctionId: string, sessionKeyHash: string, key: string, event: Event,
                      receiptId: Option<string>) {
    && !Known(s, correctionId, key)
    && (forall k | k in s.outbox && s.outbox[k].sessionKeyHash == sessionKeyHash :: s.outbox[k].status.Completed?)
    && event.seqNo == s.head.activeSeq + 1
    && (forall x | x in s.events :: x.eventId != event.eventId && x.idempotencyKey != event.idempotencyKey)
    && (receiptId.Some? ==> forall k | k in s.confirmations :: s.confirmations[k].receiptId != receiptId)
  }

  /** The confirmation is the one on record, or none is given. */
  predicate ConfirmsAgain(s: Store, correctionId: string, confirmation: Option<Confirmation>) {
    confirmation.Some? ==>
      correctionId in s.confirmations && s.confirmations[correctionId] == confirmation.value
  }

  /** The event is the new head's, with its row, a pending re-answer for the session, and the confirmation. */
  ghost predicate Corrected(s: Store, c: Correction, t: Store) {
    && t == s.(events := s.events + [c.event], head := t.head, history := t.history, outbox := t.outbox,
               confirmations := t.confirmations)
    && t.head.activeSeq == |s.events| + 1 && t.head.activatedAt == c.createdAt
    && (exists values ::
          && ValuesSay(values, t.events) && t.head.checksum == ViewChecksum(s.instanceId, |t.events|, values))
    && t.head.version == ViewVersion(|t.events|, t.head.checksum)
    && t.history == s.history[|t.events| := HistoryRow(t.head.version, t.head.checksum, c.createdAt)]
    && t.outbox == s.outbox[c.correctionId :=
                            OutboxRow(c.sessionKeyHash, c.priorRunId, t.head.version, OutboxStatus.Pending, 0, 0, None,
                                      None, c.idempotencyKey, c.createdAt, c.createdAt)]
    && t.confirmations == (if c.confirmation.Some? then s.confirmations[c.correctionId := c.confirmation.value]
                           else s.confirmations)
  }

  function ReceiptOf(c: Correction): Option<string> {
    if c.confirmation.Some? then c.confirmation.value.receiptId else None
  }

  lemma NextIsNew(s: Store, e: Event)
    requires Inv(s) && e.seqNo == s.head.activeSeq + 1
    ensures Insertable(s.events, e) <==>
            forall x | x in s.events :: x.eventId != e.eventId && x.idempotencyKey != e.idempotencyKey
    ensures |s.events| + 1 !in s.history && s.head.activeSeq == |s.events|
  {
    forall x | x in s.events ensures x.seqNo != e.seqNo {
      var i :| 0 <= i < |s.events| && s.events[i] == x;
    }
  }

  lemma NewHeadSays(s: Store, t: Store, c: Correction)
    requires NumberedFromOne(t.events) && t.events != [] && t.instanceId == s.instanceId
    ensures ChecksumAt(t, |t.events|) == ViewChecksum(s.instanceId, |t.events|, ReduceValues(t.events))
    ensures ValuesSay(ReduceValues(t.events), t.events)
  {
    ChecksumIsLedgers(t, |t.events|);
    assert t.events[..|t.events|] == t.events;
    ReductionsAgree(t.instanceId, t.events);
    ReducedValuesSay(t.events);
  }

  lemma CreatesExactly(s: Store, c: Correction)
    requires Inv(s) && Constrained(s)
    ensures var (t, reply) := Correct(s, c);
            && (reply == Ok(Created) <==>
                  && c.instanceId == s.instanceId
                  && MayCreate(s, c.correctionId, c.sessionKeyHash, c.idempotencyKey, c.event, ReceiptOf(c)))
            && (reply == Ok(Repeated) <==>
                  && c.instanceId == s.instanceId && Known(s, c.correctionId, c.idempotencyKey)
                  && ConfirmsAgain(s, c.correctionId, c.confirmation))
            && (reply != Ok(Created) ==> t == s)
  {
    assert c.correctionId in s.confirmations ==> c.correctionId in s.outbox;
    hide DistinctEvents, DistinctRows, DistinctImports, DistinctReceipts, HistoryRowAt, RowMatches, HistoryMatches,
         Insertable;
    if c.event.seqNo == s.head.activeSeq + 1 { NextIsNew(s, c.event); }
  }

  lemma CreatedIsCorrected(s: Store, c: Correction)
    requires Inv(s) && Correct(s, c).1 == Ok(Created)
    ensures Corrected(s, c, Correct(s, c).0)
  {
    hide ValuesSay, ChecksumAt, RowMatches, HistoryMatches, Insertable, AlreadyRecorded;
    NewHeadSays(s, s.(events := s.events + [c.event]), c);
  }

  /** A correction is recorded exactly when it is new and next, and repeated exactly when it is known and the same. */
  lemma CorrectsExactly(s: Store, c: Correction)
    requires Inv(s) && Constrained(s)
    ensures var (t, reply) := Correct(s, c);
            && (reply == Ok(Created) <==>
                  && c.instanceId == s.instanceId
                  && MayCreate(s, c.correctionId, c.sessionKeyHash, c.idempotencyKey, c.event, ReceiptOf(c)))
            && (reply == Ok(Repeated) <==>
                  && c.instanceId == s.instanceId && Known(s, c.correctionId, c.idempotencyKey)
                  && ConfirmsAgain(s, c.correctionId, c.confirmation))
            && (reply == Ok(Created) ==> Corrected(s, c, t))
            && (reply != Ok(Created) ==> t == s)
  {
    hide Inv, Constrained, Correct, Corrected, MayCreate, Known, ConfirmsAgain;
    CreatesExactly(s, c);
    if Correct(s, c).1 == Ok(Created) { CreatedIsCorrected(s, c); }
  }

  /** The preview is whole and of this store, and confirmed: by a receipt that names it, used as the key, or by hand. */
  predicate Confirmed(i: ApplyInput, instanceId: string) {
    var p := i.preview;
    && p.checksum == PreviewChecksum(p.body) && p.body.instanceId == instanceId
    && (i.confirmedChecksum.Some? ==> i.confirmedChecksum.value == p.checksum)
    && (i.receipt.Some? ==>
          && i.receipt.value.previewId == p.body.previewId && i.receipt.value.previewChecksum == p.checksum
          && i.receipt.value.baseChecksum == p.body.baseChecksum && i.receipt.value.receiptId == i.idempotencyKey)
    && (i.receipt.None? ==> i.confirmedChecksum.Some?)
  }

  /** The planned base is still the head, and the preview has not expired. */
  predicate StillCurrent(s: Store, i: ApplyInput) {
    i.now <= i.preview.body.expiresAt && s.head.checksum == i.preview.body.baseChecksum
  }

  lemma CurrentViewIsHead(s: Store)
    requires Inv(s)
    ensures ViewAt(s, s.head.activeSeq).Ok? && ViewAt(s, s.head.activeSeq).value.checksum == s.head.checksum
  {
    ReductionsAgree(s.instanceId, s.events);
    ChecksumIsLedgers(s, s.head.activeSeq);
    assert s.events[..|s.events|] == s.events;
    InvMeans(s);
  }

  lemma ConfirmedExactly(i: ApplyInput, instanceId: string)
    ensures ApplyError(i, instanceId).None? <==> Confirmed(i, instanceId)
  {}

  /** What `applyCorrection` records a correction as. */
  function ConfirmationOf(i: ApplyInput): Confirmation {
    Confirmation(i.preview.body.previewId, i.preview.checksum,
                 if i.receipt.Some? then Some(i.receipt.value.receiptId) else None)
  }

  /** A planned correction is applied exactly when it is confirmed and current, new and next; a repeat needs no more. */
  lemma AppliesExactly(s: Store, i: ApplyInput)
    requires Inv(s) && Constrained(s)
    ensures var (t, reply) := ApplyCorrection(s, i);
            var c := Correction(i.preview.body.event, Some(ConfirmationOf(i)), i.correctionId, s.instanceId,
                                i.sessionKeyHash, i.priorRunId, i.idempotencyKey, i.createdAt);
            && (reply == Ok(Created) <==>
                  && Confirmed(i, s.instanceId) && StillCurrent(s, i)
                  && MayCreate(s, i.correctionId, i.sessionKeyHash, i.idempotencyKey, i.preview.body.event,
                               ConfirmationOf(i).receiptId))
            && (reply == Ok(Repeated) <==>
                  && Confirmed(i, s.instanceId) && (i.correctionId in s.outbox || StillCurrent(s, i))
                  && Known(s, i.correctionId, i.idempotencyKey)
                  && ConfirmsAgain(s, i.correctionId, Some(ConfirmationOf(i))))
            && (reply == Ok(Created) ==> Corrected(s, c, t))
            && (reply != Ok(Created) ==> t == s)
  {
    hide Inv, Constrained, Correct, ViewAt, ApplyError, Confirmed, MayCreate, Known, Corrected, ConfirmsAgain;
    CurrentViewIsHead(s);
    ConfirmedExactly(i, s.instanceId);
    CorrectsExactly(s, CorrectionFor(i, s.instanceId));
    KnownInOutbox(s, i);
  }

  lemma KnownInOutbox(s: Store, i: ApplyInput)
    ensures i.correctionId in s.outbox ==>
              && Known(s, i.correctionId, i.idempotencyKey)
              && !MayCreate(s, i.correctionId, i.sessionKeyHash, i.idempotencyKey, i.preview.body.event,
                            ConfirmationOf(i).receiptId)
  {}

  /** A correction is planned exactly for the next number, against the head. */
  lemma PlansExactly(s: Store, previewId: string, event: Event, expiresAt: int)
    requires Inv(s)
    ensures var reply := PlanCorrection(s, previewId, event, expiresAt);
            && (reply.Ok? <==> event.seqNo == s.head.activeSeq + 1)
            && (reply.Ok? ==>
                  && reply.value.body == PreviewBody(previewId, s.instanceId, s.head.checksum, event, expiresAt)
                  && reply.value.checksum == PreviewChecksum(reply.value.body))
  {
    CurrentViewIsHead(s);
    hide ViewAt, RowMatches;
    CurrentViewIsNumbered(s);
  }

  lemma CurrentViewIsNumbered(s: Store)
    ensures ViewAt(s, s.head.activeSeq).Ok? ==> ViewAt(s, s.head.activeSeq).value.activeSeq == s.head.activeSeq
  {}

  /******* Outbox *******/

  /** A pending row is claimed exactly by another run than the one that answered first. */
  lemma ClaimsExactly(s: Store, id: string, attempt: Attempt, now: string)
    ensures var (t, reply) := ClaimRow(s, id, attempt, now);
            var pending := id in s.outbox && s.outbox[id].status.Pending?;
            && (reply == Ok(None) <==> !pending)
            && (reply.Ok? && reply.value.Some? <==> pending && s.outbox[id].priorRunId != attempt.successorRunId)
            && (reply.Ok? && reply.value.Some? ==>
                  var r := s.outbox[id];
                  && reply.value.value == Claim(id, attempt, r.attempts + 1)
                  && t == s.(outbox := s.outbox[id :=
                                                OutboxRow(r.sessionKeyHash, r.priorRunId, r.newViewVersion,
                                                          OutboxStatus.InFlight, r.attempts + 1, r.completions,
                                                          Some(attempt), None, r.idempotencyKey, r.createdAt, now)]))
            && (!(reply.Ok? && reply.value.Some?) ==> t == s)
  {}

  /** The claim is the one in flight. */
  predicate InFlightAs(s: Store, c: Claim) {
    && c.correctionId in s.outbox && s.outbox[c.correctionId].status.InFlight?
    && s.outbox[c.correctionId].attempts == c.number && s.outbox[c.correctionId].attempt == Some(c.attempt)
  }

  /** A row is completed exactly by the claim in flight, and once. */
  lemma CompletesExactly(s: Store, c: Claim, now: string)
    ensures var (t, reply) := CompleteClaim(s, c, now);
            && (reply.Ok? <==> InFlightAs(s, c) && s.outbox[c.correctionId].completions == 0)
            && (reply.Ok? ==>
                  var r := s.outbox[c.correctionId];
                  t == s.(outbox := s.outbox[c.correctionId :=
                                             OutboxRow(r.sessionKeyHash, r.priorRunId, r.newViewVersion,
                                                       OutboxStatus.Completed, r.attempts, 1, r.attempt, r.lastError,
                                                       r.idempotencyKey, r.createdAt, now)]))
            && (!reply.Ok? ==> t == s)
  {}

  const CAPITALS: string := "ABCDEFGHIJKLMNOPQRSTUVWXYZ"

  /** A capital, and then capitals, digits and underscores. */
  predicate IsReason(reason: string) {
    |reason| > 0 && reason[0] in CAPITALS
    && forall i | 0 <= i < |reason| :: reason[i] in CAPITALS || reason[i] in "0123456789" || reason[i] == '_'
  }

  lemma ReasonExactly(reason: string)
    ensures ReasonCode(reason) <==> IsReason(reason)
  {
    CapitalsAreInOrder();
    DigitsAreInOrder();
    if ReasonCode(reason) {
      forall i | 0 <= i < |reason|
        ensures reason[i] in CAPITALS || reason[i] in "0123456789" || reason[i] == '_'
      {
        assert reason[i] in reason;
      }
    }
    if IsReason(reason) {
      forall c | c in reason ensures 'A' <= c <= 'Z' || '0' <= c <= '9' || c == '_' {
        var i :| 0 <= i < |reason| && reason[i] == c;
      }
    }
  }

  lemma CapitalsAreInOrder()
    ensures forall c: char :: c in CAPITALS <==> 'A' <= c <= 'Z'
  {
    assert |CAPITALS| == 26 && forall i | 0 <= i < 26 :: CAPITALS[i] as int == 'A' as int + i;
    forall c: char | 'A' <= c <= 'Z' ensures c in CAPITALS { assert CAPITALS[c as int - 'A' as int] == c; }
  }

  lemma DigitsAreInOrder()
    ensures forall c: char :: c in "0123456789" <==> '0' <= c <= '9'
  {
    var digits := "0123456789";
    assert |digits| == 10 && forall i | 0 <= i < 10 :: digits[i] as int == '0' as int + i;
    forall c: char | '0' <= c <= '9' ensures c in digits { assert digits[c as int - '0' as int] == c; }
  }

  /** A row is given back exactly by the claim in flight, with a reason code. */
  lemma ReleasesExactly(s: Store, c: Claim, reason: string, now: string)
    ensures var (t, reply) := ReleaseClaim(s, c, reason, now);
            && (reply.Ok? <==> IsReason(reason) && InFlightAs(s, c))
            && (reply.Ok? ==>
                  var r := s.outbox[c.correctionId];
                  t == s.(outbox := s.outbox[c.correctionId :=
                                             OutboxRow(r.sessionKeyHash, r.priorRunId, r.newViewVersion,
                                                       OutboxStatus.Pending, r.attempts, r.completions, None,
                                                       Some(reason), r.idempotencyKey, r.createdAt, now)]))
            && (!reply.Ok? ==> t == s)
  {
    ReasonExactly(reason);
    hide ReasonCode, IsReason;
  }

  lemma {:induction false} ServedForever(s: Store, calls: seq<Call>)
    ensures s.served <= Run(s, calls).served
    decreases |calls|
  {
    if calls != [] {
      assert s.served <= Perform(s, calls[0]).served by { CallServes(s, calls[0]); }
      ServedForever(Perform(s, calls[0]), calls[1..]);
    }
  }

  lemma CallServes(s: Store, c: Call)
    ensures s.served <= Perform(s, c).served
  {
    hide ReduceEvents, AllInsertable, Open;
  }

  /** Once a run with a name was served, nothing is imported any more, whatever else happens in between. */
  lemma RunsEndImports(s: Store, runId: string, calls: seq<Call>, m: Manifest, accepted: bool)
    ensures var (t, reply) := MarkServed(s, runId);
            && t == s.(served := t.served)
            && (reply.Ok? <==> runId != "") && (runId == "" ==> t == s)
            && (runId != "" ==>
                  && t.served == s.served + {runId} && runId in Run(t, calls).served
                  && Import(Run(t, calls), m, accepted).1 != Ok(true))
  {
    ServedForever(MarkServed(s, runId).0, calls);
    hide Run, ReduceEvents, AllInsertable;
  }
}
