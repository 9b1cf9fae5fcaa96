/**
 What the state store promises across calls: immutable views, exact predictions, single-use receipts, fenced claims.
 */
module StateGuarantees {
  import opened Canonical
  import opened StateViews
  import opened StateProtocol
  import opened StateSafety

  /******* Views at a fixed revision *******/

  /** Every ledger row and history row of `before` is still there in `after`. */
  ghost predicate Extends(before: Store, after: Store) {
    && after.instanceId == before.instanceId
    && before.events <= after.events
    && forall r | r in before.history :: r in after.history && after.history[r] == before.history[r]
  }

  lemma ImportExtends(s: Store, m: Manifest, accepted: bool)
    requires Inv(s)
    ensures Extends(s, Import(s, m, accepted).0)
  {
    ImportWrites(s, m, accepted);
    hide Import, AddHistory, RowMatches, ReduceEvents, HeadFromView;
    if Import(s, m, accepted).1 == Ok(true) {
      var b := m.body;
      EmptyHistoryIsAStart(s, b.events);
      assert b.events[0..] == b.events;
      AddingHistory(s.(events := b.events), s.history, 0, b.createdAt);
    }
  }

  lemma CorrectExtends(s: Store, c: Correction)
    requires Inv(s)
    ensures Extends(s, Correct(s, c).0)
  {
    CorrectionWrites(s, c);
    hide Correct, RowMatches;
  }

  lemma SameLedgerExtends(s: Store, t: Store)
    requires t.instanceId == s.instanceId && t.events == s.events && t.history == s.history
    ensures Extends(s, t)
  {}

  lemma CallExtends(s: Store, c: Call)
    requires Inv(s)
    ensures Extends(s, Perform(s, c))
  {
    hide Inv, Extends;
    match c
    case ImportCall(m, accepted) => ImportExtends(s, m, accepted);
    case CorrectCall(correction) => CorrectExtends(s, correction);
    case ApplyCall(i) =>
      CorrectExtends(s, CorrectionFor(i, s.instanceId));
      SameLedgerExtends(s, s);
      hide Correct, CorrectionFor, ViewAt, ApplyError;
    case _ => SameLedgerExtends(s, Perform(s, c));
  }

  lemma {:induction false} RunExtends(s: Store, calls: seq<Call>)
    requires Inv(s)
    ensures Extends(s, Run(s, calls)) && Inv(Run(s, calls))
    decreases |calls|
  {
    if calls != [] {
      CallKeepsInv(s, calls[0]);
      CallExtends(s, calls[0]);
      RunExtends(Perform(s, calls[0]), calls[1..]);
      hide Inv;
    }
  }

  lemma ExtendingKeepsView(s: Store, t: Store, revision: nat)
    requires Inv(s) && Inv(t) && Extends(s, t) && revision <= s.head.activeSeq
    ensures ViewAt(t, revision) == ViewAt(s, revision)
  {
    ChecksumIsLedgers(s, revision);
    ChecksumIsLedgers(t, revision);
    assert s.events[..revision] == t.events[..revision];
  }

  /** A view at a revision that exists never changes again, whatever runs after it. */
  lemma {:induction false} ViewsNeverChange(s: Store, calls: seq<Call>, revision: nat)
    requires Inv(s) && revision <= s.head.activeSeq
    ensures ViewAt(Run(s, calls), revision) == ViewAt(s, revision) && ViewAt(s, revision).Ok?
  {
    RunExtends(s, calls);
    ExtendingKeepsView(s, Run(s, calls), revision);
  }

  /******* Imports *******/

  /** Reported values are the prediction's, so the two can differ only in when they were made. */
  lemma ViewIsPrediction(s: Store)
    requires Inv(s)
    ensures ViewAt(s, s.head.activeSeq)
            == Ok(ReduceEvents(s.instanceId, s.events, s.history[s.head.activeSeq].activatedAt))
  {
    var n := s.head.activeSeq;
    ChecksumIsLedgers(s, n);
    assert s.events[..n] == s.events;
    ReductionsAgree(s.instanceId, s.events);
    SortSorts(Fold(s.events, ValueOfEvent, ValueKey()), ValueKey());
    SortKeepsSorted(ReduceValues(s.events), ValueKey());
  }

  lemma ImportedHistory(s: Store, m: Manifest, accepted: bool)
    requires Inv(s) && Import(s, m, accepted).1 == Ok(true)
    ensures var t := Import(s, m, accepted).0;
            && |m.body.events| in t.history && 0 in s.history
            && t.head.activeSeq == |m.body.events|
            && t.history[|m.body.events|].activatedAt
               == if m.body.events == [] then s.history[0].activatedAt else m.body.createdAt
  {
    ImportWrites(s, m, accepted);
    hide Import, AddHistory, RowMatches, ReduceEvents;
    var b := m.body;
    EmptyHistoryIsAStart(s, b.events);
    assert b.events[0..] == b.events;
    AddingHistory(s.(events := b.events), s.history, 0, b.createdAt);
  }

  /**
   After an import, the view the store reports is the one the manifest predicted, exactly when there are events
   to import or the prediction carries the time the store was initialized at.
   */
  lemma {:induction false} ImportReportsPrediction(s: Store, m: Manifest, accepted: bool)
    requires Inv(s) && Import(s, m, accepted).1 == Ok(true)
    ensures var t := Import(s, m, accepted).0;
            && t.head == m.body.expectedHead
            && (ViewAt(t, t.head.activeSeq) == Ok(m.body.expectedView)
                <==> m.body.events != [] || m.body.createdAt == s.history[0].activatedAt)
  {
    ImportWrites(s, m, accepted);
    ImportKeepsInv(s, m, accepted);
    ImportedHistory(s, m, accepted);
    hide Import;
    ViewIsPrediction(Import(s, m, accepted).0);
  }

  /** A store nothing was imported into or served from. */
  predicate Pristine(s: Store) { s.events == [] && s.imports == map[] && s.served == {} }

  /** History rows of a fresh numbered ledger never collide. */
  lemma FreshHistory(s: Store, events: seq<Event>, activatedAt: string)
    requires Inv(s) && s.events == [] && NumberedFromOne(events)
    ensures AddHistory(s.(events := events), s.history, events, activatedAt).Some?
  {
    EmptyHistoryIsAStart(s, events);
    assert events[0..] == events;
    AddingHistory(s.(events := events), s.history, 0, activatedAt);
  }

  /** The view a prepared manifest expects: the initialized one when there is nothing to import. */
  lemma PreparedBody(s: Store, importId: string, events: seq<Event>, createdAt: string)
    requires Inv(s) && s.events == []
    ensures var madeAt := if events == [] then s.history[0].activatedAt else createdAt;
            var view := ReduceEvents(s.instanceId, events, madeAt);
            var body := ManifestBody(importId, s.instanceId, s.head.checksum, events, HeadFromView(view), view,
                                     createdAt);
            PrepareManifest(s, importId, events, createdAt) == Ok(Manifest(body, ManifestChecksum(body)))
  {}

  lemma PristineAccepts(s: Store, b: ManifestBody)
    requires Inv(s) && Pristine(s) && NumberedFromOne(b.events) && AllInsertable([], b.events)
    requires b.instanceId == s.instanceId && b.initializedHeadChecksum == s.head.checksum
    requires b.expectedHead == HeadFromView(b.expectedView)
    ensures Import(s, Manifest(b, ManifestChecksum(b)), true).1 == Ok(true)
            <==> b.expectedView == ReduceEvents(s.instanceId, b.events, b.createdAt)
  {
    FreshHistory(s, b.events, b.expectedHead.activatedAt);
    assert s.events + b.events == b.events;
    hide AddHistory, AllInsertable, ReduceEvents, HistoryMatches, RowMatches;
  }

  /**
   A manifest prepared for a pristine store is accepted by it exactly when it has events, or was prepared with the
   time of initialization: the prepared view of an empty manifest keeps that time, the simulated one does not.
   */
  lemma PreparedManifestImports(s: Store, importId: string, events: seq<Event>, createdAt: string)
    requires Inv(s) && Pristine(s) && NumberedFromOne(events) && AllInsertable([], events)
    ensures PrepareManifest(s, importId, events, createdAt).Ok?
    ensures Import(s, PrepareManifest(s, importId, events, createdAt).value, true).1 == Ok(true)
            <==> events != [] || createdAt == s.history[0].activatedAt
  {
    PreparedBody(s, importId, events, createdAt);
    hide Import, PrepareManifest, AllInsertable, Inv;
    PristineAccepts(s, PrepareManifest(s, importId, events, createdAt).value.body);
    hide ChecksumOf, Sort, Fold;
  }

  /******* Corrections *******/

  lemma CreatedMeansNext(s: Store, c: Correction)
    requires Correct(s, c).1 == Ok(Created)
    ensures s.head.activeSeq + 1 == c.event.seqNo
  {}

  /**
   A planned correction that is recorded, however many calls after it was planned, is recorded onto exactly the
   view it was planned against, and the new view is that view's events with the proposed one on top.
   */
  lemma {:induction false} PlannedCorrectionHitsItsBase(s: Store, previewId: string, event: Event, expiresAt: int,
                                                        calls: seq<Call>,
                                     c: Correction)
    requires Inv(s) && PlanCorrection(s, previewId, event, expiresAt).Ok? && c.event == event
    requires Correct(Run(s, calls), c).1 == Ok(Created)
    ensures var before, after := Run(s, calls), Correct(Run(s, calls), c).0;
            && before.events == s.events
            && ViewAt(before, before.head.activeSeq) == ViewAt(s, s.head.activeSeq)
            && after.events == s.events + [event]
            && after.head.checksum == LedgerChecksum(s.instanceId, s.events + [event], |s.events| + 1)
  {
    RunExtends(s, calls);
    var before := Run(s, calls);
    assert before.instanceId == s.instanceId;
    CreatedMeansNext(before, c);
    CorrectionWrites(before, c);
    CorrectKeepsInv(before, c);
    hide Correct, Run;
    assert before.events == s.events;
    ExtendingKeepsView(s, before, s.head.activeSeq);
    hide ViewAt;
    assert (s.events + [event])[..|s.events| + 1] == s.events + [event];
  }

  /** No two recorded corrections share a receipt. */
  predicate ReceiptsOnce(confirmations: map<string, Confirmation>) {
    forall a, b | a in confirmations && b in confirmations && a != b && confirmations[a].receiptId.Some? ::
      confirmations[a].receiptId != confirmations[b].receiptId
  }

  predicate ConfirmationsExtend(before: Store, after: Store) {
    forall k | k in before.confirmations ::
      k in after.confirmations && after.confirmations[k] == before.confirmations[k]
  }

  lemma CallKeepsConfirmations(s: Store, c: Call)
    requires ReceiptsOnce(s.confirmations)
    ensures ReceiptsOnce(Perform(s, c).confirmations) && ConfirmationsExtend(s, Perform(s, c))
  {
    hide ChecksumAt, ReduceEvents, AddHistory, ViewAt, ApplyError, Insertable, AllInsertable;
  }

  lemma {:induction false} RunKeepsConfirmations(s: Store, calls: seq<Call>)
    requires ReceiptsOnce(s.confirmations)
    ensures ReceiptsOnce(Run(s, calls).confirmations) && ConfirmationsExtend(s, Run(s, calls))
    decreases |calls|
  {
    if calls != [] {
      CallKeepsConfirmations(s, calls[0]);
      RunKeepsConfirmations(Perform(s, calls[0]), calls[1..]);
    }
  }

  /** A correction receipt is single use: once recorded, no later correction with it is ever created. */
  lemma OneCorrectionPerReceipt(s: Store, first: Correction, between: seq<Call>, second: Correction)
    requires ReceiptsOnce(s.confirmations)
    requires Correct(s, first).1 == Ok(Created) && first.confirmation.Some? && first.confirmation.value.receiptId.Some?
    requires second.confirmation.Some? && second.confirmation.value.receiptId == first.confirmation.value.receiptId
    ensures Correct(Run(Correct(s, first).0, between), second).1 != Ok(Created)
  {
    var after := Correct(s, first).0;
    CallKeepsConfirmations(s, CorrectCall(first));
    RunKeepsConfirmations(after, between);
    assert after.confirmations[first.correctionId] == first.confirmation.value;
    hide Run, ChecksumAt, Insertable;
  }
}
