/**
 The state store's tables and transactions (`src/state/index.ts`) and the management port around them
 (`src/state/management.ts`) as a specification.  Each operation is one SQL transaction: it happens, or it throws
 and changes nothing.
 */
module StateProtocol {
  import opened Options
  import opened Canonical
  import opened StateViews

  /******* Tables *******/

  datatype Head = Head(activeSeq: nat, version: ViewVersion, checksum: ViewChecksum, activatedAt: string)

  datatype HistoryRow = HistoryRow(version: ViewVersion, checksum: ViewChecksum, activatedAt: string)

  datatype OutboxStatus = Pending | InFlight | Completed

  datatype Attempt = Attempt(successorRunId: string, deliveryMode: string)

  datatype OutboxRow = OutboxRow(sessionKeyHash: string, priorRunId: string, newViewVersion: ViewVersion,
                                 status: OutboxStatus, attempts: nat, completions: nat, attempt: Option<Attempt>,
                                 lastError: Option<string>, idempotencyKey: string, createdAt: string,
                                 updatedAt: string)

  datatype Confirmation = Confirmation(previewId: string, previewChecksum: PreviewChecksum, receiptId: Option<string>)

  type History = map<nat, HistoryRow>
  type Outbox = map<string, OutboxRow>

  datatype Store = Store(instanceId: string, events: seq<Event>, head: Head, history: History,
                         imports: map<string, ManifestChecksum>, outbox: Outbox,
                         confirmations: map<string, Confirmation>, served: set<string>)

  /******* Manifests and previews *******/

  datatype ContractView = ContractView(instanceId: string, activeSeq: nat, version: ViewVersion, values: seq<Value>,
                                       checksum: ViewChecksum, createdAt: string)

  datatype ManifestBody = ManifestBody(importId: string, instanceId: string, initializedHeadChecksum: ViewChecksum,
                                       events: seq<Event>, expectedHead: Head, expectedView: ContractView,
                                       createdAt: string)

  datatype ManifestChecksum = ManifestChecksum(body: ManifestBody)

  datatype Manifest = Manifest(body: ManifestBody, checksum: ManifestChecksum)

  datatype PreviewBody = PreviewBody(previewId: string, instanceId: string, baseChecksum: ViewChecksum, event: Event,
                                     expiresAt: int)

  datatype PreviewChecksum = PreviewChecksum(body: PreviewBody)

  datatype Preview = Preview(body: PreviewBody, checksum: PreviewChecksum)

  datatype Receipt = Receipt(receiptId: string, previewId: string, previewChecksum: PreviewChecksum,
                             baseChecksum: ViewChecksum)

  datatype StateError =
    | ImportConflict | ImportAfterFirstRun | ImportRequiresEmptyHead | UniqueConstraint | HeadCasFailed
    | InstanceMismatch | SessionBusy | IdempotencyConflict | RevisionNotFound | SuccessorNotDistinct
    | ReanswerCasFailed | ManifestChecksumMismatch | EventSequenceInvalid | SourceRejected | ExpectedHeadMismatch
    | PreviewChecksumMismatch | ReceiptMismatch | ReceiptSingleUseRequired | ConfirmationRequired | PreviewExpired
    | BaseViewMismatch | RunIdRequired | ReasonCodeInvalid

  datatype Reply<T> = Ok(value: T) | Throws(error: StateError)

  /******* Views *******/

  function InsertRow(e: Event, rows: seq<Event>): seq<Event> {
    if rows == [] || e.seqNo <= rows[0].seqNo then [e] + rows else [rows[0]] + InsertRow(e, rows[1..])
  }

  /** `SELECT * FROM state_events WHERE seq <= ? ORDER BY seq`. */
  function RowsUpTo(events: seq<Event>, revision: int): seq<Event> {
    if events == [] then []
    else
      var rest := RowsUpTo(events[1..], revision);
      if events[0].seqNo <= revision then InsertRow(events[0], rest) else rest
  }

  function EntriesAt(s: Store, revision: nat): seq<Entry> { ReduceEntries(RowsUpTo(s.events, revision)) }

  function ChecksumAt(s: Store, revision: nat): ViewChecksum {
    ChecksumOf(s.instanceId, revision, Values(EntriesAt(s, revision)))
  }

  function HistoryRowAt(s: Store, revision: nat, activatedAt: string): HistoryRow {
    HistoryRow(ViewVersion(revision, ChecksumAt(s, revision)), ChecksumAt(s, revision), activatedAt)
  }

  function ContractViewFrom(instanceId: string, activeSeq: nat, values: seq<Value>, createdAt: string): ContractView {
    var sorted := Sort(values, ValueKey());
    var checksum := ChecksumOf(instanceId, activeSeq, sorted);
    ContractView(instanceId, activeSeq, ViewVersion(activeSeq, checksum), sorted, checksum, createdAt)
  }

  function HeadFromView(v: ContractView): Head { Head(v.activeSeq, v.version, v.checksum, v.createdAt) }

  /** `reduceEvents` of the management port. */
  function ReduceEvents(instanceId: string, events: seq<Event>, createdAt: string): ContractView {
    ContractViewFrom(instanceId, |events|, Fold(events, ValueOfEvent, ValueKey()), createdAt)
  }

  /** `view` of the management port, at a revision. */
  function ViewAt(s: Store, revision: nat): Reply<ContractView> {
    if revision > s.head.activeSeq || revision !in s.history then Throws(RevisionNotFound)
    else
      Ok(ContractViewFrom(s.instanceId, revision, Values(EntriesAt(s, revision)), s.history[revision].activatedAt))
  }

  /******* Ledger *******/

  /** `initialize` on a missing database. */
  function Initialized(instanceId: string, now: string): Store {
    var head := HeadFromView(ContractViewFrom(instanceId, 0, [], now));
    Store(instanceId, [], head, map[0 := HistoryRow(head.version, head.checksum, now)], map[], map[], map[], {})
  }

  predicate Insertable(events: seq<Event>, e: Event) {
    forall x | x in events :: x.seqNo != e.seqNo && x.eventId != e.eventId && x.idempotencyKey != e.idempotencyKey
  }

  /** Inserting rows one by one under the table's unique constraints. */
  predicate AllInsertable(events: seq<Event>, added: seq<Event>)
    decreases |added|
  {
    added == [] || (Insertable(events, added[0]) && AllInsertable(events + [added[0]], added[1..]))
  }

  /** History rows for the imported revisions, or `None` when one exists already. */
  function AddHistory(s: Store, history: History, added: seq<Event>, activatedAt: string): Option<History>
    decreases |added|
  {
    if added == [] then Some(history)
    else if added[0].seqNo < 0 || added[0].seqNo in history then None
    else
      AddHistory(s, history[added[0].seqNo := HistoryRowAt(s, added[0].seqNo, activatedAt)], added[1..], activatedAt)
  }

  /** `importBaseline`. */
  function ImportBaseline(s: Store, importId: string, checksum: ManifestChecksum, initialChecksum: ViewChecksum,
                          events: seq<Event>, head: Head)
    : (Store, Reply<bool>)
  {
    if importId in s.imports || exists i | i in s.imports :: s.imports[i] == checksum then
      (s, if importId in s.imports && s.imports[importId] == checksum then Ok(false) else Throws(ImportConflict))
    else if s.served != {} then (s, Throws(ImportAfterFirstRun))
    else if s.head.activeSeq != 0 || s.events != [] || s.head.checksum != initialChecksum then
      (s, Throws(ImportRequiresEmptyHead))
    else if !AllInsertable(s.events, events) then (s, Throws(UniqueConstraint))
    else
      var inserted := s.(events := s.events + events);
      var history := AddHistory(inserted, s.history, events, head.activatedAt);
      if history.None? then (s, Throws(UniqueConstraint))
      else
        var kept := if head.activeSeq in history.value then history.value
                    else history.value[head.activeSeq := HistoryRow(head.version, head.checksum, head.activatedAt)];
        (inserted.(head := head, history := kept, imports := s.imports[importId := checksum]), Ok(true))
  }

  predicate NumberedFromOne(events: seq<Event>) { forall i | 0 <= i < |events| :: events[i].seqNo == i + 1 }

  /** `import` of the management port; `accepted` is what the source mappings and the policy say. */
  function Import(s: Store, m: Manifest, accepted: bool): (Store, Reply<bool>) {
    var b := m.body;
    var simulated := ReduceEvents(s.instanceId, b.events, b.createdAt);
    if b.instanceId != s.instanceId then (s, Throws(InstanceMismatch))
    else if m.checksum != ManifestChecksum(b) then (s, Throws(ManifestChecksumMismatch))
    else if !NumberedFromOne(b.events) then (s, Throws(EventSequenceInvalid))
    else if !accepted then (s, Throws(SourceRejected))
    else if simulated != b.expectedView || HeadFromView(simulated) != b.expectedHead
         then (s, Throws(ExpectedHeadMismatch))
    else ImportBaseline(s, b.importId, m.checksum, b.initializedHeadChecksum, b.events, b.expectedHead)
  }

  /** `prepareStateImportManifest` over an initialized, empty store. */
  function PrepareManifest(s: Store, importId: string, events: seq<Event>, createdAt: string): Reply<Manifest> {
    var initialized := ViewAt(s, s.head.activeSeq);
    if initialized.Throws? then Throws(initialized.error)
    else if initialized.value.activeSeq != 0 then Throws(ImportRequiresEmptyHead)
    else
      var expected := if events == [] then initialized.value
                      else ReduceEvents(initialized.value.instanceId, events, createdAt);
      var body := ManifestBody(importId, initialized.value.instanceId, initialized.value.checksum, events,
                               HeadFromView(expected), expected, createdAt);
      Ok(Manifest(body, ManifestChecksum(body)))
  }

  datatype Correction = Correction(event: Event, confirmation: Option<Confirmation>, correctionId: string,
                                   instanceId: string, sessionKeyHash: string, priorRunId: string,
                                   idempotencyKey: string, createdAt: string)

  datatype CorrectionResult = Created | Repeated

  predicate Open(r: OutboxRow) { r.status != OutboxStatus.Completed }

  /** `#getExisting`: a row for the correction or for its idempotency key. */
  predicate AlreadyRecorded(s: Store, c: Correction) {
    c.correctionId in s.outbox || exists k | k in s.outbox :: s.outbox[k].idempotencyKey == c.idempotencyKey
  }

  /** `#assertExistingConfirmation`. */
  predicate ConfirmationRepeats(s: Store, c: Correction) {
    c.confirmation.None?
    || (c.correctionId in s.confirmations && s.confirmations[c.correctionId] == c.confirmation.value)
  }

  predicate ReceiptUnused(confirmations: map<string, Confirmation>, c: Correction) {
    c.confirmation.Some? ==>
      && c.correctionId !in confirmations
      && (c.confirmation.value.receiptId.Some? ==>
            forall k | k in confirmations :: confirmations[k].receiptId != c.confirmation.value.receiptId)
  }

  /** `correct`: the event, the head, its history row and the outbox row, or nothing. */
  function Correct(s: Store, c: Correction): (Store, Reply<CorrectionResult>) {
    if c.instanceId != s.instanceId then (s, Throws(InstanceMismatch))
    else if AlreadyRecorded(s, c) then
      (s, if ConfirmationRepeats(s, c) then Ok(Repeated) else Throws(IdempotencyConflict))
    else if exists k | k in s.outbox :: s.outbox[k].sessionKeyHash == c.sessionKeyHash && Open(s.outbox[k]) then
      (s, Throws(SessionBusy))
    else if s.head.activeSeq + 1 != c.event.seqNo then (s, Throws(HeadCasFailed))
    else if !Insertable(s.events, c.event) then (s, Throws(UniqueConstraint))
    else
      var seqNo: nat := c.event.seqNo;
      var inserted := s.(events := s.events + [c.event]);
      var row := HistoryRowAt(inserted, seqNo, c.createdAt);
      if seqNo in s.history || !ReceiptUnused(s.confirmations, c) then (s, Throws(UniqueConstraint))
      else
        (inserted.(head := Head(seqNo, row.version, row.checksum, c.createdAt),
                   history := s.history[seqNo := row],
                   outbox := s.outbox[c.correctionId :=
                                      OutboxRow(c.sessionKeyHash, c.priorRunId, row.version, Pending, 0, 0,
                                                                  None, None, c.idempotencyKey, c.createdAt,
                                                                  c.createdAt)],
                   confirmations := if c.confirmation.None? then s.confirmations
                                    else s.confirmations[c.correctionId := c.confirmation.value]),
         Ok(Created))
  }

  /** `planCorrection`. */
  function PlanCorrection(s: Store, previewId: string, event: Event, expiresAt: int): Reply<Preview> {
    var base := ViewAt(s, s.head.activeSeq);
    if base.Throws? then Throws(base.error)
    else if event.seqNo != base.value.activeSeq + 1 then Throws(HeadCasFailed)
    else
      var body := PreviewBody(previewId, s.instanceId, base.value.checksum, event, expiresAt);
      Ok(Preview(body, PreviewChecksum(body)))
  }

  datatype ApplyInput = ApplyInput(preview: Preview, confirmedChecksum: Option<PreviewChecksum>,
                                   receipt: Option<Receipt>,
                                   correctionId: string, sessionKeyHash: string, priorRunId: string,
                                   idempotencyKey: string, now: int, createdAt: string)

  function CorrectionFor(i: ApplyInput, instanceId: string): Correction {
    var receiptId := if i.receipt.Some? then Some(i.receipt.value.receiptId) else None;
    Correction(i.preview.body.event, Some(Confirmation(i.preview.body.previewId, i.preview.checksum, receiptId)),
               i.correctionId, instanceId, i.sessionKeyHash, i.priorRunId, i.idempotencyKey, i.createdAt)
  }

  /** Everything `applyCorrection` checks before it looks at the store. */
  function ApplyError(i: ApplyInput, instanceId: string): Option<StateError> {
    var p := i.preview;
    if p.checksum != PreviewChecksum(p.body)
       || (i.confirmedChecksum.Some? && i.confirmedChecksum.value != p.checksum) then
      Some(PreviewChecksumMismatch)
    else if p.body.instanceId != instanceId then Some(InstanceMismatch)
    else if i.receipt.Some? then
      var r := i.receipt.value;
      if r.previewId != p.body.previewId || r.previewChecksum != p.checksum
         || r.baseChecksum != p.body.baseChecksum then
        Some(ReceiptMismatch)
      else if i.idempotencyKey != r.receiptId then Some(ReceiptSingleUseRequired)
      else None
    else if i.confirmedChecksum.None? then Some(ConfirmationRequired)
    else None
  }

  /** `applyCorrection`. */
  function ApplyCorrection(s: Store, i: ApplyInput): (Store, Reply<CorrectionResult>) {
    var error := ApplyError(i, s.instanceId);
    if error.Some? then (s, Throws(error.value))
    else if i.correctionId in s.outbox then Correct(s, CorrectionFor(i, s.instanceId))
    else if i.preview.body.expiresAt < i.now then (s, Throws(PreviewExpired))
    else
      var current := ViewAt(s, s.head.activeSeq);
      if current.Throws? then (s, Throws(current.error))
      else if current.value.checksum != i.preview.body.baseChecksum then (s, Throws(BaseViewMismatch))
      else Correct(s, CorrectionFor(i, s.instanceId))
  }

  /******* Outbox *******/

  datatype Claim = Claim(correctionId: string, attempt: Attempt, number: nat)

  /** `claim`: no claim when the row is missing or not pending. */
  function ClaimRow(s: Store, id: string, attempt: Attempt, now: string): (Store, Reply<Option<Claim>>) {
    if id !in s.outbox || s.outbox[id].status != Pending then (s, Ok(None))
    else
      var r := s.outbox[id];
      if r.priorRunId == attempt.successorRunId then (s, Throws(SuccessorNotDistinct))
      else
        (s.(outbox := s.outbox[id := r.(status := InFlight, attempts := r.attempts + 1, attempt := Some(attempt),
                                        lastError := None, updatedAt := now)]),
         Ok(Some(Claim(id, attempt, r.attempts + 1))))
  }

  predicate ActsFor(outbox: Outbox, c: Claim) {
    && c.correctionId in outbox
    && outbox[c.correctionId].status == InFlight
    && outbox[c.correctionId].attempts == c.number
    && outbox[c.correctionId].attempt == Some(c.attempt)
  }

  function CompleteClaim(s: Store, c: Claim, now: string): (Store, Reply<()>) {
    if !ActsFor(s.outbox, c) || s.outbox[c.correctionId].completions != 0 then (s, Throws(ReanswerCasFailed))
    else
      var r := s.outbox[c.correctionId];
      (s.(outbox := s.outbox[c.correctionId :=
                             r.(status := OutboxStatus.Completed, completions := 1, updatedAt := now)]),
       Ok(()))
  }

  /** `/^[A-Z][A-Z0-9_]*$/`. */
  predicate ReasonCode(reason: string) {
    reason != "" && 'A' <= reason[0] <= 'Z' && forall c | c in reason :: 'A' <= c <= 'Z' || '0' <= c <= '9' || c == '_'
  }

  function ReleaseClaim(s: Store, c: Claim, reason: string, now: string): (Store, Reply<()>) {
    if !ReasonCode(reason) then (s, Throws(ReasonCodeInvalid))
    else if !ActsFor(s.outbox, c) then (s, Throws(ReanswerCasFailed))
    else
      var r := s.outbox[c.correctionId];
      (s.(outbox := s.outbox[c.correctionId := r.(status := Pending, attempt := None, lastError := Some(reason),
                                                  updatedAt := now)]),
       Ok(()))
  }

  function MarkServed(s: Store, runId: string): (Store, Reply<()>) {
    if runId == "" then (s, Throws(RunIdRequired)) else (s.(served := s.served + {runId}), Ok(()))
  }

  /******* Runs *******/

  datatype Call =
    | ImportCall(manifest: Manifest, accepted: bool)
    | CorrectCall(correction: Correction)
    | ApplyCall(input: ApplyInput)
    | ClaimCall(correctionId: string, attempt: Attempt, now: string)
    | CompleteCall(completed: Claim, now: string)
    | ReleaseCall(released: Claim, reason: string, now: string)
    | ServeCall(runId: string)

  function Perform(s: Store, c: Call): Store {
    match c
    case ImportCall(m, accepted) => Import(s, m, accepted).0
    case CorrectCall(correction) => Correct(s, correction).0
    case ApplyCall(input) => ApplyCorrection(s, input).0
    case ClaimCall(id, attempt, now) => ClaimRow(s, id, attempt, now).0
    case CompleteCall(claim, now) => CompleteClaim(s, claim, now).0
    case ReleaseCall(claim, reason, now) => ReleaseClaim(s, claim, reason, now).0
    case ServeCall(runId) => MarkServed(s, runId).0
  }

  function Run(s: Store, calls: seq<Call>): Store
    decreases |calls|
  {
    if calls == [] then s else Run(Perform(s, calls[0]), calls[1..])
  }
}
