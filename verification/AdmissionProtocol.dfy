/**
 Candidate admission (`src/admission/index.ts`) and the publication half of its store
 (`src/admission/persistence.ts`) as a specification over the service's six maps.

 The clock, fresh ids and routing tokens, checksums and the authority head are inputs of each call.
 */
module AdmissionProtocol {
  import opened Options
  import opened ChangeSets
  import P = PublicationProtocol

  /******* Records *******/

  type Finalization = P.Finalization

  datatype AuthorizationStatus = Active | Ended

  datatype Authorization = Authorization(instanceId: string, candidateTypes: seq<string>, sourceRefs: seq<string>,
                                         grantedBy: string, expiresAt: int, status: AuthorizationStatus)

  datatype SourceEntry = SourceEntry(sourceRef: string, contentPath: string)

  datatype Revision = Revision(candidateId: string, revision: nat, candidateType: string, stableId: string,
                               baseVersion: Option<string>, baseChecksum: Option<string>, content: string,
                               sourceMap: seq<SourceEntry>, checksum: string)

  datatype Target = Target(instanceId: string, candidateType: string, stableId: string)

  datatype Message = Message(instanceId: string, accountId: string, conversationId: string, messageId: string)

  datatype Confirmation = Confirmation(authorizationId: string, requestId: string, candidate: Revision,
                                       message: Option<Message>)

  datatype ReceiptRecord = ReceiptRecord(authorizationId: string, receipt: Receipt, consumed: bool, invalidated: bool,
                                         artifact: Option<Artifact>, finalization: Option<Finalization>)

  type Authorizations = map<string, Authorization>
  type Candidates = map<string, seq<Revision>>
  type Confirmations = map<string, Confirmation>
  type Receipts = map<string, ReceiptRecord>

  datatype State = State(authorizations: Authorizations, candidates: Candidates, owners: map<string, string>,
                         targets: map<Target, string>, confirmations: Confirmations, receipts: Receipts)

  datatype AdmissionError =
    | AuthorizationNotFinite | ScopeEmpty | AuthorizationNotActive | BaseIncomplete | BaseChecksumMismatch
    | AuthorityHeadUnavailable | BaseMismatch | TypeOutOfScope | SourceRefOutOfScope | SourceMapEmpty
    | TargetAlreadyExists | CandidateAlreadyExists | CandidateNotFound | RevisionNotFound | RoutingTokenInvalid
    | MessageMismatch | MessageAlreadyBound | MessageNotBound | ActorMismatch | ReceiptInvalid
    | ReceiptAlreadyConsumed | ReceiptAlreadyPrepared | ReceiptNotApproved | ReceiptCandidateMismatch
    | RecordMismatch | FinalizationMismatch

  datatype Outcome =
    | Done
    | Stored(revision: Revision)
    | Redirected
    | RewriteRequested
    | Decided(receipt: Receipt)
    | Failed(error: AdmissionError)

  /******* Inputs *******/

  datatype Head = Head(version: string, checksum: string)

  /** The authority head port: it may throw, know no head, or know one. */
  datatype HeadReply = Unavailable | Known(head: Option<Head>)

  datatype Environment = Environment(now: int, head: HeadReply)

  /** `baseContentChecksum` and `checksum` are what hashing the base content and the revision gives. */
  datatype RevisionInput = RevisionInput(baseVersion: Option<string>, baseChecksum: Option<string>,
                                         baseContent: Option<string>, baseContentChecksum: string, content: string,
                                         sourceMap: seq<SourceEntry>, checksum: string)

  datatype Action = Accept | Reject | RequestRewrite

  datatype Operation =
    | Authorize(id: string, granted: Authorization)
    | EndDiscovery(authorizationId: string)
    | CreateCandidate(authorizationId: string, candidateType: string, stableId: string, input: RevisionInput,
                      newId: string)
    | Revise(authorizationId: string, candidateId: string, input: RevisionInput)
    | PrepareConfirmation(onTelegram: bool, authorizationId: string, candidateId: string, revision: int,
                          requestId: string, token: string)
    | BindMessage(token: string, message: Message)
    | Withdraw(token: string)
    | Decide(token: string, action: Action, message: Message, authorized: bool, senderId: string, receiptId: string,
             decidedAt: string)
    | Consume(receiptId: string, candidateId: string, candidateRevision: int, candidateChecksum: string,
              baseVersion: Option<string>)
    | Prepare(receipt: Receipt, candidate: Revision, artifact: Artifact)
    | Finalize(finalization: Finalization)

  /******* Checks *******/

  function ActiveAuthorization(s: State, id: string, now: int): Option<Authorization> {
    if id in s.authorizations && s.authorizations[id].status == Active && s.authorizations[id].expiresAt > now
    then Some(s.authorizations[id]) else None
  }

  /** `#assertAuthorityHeadMatches`. */
  function HeadError(head: HeadReply, version: Option<string>, checksum: Option<string>): Option<AdmissionError> {
    match head
    case Unavailable => Some(AuthorityHeadUnavailable)
    case Known(None) => if version.Some? then Some(BaseMismatch) else None
    case Known(Some(h)) => if Some(h.version) != version || Some(h.checksum) != checksum then Some(BaseMismatch)
      else None
  }

  /** `#assertAuthorityBase`. */
  function BaseError(i: RevisionInput, head: HeadReply): Option<AdmissionError> {
    if i.baseVersion.None? != i.baseChecksum.None? || i.baseVersion.None? != i.baseContent.None?
       then Some(BaseIncomplete)
    else if i.baseContent.Some? && i.baseChecksum != Some(i.baseContentChecksum) then Some(BaseChecksumMismatch)
    else HeadError(head, i.baseVersion, i.baseChecksum)
  }

  /** `normalizeCandidateSourceMap`. */
  function SourceMapError(a: Authorization, sourceMap: seq<SourceEntry>): Option<AdmissionError> {
    if exists e | e in sourceMap :: e.sourceRef !in a.sourceRefs then Some(SourceRefOutOfScope)
    else if sourceMap == [] then Some(SourceMapEmpty)
    else None
  }

  function FindRevision(revisions: seq<Revision>, number: int): (r: Option<Revision>)
    ensures r.Some? ==> r.value in revisions && r.value.revision == number
    ensures r.None? ==> forall x | x in revisions :: x.revision != number
  {
    if revisions == [] then None
    else if revisions[0].revision == number then Some(revisions[0])
    else FindRevision(revisions[1..], number)
  }

  function RevisionsOf(s: State, candidateId: string): seq<Revision> {
    if candidateId in s.candidates then s.candidates[candidateId] else []
  }

  function Last(revisions: seq<Revision>): Option<Revision> {
    if revisions == [] then None else Some(revisions[|revisions| - 1])
  }

  predicate Unresolved(r: ReceiptRecord) { !r.consumed && r.artifact.None? }

  /******* Invalidation *******/

  function WithoutAuthorization(confirmations: Confirmations, id: string): Confirmations {
    map t | t in confirmations && confirmations[t].authorizationId != id :: confirmations[t]
  }

  function WithoutCandidate(confirmations: Confirmations, id: string): Confirmations {
    map t | t in confirmations && confirmations[t].candidate.candidateId != id :: confirmations[t]
  }

  function EndedFor(r: ReceiptRecord, authorizationId: string): ReceiptRecord {
    if r.authorizationId == authorizationId && Unresolved(r) then r.(invalidated := true) else r
  }

  function SupersededFor(r: ReceiptRecord, candidateId: string): ReceiptRecord {
    if r.receipt.candidateId == candidateId && Unresolved(r) then r.(invalidated := true) else r
  }

  function EndReceipts(receipts: Receipts, id: string): Receipts { map r | r in receipts :: EndedFor(receipts[r], id) }

  function SupersedeReceipts(receipts: Receipts, id: string): Receipts {
    map r | r in receipts :: SupersededFor(receipts[r], id)
  }

  /******* Transitions *******/

  function AuthorizeDiscovery(s: State, id: string, a: Authorization, e: Environment): (State, Outcome) {
    if a.expiresAt <= e.now then (s, Failed(AuthorizationNotFinite))
    else if a.candidateTypes == [] || a.sourceRefs == [] then (s, Failed(ScopeEmpty))
    else (s.(authorizations := s.authorizations[id := a.(status := Active)]), Done)
  }

  function EndAuthorization(s: State, id: string): (State, Outcome) {
    if id !in s.authorizations || s.authorizations[id].status != Active then (s, Failed(AuthorizationNotActive))
    else
      (s.(authorizations := s.authorizations[id := s.authorizations[id].(status := Ended)],
          confirmations := WithoutAuthorization(s.confirmations, id), receipts := EndReceipts(s.receipts, id)), Done)
  }

  function NewRevision(candidateId: string, number: nat, candidateType: string, stableId: string, i: RevisionInput)
    : Revision
  {
    Revision(candidateId, number, candidateType, stableId, i.baseVersion, i.baseChecksum, i.content, i.sourceMap,
             i.checksum)
  }

  function AddRevision(s: State, candidateId: string, r: Revision, supersedes: bool): State {
    s.(candidates := s.candidates[candidateId := RevisionsOf(s, candidateId) + [r]],
       confirmations := if supersedes then WithoutCandidate(s.confirmations, candidateId) else s.confirmations,
       receipts := if supersedes then SupersedeReceipts(s.receipts, candidateId) else s.receipts)
  }

  function NewCandidate(s: State, authorizationId: string, candidateType: string, stableId: string, i: RevisionInput,
                        newId: string, e: Environment)
    : (State, Outcome)
  {
    var a := ActiveAuthorization(s, authorizationId, e.now);
    if a.None? then (s, Failed(AuthorizationNotActive))
    else if BaseError(i, e.head).Some? then (s, Failed(BaseError(i, e.head).value))
    else if candidateType !in a.value.candidateTypes then (s, Failed(TypeOutOfScope))
    else if SourceMapError(a.value, i.sourceMap).Some? then (s, Failed(SourceMapError(a.value, i.sourceMap).value))
    else
      var target := Target(a.value.instanceId, candidateType, stableId);
      var known := target in s.targets;
      if known && s.targets[target] in s.owners && s.owners[s.targets[target]] == authorizationId then
        (s, Failed(TargetAlreadyExists))
      else
        var id := if known then s.targets[target] else newId;
        if !known && id in s.candidates then (s, Failed(CandidateAlreadyExists))
        else
          var current := Last(RevisionsOf(s, id));
          var number := if current.Some? then current.value.revision + 1 else 1;
          var stored := NewRevision(id, number, candidateType, stableId, i);
          (AddRevision(s, id, stored, id in s.candidates).(owners := s.owners[id := authorizationId],
                                                          targets := s.targets[target := id]), Stored(stored))
  }

  function ReviseCandidate(s: State, authorizationId: string, candidateId: string, i: RevisionInput, e: Environment)
    : (State, Outcome)
  {
    var a := ActiveAuthorization(s, authorizationId, e.now);
    var current := Last(RevisionsOf(s, candidateId));
    if a.None? then (s, Failed(AuthorizationNotActive))
    else if current.None? || candidateId !in s.owners || s.owners[candidateId] != authorizationId then
      (s, Failed(CandidateNotFound))
    else if BaseError(i, e.head).Some? then (s, Failed(BaseError(i, e.head).value))
    else if SourceMapError(a.value, i.sourceMap).Some? then (s, Failed(SourceMapError(a.value, i.sourceMap).value))
    else
      var c := current.value;
      var stored := NewRevision(c.candidateId, c.revision + 1, c.candidateType, c.stableId, i);
      (AddRevision(s, candidateId, stored, true), Stored(stored))
  }

  function RequestConfirmation(s: State, onTelegram: bool, authorizationId: string, candidateId: string, number: int,
                               requestId: string, token: string, e: Environment)
    : (State, Outcome)
  {
    var found := FindRevision(RevisionsOf(s, candidateId), number);
    if !onTelegram then (s, Redirected)
    else if ActiveAuthorization(s, authorizationId, e.now).None? then (s, Failed(AuthorizationNotActive))
    else if found.None? || found != Last(RevisionsOf(s, candidateId))
            || candidateId !in s.owners || s.owners[candidateId] != authorizationId then (s, Failed(RevisionNotFound))
    else if |token| < 32 || token in s.confirmations then (s, Failed(RoutingTokenInvalid))
    else
      (s.(confirmations := s.confirmations[token := Confirmation(authorizationId, requestId, found.value, None)]), Done)
  }

  function BindConfirmationMessage(s: State, token: string, message: Message, e: Environment): (State, Outcome) {
    if token !in s.confirmations then (s, Failed(RoutingTokenInvalid))
    else
      var c := s.confirmations[token];
      var a := ActiveAuthorization(s, c.authorizationId, e.now);
      if a.None? then (s, Failed(AuthorizationNotActive))
      else if message.instanceId != a.value.instanceId then (s, Failed(MessageMismatch))
      else if c.message.Some? && c.message.value != message then (s, Failed(MessageAlreadyBound))
      else (s.(confirmations := s.confirmations[token := c.(message := Some(message))]), Done)
  }

  function WithdrawConfirmation(s: State, token: string): (State, Outcome) {
    if token !in s.confirmations then (s, Failed(RoutingTokenInvalid))
    else (s.(confirmations := s.confirmations - {token}), Done)
  }

  function ReceiptFor(c: Revision, action: Action, receiptId: string, decidedAt: string): Receipt {
    Receipt(receiptId, if action == Reject then Rejected else if c.revision == 1 then Accepted else Rewritten,
            c.candidateId, c.revision, c.checksum, c.baseVersion, decidedAt)
  }

  function DecideConfirmation(s: State, token: string, action: Action, message: Message, authorized: bool,
                              senderId: string, receiptId: string, decidedAt: string, e: Environment)
    : (State, Outcome)
  {
    if token !in s.confirmations then (s, Failed(RoutingTokenInvalid))
    else
      var c := s.confirmations[token];
      var a := ActiveAuthorization(s, c.authorizationId, e.now);
      if a.None? then (s, Failed(AuthorizationNotActive))
      else if c.message.None? then (s, Failed(MessageNotBound))
      else if c.message.value != message then (s, Failed(MessageMismatch))
      else if !authorized || senderId != a.value.grantedBy then (s, Failed(ActorMismatch))
      else
        var closed := s.(confirmations := s.confirmations - {token});
        if action == RequestRewrite then (closed, RewriteRequested)
        else
          var receipt := ReceiptFor(c.candidate, action, receiptId, decidedAt);
          (closed.(receipts :=
                   s.receipts[receiptId := ReceiptRecord(c.authorizationId, receipt, false, false, None, None)]),
           Decided(receipt))
  }

  function SetReceipt(s: State, id: string, r: ReceiptRecord): State { s.(receipts := s.receipts[id := r]) }

  /** `consumeApprovalReceipt`: three of its failures first mark the receipt invalidated. */
  function ConsumeReceipt(s: State, id: string, candidateId: string, number: int, checksum: string,
                          baseVersion: Option<string>, e: Environment)
    : (State, Outcome)
  {
    if id !in s.receipts || s.receipts[id].invalidated then (s, Failed(ReceiptInvalid))
    else
      var record := s.receipts[id];
      var invalid := SetReceipt(s, id, record.(invalidated := true));
      if record.consumed then (s, Failed(ReceiptAlreadyConsumed))
      else if record.artifact.Some? then (s, Failed(ReceiptAlreadyPrepared))
      else if ActiveAuthorization(s, record.authorizationId, e.now).None? then (invalid, Failed(ReceiptInvalid))
      else if record.receipt.decision == Rejected then (s, Failed(ReceiptNotApproved))
      else if record.receipt.candidateId != candidateId || record.receipt.candidateRevision != number
              || record.receipt.candidateChecksum != checksum || record.receipt.baseAuthorityVersion != baseVersion then
        (s, Failed(ReceiptCandidateMismatch))
      else
        var found := FindRevision(RevisionsOf(s, candidateId), number);
        if found.None? || HeadError(e.head, found.value.baseVersion, found.value.baseChecksum).Some? then
          (invalid, Failed(ReceiptInvalid))
        else (SetReceipt(s, id, record.(consumed := true)), Decided(record.receipt))
  }

  /** `preparePublication` of the store. */
  function PrepareReceipt(s: State, receipt: Receipt, candidate: Revision, artifact: Artifact, e: Environment)
    : (State, Outcome)
  {
    var id := receipt.receiptId;
    if id !in s.receipts || s.receipts[id].invalidated then (s, Failed(ReceiptInvalid))
    else
      var record := s.receipts[id];
      var found := FindRevision(RevisionsOf(s, candidate.candidateId), candidate.revision);
      if found != Some(candidate) || record.receipt.decision == Rejected || record.receipt != receipt then
        (s, Failed(RecordMismatch))
      else if record.artifact.Some? && record.artifact.value != artifact then
        (s, Failed(if record.consumed then ReceiptAlreadyConsumed else ReceiptAlreadyPrepared))
      else if record.artifact.Some? then (s, Done)
      else if ActiveAuthorization(s, record.authorizationId, e.now).None? then (s, Failed(ReceiptInvalid))
      else (SetReceipt(s, id, record.(artifact := Some(artifact))), Done)
  }

  /** `finalizePublication` of the store. */
  function FinalizeReceipt(s: State, f: Finalization): (State, Outcome) {
    if f.receiptId !in s.receipts then (s, Failed(ReceiptInvalid))
    else
      var record := s.receipts[f.receiptId];
      if record.invalidated || record.artifact.None? then (s, Failed(ReceiptInvalid))
      else if f != P.Finalization(record.receipt.receiptId, record.receipt.candidateId,
                                  record.receipt.candidateRevision,
                                record.receipt.candidateChecksum, record.artifact.value.changeSet.changeSetId,
                                record.artifact.value.changeSet.checksum, f.sourceRevision) then
        (s, Failed(FinalizationMismatch))
      else if record.finalization.Some? then
        (s, if record.finalization.value == f then Done else Failed(ReceiptAlreadyConsumed))
      else (SetReceipt(s, f.receiptId, record.(consumed := true, finalization := Some(f))), Done)
  }

  function Apply(s: State, op: Operation, e: Environment): (State, Outcome) {
    match op
    case Authorize(id, a) => AuthorizeDiscovery(s, id, a, e)
    case EndDiscovery(id) => EndAuthorization(s, id)
    case CreateCandidate(a, t, stableId, i, newId) => NewCandidate(s, a, t, stableId, i, newId, e)
    case Revise(a, c, i) => ReviseCandidate(s, a, c, i, e)
    case PrepareConfirmation(telegram, a, c, n, requestId, token) =>
      RequestConfirmation(s, telegram, a, c, n, requestId, token, e)
    case BindMessage(token, message) => BindConfirmationMessage(s, token, message, e)
    case Withdraw(token) => WithdrawConfirmation(s, token)
    case Decide(token, action, message, authorized, sender, receiptId, at) =>
      DecideConfirmation(s, token, action, message, authorized, sender, receiptId, at, e)
    case Consume(r, c, n, checksum, base) => ConsumeReceipt(s, r, c, n, checksum, base, e)
    case Prepare(r, c, artifact) => PrepareReceipt(s, r, c, artifact, e)
    case Finalize(f) => FinalizeReceipt(s, f)
  }

  /** With a store, a call that throws is rolled back; without one its side effects stay. */
  datatype Call = Call(operation: Operation, environment: Environment, stored: bool)

  function Perform(s: State, c: Call): State {
    var (after, outcome) := Apply(s, c.operation, c.environment);
    if outcome.Failed? && c.stored then s else after
  }

  function Run(s: State, calls: seq<Call>): State
    decreases |calls|
  {
    if calls == [] then s else Run(Perform(s, calls[0]), calls[1..])
  }
}
