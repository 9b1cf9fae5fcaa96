/** What every interleaving of admission and publication calls keeps. */
module AdmissionSafety {
  import opened Options
  import opened ChangeSets
  import opened AdmissionProtocol

  /******* Invariant *******/

  predicate NumberedFromOne(candidateId: string, revisions: seq<Revision>) {
    && revisions != []
    && forall i | 0 <= i < |revisions| :: revisions[i].revision == i + 1 && revisions[i].candidateId == candidateId
  }

  predicate CandidatesNumbered(s: State) {
    && (forall c | c in s.candidates :: c in s.owners && NumberedFromOne(c, s.candidates[c]))
    && (forall t | t in s.targets :: s.targets[t] in s.candidates)
  }

  /** `r` is the candidate's last revision, and `authorizationId` its current authorization, not ended. */
  predicate Current(s: State, candidateId: string, number: int, checksum: string, authorizationId: string) {
    && candidateId in s.candidates && candidateId in s.owners
    && s.candidates[candidateId] != []
    && Last(s.candidates[candidateId]).value.revision == number
    && Last(s.candidates[candidateId]).value.checksum == checksum
    && s.owners[candidateId] == authorizationId
    && authorizationId in s.authorizations && s.authorizations[authorizationId].status == Active
  }

  predicate ConfirmationCurrent(s: State, c: Confirmation) {
    && Current(s, c.candidate.candidateId, c.candidate.revision, c.candidate.checksum, c.authorizationId)
    && Some(c.candidate) == Last(s.candidates[c.candidate.candidateId])
  }

  predicate ReceiptCurrent(s: State, r: ReceiptRecord) {
    && Current(s, r.receipt.candidateId, r.receipt.candidateRevision, r.receipt.candidateChecksum, r.authorizationId)
    && r.receipt.baseAuthorityVersion == Last(s.candidates[r.receipt.candidateId]).value.baseVersion
  }

  /** Unconsumed, uninvalidated and unprepared. */
  predicate Live(r: ReceiptRecord) { Unresolved(r) && !r.invalidated }

  predicate ConfirmationsCurrent(s: State) {
    forall t | t in s.confirmations :: ConfirmationCurrent(s, s.confirmations[t])
  }

  predicate ReceiptsCurrent(s: State) {
    forall r | r in s.receipts && Live(s.receipts[r]) :: ReceiptCurrent(s, s.receipts[r])
  }

  /** An invalidated receipt was never consumed, prepared or finalized, and a finalized one was both. */
  predicate ReceiptConsistent(r: ReceiptRecord, id: string) {
    && r.receipt.receiptId == id
    && (r.invalidated ==> !r.consumed && r.artifact.None? && r.finalization.None?)
    && (r.finalization.Some? ==> r.consumed && r.artifact.Some?)
  }

  predicate ReceiptsConsistent(receipts: Receipts) {
    forall r | r in receipts :: ReceiptConsistent(receipts[r], r)
  }

  predicate Inv(s: State) {
    && CandidatesNumbered(s)
    && ConfirmationsCurrent(s)
    && ReceiptsCurrent(s)
    && ReceiptsConsistent(s.receipts)
  }

  const EMPTY := State(map[], map[], map[], map[], map[], map[])

  lemma EmptyInv()
    ensures Inv(EMPTY)
  {}

  /******* Preservation *******/

  lemma EndingKeepsInv(s: State, id: string)
    requires Inv(s)
    ensures Inv(EndAuthorization(s, id).0)
  {}

  /** Adding a revision supersedes every approval of the candidate; everybody else's are untouched. */
  lemma AddingKeepsInv(s: State, id: string, r: Revision, owner: string)
    requires Inv(s)
    requires r.candidateId == id && r.revision == |RevisionsOf(s, id)| + 1
    ensures Inv(AddRevision(s, id, r, id in s.candidates).(owners := s.owners[id := owner]))
  {
    var t := AddRevision(s, id, r, id in s.candidates).(owners := s.owners[id := owner]);
    forall k | k in t.receipts && Live(t.receipts[k]) ensures ReceiptCurrent(t, t.receipts[k]) {
      assert Live(s.receipts[k]) && ReceiptCurrent(s, s.receipts[k]);
    }
    forall k | k in t.confirmations ensures ConfirmationCurrent(t, t.confirmations[k]) {
      assert ConfirmationCurrent(s, s.confirmations[k]);
    }
    forall k | k in t.receipts ensures ReceiptConsistent(t.receipts[k], k) {
      assert ReceiptConsistent(s.receipts[k], k);
    }
    forall c | c in t.candidates ensures c in t.owners && NumberedFromOne(c, t.candidates[c]) {
      if c != id || id in s.candidates { assert NumberedFromOne(c, s.candidates[c]); }
    }
  }

  /** A receipt may be replaced by a consistent one that is live only where the old one was. */
  lemma SettingReceiptKeepsInv(s: State, id: string, r: ReceiptRecord)
    requires Inv(s) && ReceiptConsistent(r, id)
    requires Live(r) ==> ReceiptCurrent(s, r)
    ensures Inv(SetReceipt(s, id, r))
  {}

  lemma ConfirmationsKeepInv(s: State, confirmations: Confirmations)
    requires Inv(s)
    requires forall k | k in confirmations :: ConfirmationCurrent(s, confirmations[k])
    ensures Inv(s.(confirmations := confirmations))
  {}

  lemma AuthorizingKeepsInv(s: State, id: string, a: Authorization, e: Environment)
    requires Inv(s)
    ensures Inv(AuthorizeDiscovery(s, id, a, e).0)
  {}

  lemma CreatingKeepsInv(s: State, a: string, candidateType: string, stableId: string, i: RevisionInput, newId: string,
                         e: Environment)
    requires Inv(s)
    ensures Inv(NewCandidate(s, a, candidateType, stableId, i, newId, e).0)
  {
    var (t, outcome) := NewCandidate(s, a, candidateType, stableId, i, newId, e);
    if outcome.Stored? {
      var id := outcome.revision.candidateId;
      assert id in s.candidates ==> NumberedFromOne(id, s.candidates[id]);
      AddingKeepsInv(s, id, outcome.revision, a);
      var added := AddRevision(s, id, outcome.revision, id in s.candidates).(owners := s.owners[id := a]);
      assert Inv(added) && t == added.(targets := t.targets);
      RetargetingKeepsInv(added, t.targets);
    }
  }

  lemma RetargetingKeepsInv(s: State, targets: map<Target, string>)
    requires Inv(s)
    requires forall k | k in targets :: targets[k] in s.candidates
    ensures Inv(s.(targets := targets))
  {}

  lemma RevisingKeepsInv(s: State, a: string, candidateId: string, i: RevisionInput, e: Environment)
    requires Inv(s)
    ensures Inv(ReviseCandidate(s, a, candidateId, i, e).0)
  {
    var (t, outcome) := ReviseCandidate(s, a, candidateId, i, e);
    if outcome.Stored? {
      assert NumberedFromOne(candidateId, s.candidates[candidateId]);
      AddingKeepsInv(s, candidateId, outcome.revision, a);
      assert s.owners[candidateId := a] == s.owners;
      assert t == t.(owners := s.owners[candidateId := a]);
    }
  }

  lemma RequestingKeepsInv(s: State, onTelegram: bool, a: string, candidateId: string, number: int, requestId: string,
                           token: string, e: Environment)
    requires Inv(s)
    ensures Inv(RequestConfirmation(s, onTelegram, a, candidateId, number, requestId, token, e).0)
  {}

  lemma BindingKeepsInv(s: State, token: string, message: Message, e: Environment)
    requires Inv(s)
    ensures Inv(BindConfirmationMessage(s, token, message, e).0)
  {}

  lemma DecidingKeepsInv(s: State, token: string, action: Action, message: Message, authorized: bool, sender: string,
                         receiptId: string, at: string, e: Environment)
    requires Inv(s)
    ensures Inv(DecideConfirmation(s, token, action, message, authorized, sender, receiptId, at, e).0)
  {}

  /** What is decided about a receipt stays decided. */
  predicate ReceiptExtends(before: ReceiptRecord, after: ReceiptRecord) {
    && after.receipt == before.receipt && after.authorizationId == before.authorizationId
    && (before.consumed ==> after.consumed)
    && (before.invalidated ==> after == before)
    && (before.artifact.Some? ==> after.artifact == before.artifact && !after.invalidated)
    && (before.finalization.Some? ==> after == before)
  }

  /** Consuming, preparing and finalizing write one receipt, and never leave it live when they change it. */
  lemma ResolvingWritesOneReceipt(s: State, op: Operation, e: Environment, id: string)
    requires op.Consume? || op.Prepare? || op.Finalize?
    requires id == if op.Consume? then op.receiptId
                   else if op.Prepare? then op.receipt.receiptId else op.finalization.receiptId
    ensures var t := Apply(s, op, e).0;
            t != s ==> id in s.receipts && id in t.receipts && t == SetReceipt(s, id, t.receipts[id])
                       && !Live(t.receipts[id]) && t.receipts[id].authorizationId == s.receipts[id].authorizationId
    ensures var t := Apply(s, op, e).0;
            t != s && ReceiptConsistent(s.receipts[id], id) ==>
              ReceiptConsistent(t.receipts[id], id) && ReceiptExtends(s.receipts[id], t.receipts[id])
  {}

  lemma ResolvingKeepsInv(s: State, op: Operation, e: Environment)
    requires Inv(s) && (op.Consume? || op.Prepare? || op.Finalize?)
    ensures Inv(Apply(s, op, e).0)
  {
    var id := if op.Consume? then op.receiptId else if op.Prepare? then op.receipt.receiptId
      else op.finalization.receiptId;
    ResolvingWritesOneReceipt(s, op, e, id);
    hide Apply, Live;
    var t := Apply(s, op, e).0;
    if t != s { SettingReceiptKeepsInv(s, id, t.receipts[id]); }
  }

  lemma ConsumingKeepsInv(s: State, id: string, candidateId: string, number: int, checksum: string,
                          baseVersion: Option<string>, e: Environment)
    requires Inv(s)
    ensures Inv(ConsumeReceipt(s, id, candidateId, number, checksum, baseVersion, e).0)
  {
    hide Inv, ConsumeReceipt;
    ResolvingKeepsInv(s, Consume(id, candidateId, number, checksum, baseVersion), e);
  }

  lemma ApplyKeepsInv(s: State, op: Operation, e: Environment)
    requires Inv(s)
    ensures Inv(Apply(s, op, e).0)
  {
    match op
    case Authorize(id, a) => AuthorizingKeepsInv(s, id, a, e);
    case EndDiscovery(id) => EndingKeepsInv(s, id);
    case CreateCandidate(a, t, stableId, i, newId) => CreatingKeepsInv(s, a, t, stableId, i, newId, e);
    case Revise(a, c, i) => RevisingKeepsInv(s, a, c, i, e);
    case PrepareConfirmation(telegram, a, c, n, requestId, token) =>
      RequestingKeepsInv(s, telegram, a, c, n, requestId, token, e);
    case BindMessage(token, message) => BindingKeepsInv(s, token, message, e);
    case Withdraw(token) => ConfirmationsKeepInv(s, s.confirmations - {token});
    case Decide(token, action, message, authorized, sender, receiptId, at) =>
      DecidingKeepsInv(s, token, action, message, authorized, sender, receiptId, at, e);
    case Consume(_, _, _, _, _) => ResolvingKeepsInv(s, op, e);
    case Prepare(_, _, _) => ResolvingKeepsInv(s, op, e);
    case Finalize(_) => ResolvingKeepsInv(s, op, e);
  }

  /******* Main results *******/

  /**
   Over every run, with and without a store: revisions are numbered 1..n, and every live confirmation and every
   live receipt is for its candidate's last revision, owned by the candidate's current, not ended authorization.
   */
  lemma {:induction false} UnresolvedApprovalsAreNeverStale(s: State, calls: seq<Call>)
    requires Inv(s)
    ensures Inv(Run(s, calls))
    decreases |calls|
  {
    if calls != [] {
      ApplyKeepsInv(s, calls[0].operation, calls[0].environment);
      UnresolvedApprovalsAreNeverStale(Perform(s, calls[0]), calls[1..]);
    }
  }

  /** The initial store included. */
  lemma ReachableStatesAreCurrent(calls: seq<Call>)
    ensures Inv(Run(EMPTY, calls))
  {
    EmptyInv();
    UnresolvedApprovalsAreNeverStale(EMPTY, calls);
  }

  /** Only an approval of the candidate's last revision, under its current, active authorization, is ever consumed. */
  lemma OnlyTheCurrentRevisionIsConsumed(s: State, id: string, candidateId: string, number: int, checksum: string,
                                         baseVersion: Option<string>, e: Environment)
    requires Inv(s)
    requires ConsumeReceipt(s, id, candidateId, number, checksum, baseVersion, e).1.Decided?
    ensures var receipt := ConsumeReceipt(s, id, candidateId, number, checksum, baseVersion, e).1.receipt;
            && receipt.decision != Rejected
            && Current(s, candidateId, number, checksum, s.receipts[id].authorizationId)
            && ActiveAuthorization(s, s.owners[candidateId], e.now).Some?
            && number == |s.candidates[candidateId]|
            && HeadError(e.head, baseVersion, Last(s.candidates[candidateId]).value.baseChecksum).None?
  {}

  /******* One receipt, one change set *******/

  predicate ReceiptsExtend(before: Receipts, after: Receipts) {
    forall r | r in before :: r in after && ReceiptExtends(before[r], after[r])
  }

  predicate RevisionsExtend(before: Candidates, after: Candidates) {
    forall c | c in before :: c in after && before[c] <= after[c]
  }

  predicate Extends(before: State, after: State) {
    ReceiptsExtend(before.receipts, after.receipts) && RevisionsExtend(before.candidates, after.candidates)
  }

  /** `createId` returns a receipt id that is not in use. */
  predicate FreshId(s: State, op: Operation) { op.Decide? ==> op.receiptId !in s.receipts }

  predicate AlwaysFresh(s: State, calls: seq<Call>)
    decreases |calls|
  {
    calls == [] || (FreshId(s, calls[0].operation) && AlwaysFresh(Perform(s, calls[0]), calls[1..]))
  }

  lemma InvalidatingExtends(receipts: Receipts, id: string)
    requires ReceiptsConsistent(receipts)
    ensures ReceiptsExtend(receipts, EndReceipts(receipts, id))
    ensures ReceiptsExtend(receipts, SupersedeReceipts(receipts, id))
  {}

  lemma SameReceiptsExtend(receipts: Receipts)
    requires ReceiptsConsistent(receipts)
    ensures ReceiptsExtend(receipts, receipts)
  {}

  lemma ResolvingExtends(s: State, op: Operation, e: Environment)
    requires Inv(s) && (op.Consume? || op.Prepare? || op.Finalize?)
    ensures Extends(s, Apply(s, op, e).0)
  {
    var id := if op.Consume? then op.receiptId else if op.Prepare? then op.receipt.receiptId
      else op.finalization.receiptId;
    ResolvingWritesOneReceipt(s, op, e, id);
    SameReceiptsExtend(s.receipts);
    hide Apply, ReceiptExtends, ReceiptConsistent;
  }

  /** The state after `r` was stored: its candidate's next revision, with the candidate's approvals superseded. */
  predicate Storing(s: State, t: State, r: Revision) {
    var known := r.candidateId in s.candidates;
    && t.candidates == s.candidates[r.candidateId := RevisionsOf(s, r.candidateId) + [r]]
    && r.revision == |RevisionsOf(s, r.candidateId)| + 1
    && t.confirmations == (if known then WithoutCandidate(s.confirmations, r.candidateId) else s.confirmations)
    && t.receipts == (if known then SupersedeReceipts(s.receipts, r.candidateId) else s.receipts)
  }

  lemma CreatingStores(s: State, a: string, candidateType: string, stableId: string, i: RevisionInput, newId: string,
                       e: Environment)
    requires Inv(s)
    ensures var (t, outcome) := NewCandidate(s, a, candidateType, stableId, i, newId, e);
            outcome.Stored? ==> Storing(s, t, outcome.revision)
  {}

  lemma RevisingStores(s: State, a: string, candidateId: string, i: RevisionInput, e: Environment)
    requires Inv(s)
    ensures var (t, outcome) := ReviseCandidate(s, a, candidateId, i, e);
            outcome.Stored? ==> Storing(s, t, outcome.revision)
  {}

  lemma OnlyRevisionsAreStored(s: State, op: Operation, e: Environment)
    requires Inv(s)
    ensures var (t, outcome) := Apply(s, op, e);
            outcome.Stored? ==> (op.CreateCandidate? || op.Revise?) && Storing(s, t, outcome.revision)
  {
    hide Storing, Inv;
    if op.CreateCandidate? {
      CreatingStores(s, op.authorizationId, op.candidateType, op.stableId, op.input, op.newId, e);
      hide NewCandidate;
    } else if op.Revise? {
      RevisingStores(s, op.authorizationId, op.candidateId, op.input, e);
      hide ReviseCandidate;
    }
  }

  lemma StoredOrUnchanged(s: State, op: Operation, e: Environment)
    requires op.CreateCandidate? || op.Revise?
    ensures Apply(s, op, e).1.Stored? || Apply(s, op, e).0 == s
  {}

  lemma StoringExtends(s: State, op: Operation, e: Environment)
    requires Inv(s) && (op.CreateCandidate? || op.Revise?)
    ensures Extends(s, Apply(s, op, e).0)
  {
    SameReceiptsExtend(s.receipts);
    OnlyRevisionsAreStored(s, op, e);
    StoredOrUnchanged(s, op, e);
    hide Apply, ReceiptExtends, ReceiptConsistent;
    if Apply(s, op, e).1.Stored? { InvalidatingExtends(s.receipts, Apply(s, op, e).1.revision.candidateId); }
    hide SupersedeReceipts;
  }

  lemma DecidingExtends(s: State, op: Operation, e: Environment)
    requires Inv(s) && op.Decide? && FreshId(s, op)
    ensures Extends(s, Apply(s, op, e).0)
  {
    SameReceiptsExtend(s.receipts);
    hide ReceiptExtends, ReceiptConsistent;
  }

  lemma ApplyExtends(s: State, op: Operation, e: Environment)
    requires Inv(s) && FreshId(s, op)
    ensures Extends(s, Apply(s, op, e).0)
  {
    if op.CreateCandidate? || op.Revise? {
      StoringExtends(s, op, e);
    } else if op.Consume? || op.Prepare? || op.Finalize? {
      ResolvingExtends(s, op, e);
    } else if op.Decide? {
      DecidingExtends(s, op, e);
    } else {
      hide ReceiptExtends, ReceiptConsistent, EndReceipts;
      SameReceiptsExtend(s.receipts);
      if op.EndDiscovery? { InvalidatingExtends(s.receipts, op.authorizationId); }
      assert Apply(s, op, e).0.candidates == s.candidates;
    }
  }

  lemma ExtendsTransitive(a: State, b: State, c: State)
    requires Extends(a, b) && Extends(b, c)
    ensures Extends(a, c)
  {}

  /**
   Over every interleaving: a bound artifact and a finalization never change, an invalidated receipt stays as it
   is, never consumed, prepared or finalized, and recorded revisions are never rewritten.
   */
  lemma {:induction false} DecidedReceiptsNeverChange(s: State, calls: seq<Call>)
    requires Inv(s) && AlwaysFresh(s, calls)
    ensures Extends(s, Run(s, calls))
    decreases |calls|
  {
    SameReceiptsExtend(s.receipts);
    if calls != [] {
      var next := Perform(s, calls[0]);
      ApplyKeepsInv(s, calls[0].operation, calls[0].environment);
      ApplyExtends(s, calls[0].operation, calls[0].environment);
      DecidedReceiptsNeverChange(next, calls[1..]);
      ExtendsTransitive(s, next, Run(s, calls));
    }
  }

  /** A receipt is consumed directly at most once, whatever happens in between. */
  lemma ConsumedAtMostOnce(s: State, first: Call, between: seq<Call>, second: Operation, e: Environment)
    requires Inv(s) && first.operation.Consume? && second.Consume?
    requires second.receiptId == first.operation.receiptId
    requires Apply(s, first.operation, first.environment).1.Decided?
    requires AlwaysFresh(Perform(s, first), between)
    ensures Apply(Run(Perform(s, first), between), second, e).1
            in {Failed(ReceiptAlreadyConsumed), Failed(ReceiptInvalid)}
  {
    var after := Perform(s, first);
    ApplyKeepsInv(s, first.operation, first.environment);
    DecidedReceiptsNeverChange(after, between);
    assert after.receipts[second.receiptId].consumed;
    assert ReceiptExtends(after.receipts[second.receiptId], Run(after, between).receipts[second.receiptId]);
  }

  /** Stored revisions are found again, unchanged, after any run. */
  lemma RevisionIsStillThere(before: State, after: State, r: Revision)
    requires Inv(before) && Inv(after) && RevisionsExtend(before.candidates, after.candidates)
    requires FindRevision(RevisionsOf(before, r.candidateId), r.revision) == Some(r)
    ensures FindRevision(RevisionsOf(after, r.candidateId), r.revision) == Some(r)
  {}

  lemma PreparingBinds(s: State, op: Operation, e: Environment)
    requires Inv(s) && op.Prepare? && Apply(s, op, e).1.Done?
    ensures var t, id := Apply(s, op, e).0, op.receipt.receiptId;
            && id in t.receipts && t.receipts[id].artifact == Some(op.artifact) && !t.receipts[id].invalidated
            && t.receipts[id].receipt == op.receipt && op.receipt.decision != Rejected
            && t.candidates == s.candidates
            && FindRevision(RevisionsOf(t, op.candidate.candidateId), op.candidate.revision) == Some(op.candidate)
  {}

  lemma PreparingAgain(s: State, receipt: Receipt, candidate: Revision, bound: Artifact, artifact: Artifact,
                       e: Environment)
    requires receipt.receiptId in s.receipts && receipt.decision != Rejected
    requires var r := s.receipts[receipt.receiptId]; r.artifact == Some(bound) && !r.invalidated && r.receipt == receipt
    requires FindRevision(RevisionsOf(s, candidate.candidateId), candidate.revision) == Some(candidate)
    ensures PrepareReceipt(s, receipt, candidate, artifact, e).1.Done? <==> artifact == bound
  {}

  /** Once a receipt is bound, preparing it again succeeds for the same artifact and for no other. */
  lemma BoundToOneArtifact(s: State, first: Call, between: seq<Call>, artifact: Artifact, e: Environment)
    requires Inv(s) && first.operation.Prepare?
    requires Apply(s, first.operation, first.environment).1.Done?
    requires AlwaysFresh(Perform(s, first), between)
    ensures var op := first.operation;
            PrepareReceipt(Run(Perform(s, first), between), op.receipt, op.candidate, artifact, e).1.Done?
            <==> artifact == op.artifact
  {
    var op, after := first.operation, Perform(s, first);
    var last := Run(after, between);
    ApplyKeepsInv(s, op, first.environment);
    PreparingBinds(s, op, first.environment);
    UnresolvedApprovalsAreNeverStale(after, between);
    DecidedReceiptsNeverChange(after, between);
    hide Inv, Apply, PrepareReceipt, FindRevision;
    assert ReceiptExtends(after.receipts[op.receipt.receiptId], last.receipts[op.receipt.receiptId]);
    RevisionIsStillThere(after, last, op.candidate);
    PreparingAgain(last, op.receipt, op.candidate, op.artifact, artifact, e);
  }

  lemma FinalizingRecords(s: State, f: Finalization)
    requires FinalizeReceipt(s, f).1.Done?
    ensures var t := FinalizeReceipt(s, f).0;
            && f.receiptId in t.receipts && t.receipts[f.receiptId].finalization == Some(f)
            && t.receipts[f.receiptId].artifact.Some? && !t.receipts[f.receiptId].invalidated
            && FinalizeReceipt(t, f).1.Done?
  {}

  lemma FinalizingAgain(a: State, b: State, recorded: Finalization, f: Finalization)
    requires recorded.receiptId == f.receiptId && f.receiptId in a.receipts && f.receiptId in b.receipts
    requires a.receipts[f.receiptId] == b.receipts[f.receiptId]
    requires a.receipts[f.receiptId].finalization == Some(recorded) && FinalizeReceipt(a, recorded).1.Done?
    ensures FinalizeReceipt(b, f).1.Done? <==> f == recorded
  {}

  /** A finalization, once recorded, is the only one the receipt ever accepts. */
  lemma FinalizedOnce(s: State, first: Call, between: seq<Call>, f: Finalization)
    requires Inv(s) && first.operation.Finalize? && f.receiptId == first.operation.finalization.receiptId
    requires Apply(s, first.operation, first.environment).1.Done?
    requires AlwaysFresh(Perform(s, first), between)
    ensures FinalizeReceipt(Run(Perform(s, first), between), f).1.Done? <==> f == first.operation.finalization
  {
    var after := Perform(s, first);
    ApplyKeepsInv(s, first.operation, first.environment);
    FinalizingRecords(s, first.operation.finalization);
    DecidedReceiptsNeverChange(after, between);
    hide Inv, FinalizeReceipt;
    assert ReceiptExtends(after.receipts[f.receiptId], Run(after, between).receipts[f.receiptId]);
    FinalizingAgain(after, Run(after, between), first.operation.finalization, f);
  }

  /** A bound receipt can never be consumed directly, whatever happens in between. */
  lemma PreparedIsNeverConsumed(s: State, first: Call, between: seq<Call>, second: Operation, e: Environment)
    requires Inv(s) && first.operation.Prepare? && second.Consume?
    requires second.receiptId == first.operation.receipt.receiptId
    requires Apply(s, first.operation, first.environment).1.Done?
    requires AlwaysFresh(Perform(s, first), between)
    ensures Apply(Run(Perform(s, first), between), second, e).1
            in {Failed(ReceiptAlreadyConsumed), Failed(ReceiptAlreadyPrepared)}
  {
    var after := Perform(s, first);
    ApplyKeepsInv(s, first.operation, first.environment);
    PreparingBinds(s, first.operation, first.environment);
    DecidedReceiptsNeverChange(after, between);
    hide Inv;
    assert ReceiptExtends(after.receipts[second.receiptId], Run(after, between).receipts[second.receiptId]);
  }

  lemma ConsumingFinds(s: State, op: Operation, e: Environment)
    requires op.Consume? && Apply(s, op, e).1.Decided?
    ensures var t, receipt := Apply(s, op, e).0, Apply(s, op, e).1.receipt;
            && op.receiptId in t.receipts && t.receipts[op.receiptId].receipt == receipt
            && t.receipts[op.receiptId].consumed && receipt.decision != Rejected
            && receipt.candidateId == op.candidateId && receipt.candidateRevision == op.candidateRevision
            && t.candidates == s.candidates
            && FindRevision(RevisionsOf(s, op.candidateId), op.candidateRevision).Some?
  {}

  lemma ConsumedIsValid(s: State, id: string)
    requires Inv(s) && id in s.receipts && s.receipts[id].consumed
    ensures !s.receipts[id].invalidated && s.receipts[id].receipt.receiptId == id
  {}

  lemma PreparesExactly(s: State, receipt: Receipt, candidate: Revision, artifact: Artifact, e: Environment)
    requires receipt.receiptId in s.receipts && receipt.decision != Rejected
    requires s.receipts[receipt.receiptId].receipt == receipt && !s.receipts[receipt.receiptId].invalidated
    requires FindRevision(RevisionsOf(s, candidate.candidateId), candidate.revision) == Some(candidate)
    ensures var record := s.receipts[receipt.receiptId];
            PrepareReceipt(s, receipt, candidate, artifact, e).1.Done?
            <==> record.artifact == Some(artifact)
                 || (record.artifact.None? && ActiveAuthorization(s, record.authorizationId, e.now).Some?)
  {}

  /**
   The other way round nothing keeps a receipt from both: consumed directly, it is bound to an artifact later exactly
   when it is bound to it already, or to none while its authorization is active.
   */
  lemma ConsumedIsPreparedExactly(s: State, first: Call, between: seq<Call>, candidate: Revision, artifact: Artifact,
                                  e: Environment)
    requires Inv(s) && first.operation.Consume? && Apply(s, first.operation, first.environment).1.Decided?
    requires FindRevision(RevisionsOf(s, candidate.candidateId), candidate.revision) == Some(candidate)
    requires AlwaysFresh(Perform(s, first), between)
    ensures var last, id := Run(Perform(s, first), between), first.operation.receiptId;
            && id in last.receipts && last.receipts[id].consumed
            && (PrepareReceipt(last, last.receipts[id].receipt, candidate, artifact, e).1.Done?
                <==> last.receipts[id].artifact == Some(artifact)
                     || (last.receipts[id].artifact.None?
                         && ActiveAuthorization(last, last.receipts[id].authorizationId, e.now).Some?))
  {
    var after, id := Perform(s, first), first.operation.receiptId;
    var last := Run(after, between);
    ApplyKeepsInv(s, first.operation, first.environment);
    ConsumingFinds(s, first.operation, first.environment);
    UnresolvedApprovalsAreNeverStale(after, between);
    DecidedReceiptsNeverChange(after, between);
    hide Inv, Apply, PrepareReceipt, FindRevision;
    assert ReceiptExtends(after.receipts[id], last.receipts[id]);
    ConsumedIsValid(last, id);
    RevisionIsStillThere(after, last, candidate);
    PreparesExactly(last, last.receipts[id].receipt, candidate, artifact, e);
  }

  /** A new revision leaves no live approval of the candidate at all. */
  lemma {:induction false} NewRevisionSupersedes(s: State, op: Operation, e: Environment)
    requires Inv(s) && Apply(s, op, e).1.Stored?
    ensures var t, id := Apply(s, op, e).0, Apply(s, op, e).1.revision.candidateId;
            && id in t.candidates && |t.candidates[id]| == |RevisionsOf(s, id)| + 1
            && (forall k | k in t.confirmations :: t.confirmations[k].candidate.candidateId != id)
            && (forall r | r in t.receipts && Live(t.receipts[r]) :: t.receipts[r].receipt.candidateId != id)
  {
    OnlyRevisionsAreStored(s, op, e);
    hide Apply;
    var t, id := Apply(s, op, e).0, Apply(s, op, e).1.revision.candidateId;
    forall k | k in t.confirmations ensures t.confirmations[k].candidate.candidateId != id {
      assert ConfirmationCurrent(s, s.confirmations[k]);
    }
    forall r | r in t.receipts && Live(t.receipts[r]) ensures t.receipts[r].receipt.candidateId != id {
      assert Live(s.receipts[r]) && ReceiptCurrent(s, s.receipts[r]);
    }
  }
}
