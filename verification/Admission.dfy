/**
 `CandidateAdmissionService` as `src/admission/index.ts` runs it: six maps updated in place, approvals deleted and
 invalidated one by one, and a store row the maps are rebuilt from around every call.
 */
module Admission {
  import opened Options
  import opened ChangeSets
  import Decisions = AdmissionDecisions
  import opened AdmissionProtocol
  import Spec = AdmissionProtocol
  import opened AdmissionSafety
  import opened AdmissionSnapshots

  class CandidateAdmissionService {
    var authorizations: Authorizations
    var candidates: Candidates
    var owners: map<string, string>
    var targets: map<Target, string>
    var confirmations: Confirmations
    var receipts: Receipts
    /** The store's one row. */
    var row: Snapshot

    function Current(): State
      reads this
    {
      State(authorizations, candidates, owners, targets, confirmations, receipts)
    }

    constructor ()
      ensures Current() == EMPTY && Restore(row) == Some(EMPTY)
    {
      row := Snapshot([], [], [], [], []);
      authorizations, candidates, owners := map[], map[], map[];
      targets, confirmations, receipts := map[], map[], map[];
    }

    method AuthorizeDiscovery(id: string, a: Authorization, e: Environment) returns (outcome: Outcome)
      modifies this`authorizations
      ensures (Current(), outcome) == Spec.AuthorizeDiscovery(old(Current()), id, a, e)
    {
      if a.expiresAt <= e.now { return Failed(AuthorizationNotFinite); }
      if a.candidateTypes == [] || a.sourceRefs == [] { return Failed(ScopeEmpty); }
      authorizations := authorizations[id := a.(status := Active)];
      return Done;
    }

    method DeleteConfirmationsOf(id: string)
      modifies this`confirmations
      ensures confirmations == WithoutAuthorization(old(confirmations), id)
    {
      var tokens := confirmations.Keys;
      while tokens != {}
        invariant tokens <= confirmations.Keys
        invariant forall t :: t in confirmations <==>
                    t in old(confirmations) && (t in tokens || old(confirmations)[t].authorizationId != id)
        invariant forall t | t in confirmations :: confirmations[t] == old(confirmations)[t]
        decreases |tokens|
      {
        var token :| token in tokens;
        if confirmations[token].authorizationId == id { confirmations := confirmations - {token}; }
        tokens := tokens - {token};
      }
    }

    method InvalidateReceiptsOf(id: string)
      modifies this`receipts
      ensures receipts == EndReceipts(old(receipts), id)
    {
      var open := receipts.Keys;
      while open != {}
        invariant open <= receipts.Keys == old(receipts).Keys
        invariant forall r | r in receipts ::
                    receipts[r] == if r in open then old(receipts)[r] else EndedFor(old(receipts)[r], id)
        decreases |open|
      {
        var r :| r in open;
        if receipts[r].authorizationId == id && Unresolved(receipts[r]) {
          receipts := receipts[r := receipts[r].(invalidated := true)];
        }
        open := open - {r};
      }
    }

    /** `endDiscovery`: deletes the authorization's confirmations and invalidates its open receipts, one at a time. */
    method EndDiscovery(id: string) returns (outcome: Outcome)
      modifies this`authorizations, this`confirmations, this`receipts
      ensures (Current(), outcome) == EndAuthorization(old(Current()), id)
    {
      if id !in authorizations || authorizations[id].status != Active { return Failed(AuthorizationNotActive); }
      authorizations := authorizations[id := authorizations[id].(status := Ended)];
      DeleteConfirmationsOf(id);
      InvalidateReceiptsOf(id);
      return Done;
    }

    method DeleteConfirmationsFor(id: string)
      modifies this`confirmations
      ensures confirmations == WithoutCandidate(old(confirmations), id)
    {
      var tokens := confirmations.Keys;
      while tokens != {}
        invariant tokens <= confirmations.Keys
        invariant forall t :: t in confirmations <==>
                    t in old(confirmations) && (t in tokens || old(confirmations)[t].candidate.candidateId != id)
        invariant forall t | t in confirmations :: confirmations[t] == old(confirmations)[t]
        decreases |tokens|
      {
        var token :| token in tokens;
        if confirmations[token].candidate.candidateId == id { confirmations := confirmations - {token}; }
        tokens := tokens - {token};
      }
    }

    method InvalidateReceiptsFor(id: string)
      modifies this`receipts
      ensures receipts == SupersedeReceipts(old(receipts), id)
    {
      var open := receipts.Keys;
      while open != {}
        invariant open <= receipts.Keys == old(receipts).Keys
        invariant forall r | r in receipts ::
                    receipts[r] == if r in open then old(receipts)[r] else SupersededFor(old(receipts)[r], id)
        decreases |open|
      {
        var r :| r in open;
        if receipts[r].receipt.candidateId == id && Unresolved(receipts[r]) {
          receipts := receipts[r := receipts[r].(invalidated := true)];
        }
        open := open - {r};
      }
    }

    method InvalidateCandidateApprovals(id: string)
      modifies this`confirmations, this`receipts
      ensures confirmations == WithoutCandidate(old(confirmations), id)
      ensures receipts == SupersedeReceipts(old(receipts), id)
    {
      DeleteConfirmationsFor(id);
      InvalidateReceiptsFor(id);
    }

    method CreateCandidate(authorizationId: string, candidateType: string, stableId: string, i: RevisionInput,
                           newId: string, e: Environment)
      returns (outcome: Outcome)
      modifies this`candidates, this`owners, this`targets, this`confirmations, this`receipts
      ensures (Current(), outcome)
              == NewCandidate(old(Current()), authorizationId, candidateType, stableId, i, newId, e)
    {
      hide WithoutCandidate, SupersedeReceipts;
      var a := ActiveAuthorization(Current(), authorizationId, e.now);
      if a.None? { return Failed(AuthorizationNotActive); }
      var error := BaseError(i, e.head);
      if error.Some? { return Failed(error.value); }
      if candidateType !in a.value.candidateTypes { return Failed(TypeOutOfScope); }
      error := SourceMapError(a.value, i.sourceMap);
      if error.Some? { return Failed(error.value); }
      var target := Target(a.value.instanceId, candidateType, stableId);
      var id := newId;
      if target in targets {
        id := targets[target];
        if id in owners && owners[id] == authorizationId { return Failed(TargetAlreadyExists); }
      } else if id in candidates {
        return Failed(CandidateAlreadyExists);
      }
      var revisions := RevisionsOf(Current(), id);
      var number := if revisions == [] then 1 else revisions[|revisions| - 1].revision + 1;
      var stored := NewRevision(id, number, candidateType, stableId, i);
      if id in candidates { InvalidateCandidateApprovals(id); }
      candidates := candidates[id := revisions + [stored]];
      owners := owners[id := authorizationId];
      targets := targets[target := id];
      return Stored(stored);
    }

    method ReviseCandidate(authorizationId: string, candidateId: string, i: RevisionInput, e: Environment)
      returns (outcome: Outcome)
      modifies this`candidates, this`confirmations, this`receipts
      ensures (Current(), outcome) == Spec.ReviseCandidate(old(Current()), authorizationId, candidateId, i, e)
    {
      hide WithoutCandidate, SupersedeReceipts;
      var a := ActiveAuthorization(Current(), authorizationId, e.now);
      if a.None? { return Failed(AuthorizationNotActive); }
      var revisions := RevisionsOf(Current(), candidateId);
      if revisions == [] || candidateId !in owners || owners[candidateId] != authorizationId {
        return Failed(CandidateNotFound);
      }
      var current := revisions[|revisions| - 1];
      var error := BaseError(i, e.head);
      if error.Some? { return Failed(error.value); }
      error := SourceMapError(a.value, i.sourceMap);
      if error.Some? { return Failed(error.value); }
      var stored := NewRevision(current.candidateId, current.revision + 1, current.candidateType, current.stableId, i);
      InvalidateCandidateApprovals(candidateId);
      candidates := candidates[candidateId := revisions + [stored]];
      return Stored(stored);
    }

    method PrepareConfirmation(onTelegram: bool, authorizationId: string, candidateId: string, revision: int,
                               requestId: string, token: string, e: Environment)
      returns (outcome: Outcome)
      modifies this`confirmations
      ensures (Current(), outcome)
              == RequestConfirmation(old(Current()), onTelegram, authorizationId, candidateId, revision, requestId,
                                     token, e)
      ensures old(Inv(Current())) ==> Inv(Current())
    {
      if Inv(Current()) {
        RequestingKeepsInv(Current(), onTelegram, authorizationId, candidateId, revision, requestId, token, e);
      }
      hide Inv;
      if !onTelegram { return Redirected; }
      var a := ActiveAuthorization(Current(), authorizationId, e.now);
      if a.None? { return Failed(AuthorizationNotActive); }
      var revisions := RevisionsOf(Current(), candidateId);
      var candidate := FindRevision(revisions, revision);
      if candidate.None? || candidate.value != revisions[|revisions| - 1]
         || candidateId !in owners || owners[candidateId] != authorizationId {
        return Failed(RevisionNotFound);
      }
      if |token| < 32 || token in confirmations { return Failed(RoutingTokenInvalid); }
      confirmations := confirmations[token := Confirmation(authorizationId, requestId, candidate.value, None)];
      return Done;
    }

    method BindMessage(token: string, message: Message, e: Environment) returns (outcome: Outcome)
      modifies this`confirmations
      ensures (Current(), outcome) == BindConfirmationMessage(old(Current()), token, message, e)
    {
      if token !in confirmations { return Failed(RoutingTokenInvalid); }
      var request := confirmations[token];
      var a := ActiveAuthorization(Current(), request.authorizationId, e.now);
      if a.None? { return Failed(AuthorizationNotActive); }
      if message.instanceId != a.value.instanceId { return Failed(MessageMismatch); }
      if request.message.Some? && request.message.value != message { return Failed(MessageAlreadyBound); }
      confirmations := confirmations[token := request.(message := Some(message))];
      return Done;
    }

    method Withdraw(token: string) returns (outcome: Outcome)
      modifies this`confirmations
      ensures (Current(), outcome) == WithdrawConfirmation(old(Current()), token)
    {
      if token !in confirmations { return Failed(RoutingTokenInvalid); }
      confirmations := confirmations - {token};
      return Done;
    }

    method Decide(token: string, action: Action, message: Message, authorized: bool, senderId: string,
                  receiptId: string, decidedAt: string, e: Environment)
      returns (outcome: Outcome)
      modifies this`confirmations, this`receipts
      ensures (Current(), outcome)
              == DecideConfirmation(old(Current()), token, action, message, authorized, senderId, receiptId, decidedAt,
                                    e)
      ensures old(Inv(Current())) ==> Inv(Current())
      ensures outcome.Failed? <==>
              !old(Decisions.MayDecide(Current(), token, message, authorized, senderId, e.now))
      ensures !outcome.Failed? ==> confirmations == old(confirmations) - {token}
      ensures !outcome.Failed? && action != RequestRewrite ==>
                && outcome.Decided? && receiptId in receipts && receipts[receiptId].receipt == outcome.receipt
                && !receipts[receiptId].consumed && !receipts[receiptId].invalidated
                && receipts[receiptId].authorizationId == old(confirmations)[token].authorizationId
                && outcome.receipt.candidateId == old(confirmations)[token].candidate.candidateId
                && outcome.receipt.candidateRevision == old(confirmations)[token].candidate.revision
                && outcome.receipt.candidateChecksum == old(confirmations)[token].candidate.checksum
                && (outcome.receipt.decision == Rejected <==> action == Reject)
                && (outcome.receipt.decision == Accepted <==>
                      action == Accept && old(confirmations)[token].candidate.revision == 1)
    {
      if Inv(Current()) {
        DecidingKeepsInv(Current(), token, action, message, authorized, senderId, receiptId, decidedAt, e);
      }
      Decisions.DecidesExactly(Current(), token, action, message, authorized, senderId, receiptId, decidedAt, e);
      hide Inv;
      if token !in confirmations { return Failed(RoutingTokenInvalid); }
      var request := confirmations[token];
      var a := ActiveAuthorization(Current(), request.authorizationId, e.now);
      if a.None? { return Failed(AuthorizationNotActive); }
      if request.message.None? { return Failed(MessageNotBound); }
      if request.message.value != message { return Failed(MessageMismatch); }
      if !authorized || senderId != a.value.grantedBy { return Failed(ActorMismatch); }
      confirmations := confirmations - {token};
      if action == RequestRewrite { return RewriteRequested; }
      var receipt := ReceiptFor(request.candidate, action, receiptId, decidedAt);
      receipts := receipts[receiptId := ReceiptRecord(request.authorizationId, receipt, false, false, None, None)];
      return Decided(receipt);
    }

    /** `consumeApprovalReceipt`, flags set in place before it throws. */
    method Consume(id: string, candidateId: string, revision: int, checksum: string, baseVersion: Option<string>,
                   e: Environment)
      returns (outcome: Outcome)
      modifies this`receipts
      ensures (Current(), outcome)
              == ConsumeReceipt(old(Current()), id, candidateId, revision, checksum, baseVersion, e)
      ensures old(Inv(Current())) ==> Inv(Current())
    {
      if Inv(Current()) { ConsumingKeepsInv(Current(), id, candidateId, revision, checksum, baseVersion, e); }
      hide Inv;
      if id !in receipts || receipts[id].invalidated { return Failed(ReceiptInvalid); }
      var record := receipts[id];
      if record.consumed { return Failed(ReceiptAlreadyConsumed); }
      if record.artifact.Some? { return Failed(ReceiptAlreadyPrepared); }
      if ActiveAuthorization(Current(), record.authorizationId, e.now).None? {
        receipts := receipts[id := record.(invalidated := true)];
        return Failed(ReceiptInvalid);
      }
      if record.receipt.decision == Rejected { return Failed(ReceiptNotApproved); }
      if record.receipt.candidateId != candidateId || record.receipt.candidateRevision != revision
         || record.receipt.candidateChecksum != checksum || record.receipt.baseAuthorityVersion != baseVersion {
        return Failed(ReceiptCandidateMismatch);
      }
      var candidate := FindRevision(RevisionsOf(Current(), candidateId), revision);
      if candidate.None? || HeadError(e.head, candidate.value.baseVersion, candidate.value.baseChecksum).Some? {
        receipts := receipts[id := record.(invalidated := true)];
        return Failed(ReceiptInvalid);
      }
      receipts := receipts[id := record.(consumed := true)];
      return Decided(record.receipt);
    }

    method Prepare(receipt: Receipt, candidate: Revision, artifact: Artifact, e: Environment) returns (outcome: Outcome)
      modifies this`receipts
      ensures (Current(), outcome) == PrepareReceipt(old(Current()), receipt, candidate, artifact, e)
      ensures old(Inv(Current())) ==> Inv(Current())
    {
      if Inv(Current()) { ResolvingKeepsInv(Current(), Operation.Prepare(receipt, candidate, artifact), e); }
      hide Inv;
      var id := receipt.receiptId;
      if id !in receipts || receipts[id].invalidated { return Failed(ReceiptInvalid); }
      var record := receipts[id];
      var found := FindRevision(RevisionsOf(Current(), candidate.candidateId), candidate.revision);
      if found.None? || record.receipt.decision == Rejected || record.receipt != receipt || found.value != candidate {
        return Failed(RecordMismatch);
      }
      if record.artifact.Some? {
        if record.artifact.value == artifact { return Done; }
        return Failed(if record.consumed then ReceiptAlreadyConsumed else ReceiptAlreadyPrepared);
      }
      if ActiveAuthorization(Current(), record.authorizationId, e.now).None? { return Failed(ReceiptInvalid); }
      receipts := receipts[id := record.(artifact := Some(artifact))];
      return Done;
    }

    method Finalize(f: Finalization) returns (outcome: Outcome)
      modifies this`receipts
      ensures (Current(), outcome) == FinalizeReceipt(old(Current()), f)
      ensures old(Inv(Current())) ==> Inv(Current())
    {
      if Inv(Current()) { ResolvingKeepsInv(Current(), Operation.Finalize(f), Environment(0, Unavailable)); }
      hide Inv;
      if f.receiptId !in receipts { return Failed(ReceiptInvalid); }
      var record := receipts[f.receiptId];
      if record.invalidated || record.artifact.None? { return Failed(ReceiptInvalid); }
      var cs := record.artifact.value.changeSet;
      var expected := f.(receiptId := record.receipt.receiptId, candidateId := record.receipt.candidateId,
                         candidateRevision := record.receipt.candidateRevision,
                         candidateChecksum := record.receipt.candidateChecksum, changeSetId := cs.changeSetId,
                         changeSetChecksum := cs.checksum);
      if expected != f { return Failed(FinalizationMismatch); }
      if record.finalization.Some? {
        return if record.finalization.value == f then Done else Failed(ReceiptAlreadyConsumed);
      }
      receipts := receipts[f.receiptId := record.(consumed := true, finalization := Some(f))];
      return Done;
    }

    method CreateSnapshot() returns (x: Snapshot)
      ensures Lists(x, Current())
    {
      var rows := RowsOf(Current());
      var authorizationList := Entries(authorizations);
      var rowList := Entries(rows);
      var targetList := Entries(targets);
      var confirmationList := Entries(confirmations);
      var receiptList := Entries(receipts);
      x := Snapshot(authorizationList, rowList, targetList, confirmationList, receiptList);
    }

    /** `#restoreSnapshot`: clears the maps and refills them list by list, stopping at the first broken reference. */
    method RestoreSnapshot(x: Snapshot) returns (ok: bool)
      modifies this`authorizations, this`candidates, this`owners, this`targets, this`confirmations, this`receipts
      ensures ok <==> Restore(x).Some?
      ensures ok ==> Current() == Restore(x).value
    {
      hide MapOf, RevisionsIn, OwnersIn, Inv, Rooted;
      authorizations, targets, confirmations, receipts := map[], map[], map[], map[];
      authorizations := Refill(x.authorizations);
      var rows: map<string, CandidateRow>;
      ok, rows := RestoreCandidates(x.candidates);
      if !ok { return; }
      targets := Refill(x.targets);
      if exists t | t in x.targets :: t.1 !in rows { return false; }
      confirmations := Refill(x.confirmations);
      if !DistinctKeys(x.confirmations) || exists c | c in x.confirmations :: c.1.authorizationId !in authorizations {
        return false;
      }
      receipts := Refill(x.receipts);
      if !DistinctKeys(x.receipts) || exists r | r in x.receipts :: r.1.authorizationId !in authorizations {
        return false;
      }
      return true;
    }

    method RestoreCandidates(rows: seq<(string, CandidateRow)>) returns (ok: bool, restored: map<string, CandidateRow>)
      modifies this`candidates, this`owners
      ensures ok <==> forall c | c in rows :: c.1.authorizationId != "" && c.1.authorizationId in authorizations
      ensures ok ==> restored == MapOf(rows) && candidates == RevisionsIn(restored) && owners == OwnersIn(restored)
    {
      hide MapOf, RevisionsIn, OwnersIn;
      candidates, owners, restored := map[], map[], map[];
      NoRows();
      for i := 0 to |rows|
        invariant forall k | 0 <= k < i ::
                  rows[k].1.authorizationId != "" && rows[k].1.authorizationId in authorizations
        invariant restored == MapOf(rows[..i])
        invariant candidates == RevisionsIn(restored) && owners == OwnersIn(restored)
      {
        var (id, row) := rows[i];
        if row.authorizationId == "" || row.authorizationId !in authorizations { return false, restored; }
        MapOfAppended(rows[..i], id, row);
        RowAppended(restored, id, row);
        assert rows[..i + 1] == rows[..i] + [(id, row)];
        candidates, owners := candidates[id := row.revisions], owners[id := row.authorizationId];
        restored := restored[id := row];
      }
      assert rows[..|rows|] == rows;
      return true, restored;
    }

    /** Reads the stored row, runs one operation on it and stores the result, or leaves the row alone if it threw. */
    method Transact(op: Operation, e: Environment) returns (outcome: Outcome)
      requires Restore(row).Some? && Rooted(Restore(row).value) && (op.Authorize? ==> op.id != "")
      modifies this
      ensures var before := old(Restore(row).value);
              && Restore(row) == Some(Perform(before, Call(op, e, true)))
              && outcome == Apply(before, op, e).1
              && Rooted(Restore(row).value)
              && (Inv(before) ==> Inv(Restore(row).value))
    {
      hide Restore, Rooted, Inv, Lists;
      ghost var before := Restore(row).value;
      var ok := RestoreSnapshot(row);
      assert ok && Current() == before;
      outcome := Dispatch(op, e);
      ApplyKeepsRooted(before, op, e);
      if Inv(before) { ApplyKeepsInv(before, op, e); }
      if !outcome.Failed? {
        var x := CreateSnapshot();
        SnapshotRoundTrip(x, Current());
        row := x;
      }
    }

    method Dispatch(op: Operation, e: Environment) returns (outcome: Outcome)
      modifies this`authorizations, this`candidates, this`owners, this`targets, this`confirmations, this`receipts
      ensures (Current(), outcome) == Apply(old(Current()), op, e)
    {
      hide Spec.AuthorizeDiscovery, EndAuthorization, NewCandidate, Spec.ReviseCandidate, RequestConfirmation,
           BindConfirmationMessage, WithdrawConfirmation, DecideConfirmation, ConsumeReceipt, PrepareReceipt,
           FinalizeReceipt;
      match op
      case Authorize(id, a) => outcome := AuthorizeDiscovery(id, a, e);
      case EndDiscovery(id) => outcome := EndDiscovery(id);
      case CreateCandidate(a, t, stableId, i, newId) => outcome := CreateCandidate(a, t, stableId, i, newId, e);
      case Revise(a, c, i) => outcome := ReviseCandidate(a, c, i, e);
      case PrepareConfirmation(telegram, a, c, n, requestId, token) =>
        outcome := PrepareConfirmation(telegram, a, c, n, requestId, token, e);
      case BindMessage(token, message) => outcome := BindMessage(token, message, e);
      case Withdraw(token) => outcome := Withdraw(token);
      case Decide(token, action, message, authorized, sender, receiptId, at) =>
        outcome := Decide(token, action, message, authorized, sender, receiptId, at, e);
      case Consume(r, c, n, checksum, base) => outcome := Consume(r, c, n, checksum, base, e);
      case Prepare(r, c, artifact) => outcome := Prepare(r, c, artifact, e);
      case Finalize(f) => outcome := Finalize(f);
    }
  }
}
