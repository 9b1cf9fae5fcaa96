/**
 Which calls go through, in the fields of the store and of the call, and what a decision means for all that follows.
 */
module AdmissionDecisions {
  import opened Options
  import opened ChangeSets
  import opened AdmissionProtocol
  import opened AdmissionSafety

  /******* What a call needs *******/

  /** The authorization is stored, not ended and not expired. */
  predicate Active(s: State, id: string, now: int) {
    id in s.authorizations && s.authorizations[id].status == AuthorizationStatus.Active
    && s.authorizations[id].expiresAt > now
  }

  /** The port answers, and knows exactly this head, or none where there is no base. */
  predicate HeadIs(head: HeadReply, version: Option<string>, checksum: Option<string>) {
    && head.Known?
    && if head.head.None? then version.None?
       else version == Some(head.head.value.version) && checksum == Some(head.head.value.checksum)
  }

  /** A base is given whole or not at all, hashes to what it says, and is the head; every source is in scope. */
  predicate InputFits(i: RevisionInput, a: Authorization, head: HeadReply) {
    && (i.baseVersion.Some? <==> i.baseChecksum.Some?) && (i.baseVersion.Some? <==> i.baseContent.Some?)
    && (i.baseContent.Some? ==> i.baseChecksum == Some(i.baseContentChecksum))
    && HeadIs(head, i.baseVersion, i.baseChecksum)
    && i.sourceMap != [] && forall entry | entry in i.sourceMap :: entry.sourceRef in a.sourceRefs
  }

  /** The bound message of a pending request is answered by the one who granted its authorization. */
  predicate MayDecide(s: State, token: string, message: Message, authorized: bool, senderId: string, now: int) {
    && token in s.confirmations
    && s.confirmations[token].message == Some(message) && authorized
    && Active(s, s.confirmations[token].authorizationId, now)
    && senderId == s.authorizations[s.confirmations[token].authorizationId].grantedBy
  }

  /** The receipt is of exactly this revision of the candidate. */
  predicate ReceiptOf(r: Receipt, candidateId: string, number: int, checksum: string, baseVersion: Option<string>) {
    && r.candidateId == candidateId && r.candidateRevision == number && r.candidateChecksum == checksum
    && r.baseAuthorityVersion == baseVersion
  }

  /******* Exactly when a call goes through *******/

  /** A decision goes through exactly for the grantor's answer to the bound message, and records the button pressed. */
  lemma DecidesExactly(s: State, token: string, action: Action, message: Message, authorized: bool, senderId: string,
                       receiptId: string, at: string, e: Environment)
    ensures var (t, outcome) := Apply(s, Decide(token, action, message, authorized, senderId, receiptId, at), e);
            && (outcome.Failed? <==> !MayDecide(s, token, message, authorized, senderId, e.now))
            && (outcome.Failed? ==> t == s)
            && (!outcome.Failed? ==>
                  && t.confirmations == s.confirmations - {token}
                  && t == s.(confirmations := t.confirmations, receipts := t.receipts)
                  && var c := s.confirmations[token];
                     if action == RequestRewrite then outcome == RewriteRequested && t.receipts == s.receipts
                     else
                       && outcome.Decided? && outcome.receipt.receiptId == receiptId && outcome.receipt.decidedAt == at
                       && ReceiptOf(outcome.receipt, c.candidate.candidateId, c.candidate.revision,
                                    c.candidate.checksum, c.candidate.baseVersion)
                       && (action == Reject ==> outcome.receipt.decision == Rejected)
                       && (action == Accept ==>
                             outcome.receipt.decision == if c.candidate.revision == 1 then Accepted else Rewritten)
                       && t.receipts == s.receipts[receiptId := ReceiptRecord(c.authorizationId, outcome.receipt, false,
                                                                              false, None, None)])
  {}

  lemma HeadMatches(head: HeadReply, version: Option<string>, checksum: Option<string>)
    ensures HeadError(head, version, checksum).None? <==> HeadIs(head, version, checksum)
  {}

  /**
   A receipt is consumed exactly when it is unused, approves this revision, and authorization and head still stand.
   */
  lemma ConsumesExactly(s: State, id: string, candidateId: string, number: int, checksum: string,
                        baseVersion: Option<string>, e: Environment)
    requires Inv(s)
    ensures var (t, outcome) := Apply(s, Consume(id, candidateId, number, checksum, baseVersion), e);
            && (outcome.Decided? <==>
                  && id in s.receipts && !s.receipts[id].invalidated && !s.receipts[id].consumed
                  && s.receipts[id].artifact.None? && s.receipts[id].receipt.decision != Rejected
                  && Active(s, s.receipts[id].authorizationId, e.now)
                  && ReceiptOf(s.receipts[id].receipt, candidateId, number, checksum, baseVersion)
                  && HeadIs(e.head, baseVersion, Last(RevisionsOf(s, candidateId)).value.baseChecksum))
            && (outcome.Decided? ==>
                  && outcome.receipt == s.receipts[id].receipt
                  && t == s.(receipts := s.receipts[id := s.receipts[id].(consumed := true)]))
            && (!outcome.Decided? ==>
                  && outcome.Failed?
                  && if id in s.receipts && !s.receipts[id].invalidated && !s.receipts[id].consumed
                        && s.receipts[id].artifact.None?
                        && (Active(s, s.receipts[id].authorizationId, e.now) ==>
                              && s.receipts[id].receipt.decision != Rejected
                              && ReceiptOf(s.receipts[id].receipt, candidateId, number, checksum, baseVersion))
                     then t == s.(receipts := s.receipts[id := s.receipts[id].(invalidated := true)])
                     else t == s)
  {}

  /** Without a store, a receipt whose authorization has gone is invalidated by the attempt; a store takes that back. */
  lemma FailedConsumptionInvalidates(s: State, id: string, candidateId: string, number: int, checksum: string,
                                     baseVersion: Option<string>, e: Environment, stored: bool)
    requires id in s.receipts && !s.receipts[id].invalidated && !s.receipts[id].consumed
             && s.receipts[id].artifact.None?
    requires !Active(s, s.receipts[id].authorizationId, e.now)
    ensures Perform(s, Call(Consume(id, candidateId, number, checksum, baseVersion), e, stored))
            == (if stored then s else s.(receipts := s.receipts[id := s.receipts[id].(invalidated := true)]))
  {}

  /**
   A receipt is bound exactly when it is decided for a recorded revision, and free or already bound to this artifact.
   */
  lemma PreparesExactly(s: State, receipt: Receipt, candidate: Revision, artifact: Artifact, e: Environment)
    requires Inv(s)
    ensures var (t, outcome) := Apply(s, Operation.Prepare(receipt, candidate, artifact), e);
            var id := receipt.receiptId;
            && (outcome.Done? <==>
                  && id in s.receipts && !s.receipts[id].invalidated && s.receipts[id].receipt == receipt
                  && receipt.decision != Rejected && candidate in RevisionsOf(s, candidate.candidateId)
                  && (|| s.receipts[id].artifact == Some(artifact)
                      || (s.receipts[id].artifact.None? && Active(s, s.receipts[id].authorizationId, e.now))))
            && (outcome.Done? || outcome.Failed?)
            && t == (if outcome.Done?
                     then s.(receipts := s.receipts[id := s.receipts[id].(artifact := Some(artifact))]) else s)
            && (outcome == Failed(ReceiptAlreadyConsumed) ==> s.receipts[id].consumed)
            && (outcome == Failed(ReceiptAlreadyPrepared) ==>
                  !s.receipts[id].consumed && s.receipts[id].artifact.Some?
                    && s.receipts[id].artifact != Some(artifact))
  {
    if candidate in RevisionsOf(s, candidate.candidateId) {
      var found := FindRevision(RevisionsOf(s, candidate.candidateId), candidate.revision);
      assert found == Some(candidate);
    }
  }

  /** A bound receipt is finalized exactly with what it is bound to, once. */
  lemma FinalizesExactly(s: State, f: Finalization, e: Environment)
    requires Inv(s)
    ensures var (t, outcome) := Apply(s, Operation.Finalize(f), e);
            var id := f.receiptId;
            && (outcome.Done? <==>
                  && id in s.receipts && !s.receipts[id].invalidated && s.receipts[id].artifact.Some?
                  && ReceiptOf(s.receipts[id].receipt, f.candidateId, f.candidateRevision, f.candidateChecksum,
                               s.receipts[id].receipt.baseAuthorityVersion)
                  && f.changeSetId == s.receipts[id].artifact.value.changeSet.changeSetId
                  && f.changeSetChecksum == s.receipts[id].artifact.value.changeSet.checksum
                  && s.receipts[id].finalization in {None, Some(f)})
            && (outcome.Done? || outcome.Failed?)
            && t == (if outcome.Done?
                     then s.(receipts := s.receipts[id := s.receipts[id].(consumed := true, finalization := Some(f))])
                     else s)
  {}

  /** A confirmation is requested exactly for the last revision, by its owner, under a new token of full length. */
  lemma RequestsExactly(s: State, onTelegram: bool, authorizationId: string, candidateId: string, number: int,
                        requestId: string, token: string, e: Environment)
    requires Inv(s)
    ensures var (t, outcome) :=
            Apply(s, PrepareConfirmation(onTelegram, authorizationId, candidateId, number, requestId,
                                                             token), e);
            && (outcome.Done? <==>
                  && onTelegram && Active(s, authorizationId, e.now)
                  && candidateId in s.candidates && number == |s.candidates[candidateId]|
                  && candidateId in s.owners && s.owners[candidateId] == authorizationId
                  && |token| >= 32 && token !in s.confirmations)
            && (outcome == Redirected <==> !onTelegram)
            && t == (if outcome.Done?
                     then s.(confirmations :=
                             s.confirmations[token := Confirmation(authorizationId, requestId,
                                                                   s.candidates[candidateId][number - 1], None)])
                     else s)
  {
    if candidateId in s.candidates {
      var revisions := s.candidates[candidateId];
      assert NumberedFromOne(candidateId, revisions);
      if number == |revisions| { assert FindRevision(revisions, number) == Some(revisions[number - 1]); }
    }
  }

  /** A message is bound exactly under the request's authorization, in its instance, and never over another one. */
  lemma BindsExactly(s: State, token: string, message: Message, e: Environment)
    ensures var (t, outcome) := Apply(s, BindMessage(token, message), e);
            && (outcome.Done? <==>
                  && token in s.confirmations && Active(s, s.confirmations[token].authorizationId, e.now)
                  && message.instanceId == s.authorizations[s.confirmations[token].authorizationId].instanceId
                  && s.confirmations[token].message in {None, Some(message)})
            && t == (if outcome.Done?
                     then s.(confirmations :=
                             s.confirmations[token := s.confirmations[token].(message := Some(message))])
                     else s)
  {}

  /** A discovery is authorized exactly for a finite time and something to discover, and starts active. */
  lemma AuthorizesExactly(s: State, id: string, a: Authorization, e: Environment)
    ensures var (t, outcome) := Apply(s, Authorize(id, a), e);
            && (outcome.Done? <==> a.expiresAt > e.now && a.candidateTypes != [] && a.sourceRefs != [])
            && t == (if outcome.Done?
                     then s.(authorizations := s.authorizations[id := a.(status := AuthorizationStatus.Active)]) else s)
  {}

  /** The approvals of a revision that is no longer the last: its requests are gone, its unused receipts invalidated. */
  ghost predicate Superseded(s: State, t: State, candidateId: string) {
    && (forall k :: k in t.confirmations <==>
        k in s.confirmations && s.confirmations[k].candidate.candidateId != candidateId)
    && (forall k | k in t.confirmations :: t.confirmations[k] == s.confirmations[k])
    && t.receipts.Keys == s.receipts.Keys
    && (forall r | r in t.receipts ::
          t.receipts[r] == if s.receipts[r].receipt.candidateId == candidateId && !s.receipts[r].consumed
                              && s.receipts[r].artifact.None?
                           then s.receipts[r].(invalidated := true) else s.receipts[r])
  }

  /** A revision is stored exactly by the candidate's active owner, over a base and sources that fit. */
  lemma RevisesExactly(s: State, authorizationId: string, candidateId: string, i: RevisionInput, e: Environment)
    requires Inv(s)
    ensures var (t, outcome) := Apply(s, Revise(authorizationId, candidateId, i), e);
            && (outcome.Stored? <==>
                  && Active(s, authorizationId, e.now) && candidateId in s.candidates
                  && s.owners[candidateId] == authorizationId
                  && InputFits(i, s.authorizations[authorizationId], e.head))
            && (outcome.Stored? ==>
                  && t == s.(candidates := t.candidates, confirmations := t.confirmations, receipts := t.receipts)
                  && Superseded(s, t, candidateId)
                  && var before := s.candidates[candidateId];
                     && outcome.revision == Revision(candidateId, |before| + 1, before[|before| - 1].candidateType,
                                                     before[|before| - 1].stableId, i.baseVersion, i.baseChecksum,
                                                     i.content, i.sourceMap, i.checksum)
                     && t.candidates == s.candidates[candidateId := before + [outcome.revision]])
            && (!outcome.Stored? ==> outcome.Failed? && t == s)
  {
    HeadMatches(e.head, i.baseVersion, i.baseChecksum);
    if candidateId in s.candidates { assert NumberedFromOne(candidateId, s.candidates[candidateId]); }
  }

  /** A candidate is stored exactly within scope, over a target that is new or another discovery's. */
  lemma CreatesExactly(s: State, authorizationId: string, candidateType: string, stableId: string, i: RevisionInput,
                       newId: string, e: Environment)
    requires Inv(s)
    ensures var (t, outcome) := Apply(s, CreateCandidate(authorizationId, candidateType, stableId, i, newId), e);
            && (outcome.Stored? ==> authorizationId in s.authorizations)
            && (outcome.Stored? <==>
                  && Active(s, authorizationId, e.now)
                  && var a := s.authorizations[authorizationId];
                     var target := Target(a.instanceId, candidateType, stableId);
                     && candidateType in a.candidateTypes && InputFits(i, a, e.head)
                     && (target in s.targets ==> s.owners[s.targets[target]] != authorizationId)
                     && (target !in s.targets ==> newId !in s.candidates))
            && (outcome.Stored? ==>
                  var target := Target(s.authorizations[authorizationId].instanceId, candidateType, stableId);
                  var id := if target in s.targets then s.targets[target] else newId;
                  && outcome.revision == Revision(id, |RevisionsOf(s, id)| + 1, candidateType, stableId, i.baseVersion,
                                                  i.baseChecksum, i.content, i.sourceMap, i.checksum)
                  && t.candidates == s.candidates[id := RevisionsOf(s, id) + [outcome.revision]]
                  && t.owners == s.owners[id := authorizationId] && t.targets == s.targets[target := id]
                  && t.authorizations == s.authorizations
                  && (id in s.candidates ==> Superseded(s, t, id))
                  && (id !in s.candidates ==> t.confirmations == s.confirmations && t.receipts == s.receipts))
            && (!outcome.Stored? ==> outcome.Failed? && t == s)
  {
    HeadMatches(e.head, i.baseVersion, i.baseChecksum);
    hide HeadError, HeadIs;
    if authorizationId in s.authorizations {
      var target := Target(s.authorizations[authorizationId].instanceId, candidateType, stableId);
      var id := if target in s.targets then s.targets[target] else newId;
      if id in s.candidates { assert NumberedFromOne(id, s.candidates[id]); }
    }
  }

  /** Ending a discovery withdraws its requests and invalidates its unused receipts, and nobody else's. */
  lemma EndsExactly(s: State, id: string, e: Environment)
    ensures var (t, outcome) := Apply(s, EndDiscovery(id), e);
            && (outcome.Done? <==> id in s.authorizations && s.authorizations[id].status == AuthorizationStatus.Active)
            && (!outcome.Done? ==> t == s)
            && (outcome.Done? ==>
                  && t == s.(authorizations := s.authorizations[id := s.authorizations[id].(status := Ended)],
                             confirmations := t.confirmations, receipts := t.receipts)
                  && (forall k :: k in t.confirmations <==>
                      k in s.confirmations && s.confirmations[k].authorizationId != id)
                  && (forall k | k in t.confirmations :: t.confirmations[k] == s.confirmations[k])
                  && t.receipts.Keys == s.receipts.Keys
                  && (forall r | r in t.receipts ::
                        t.receipts[r] == if s.receipts[r].authorizationId == id && !s.receipts[r].consumed
                                            && s.receipts[r].artifact.None?
                                         then s.receipts[r].(invalidated := true) else s.receipts[r]))
  {}

  /******* What a decision means *******/

  /** A rejected receipt was never used. */
  predicate RejectedUnused(s: State) {
    forall r | r in s.receipts && s.receipts[r].receipt.decision == Rejected ::
      !s.receipts[r].consumed && s.receipts[r].artifact.None? && s.receipts[r].finalization.None?
  }

  /** The receipt was there with the same decision, unused if it is a rejection and they were. */
  predicate ReceiptKept(before: Receipts, r: string, after: ReceiptRecord, unused: bool) {
    && r in before && after.receipt == before[r].receipt && after.authorizationId == before[r].authorizationId
    && (unused && after.receipt.decision == Rejected ==>
          !after.consumed && after.artifact.None? && after.finalization.None?)
  }

  /** The receipt is the one just decided, and unused. */
  predicate ReceiptDecided(op: Operation, outcome: Outcome, r: string, after: ReceiptRecord) {
    && op.Decide? && outcome.Decided? && r == op.receiptId
    && after == ReceiptRecord(after.authorizationId, outcome.receipt, false, false, None, None)
  }

  lemma ResolvingKeepsReceipts(s: State, op: Operation, e: Environment)
    requires Inv(s) && (op.Consume? || op.Prepare? || op.Finalize?)
    ensures var t := Apply(s, op, e).0;
            forall r | r in t.receipts :: ReceiptKept(s.receipts, r, t.receipts[r], RejectedUnused(s))
  {
    hide Apply, Inv;
    match op
    case Consume(r, c, n, checksum, base) => ConsumesExactly(s, r, c, n, checksum, base, e);
    case Prepare(r, c, artifact) => PreparesExactly(s, r, c, artifact, e);
    case Finalize(f) => FinalizesExactly(s, f, e);
  }

  lemma SupersedingKeepsReceipts(s: State, op: Operation, e: Environment)
    requires Inv(s) && (op.CreateCandidate? || op.Revise? || op.EndDiscovery?)
    ensures var t := Apply(s, op, e).0;
            forall r | r in t.receipts :: ReceiptKept(s.receipts, r, t.receipts[r], RejectedUnused(s))
  {
    hide Apply, Inv, InputFits, Active;
    match op
    case EndDiscovery(id) => EndsExactly(s, id, e);
    case CreateCandidate(a, candidateType, stableId, input, newId) =>
      CreatesExactly(s, a, candidateType, stableId, input, newId, e);
    case Revise(a, c, input) => RevisesExactly(s, a, c, input, e);
  }

  /** Every receipt was there with the same decision, or is the one just decided. */
  lemma ReceiptsComeFromDecisions(s: State, op: Operation, e: Environment)
    requires Inv(s)
    ensures var (t, outcome) := Apply(s, op, e);
            forall r | r in t.receipts ::
              || ReceiptKept(s.receipts, r, t.receipts[r], RejectedUnused(s))
              || ReceiptDecided(op, outcome, r, t.receipts[r])
  {
    hide Apply, Inv, Active, MayDecide, ReceiptOf;
    match op
    case Authorize(id, a) => AuthorizesExactly(s, id, a, e);
    case PrepareConfirmation(telegram, a, c, n, requestId, token) =>
      RequestsExactly(s, telegram, a, c, n, requestId, token, e);
    case BindMessage(token, message) => BindsExactly(s, token, message, e);
    case Withdraw(token) => WithdrawsExactly(s, token, e);
    case Decide(token, action, message, authorized, sender, receiptId, at) =>
      DecidesExactly(s, token, action, message, authorized, sender, receiptId, at, e);
    case Consume(_, _, _, _, _) => ResolvingKeepsReceipts(s, op, e);
    case Prepare(_, _, _) => ResolvingKeepsReceipts(s, op, e);
    case Finalize(_) => ResolvingKeepsReceipts(s, op, e);
    case _ => SupersedingKeepsReceipts(s, op, e);
  }

  lemma WithdrawsExactly(s: State, token: string, e: Environment)
    ensures var (t, outcome) := Apply(s, Withdraw(token), e);
            && (outcome.Done? <==> token in s.confirmations)
            && t == s.(confirmations := s.confirmations - {token})
  {}

  lemma ApplyKeepsRejectedUnused(s: State, op: Operation, e: Environment)
    requires Inv(s) && RejectedUnused(s)
    ensures RejectedUnused(Apply(s, op, e).0)
  {
    hide Apply, Inv;
    ReceiptsComeFromDecisions(s, op, e);
  }

  lemma {:induction false} RunKeepsRejectedUnused(s: State, calls: seq<Call>)
    requires Inv(s) && RejectedUnused(s)
    ensures Inv(Run(s, calls)) && RejectedUnused(Run(s, calls))
    decreases |calls|
  {
    hide Apply, Inv, RejectedUnused;
    if calls != [] {
      ApplyKeepsInv(s, calls[0].operation, calls[0].environment);
      ApplyKeepsRejectedUnused(s, calls[0].operation, calls[0].environment);
      RunKeepsRejectedUnused(Perform(s, calls[0]), calls[1..]);
    }
  }

  /** The call would consume, bind or finalize this receipt. */
  predicate Uses(op: Operation, receiptId: string) {
    || (op.Consume? && op.receiptId == receiptId)
    || (op.Prepare? && op.receipt.receiptId == receiptId)
    || (op.Finalize? && op.finalization.receiptId == receiptId)
  }

  lemma RejectedFails(s: State, op: Operation, e: Environment, id: string)
    requires Inv(s) && RejectedUnused(s) && id in s.receipts && s.receipts[id].receipt.decision == Rejected
    requires Uses(op, id)
    ensures Apply(s, op, e).1.Failed?
  {
    hide Apply, Inv;
    match op
    case Consume(r, c, n, checksum, base) => ConsumesExactly(s, r, c, n, checksum, base, e);
    case Prepare(r, c, artifact) => PreparesExactly(s, r, c, artifact, e);
    case Finalize(f) => FinalizesExactly(s, f, e);
    case _ =>
  }

  /** Once the button pressed was reject, no later call consumes, binds or finalizes the receipt. */
  lemma RejectedIsNeverUsed(before: seq<Call>, decision: Call, between: seq<Call>, op: Operation, e: Environment)
    requires var s := Run(EMPTY, before);
             && decision.operation.Decide? && decision.operation.action == Reject
             && Apply(s, decision.operation, decision.environment).1.Decided?
             && AlwaysFresh(Perform(s, decision), between)
    requires Uses(op, decision.operation.receiptId)
    ensures var last, id := Run(Perform(Run(EMPTY, before), decision), between), decision.operation.receiptId;
            && id in last.receipts && !last.receipts[id].consumed
            && last.receipts[id].artifact.None? && last.receipts[id].finalization.None?
            && Apply(last, op, e).1.Failed?
  {
    var s, d, id := Run(EMPTY, before), decision.operation, decision.operation.receiptId;
    EmptyInv();
    hide Apply, Inv, Run;
    RunKeepsRejectedUnused(EMPTY, before);
    DecidesExactly(s, d.token, d.action, d.message, d.authorized, d.senderId, d.receiptId, d.decidedAt,
                   decision.environment);
    ApplyKeepsInv(s, d, decision.environment);
    ApplyKeepsRejectedUnused(s, d, decision.environment);
    var after := Perform(s, decision);
    RunKeepsRejectedUnused(after, between);
    DecidedReceiptsNeverChange(after, between);
    assert ReceiptExtends(after.receipts[id], Run(after, between).receipts[id]);
    RejectedFails(Run(after, between), op, e, id);
  }

  /**
   Once the button pressed was accept, the receipt is consumed while authorization and head still stand, and only then.
   */
  lemma AcceptedIsConsumed(before: seq<Call>, decision: Call, e: Environment)
    requires decision.operation.Decide? && decision.operation.action == Accept
    requires Apply(Run(EMPTY, before), decision.operation, decision.environment).1.Decided?
    ensures var s, d := Run(EMPTY, before), decision.operation;
            var after := Perform(s, decision);
            && d.token in s.confirmations
            && var c := s.confirmations[d.token];
               var (t, outcome) := Apply(after, Consume(d.receiptId, c.candidate.candidateId, c.candidate.revision,
                                                        c.candidate.checksum, c.candidate.baseVersion), e);
               && (outcome.Decided? <==> Active(s, c.authorizationId, e.now)
                                         && HeadIs(e.head, c.candidate.baseVersion, c.candidate.baseChecksum))
               && (outcome.Decided? ==>
                     && outcome.receipt.decision != Rejected && outcome.receipt.receiptId == d.receiptId
                     && t.receipts[d.receiptId].consumed)
  {
    var s, d := Run(EMPTY, before), decision.operation;
    EmptyInv();
    hide Apply, Run;
    UnresolvedApprovalsAreNeverStale(EMPTY, before);
    DecidesExactly(s, d.token, d.action, d.message, d.authorized, d.senderId, d.receiptId, d.decidedAt,
                   decision.environment);
    ApplyKeepsInv(s, d, decision.environment);
    var after, c := Perform(s, decision), s.confirmations[d.token];
    assert ConfirmationCurrent(s, c);
    ConsumesExactly(after, d.receiptId, c.candidate.candidateId, c.candidate.revision, c.candidate.checksum,
                    c.candidate.baseVersion, e);
  }

  /** The grantor of the request's authorization pressed accept on its bound message, for this revision. */
  predicate AcceptedBy(s: State, c: Call, r: ReceiptRecord) {
    && c.operation.Decide? && c.operation.action == Accept && c.operation.receiptId == r.receipt.receiptId
    && MayDecide(s, c.operation.token, c.operation.message, c.operation.authorized, c.operation.senderId,
                 c.environment.now)
    && var request := s.confirmations[c.operation.token];
       && r.authorizationId == request.authorizationId
       && ReceiptOf(r.receipt, request.candidate.candidateId, request.candidate.revision, request.candidate.checksum,
                    request.candidate.baseVersion)
       && r.receipt.decision == (if request.candidate.revision == 1 then Accepted else Rewritten)
  }

  lemma {:induction false} RunOneMore(s: State, calls: seq<Call>, c: Call)
    ensures Run(s, calls + [c]) == Perform(Run(s, calls), c)
    decreases |calls|
  {
    hide Apply;
    if calls == [] {
      assert (calls + [c])[1..] == [];
    } else {
      assert (calls + [c])[1..] == calls[1..] + [c];
      RunOneMore(Perform(s, calls[0]), calls[1..], c);
    }
  }

  /** Every stored receipt that is not a rejection was accepted by the grantor, on the bound message, in some call. */
  lemma {:induction false} ApprovalsAreGranted(calls: seq<Call>, r: string)
    requires r in Run(EMPTY, calls).receipts && Run(EMPTY, calls).receipts[r].receipt.decision != Rejected
    ensures exists i | 0 <= i < |calls| ::
              AcceptedBy(Run(EMPTY, calls[..i]), calls[i], Run(EMPTY, calls).receipts[r])
    decreases |calls|
  {
    hide Apply, AcceptedBy, Inv;
    if calls != [] {
      var n := |calls| - 1;
      var init, c := calls[..n], calls[n];
      assert calls == init + [c];
      RunOneMore(EMPTY, init, c);
      var s, t := Run(EMPTY, init), Run(EMPTY, calls);
      ReachableStatesAreCurrent(init);
      ReceiptsComeFromDecisions(s, c.operation, c.environment);
      if ReceiptKept(s.receipts, r, t.receipts[r], RejectedUnused(s)) {
        ApprovalsAreGranted(init, r);
        var i :| 0 <= i < |init| && AcceptedBy(Run(EMPTY, init[..i]), init[i], s.receipts[r]);
        assert calls[..i] == init[..i];
        SameAccepted(Run(EMPTY, calls[..i]), calls[i], s.receipts[r], t.receipts[r]);
      } else {
        AcceptedNow(s, c, r);
        assert calls[..n] == init;
      }
    }
  }

  lemma SameAccepted(s: State, c: Call, a: ReceiptRecord, b: ReceiptRecord)
    requires AcceptedBy(s, c, a) && b.receipt == a.receipt && b.authorizationId == a.authorizationId
    ensures AcceptedBy(s, c, b)
  {}

  lemma AcceptedNow(s: State, c: Call, r: string)
    requires c.operation.Decide? && r == c.operation.receiptId && Apply(s, c.operation, c.environment).1.Decided?
    requires r in Perform(s, c).receipts && Perform(s, c).receipts[r].receipt.decision != Rejected
    requires Perform(s, c).receipts[r].receipt == Apply(s, c.operation, c.environment).1.receipt
    ensures AcceptedBy(s, c, Perform(s, c).receipts[r])
  {
    var d := c.operation;
    DecidesExactly(s, d.token, d.action, d.message, d.authorized, d.senderId, d.receiptId, d.decidedAt, c.environment);
    hide Apply;
  }

  /** So whatever is consumed, bound or finalized was accepted by its grantor. */
  lemma UsedIsGranted(calls: seq<Call>, r: string)
    requires r in Run(EMPTY, calls).receipts
    requires var record := Run(EMPTY, calls).receipts[r];
             record.consumed || record.artifact.Some? || record.finalization.Some?
    ensures exists i | 0 <= i < |calls| ::
              AcceptedBy(Run(EMPTY, calls[..i]), calls[i], Run(EMPTY, calls).receipts[r])
  {
    EmptyInv();
    RunKeepsRejectedUnused(EMPTY, calls);
    ApprovalsAreGranted(calls, r);
  }
}
