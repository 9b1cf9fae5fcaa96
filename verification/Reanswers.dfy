/** The reanswer outbox: one open row per session, one attempt at a time, one completion. */
module Reanswers {
  import opened Options
  import opened StateProtocol

  /******* Invariant *******/

  predicate RowConsistent(r: OutboxRow) {
    && (r.status == Pending ==> r.attempt.None? && r.completions == 0)
    && (r.status == InFlight ==> r.attempt.Some? && r.attempts >= 1 && r.completions == 0
                                 && r.attempt.value.successorRunId != r.priorRunId)
    && (r.status == OutboxStatus.Completed ==> r.attempts >= 1 && r.completions == 1)
  }

  predicate OneOpenRowPerSession(outbox: Outbox) {
    forall a, b | a in outbox && b in outbox && a != b && Open(outbox[a]) && Open(outbox[b]) ::
      outbox[a].sessionKeyHash != outbox[b].sessionKeyHash
  }

  predicate OutboxInv(outbox: Outbox) {
    && OneOpenRowPerSession(outbox)
    && forall k | k in outbox :: RowConsistent(outbox[k])
  }

  /******* One row at a time *******/

  /** Everything a call may do to an existing row. */
  predicate RowStep(before: OutboxRow, after: OutboxRow) {
    || after == before
    || (&& before.status == Pending && after.attempt.Some? && after.attempt.value.successorRunId != before.priorRunId
        && after == before.(status := InFlight, attempts := before.attempts + 1, attempt := after.attempt,
                            lastError := None, updatedAt := after.updatedAt))
    || (before.status == InFlight
        && after == before.(status := OutboxStatus.Completed, completions := 1, updatedAt := after.updatedAt))
    || (before.status == InFlight && after.lastError.Some?
        && after == before.(status := Pending, attempt := None, lastError := after.lastError,
                            updatedAt := after.updatedAt))
  }

  predicate OutboxStep(before: Outbox, after: Outbox) {
    forall k | k in before :: k in after && RowStep(before[k], after[k])
  }

  lemma UpdatingSteps(outbox: Outbox, id: string, row: OutboxRow)
    requires OutboxInv(outbox) && id in outbox && RowStep(outbox[id], row) && RowConsistent(row)
    ensures OutboxInv(outbox[id := row]) && OutboxStep(outbox, outbox[id := row])
  {}

  lemma InsertingSteps(outbox: Outbox, id: string, row: OutboxRow)
    requires OutboxInv(outbox) && id !in outbox && RowConsistent(row)
    requires forall k | k in outbox :: !(outbox[k].sessionKeyHash == row.sessionKeyHash && Open(outbox[k]))
    ensures OutboxInv(outbox[id := row]) && OutboxStep(outbox, outbox[id := row])
  {}

  /** A correction opens at most one row, for a correction without one and a session without an open one. */
  lemma CorrectionOpens(s: Store, c: Correction)
    ensures var t := Correct(s, c).0;
            t.outbox != s.outbox ==>
              && c.correctionId !in s.outbox && c.correctionId in t.outbox
              && t.outbox == s.outbox[c.correctionId := t.outbox[c.correctionId]]
              && RowConsistent(t.outbox[c.correctionId])
              && forall k | k in s.outbox ::
                   !(s.outbox[k].sessionKeyHash == t.outbox[c.correctionId].sessionKeyHash && Open(s.outbox[k]))
  {}

  lemma CorrectionSteps(s: Store, c: Correction)
    requires OutboxInv(s.outbox)
    ensures OutboxInv(Correct(s, c).0.outbox) && OutboxStep(s.outbox, Correct(s, c).0.outbox)
    ensures forall k | k in s.outbox :: k in Correct(s, c).0.outbox && Correct(s, c).0.outbox[k] == s.outbox[k]
  {
    CorrectionOpens(s, c);
    hide Correct, RowConsistent;
    var t := Correct(s, c).0;
    if t.outbox != s.outbox {
      InsertingSteps(s.outbox, c.correctionId, t.outbox[c.correctionId]);
      hide OutboxInv;
    }
  }

  lemma ApplyingSteps(s: Store, i: ApplyInput)
    requires OutboxInv(s.outbox)
    ensures OutboxInv(ApplyCorrection(s, i).0.outbox) && OutboxStep(s.outbox, ApplyCorrection(s, i).0.outbox)
    ensures forall k | k in s.outbox ::
            k in ApplyCorrection(s, i).0.outbox && ApplyCorrection(s, i).0.outbox[k] == s.outbox[k]
  {
    hide Correct, CorrectionFor, ViewAt, ApplyError, OutboxInv, RowStep;
    CorrectionSteps(s, CorrectionFor(i, s.instanceId));
  }

  lemma ClaimingSteps(s: Store, c: Call)
    requires OutboxInv(s.outbox) && (c.ClaimCall? || c.CompleteCall? || c.ReleaseCall?)
    ensures OutboxInv(Perform(s, c).outbox) && OutboxStep(s.outbox, Perform(s, c).outbox)
  {
    var t := Perform(s, c);
    var id := if c.ClaimCall? then c.correctionId
              else if c.CompleteCall? then c.completed.correctionId else c.released.correctionId;
    if t.outbox != s.outbox {
      assert t.outbox == s.outbox[id := t.outbox[id]];
      UpdatingSteps(s.outbox, id, t.outbox[id]);
    }
  }

  lemma CallSteps(s: Store, c: Call)
    requires OutboxInv(s.outbox)
    ensures OutboxInv(Perform(s, c).outbox) && OutboxStep(s.outbox, Perform(s, c).outbox)
  {
    if c.CorrectCall? {
      CorrectionSteps(s, c.correction);
    } else if c.ApplyCall? {
      ApplyingSteps(s, c.input);
    } else if c.ClaimCall? || c.CompleteCall? || c.ReleaseCall? {
      ClaimingSteps(s, c);
    } else {
      assert Perform(s, c).outbox == s.outbox;
    }
    hide OutboxInv, Perform;
  }

  /** Over every run each session has at most one open row, and the completion count is 1 exactly when completed. */
  lemma {:induction false} OutboxStaysConsistent(s: Store, calls: seq<Call>)
    requires OutboxInv(s.outbox)
    ensures OutboxInv(Run(s, calls).outbox)
    decreases |calls|
  {
    if calls != [] {
      CallSteps(s, calls[0]);
      OutboxStaysConsistent(Perform(s, calls[0]), calls[1..]);
    }
  }

  /******* Fencing *******/

  /** The claim's attempt is over: a later one has begun, or this one is no longer in flight. */
  predicate Retired(outbox: Outbox, c: Claim) {
    && c.correctionId in outbox
    && var r := outbox[c.correctionId];
       r.attempts > c.number || (r.attempts == c.number && r.status != InFlight)
  }

  predicate Acts(c: Call, claim: Claim) {
    (c.CompleteCall? && c.completed == claim) || (c.ReleaseCall? && c.released == claim)
  }

  predicate Succeeds(s: Store, c: Call) {
    match c
    case CompleteCall(claim, now) => CompleteClaim(s, claim, now).1.Ok?
    case ReleaseCall(claim, reason, now) => ReleaseClaim(s, claim, reason, now).1.Ok?
    case _ => false
  }

  lemma {:induction false} RetiredForever(s: Store, calls: seq<Call>, claim: Claim)
    requires OutboxInv(s.outbox) && Retired(s.outbox, claim)
    ensures Retired(Run(s, calls).outbox, claim)
    decreases |calls|
  {
    if calls != [] {
      CallSteps(s, calls[0]);
      var next := Perform(s, calls[0]);
      assert RowStep(s.outbox[claim.correctionId], next.outbox[claim.correctionId]);
      hide Perform;
      RetiredForever(next, calls[1..], claim);
    }
  }

  /** A claim acts only while its own attempt is in flight, and is resolved at most once, by completion or release. */
  lemma ResolvedAtMostOnce(s: Store, claim: Claim, first: Call, between: seq<Call>, second: Call)
    requires OutboxInv(s.outbox) && Acts(first, claim) && Acts(second, claim) && Succeeds(s, first)
    ensures ActsFor(s.outbox, claim)
    ensures !Succeeds(Run(Perform(s, first), between), second)
  {
    CallSteps(s, first);
    RetiredForever(Perform(s, first), between, claim);
  }

  /** A released claim stays dead even when the row is claimed again, by the same successor or another. */
  lemma StaleClaimNeverActs(s: Store, claim: Claim, reason: string, between: seq<Call>, attempt: Attempt,
                            after: seq<Call>, act: Call, now: string, later: string)
    requires OutboxInv(s.outbox) && ReleaseClaim(s, claim, reason, now).1.Ok? && Acts(act, claim)
    ensures var reclaimed := ClaimRow(Run(ReleaseClaim(s, claim, reason, now).0, between), claim.correctionId, attempt,
                                      later).0;
            !Succeeds(Run(reclaimed, after), act)
  {
    hide OutboxInv, RowStep;
    var released := ReleaseClaim(s, claim, reason, now).0;
    CallSteps(s, ReleaseCall(claim, reason, now));
    RetiredForever(released, between, claim);
    OutboxStaysConsistent(released, between);
    var open := Run(released, between);
    CallSteps(open, ClaimCall(claim.correctionId, attempt, later));
    RetiredForever(open, [ClaimCall(claim.correctionId, attempt, later)] + after, claim);
    assert ([ClaimCall(claim.correctionId, attempt, later)] + after)[1..] == after;
  }

  /** A completed row never changes. */
  lemma {:induction false} CompletedIsFinal(s: Store, calls: seq<Call>, id: string)
    requires OutboxInv(s.outbox) && id in s.outbox && s.outbox[id].status == OutboxStatus.Completed
    ensures id in Run(s, calls).outbox && Run(s, calls).outbox[id] == s.outbox[id]
    decreases |calls|
  {
    if calls != [] {
      CallSteps(s, calls[0]);
      var next := Perform(s, calls[0]);
      assert RowStep(s.outbox[id], next.outbox[id]);
      hide Perform;
      CompletedIsFinal(next, calls[1..], id);
    }
  }

  /******* Counting *******/

  predicate Claims(s: Store, c: Call, id: string) {
    c.ClaimCall? && c.correctionId == id && ClaimRow(s, id, c.attempt, c.now).1.Ok?
    && ClaimRow(s, id, c.attempt, c.now).1.value.Some?
  }

  predicate Completes(s: Store, c: Call, id: string) {
    c.CompleteCall? && c.completed.correctionId == id && CompleteClaim(s, c.completed, c.now).1.Ok?
  }

  function ClaimCount(s: Store, calls: seq<Call>, id: string): nat
    decreases |calls|
  {
    if calls == [] then 0
    else (if Claims(s, calls[0], id) then 1 else 0) + ClaimCount(Perform(s, calls[0]), calls[1..], id)
  }

  function CompletionCount(s: Store, calls: seq<Call>, id: string): nat
    decreases |calls|
  {
    if calls == [] then 0
    else (if Completes(s, calls[0], id) then 1 else 0) + CompletionCount(Perform(s, calls[0]), calls[1..], id)
  }

  lemma CallCounts(s: Store, c: Call, id: string)
    requires OutboxInv(s.outbox) && id in s.outbox
    ensures var t := Perform(s, c);
            && id in t.outbox
            && t.outbox[id].attempts == s.outbox[id].attempts + (if Claims(s, c, id) then 1 else 0)
            && t.outbox[id].completions == s.outbox[id].completions + (if Completes(s, c, id) then 1 else 0)
  {
    hide Correct, ApplyCorrection, AddHistory, AllInsertable, ReduceEvents, RowStep, OutboxInv;
    if c.CorrectCall? { CorrectionSteps(s, c.correction); }
    if c.ApplyCall? { ApplyingSteps(s, c.input); }
  }

  /** The attempt count grows by one per successful claim, and the completion count by one per successful completion. */
  lemma {:induction false} CountsAreExact(s: Store, calls: seq<Call>, id: string)
    requires OutboxInv(s.outbox) && id in s.outbox
    ensures var t := Run(s, calls);
            && id in t.outbox
            && t.outbox[id].attempts == s.outbox[id].attempts + ClaimCount(s, calls, id)
            && t.outbox[id].completions == s.outbox[id].completions + CompletionCount(s, calls, id)
            && (t.outbox[id].status == OutboxStatus.Completed <==>
                  s.outbox[id].completions + CompletionCount(s, calls, id) == 1)
            && CompletionCount(s, calls, id) <= 1
    decreases |calls|
  {
    OutboxStaysConsistent(s, calls);
    if calls != [] {
      CallSteps(s, calls[0]);
      CallCounts(s, calls[0], id);
      hide Perform;
      CountsAreExact(Perform(s, calls[0]), calls[1..], id);
    }
  }
}
