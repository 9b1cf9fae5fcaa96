/** What a publication ends with, and when one source revision has one projection over all of history. */
module ExchangeHistory {
  import opened Options
  import opened ExchangeProtocol
  import opened ExchangeSafety

  /******* Where a publication ends *******/

  /** The pointer a publication is for: an already stored revision keeps its own manifest. */
  function NewPointer(d: Durable, i: PublishInput): Pointer {
    var m := i.publication.manifest;
    PointerFor(if m.projectionRevision in d.revisions then d.revisions[m.projectionRevision].publication.manifest
               else m, i.startedAt)
  }

  /** Headed for `pointer` once past `acquired`, and for the old active pointer until then. */
  predicate HeadedFor(start: Durable, d: Durable, pointer: Pointer) {
    if d.lock.Owned? then
      && d.lock.record.Publishing?
      && Destiny(d) == if d.lock.record.phase == Acquired then start.active else Some(pointer)
    else d.active in {start.active, Some(pointer)}
  }

  lemma ActivationHeadsForNew(p: Process, r: Record)
    requires r.Publishing? && r.phase == RevisionCommitted
    ensures var q := ActivateRevision(p, r);
            q.d == p.d || Destiny(q.d) == Some(r.target.pointer)
    ensures var q := ActivateRevision(p, r);
            q.d.lock in {p.d.lock, Owned(r), Owned(RecordAt(r, ActiveCommitted)), Unlocked}
    ensures var q := ActivateRevision(p, r);
            q.d.lock == Unlocked && p.d.lock != Unlocked ==> q.d.active == Some(r.target.pointer)
  {}

  lemma CommitHeadsForNew(start: Durable, p: Process, i: PublishInput, r: Record)
    requires ReadyToRecord(p, r) && r == AcquiredRecord(start, i)
    requires p.Alive() ==> p.d.temporaries[i.temporary] == Tree(i.publication, i.publication.payloadCount + 1)
    requires p.d.revisions == start.revisions && HeadedFor(start, p.d, NewPointer(start, i))
    requires p.Alive() ==> p.d.lock == Owned(r)
    ensures HeadedFor(start, CommitAndActivate(p, r).0.d, NewPointer(start, i))
    ensures p.life >= 6 ==> var (q, outcome) := CommitAndActivate(p, r);
              q.d.lock == Unlocked && q.d.active == Some(NewPointer(start, i)) && outcome != Raised
  {
    hide Verifies;
    var recorded := RecordAt(r, TemporaryRevisionComplete);
    var claimed := SetLock(p, Owned(recorded));
    assert HeadedFor(start, claimed.d, NewPointer(start, i));
    if r.target.temporaryDirectory in claimed.d.temporaries {
      assert ReadyToCommit(claimed, recorded);
      MoveKeepsInv(claimed, recorded);
      var moved := MoveRevision(claimed, r.target);
      assert HeadedFor(start, moved.d, NewPointer(start, i));
      if moved.Alive() {
        var m := moved.d.revisions[r.target.projectionRevision].publication.manifest;
        assert PointerFor(m, i.startedAt) == NewPointer(start, i);
        ActivationHeadsForNew(moved, CommittedRecord(r, m));
        ActivationKeepsInv(moved, CommittedRecord(r, m));
      }
    }
  }

  lemma PublishHeadsForOldOrNew(d: Durable, i: PublishInput, life: nat)
    requires Inv(d) && d.lock == Unlocked
    ensures HeadedFor(d, PublishProjection(Process(d, life), i).0.d, NewPointer(d, i))
  {
    hide CommitAndActivate, WriteFiles;
    if i.accepted {
      var record := AcquiredRecord(d, i);
      var acquired := SetLock(SetLock(Process(d, life), Unowned), Owned(record));
      if i.temporary !in acquired.d.temporaries {
        var made := WriteTemporary(acquired, i.temporary, Tree(i.publication, 0));
        WriteFilesFrame(made, i.temporary, i.publication, 0);
        var filled := WriteFiles(made, i.temporary, i.publication, 0);
        assert HeadedFor(d, filled.d, NewPointer(d, i));
        if Verifies(Tree(i.publication, i.publication.payloadCount + 1))
           && SourceClaimable(filled.d, i.publication.manifest) {
          var bound := ClaimBinding(filled, i.publication.manifest);
          assert ReadyToRecord(bound, record);
          CommitHeadsForNew(d, bound, i, record);
        }
      }
    }
  }

  /**
   A publication that dies anywhere after writing its lock record, followed by any number of interrupted recoveries
   and one that completes: the lock is gone and `active.json` is the old pointer if the lock still said `acquired`,
   and the new one for every later phase.
   */
  lemma PublishThenRecover(d: Durable, i: PublishInput, life: nat, interrupted: seq<Call>, life': nat)
    requires Inv(d) && d.lock == Unlocked && OnlyRecoveries(interrupted) && life' >= 5
    requires PublishInterrupted(Perform(d, Call(Publish(i), life)))
    ensures var died := Perform(d, Call(Publish(i), life));
            var after := Perform(Run(died, interrupted), Call(Recover(RecoveryReplies(true, true)), life'));
            && after.lock == Unlocked
            && after.active == if died.lock.record.phase == Acquired then d.active else Some(NewPointer(d, i))
  {
    PublishHeadsForOldOrNew(d, i, life);
    PublishKeepsInv(d, i, life);
    RecoveryFinishesOrUndoes(Perform(d, Call(Publish(i), life)), interrupted, life');
  }

  lemma {:induction false} WriteFilesLife(p: Process, name: string, publication: Publication, from: nat)
    requires from <= publication.payloadCount + 1 && p.life >= publication.payloadCount + 1 - from
    ensures WriteFiles(p, name, publication, from).life == p.life - (publication.payloadCount + 1 - from)
    decreases publication.payloadCount + 1 - from
  {
    if from < publication.payloadCount + 1 {
      WriteFilesLife(WriteTemporary(p, name, Tree(publication, from + 1)), name, publication, from + 1);
    }
  }

  /** Left alone, a publishable publication succeeds and becomes the active one. */
  lemma UndisturbedPublishActivates(d: Durable, i: PublishInput, life: nat)
    requires Inv(d) && Publishable(d, i) && life >= i.publication.payloadCount + 11
    ensures var (p, outcome) := PublishProjection(Process(d, life), i);
            && outcome != Raised && p.d.lock == Unlocked && p.d.active == Some(NewPointer(d, i))
            && i.publication.manifest.sourceRevision in p.d.bindings
            && p.d.bindings[i.publication.manifest.sourceRevision] == i.publication.manifest.projectionRevision
            && i.publication.manifest.projectionRevision in p.d.revisions
            && p.d.committed == if i.publication.manifest.projectionRevision in d.revisions then d.committed
                                else d.committed + {i.publication.manifest.projectionRevision}
  {
    var record := AcquiredRecord(d, i);
    var acquired := SetLock(SetLock(Process(d, life), Unowned), Owned(record));
    var made := WriteTemporary(acquired, i.temporary, Tree(i.publication, 0));
    WriteFilesFrame(made, i.temporary, i.publication, 0);
    WriteFilesLife(made, i.temporary, i.publication, 0);
    var filled := WriteFiles(made, i.temporary, i.publication, 0);
    assert filled.life >= 7 && SourceClaimable(filled.d, i.publication.manifest);
    var bound := ClaimBinding(filled, i.publication.manifest);
    assert ReadyToRecord(bound, record);
    CommitHeadsForNew(d, bound, i, record);
    assert PublishProjection(Process(d, life), i) == CommitAndActivate(bound, record);
    CommitRecords(bound, record);
  }

  lemma CommitRecords(p: Process, r: Record)
    requires ReadyToRecord(p, r) && p.life >= 6
    ensures var q := CommitAndActivate(p, r).0;
            && q.d.bindings == p.d.bindings
            && r.target.projectionRevision in q.d.revisions
            && q.d.committed == if r.target.projectionRevision in p.d.revisions then p.d.committed
                                else p.d.committed + {r.target.projectionRevision}
  {}

  /******* One source revision, one projection *******/

  /**
   Over everything ever committed, one source revision has one projection revision (whose name fixes its as-of time).
   */
  predicate Deterministic(d: Durable) {
    forall a, b | a in d.committed && b in d.committed && a.seed.sourceRevision == b.seed.sourceRevision :: a == b
  }

  predicate StoredAreCommitted(d: Durable) { d.revisions.Keys <= d.committed }

  predicate BindingsAgree(d: Durable) {
    forall r | r in d.committed && r.seed.sourceRevision in d.bindings :: d.bindings[r.seed.sourceRevision] == r
  }

  /** Still visible to the next claim: stored, or bound. */
  predicate Remembered(d: Durable, r: RevisionName) { r in d.revisions || r.seed.sourceRevision in d.bindings }

  predicate AllRemembered(d: Durable) { forall r | r in d.committed :: Remembered(d, r) }

  /** A publication past its claim is bound. */
  predicate PendingIsBound(d: Durable) {
    PublishInterrupted(d) && d.lock.record.phase != Acquired ==>
      var target := d.lock.record.target;
      && target.projectionRevision.seed.sourceRevision == target.sourceRevision
      && target.sourceRevision in d.bindings
      && d.bindings[target.sourceRevision] == target.projectionRevision
  }

  predicate History(d: Durable) {
    && Inv(d) && Deterministic(d) && StoredAreCommitted(d) && BindingsAgree(d) && AllRemembered(d) && PendingIsBound(d)
  }

  /** Collection only removes revisions whose source is bound, that is: nothing from before bindings existed. */
  predicate CollectsOnlyBound(d: Durable, c: Call) {
    c.operation.Collect? ==>
      forall r | r in d.revisions && r in c.operation.aged && r !in ProtectedRevisions(d) ::
        r.seed.sourceRevision in d.bindings
  }

  /** Every revision that `after` no longer stores had its source bound. */
  predicate RemovedWereBound(d: Durable, after: Durable) {
    forall r | r in d.revisions && r !in after.revisions :: r.seed.sourceRevision in d.bindings
  }

  predicate AlwaysCollectsOnlyBound(d: Durable, calls: seq<Call>)
    decreases |calls|
  {
    calls == [] || (CollectsOnlyBound(d, calls[0]) && AlwaysCollectsOnlyBound(Perform(d, calls[0]), calls[1..]))
  }

  lemma ClaimKeepsHistory(p: Process, i: PublishInput)
    requires History(p.d) && NamedByContent(i.publication.manifest) && SourceClaimable(p.d, i.publication.manifest)
    requires PublishInterrupted(p.d) && p.d.lock.record.phase == Acquired
    ensures var q := ClaimBinding(p, i.publication.manifest);
            && History(q.d)
            && (q.Alive() ==>
                  && i.publication.manifest.sourceRevision in q.d.bindings
                  && q.d.bindings[i.publication.manifest.sourceRevision] == i.publication.manifest.projectionRevision)
  {}

  /** Renaming a bound temporary onto its name keeps the history deterministic. */
  lemma MoveKeepsHistory(p: Process, r: Record)
    requires History(p.d) && ReadyToCommit(p, r) && r.target.temporaryDirectory in p.d.temporaries
    ensures History(MoveRevision(p, r.target).d)
  {
    MoveKeepsInv(p, r);
    var q := MoveRevision(p, r.target);
    var target := r.target;
    if p.Alive() && target.projectionRevision !in p.d.revisions {
      var name := target.projectionRevision;
      forall a | a in p.d.committed && a.seed.sourceRevision == name.seed.sourceRevision
        ensures a == name
      {
        assert p.d.bindings[a.seed.sourceRevision] == a;
      }
      assert q.d.committed == p.d.committed + {name};
    }
  }

  lemma SameHistory(before: Durable, after: Durable)
    requires History(before) && Inv(after) && PendingIsBound(after)
    requires after.committed == before.committed && after.bindings == before.bindings
             && after.revisions == before.revisions
    ensures History(after)
  {}

  lemma ActivationKeepsHistory(p: Process, r: Record)
    requires History(p.d) && r.Publishing? && r.phase == RevisionCommitted
    requires p.Alive() ==> CommittedTarget(p.d, r) && PendingIsBound(p.d.(lock := Owned(r)))
    ensures History(ActivateRevision(p, r).d)
  {
    ActivationKeepsInv(p, r);
    SameHistory(p.d, ActivateRevision(p, r).d);
  }

  lemma CommitKeepsHistory(p: Process, r: Record)
    requires ReadyToRecord(p, r) && History(p.d)
    requires p.Alive() ==> PendingIsBound(p.d.(lock := Owned(RecordAt(r, TemporaryRevisionComplete))))
    ensures History(CommitAndActivate(p, r).0.d)
  {
    var recorded := RecordAt(r, TemporaryRevisionComplete);
    var claimed := SetLock(p, Owned(recorded));
    assert ReadyToCommit(claimed, recorded);
    SameHistory(p.d, claimed.d);
    if r.target.temporaryDirectory in claimed.d.temporaries {
      MoveKeepsInv(claimed, recorded);
      MoveKeepsHistory(claimed, recorded);
      var moved := MoveRevision(claimed, r.target);
      if TargetVerified(moved.d, r.target) {
        ActivationKeepsHistory(moved,
                               CommittedRecord(r, moved.d.revisions[r.target.projectionRevision].publication.manifest));
      }
    }
  }

  lemma PublishKeepsHistory(d: Durable, i: PublishInput, life: nat)
    requires History(d)
    ensures History(PublishProjection(Process(d, life), i).0.d)
  {
    hide CommitAndActivate, WriteFiles;
    if i.accepted && d.lock == Unlocked {
      var record := AcquiredRecord(d, i);
      var acquired := SetLock(SetLock(Process(d, life), Unowned), Owned(record));
      SameHistory(d, acquired.d);
      if i.temporary !in acquired.d.temporaries {
        var made := WriteTemporary(acquired, i.temporary, Tree(i.publication, 0));
        WriteFilesFrame(made, i.temporary, i.publication, 0);
        var filled := WriteFiles(made, i.temporary, i.publication, 0);
        SameHistory(d, filled.d);
        if Verifies(Tree(i.publication, i.publication.payloadCount + 1))
           && SourceClaimable(filled.d, i.publication.manifest) {
          var bound := ClaimBinding(filled, i.publication.manifest);
          if filled.Alive() { ClaimKeepsHistory(filled, i); }
          assert ReadyToRecord(bound, record);
          CommitKeepsHistory(bound, record);
        }
      }
    }
  }

  /** The same committed revisions, bindings and stored trees. */
  predicate SameStore(before: Durable, after: Durable) {
    after.committed == before.committed && after.bindings == before.bindings && after.revisions == before.revisions
  }

  /** The lock is released, or held for the same target past the same claim. */
  predicate SameTargetOrFree(before: Durable, after: Durable) {
    after.lock == before.lock
    || !PublishInterrupted(after)
    || (PublishInterrupted(before) && before.lock.record.phase != Acquired
        && after.lock.record.target.projectionRevision == before.lock.record.target.projectionRevision
        && after.lock.record.target.sourceRevision == before.lock.record.target.sourceRevision)
  }

  lemma FinishCommittedFrame(p: Process, r: Record)
    requires r.Publishing?
    ensures var q := FinishCommitted(p, r).0;
            SameStore(p.d, q.d) && q.d.lock in {p.d.lock, Owned(RecordAt(r, ActiveCommitted)), Unlocked}
  {}

  lemma FinishTemporaryFrame(p: Process, r: Record)
    requires r.Publishing?
    ensures var (q, committed) := FinishTemporary(p, r);
            var moved := if r.target.temporaryDirectory in p.d.temporaries
              && Verifies(p.d.temporaries[r.target.temporaryDirectory])
                         then MoveRevision(p, r.target) else p;
            && SameStore(moved.d, q.d)
            && (if committed.Some? then
                  && committed.value.Publishing?
                  && committed.value.target.projectionRevision == r.target.projectionRevision
                  && committed.value.target.sourceRevision == r.target.sourceRevision
                  && q.d.lock in {p.d.lock, Owned(committed.value)}
                else q.d.lock == p.d.lock)
  {}

  lemma FinishingKeepsHistory(before: Durable, after: Durable)
    requires History(before) && Inv(after) && SameStore(before, after) && SameTargetOrFree(before, after)
    ensures History(after)
  {}

  lemma FinishingTemporaryKeepsHistory(p: Process, r: Record)
    requires History(p.d) && ReadyToCommit(p, r) && p.d.lock == Owned(r) && r.phase == TemporaryRevisionComplete
    ensures var (q, committed) := FinishTemporary(p, r);
            History(q.d) && (committed.Some? ==> PendingIsBound(q.d.(lock := Owned(committed.value))))
  {
    hide Verifies, MatchesTarget;
    FinishTemporaryFrame(p, r);
    FinishTemporaryOutcome(p, r);
    var q := FinishTemporary(p, r).0;
    if r.target.temporaryDirectory in p.d.temporaries && Verifies(p.d.temporaries[r.target.temporaryDirectory]) {
      MoveKeepsHistory(p, r);
      FinishingKeepsHistory(MoveRevision(p, r.target).d, q.d);
    } else {
      FinishingKeepsHistory(p.d, q.d);
    }
  }

  predicate PastAcquired(d: Durable, e: RecoveryReplies) {
    PublishInterrupted(d) && e.leaseExpired && e.ownerDead && d.lock.record.phase != Acquired
  }

  lemma EarlyRecoveryFrame(d: Durable, e: RecoveryReplies, life: nat)
    requires !PastAcquired(d, e)
    ensures var after := RecoverPublication(Process(d, life), e).0.d;
            SameStore(d, after) && after.lock in {d.lock, Unlocked}
  {}

  lemma TemporaryRecoveryKeepsHistory(d: Durable, e: RecoveryReplies, life: nat)
    requires History(d) && PastAcquired(d, e) && d.lock.record.phase == TemporaryRevisionComplete
    ensures History(RecoverPublication(Process(d, life), e).0.d)
  {
    var p, r := Process(d, life), d.lock.record;
    RecoveryKeepsDestiny(d, e, life);
    FinishingTemporaryKeepsHistory(p, r);
    var (q, committed) := FinishTemporary(p, r);
    if committed.Some? {
      FinishTemporaryFrame(p, r);
      FinishCommittedFrame(q, committed.value);
      SameHistory(q.d, FinishCommitted(q, committed.value).0.d);
    }
  }

  lemma RecoveryKeepsHistory(d: Durable, e: RecoveryReplies, life: nat)
    requires History(d)
    ensures History(RecoverPublication(Process(d, life), e).0.d)
  {
    RecoveryKeepsDestiny(d, e, life);
    if !PastAcquired(d, e) {
      EarlyRecoveryFrame(d, e, life);
      FinishingKeepsHistory(d, RecoverPublication(Process(d, life), e).0.d);
    } else if d.lock.record.phase == TemporaryRevisionComplete {
      TemporaryRecoveryKeepsHistory(d, e, life);
    } else {
      FinishCommittedFrame(Process(d, life), d.lock.record);
      FinishingKeepsHistory(d, FinishCommitted(Process(d, life), d.lock.record).0.d);
    }
  }

  lemma {:induction false} CollectListedFrame(p: Process, listing: seq<RevisionName>, aged: set<RevisionName>,
                                              kept: set<RevisionName>)
    ensures var q := CollectListed(p, listing, aged, kept).0;
            && q.d == p.d.(revisions := q.d.revisions)
            && q.d.revisions.Keys <= p.d.revisions.Keys
            && (forall r | r in p.d.revisions && r !in q.d.revisions :: r in aged && r !in kept)
            && (!p.Alive() ==> q.d == p.d)
    decreases |listing|
  {
    if listing != [] {
      var name := listing[0];
      if name !in p.d.revisions || name in kept || name !in aged {
        CollectListedFrame(p, listing[1..], aged, kept);
      } else if Verifies(p.d.revisions[name]) {
        CollectListedFrame(RemoveRevision(p, name), listing[1..], aged, kept);
      }
    }
  }

  /** A collection that removed only bound revisions forgot nothing. */
  lemma CollectingBoundKeepsHistory(d: Durable, listing: seq<RevisionName>, aged: set<RevisionName>, life: nat)
    requires History(d) && RemovedWereBound(d, Perform(d, Call(Collect(listing, aged), life)))
    ensures History(Perform(d, Call(Collect(listing, aged), life)))
  {
    CollectKeepsInv(d, listing, aged, life);
    if d.lock == Unlocked {
      CollectFrame(d, listing, aged, life);
      var after := CollectOrphans(Process(d, life), listing, aged).0.d;
      forall r | r in after.committed ensures Remembered(after, r) { assert Remembered(d, r); }
    }
  }

  lemma CollectKeepsHistory(d: Durable, listing: seq<RevisionName>, aged: set<RevisionName>, life: nat)
    requires History(d) && CollectsOnlyBound(d, Call(Collect(listing, aged), life))
    ensures History(CollectOrphans(Process(d, life), listing, aged).0.d)
  {
    if d.lock == Unlocked { CollectFrame(d, listing, aged, life); }
    hide CollectOrphans, History;
    CollectingBoundKeepsHistory(d, listing, aged, life);
  }

  lemma CollectFrame(d: Durable, listing: seq<RevisionName>, aged: set<RevisionName>, life: nat)
    requires d.lock == Unlocked
    ensures var after := CollectOrphans(Process(d, life), listing, aged).0.d;
            && !PublishInterrupted(after)
            && after.committed == d.committed && after.bindings == d.bindings
            && after.revisions.Keys <= d.revisions.Keys
            && (forall r | r in d.revisions && r !in after.revisions :: r in aged && r !in ProtectedRevisions(d))
  {
    var acquired := SetLock(SetLock(Process(d, life), Unowned), Owned(Collecting));
    assert ProtectedRevisions(acquired.d) == ProtectedRevisions(d) && acquired.d.revisions == d.revisions;
    CollectListedFrame(acquired, listing, aged, ProtectedRevisions(acquired.d));
  }

  lemma CallKeepsHistory(d: Durable, c: Call)
    requires History(d) && CollectsOnlyBound(d, c)
    ensures History(Perform(d, c))
  {
    hide PublishProjection, RecoverPublication, CollectOrphans;
    match c.operation
    case Publish(i) => PublishKeepsHistory(d, i, c.life);
    case Recover(e) => RecoveryKeepsHistory(d, e, c.life);
    case Collect(listing, aged) => CollectKeepsHistory(d, listing, aged, c.life);
    case Retain(_) => SameHistory(d, Perform(d, c));
  }

  /**
   Over every run whose collections remove only bound revisions, any two revisions ever committed with the same
   source revision are the same revision, those from before bindings included.
   */
  lemma {:induction false} SourceDeterminismOverHistory(d: Durable, calls: seq<Call>)
    requires History(d) && AlwaysCollectsOnlyBound(d, calls)
    ensures Deterministic(Run(d, calls)) && History(Run(d, calls))
    decreases |calls|
  {
    if calls != [] {
      CallKeepsHistory(d, calls[0]);
      SourceDeterminismOverHistory(Perform(d, calls[0]), calls[1..]);
    }
  }

  /******* Collections and determinism *******/

  lemma Longest(names: set<string>) returns (n: nat)
    ensures forall x | x in names :: |x| <= n
  {
    n := 0;
    if names != {} {
      var x :| x in names;
      n := Longest(names - {x});
      if n < |x| { n := |x|; }
    }
  }

  lemma FreshName(names: set<string>) returns (name: string)
    ensures name !in names
  {
    var n := Longest(names);
    name := seq(n + 1, _ => 't');
  }

  /** Something else than `r`, from the same source. */
  function Republication(r: RevisionName, temporary: string): (i: PublishInput)
    ensures SourceConflict(r, i.publication.manifest)
    ensures Verifies(Tree(i.publication, i.publication.payloadCount + 1))
  {
    var seed := r.seed.(content := r.seed.content + "'");
    assert |seed.content| != |r.seed.content|;
    PublishInput(Publication(Manifest(RevisionName(seed), seed.sourceRevision, seed.asOf, seed.content, ""), 0, true),
                 true, "", temporary)
  }

  /** Something else, published for the source of a revision that is neither stored nor bound, is accepted. */
  lemma ForgottenSourceIsRepublished(d: Durable, r: RevisionName, i: PublishInput, life: nat)
    requires Inv(d) && d.lock == Unlocked && r in d.committed && r.seed.sourceRevision !in d.bindings
    requires forall x | x in d.revisions :: x.seed.sourceRevision != r.seed.sourceRevision
    requires i.accepted && i.temporary !in d.temporaries && SourceConflict(r, i.publication.manifest)
    requires Verifies(Tree(i.publication, i.publication.payloadCount + 1)) && life >= i.publication.payloadCount + 11
    ensures !Deterministic(Perform(d, Call(Publish(i), life)))
  {
    assert Publishable(d, i);
    UndisturbedPublishActivates(d, i, life);
    var after := Perform(d, Call(Publish(i), life));
    assert r in after.committed && i.publication.manifest.projectionRevision in after.committed;
  }

  function Undo(): Call { Call(Recover(RecoveryReplies(true, true)), 1) }

  /** A collection that removed anything leaves its lock or none, and one recovery takes that away. */
  lemma CollectedThenRecovered(d: Durable, listing: seq<RevisionName>, aged: set<RevisionName>, life: nat)
    requires History(d) && !RemovedWereBound(d, Perform(d, Call(Collect(listing, aged), life)))
    ensures var after := Perform(d, Call(Collect(listing, aged), life));
            && Inv(Perform(after, Undo())) && Perform(after, Undo()) == after.(lock := Unlocked)
            && after.committed == d.committed && after.bindings == d.bindings && after.temporaries == d.temporaries
            && after.revisions.Keys <= d.revisions.Keys
  {
    CollectKeepsInv(d, listing, aged, life);
    CollectFrame(d, listing, aged, life);
    var acquired := SetLock(SetLock(Process(d, life), Unowned), Owned(Collecting));
    CollectListedFrame(acquired, listing, aged, ProtectedRevisions(acquired.d));
    var after := Perform(d, Call(Collect(listing, aged), life));
    assert acquired.Alive() && (after.lock == Unlocked || after.lock == Owned(Collecting));
    RecoveryKeepsDestiny(after, RecoveryReplies(true, true), 1);
  }

  /**
   Exactly when a collection, dying anywhere, costs determinism: from a history, every later run that collects only
   bound revisions stays deterministic if and only if every revision this one removed had its source bound.
   */
  lemma CollectingKeepsDeterminismExactly(d: Durable, listing: seq<RevisionName>, aged: set<RevisionName>, life: nat)
    requires History(d)
    ensures var after := Perform(d, Call(Collect(listing, aged), life));
            (forall calls | AlwaysCollectsOnlyBound(after, calls) :: Deterministic(Run(after, calls)))
            <==> RemovedWereBound(d, after)
  {
    hide CollectOrphans, Inv;
    var after := Perform(d, Call(Collect(listing, aged), life));
    if RemovedWereBound(d, after) {
      CollectingBoundKeepsHistory(d, listing, aged, life);
      forall calls | AlwaysCollectsOnlyBound(after, calls) ensures Deterministic(Run(after, calls)) {
        SourceDeterminismOverHistory(after, calls);
      }
    } else {
      var r :| r in d.revisions && r !in after.revisions && r.seed.sourceRevision !in d.bindings;
      CollectedThenRecovered(d, listing, aged, life);
      var free := Perform(after, Undo());
      var temporary := FreshName(free.temporaries.Keys);
      var i := Republication(r, temporary);
      forall x | x in free.revisions ensures x.seed.sourceRevision != r.seed.sourceRevision {
        assert x in d.committed && r in d.committed && x != r;
      }
      ForgottenSourceIsRepublished(free, r, i, 11);
      RunOfTwo(after, Undo(), Call(Publish(i), 11));
    }
  }

  lemma RunOfTwo(d: Durable, a: Call, b: Call)
    ensures Run(d, [a, b]) == Perform(Perform(d, a), b)
    ensures !a.operation.Collect? && !b.operation.Collect? ==> AlwaysCollectsOnlyBound(d, [a, b])
  {
    hide Perform;
    assert [a, b][1..] == [b] && [b][1..] == [];
    assert Run(Perform(d, a), [b]) == Perform(Perform(d, a), b);
    assert AlwaysCollectsOnlyBound(Perform(Perform(d, a), b), []);
  }

  /******* It does happen *******/

  /** A store from before bindings existed. */
  function LegacyStore(legacy: RevisionName, stored: Tree): Durable {
    Durable(Unlocked, map[legacy := stored], map[], None, map[], None, {legacy})
  }

  lemma LegacyIsCollected(legacy: RevisionName, stored: Tree)
    requires Verifies(stored) && stored.publication.manifest.projectionRevision == legacy
    ensures History(LegacyStore(legacy, stored))
    ensures Perform(LegacyStore(legacy, stored), Call(Collect([legacy], {legacy}), 4))
            == Durable(Unlocked, map[], map[], None, map[], None, {legacy})
  {
    var start := LegacyStore(legacy, stored);
    assert [legacy][1..] == [] && ProtectedRevisions(start) == {};
    var acquired := SetLock(SetLock(Process(start, 4), Unowned), Owned(Collecting));
    assert CollectListed(RemoveRevision(acquired, legacy), [], {legacy}, {})
           == (RemoveRevision(acquired, legacy), true);
  }

  /** A revision from before bindings existed is collected, then its source is published again with other content. */
  lemma CollectingUnboundLosesDeterminism(legacy: RevisionName, stored: Tree, i: PublishInput, life: nat)
    requires Verifies(stored) && stored.publication.manifest.projectionRevision == legacy
    requires i.accepted && Verifies(Tree(i.publication, i.publication.payloadCount + 1))
    requires SourceConflict(legacy, i.publication.manifest) && life >= i.publication.payloadCount + 11
    ensures var start := LegacyStore(legacy, stored);
            && History(start)
            && !Deterministic(Run(start, [Call(Collect([legacy], {legacy}), 4), Call(Publish(i), life)]))
  {
    var start, collect := LegacyStore(legacy, stored), Call(Collect([legacy], {legacy}), 4);
    LegacyIsCollected(legacy, stored);
    hide Perform, LegacyStore;
    ForgottenSourceIsRepublished(Perform(start, collect), legacy, i, life);
    RunOfTwo(start, collect, Call(Publish(i), life));
  }

  /** A publication that dies right after its claim, and is rolled back, leaves the binding behind. */
  lemma DeadClaimIsRolledBack(d: Durable, i: PublishInput)
    requires Inv(d) && Publishable(d, i) && i.publication.manifest.sourceRevision !in d.bindings
    ensures var m := i.publication.manifest;
            var died := Perform(d, Call(Publish(i), i.publication.payloadCount + 5));
            Perform(died, Call(Recover(RecoveryReplies(true, true)), 2))
            == d.(bindings := d.bindings[m.sourceRevision := m.projectionRevision])
  {
    var life := i.publication.payloadCount + 5;
    var acquired := SetLock(SetLock(Process(d, life), Unowned), Owned(AcquiredRecord(d, i)));
    var made := WriteTemporary(acquired, i.temporary, Tree(i.publication, 0));
    WriteFilesFrame(made, i.temporary, i.publication, 0);
    WriteFilesLife(made, i.temporary, i.publication, 0);
    var filled := WriteFiles(made, i.temporary, i.publication, 0);
    var bound := ClaimBinding(filled, i.publication.manifest);
    assert filled.life == 1 && !bound.Alive();
    DeadCommitDoesNothing(bound, AcquiredRecord(d, i));
    hide CommitAndActivate, WriteFiles, Verifies, SourceClaimable;
    var died := Perform(d, Call(Publish(i), life));
    assert died == bound.d;
    assert died.temporaries - {i.temporary} == d.temporaries;
  }

  lemma DeadCommitDoesNothing(p: Process, r: Record)
    requires r.Publishing? && !p.Alive()
    ensures CommitAndActivate(p, r).0 == p
  {
    hide Verifies, MatchesTarget;
  }

  /**
   The conflict can be hidden behind a binding: the new publication dies right after its claim and is rolled back, so
   the source is bound to a revision that was never committed, and publishing it again is accepted.
   */
  lemma DeadClaimHidesTheConflict(legacy: RevisionName, stored: Tree, i: PublishInput, life: nat)
    requires Verifies(stored) && stored.publication.manifest.projectionRevision == legacy
    requires i.accepted && Verifies(Tree(i.publication, i.publication.payloadCount + 1))
    requires SourceConflict(legacy, i.publication.manifest) && life >= i.publication.payloadCount + 11
    ensures var start, m := LegacyStore(legacy, stored), i.publication.manifest;
            var before := Run(start, [Call(Collect([legacy], {legacy}), 4),
                                      Call(Publish(i), i.publication.payloadCount + 5),
                                      Call(Recover(RecoveryReplies(true, true)), 2)]);
            && History(start) && Inv(before) && Deterministic(before) && before.lock == Unlocked
            && before.bindings == map[m.sourceRevision := m.projectionRevision] && legacy in before.committed
            && !Deterministic(Perform(before, Call(Publish(i), life)))
  {
    var start, m := LegacyStore(legacy, stored), i.publication.manifest;
    var collect, publish := Call(Collect([legacy], {legacy}), 4), Call(Publish(i), i.publication.payloadCount + 5);
    var recover := Call(Recover(RecoveryReplies(true, true)), 2);
    LegacyIsCollected(legacy, stored);
    var collected := Perform(start, collect);
    DeadClaimIsRolledBack(collected, i);
    var before := Perform(Perform(collected, publish), recover);
    assert Run(start, [collect, publish, recover]) == before by {
      hide Perform;
      assert [collect, publish, recover][1..] == [publish, recover];
      RunOfTwo(collected, publish, recover);
    }
    assert before == Durable(Unlocked, map[], map[], None, map[m.sourceRevision := m.projectionRevision], None,
                             {legacy});
    hide Run, Perform;
    assert Publishable(before, i);
    UndisturbedPublishActivates(before, i, life);
    PerformsPublish(before, i, life);
    var after := Perform(before, Call(Publish(i), life));
    assert legacy in after.committed && m.projectionRevision in after.committed;
  }

  lemma PerformsPublish(d: Durable, i: PublishInput, life: nat)
    ensures Perform(d, Call(Publish(i), life)) == PublishProjection(Process(d, life), i).0.d
  {}
}
