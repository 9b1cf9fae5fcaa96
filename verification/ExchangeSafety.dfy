/** The active pointer never dangles, and recovery reaches exactly one outcome however often it is interrupted. */
module ExchangeSafety {
  import opened Options
  import opened ExchangeProtocol

  type Revisions = map<RevisionName, Tree>

  /******* Invariant *******/

  predicate RevisionsIntact(revisions: Revisions) {
    forall r | r in revisions :: Verifies(revisions[r]) && revisions[r].publication.manifest.projectionRevision == r
  }

  /** A pointer made from the manifest of a stored, complete, verifying revision. */
  predicate PointsAt(revisions: Revisions, pointer: Pointer) {
    && pointer.projectionRevision in revisions
    && Verifies(revisions[pointer.projectionRevision])
    && pointer == PointerFor(revisions[pointer.projectionRevision].publication.manifest, pointer.changedAt)
  }

  predicate ActiveBacked(revisions: Revisions, active: Option<Pointer>) {
    active.Some? ==> PointsAt(revisions, active.value)
  }

  /** What a lock record in each phase promises a recovery will find. */
  predicate RecordBacked(d: Durable, r: Record)
    requires r.Publishing?
  {
    var target := r.target;
    match r.phase
    case Acquired => true
    case TemporaryRevisionComplete =>
      && NamedByTarget(target)
      && (target.existingRevision ==> target.projectionRevision in d.revisions)
      && (if target.temporaryDirectory in d.temporaries then
            && Verifies(d.temporaries[target.temporaryDirectory])
            && MatchesTarget(d.temporaries[target.temporaryDirectory], target)
            && (target.projectionRevision in d.revisions ==> target.existingRevision)
          else TargetVerified(d, target))
    case RevisionCommitted => CommittedTarget(d, r)
    case ActiveCommitted => CommittedTarget(d, r) && d.active == Some(target.pointer)
  }

  predicate NamedByTarget(target: LockTarget) {
    && target.projectionRevision.seed.sourceRevision == target.sourceRevision
    && target.projectionRevision.seed.asOf == target.asOf
  }

  predicate CommittedTarget(d: Durable, r: Record)
    requires r.Publishing?
  {
    && r.target.projectionRevision in d.revisions
    && var m := d.revisions[r.target.projectionRevision].publication.manifest;
       && r.target.manifestChecksum == Sha256(m)
       && r.target.pointer == PointerFor(m, r.startedAt)
       && r.target.sourceRevision == m.sourceRevision
  }

  predicate LockBacked(d: Durable) {
    d.lock.Owned? && d.lock.record.Publishing? ==> RecordBacked(d, d.lock.record)
  }

  predicate Inv(d: Durable) {
    RevisionsIntact(d.revisions) && ActiveBacked(d.revisions, d.active) && LockBacked(d)
  }

  /******* The outcome recovery is heading for *******/

  predicate PublishInterrupted(d: Durable) { d.lock.Owned? && d.lock.record.Publishing? }

  /** The manifest that the committed revision has, or will have once the temporary is renamed. */
  function ManifestToCommit(d: Durable, target: LockTarget): Option<Manifest> {
    if target.projectionRevision in d.revisions then Some(d.revisions[target.projectionRevision].publication.manifest)
    else if target.temporaryDirectory in d.temporaries then
      Some(d.temporaries[target.temporaryDirectory].publication.manifest)
    else None
  }

  /** The active pointer every recovery of `d` ends with: the old one in `acquired`, the new one in any later phase. */
  function Destiny(d: Durable): Option<Pointer> {
    if !PublishInterrupted(d) || d.lock.record.phase == Acquired then d.active
    else if d.lock.record.phase == TemporaryRevisionComplete then
      var m := ManifestToCommit(d, d.lock.record.target);
      if m.None? then None else Some(PointerFor(m.value, d.lock.record.startedAt))
    else Some(d.lock.record.target.pointer)
  }

  /******* Preservation: publish *******/

  /** Filling the temporary touches nothing else. */
  lemma {:induction false} WriteFilesFrame(p: Process, name: string, publication: Publication, from: nat)
    requires from <= publication.payloadCount + 1
    requires p.Alive() ==> name in p.d.temporaries && p.d.temporaries[name] == Tree(publication, from)
    ensures var q := WriteFiles(p, name, publication, from);
            && q.d == p.d.(temporaries := q.d.temporaries)
            && (q.Alive() ==>
                  && p.Alive()
                  && q.d.temporaries == p.d.temporaries[name := Tree(publication, publication.payloadCount + 1)])
    decreases publication.payloadCount + 1 - from
  {
    if from < publication.payloadCount + 1 {
      var written := WriteTemporary(p, name, Tree(publication, from + 1));
      WriteFilesFrame(written, name, publication, from + 1);
      var q := WriteFiles(p, name, publication, from);
      if q.Alive() {
        assert q.d.temporaries == p.d.temporaries[name := Tree(publication, publication.payloadCount + 1)];
      }
    } else if p.Alive() {
      assert p.d.temporaries == p.d.temporaries[name := p.d.temporaries[name]];
    }
  }

  /** `r` is recorded at `temporary_revision_complete` and the disk backs it. */
  predicate ReadyToCommit(p: Process, r: Record) {
    && r.Publishing?
    && Inv(p.d)
    && (p.Alive() ==>
          && p.d.lock == Owned(r)
          && r.phase == TemporaryRevisionComplete)
  }

  lemma MoveKeepsInv(p: Process, r: Record)
    requires ReadyToCommit(p, r) && r.target.temporaryDirectory in p.d.temporaries
    ensures var q := MoveRevision(p, r.target);
            && ReadyToCommit(q, r)
            && Destiny(q.d) == Destiny(p.d)
            && (q.Alive() ==> TargetVerified(q.d, r.target) && r.target.temporaryDirectory !in q.d.temporaries)
            && q.d.active == p.d.active
  {}

  lemma ActivationKeepsInv(p: Process, r: Record)
    requires Inv(p.d) && r.Publishing? && r.phase == RevisionCommitted
    requires p.Alive() ==> CommittedTarget(p.d, r)
    ensures Inv(ActivateRevision(p, r).d)
    ensures ActivateRevision(p, r).Alive() ==>
              ActivateRevision(p, r).d == p.d.(lock := Unlocked, active := Some(r.target.pointer))
  {
    var locked := SetLock(p, Owned(r));
    assert Inv(locked.d);
    var activated := WriteActive(locked, r.target.pointer);
    assert Inv(activated.d);
    assert Inv(SetLock(activated, Owned(RecordAt(r, ActiveCommitted))).d);
  }

  /** The temporary is complete and matches the record, and the source binding is claimed. */
  predicate ReadyToRecord(p: Process, r: Record) {
    && r.Publishing? && r.phase == Acquired
    && Inv(p.d)
    && (p.Alive() ==> RecordBacked(p.d, RecordAt(r, TemporaryRevisionComplete))
                      && r.target.temporaryDirectory in p.d.temporaries)
  }

  lemma CommitKeepsInv(p: Process, r: Record)
    requires ReadyToRecord(p, r)
    ensures Inv(CommitAndActivate(p, r).0.d)
    ensures CommitAndActivate(p, r).0.Alive() ==> CommitAndActivate(p, r).1 != Raised
  {
    var recorded := RecordAt(r, TemporaryRevisionComplete);
    var claimed := SetLock(p, Owned(recorded));
    assert ReadyToCommit(claimed, recorded);
    if r.target.temporaryDirectory in claimed.d.temporaries {
      MoveKeepsInv(claimed, recorded);
      var moved := MoveRevision(claimed, r.target);
      if TargetVerified(moved.d, r.target) {
        ActivationKeepsInv(moved,
                           CommittedRecord(r, moved.d.revisions[r.target.projectionRevision].publication.manifest));
      }
    }
  }

  /** A publication that reaches its lock record, its temporary directory and a verified, claimable payload. */
  predicate Publishable(d: Durable, i: PublishInput) {
    && i.accepted && d.lock == Unlocked && i.temporary !in d.temporaries
    && Verifies(Tree(i.publication, i.publication.payloadCount + 1))
    && SourceClaimable(d, i.publication.manifest)
  }

  lemma PublishKeepsInv(d: Durable, i: PublishInput, life: nat)
    requires Inv(d)
    ensures Inv(PublishProjection(Process(d, life), i).0.d)
  {
    hide CommitAndActivate, WriteFiles;
    var p := Process(d, life);
    if i.accepted && d.lock == Unlocked {
      var record := AcquiredRecord(d, i);
      var acquired := SetLock(SetLock(p, Unowned), Owned(record));
      assert Inv(acquired.d);
      if i.temporary !in acquired.d.temporaries {
        var made := WriteTemporary(acquired, i.temporary, Tree(i.publication, 0));
        assert Inv(made.d);
        WriteFilesFrame(made, i.temporary, i.publication, 0);
        var filled := WriteFiles(made, i.temporary, i.publication, 0);
        assert Inv(filled.d);
        if Verifies(Tree(i.publication, i.publication.payloadCount + 1))
           && SourceClaimable(filled.d, i.publication.manifest) {
          var bound := ClaimBinding(filled, i.publication.manifest);
          assert ReadyToRecord(bound, record);
          CommitKeepsInv(bound, record);
        }
      }
    }
  }

  /******* Preservation: recovery *******/

  lemma FinishCommittedOutcome(p: Process, r: Record)
    requires Inv(p.d) && r.Publishing? && r.phase in {RevisionCommitted, ActiveCommitted}
    requires p.Alive() ==> p.d.lock == Owned(r)
    ensures var q := FinishCommitted(p, r).0;
            && Inv(q.d)
            && Destiny(q.d) == Destiny(p.d)
            && (p.life >= 3 ==> q.d.lock == Unlocked && FinishCommitted(p, r).1 == Recovered)
  {
    if p.Alive() && r.phase == RevisionCommitted {
      var activated := WriteActive(p, r.target.pointer);
      assert Inv(activated.d);
    }
  }

  lemma FinishTemporaryOutcome(p: Process, r: Record)
    requires ReadyToCommit(p, r)
    ensures var (q, committed) := FinishTemporary(p, r);
            && Inv(q.d)
            && Destiny(q.d) == Destiny(p.d)
            && (q.Alive() ==> committed.Some?)
            && (committed.Some? ==>
                  && committed.value.Publishing? && committed.value.phase == RevisionCommitted
                  && (q.Alive() ==> q.d.lock == Owned(committed.value)))
            && q.life + 2 >= p.life
  {
    if r.target.temporaryDirectory in p.d.temporaries && Verifies(p.d.temporaries[r.target.temporaryDirectory]) {
      MoveKeepsInv(p, r);
    }
  }

  /** One recovery, dying anywhere, keeps the invariant and the outcome; with enough life it gets there. */
  lemma {:induction false} RecoveryKeepsDestiny(d: Durable, e: RecoveryReplies, life: nat)
    requires Inv(d)
    ensures var after := RecoverPublication(Process(d, life), e).0.d;
            && Inv(after)
            && Destiny(after) == Destiny(d)
            && (PublishInterrupted(d) && e.leaseExpired && e.ownerDead && life >= 5 ==>
                  after.lock == Unlocked && after.active == Destiny(d))
  {
    var p := Process(d, life);
    if PublishInterrupted(d) && e.leaseExpired && e.ownerDead {
      var r := d.lock.record;
      if r.phase == Acquired {
        assert Inv(RemoveTemporary(p, r.target.temporaryDirectory).d);
      } else if r.phase == TemporaryRevisionComplete {
        FinishTemporaryOutcome(p, r);
        var (q, committed) := FinishTemporary(p, r);
        if committed.Some? { FinishCommittedOutcome(q, committed.value); }
      } else {
        FinishCommittedOutcome(p, r);
      }
    }
  }

  /******* Preservation: collection *******/

  lemma {:induction false} CollectListedKeepsInv(p: Process, listing: seq<RevisionName>, aged: set<RevisionName>,
                                                 kept: set<RevisionName>)
    requires Inv(p.d) && (p.d.active.Some? ==> p.d.active.value.projectionRevision in kept)
    requires p.Alive() ==> p.d.lock == Owned(Collecting)
    ensures var (q, ok) := CollectListed(p, listing, aged, kept);
            && Inv(q.d)
            && q.d == p.d.(revisions := q.d.revisions)
            && (q.Alive() ==> p.Alive())
            && ok
            && (forall r | r in p.d.revisions && (r in kept || r !in aged) ::
                  r in q.d.revisions && q.d.revisions[r] == p.d.revisions[r])
    decreases |listing|
  {
    if listing != [] {
      var name := listing[0];
      if name !in p.d.revisions || name in kept || name !in aged {
        CollectListedKeepsInv(p, listing[1..], aged, kept);
      } else {
        var removed := RemoveRevision(p, name);
        assert Inv(removed.d);
        CollectListedKeepsInv(removed, listing[1..], aged, kept);
      }
    }
  }

  lemma CollectKeepsInv(d: Durable, listing: seq<RevisionName>, aged: set<RevisionName>, life: nat)
    requires Inv(d)
    ensures Inv(CollectOrphans(Process(d, life), listing, aged).0.d)
  {
    if d.lock == Unlocked {
      var acquired := SetLock(SetLock(Process(d, life), Unowned), Owned(Collecting));
      assert Inv(acquired.d);
      CollectListedKeepsInv(acquired, listing, aged, ProtectedRevisions(acquired.d));
    }
  }

  lemma CallKeepsInv(d: Durable, c: Call)
    requires Inv(d)
    ensures Inv(Perform(d, c))
  {
    match c.operation
    case Publish(i) => PublishKeepsInv(d, i, c.life);
    case Recover(e) => RecoveryKeepsDestiny(d, e, c.life);
    case Collect(listing, aged) => CollectKeepsInv(d, listing, aged, c.life);
    case Retain(_) =>
  }

  /******* Main results *******/

  /**
   In every state any sequence of publishes, recoveries, collections and retentions can reach, each dying after any
   effect, `active.json` is absent or was made from the manifest of a stored revision that verifies.
   */
  lemma {:induction false} ActiveNeverDangles(d: Durable, calls: seq<Call>)
    requires Inv(d)
    ensures Inv(Run(d, calls))
    ensures var after := Run(d, calls); after.active.Some? ==> PointsAt(after.revisions, after.active.value)
    decreases |calls|
  {
    if calls != [] {
      CallKeepsInv(d, calls[0]);
      ActiveNeverDangles(Perform(d, calls[0]), calls[1..]);
    }
  }

  predicate OnlyRecoveries(calls: seq<Call>) { forall c | c in calls :: c.operation.Recover? }

  /**
   Any number of interrupted recoveries followed by one that lives long enough, with the owner dead and the lease
   expired, release the lock and leave the one outcome `Destiny` names.
   */
  lemma {:induction false} RecoveryFinishesOrUndoes(d: Durable, interrupted: seq<Call>, life: nat)
    requires Inv(d) && PublishInterrupted(d) && OnlyRecoveries(interrupted) && life >= 5
    ensures var after := Perform(Run(d, interrupted), Call(Recover(RecoveryReplies(true, true)), life));
            after.lock == Unlocked && after.active == Destiny(d)
    decreases |interrupted|
  {
    RecoveryEnds(d, interrupted, life, d);
  }

  lemma {:induction false} RecoveryEnds(d: Durable, interrupted: seq<Call>, life: nat, start: Durable)
    requires Inv(d) && OnlyRecoveries(interrupted) && life >= 5
    requires Destiny(d) == Destiny(start)
    requires PublishInterrupted(d) || d.lock == Unlocked
    ensures var after := Perform(Run(d, interrupted), Call(Recover(RecoveryReplies(true, true)), life));
            after.lock == Unlocked && after.active == Destiny(start)
    decreases |interrupted|
  {
    if interrupted == [] {
      RecoveryKeepsDestiny(d, RecoveryReplies(true, true), life);
    } else {
      var c := interrupted[0];
      assert c in interrupted;
      RecoveryKeepsDestiny(d, c.operation.replies, c.life);
      RecoveryKeepsOwnership(d, c.operation.replies, c.life);
      assert OnlyRecoveries(interrupted[1..]) by { assert forall x | x in interrupted[1..] :: x in interrupted; }
      RecoveryEnds(Perform(d, c), interrupted[1..], life, start);
    }
  }

  lemma RecoveryKeepsOwnership(d: Durable, e: RecoveryReplies, life: nat)
    requires PublishInterrupted(d) || d.lock == Unlocked
    ensures var after := RecoverPublication(Process(d, life), e).0.d;
            PublishInterrupted(after) || after.lock == Unlocked
  {
    hide Verifies, MatchesTarget, PointerFor;
  }
}
