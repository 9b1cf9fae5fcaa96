/**
 The file exchange as `src/personal-data/exchange.ts` runs it: a lock record advanced through its phases and
 directories changed in place.  Every method is proved equal to its specification in `ExchangeProtocol`,
 for every point at which the process may die.
 */
module Exchange {
  import opened Options
  import opened ExchangeProtocol
  import Spec = ExchangeProtocol
  import opened ExchangeSafety

  class FileProjectionExchange {
    var lock: Lock
    var revisions: map<RevisionName, Tree>
    var temporaries: map<string, Tree>
    var active: Option<Pointer>
    var bindings: map<string, RevisionName>
    var retained: Option<RevisionName>
    ghost var committed: set<RevisionName>
    /** Effects this process still performs before it dies. */
    var life: nat

    ghost function Disk(): Durable
      reads this
    {
      Durable(lock, revisions, temporaries, active, bindings, retained, committed)
    }

    ghost function State(): Process
      reads this
    {
      Process(Disk(), life)
    }

    constructor (d: Durable, life: nat)
      ensures State() == Process(d, life)
    {
      lock, revisions, temporaries, active := d.lock, d.revisions, d.temporaries, d.active;
      bindings, retained, committed := d.bindings, d.retained, d.committed;
      this.life := life;
    }

    method WriteLock(record: Record)
      modifies this`lock, this`life
      ensures State() == Spec.SetLock(old(State()), Owned(record))
    {
      if life > 0 { lock, life := Owned(record), life - 1; }
    }

    method MakeLockDirectory()
      modifies this`lock, this`life
      ensures State() == Spec.SetLock(old(State()), Unowned)
    {
      if life > 0 { lock, life := Unowned, life - 1; }
    }

    method RemoveLock()
      modifies this`lock, this`life
      ensures State() == Spec.SetLock(old(State()), Unlocked)
    {
      if life > 0 { lock, life := Unlocked, life - 1; }
    }

    method WriteTemporary(name: string, tree: Tree)
      modifies this`temporaries, this`life
      ensures State() == Spec.WriteTemporary(old(State()), name, tree)
    {
      if life > 0 { temporaries, life := temporaries[name := tree], life - 1; }
    }

    method RemoveTemporary(name: string)
      modifies this`temporaries, this`life
      ensures State() == Spec.RemoveTemporary(old(State()), name)
    {
      if life > 0 { temporaries, life := temporaries - {name}, life - 1; }
    }

    method RemoveRevision(revision: RevisionName)
      modifies this`revisions, this`life
      ensures State() == Spec.RemoveRevision(old(State()), revision)
    {
      if life > 0 { revisions, life := revisions - {revision}, life - 1; }
    }

    method WriteActive(pointer: Pointer)
      modifies this`active, this`life
      ensures State() == Spec.WriteActive(old(State()), pointer)
    {
      if life > 0 { active, life := Some(pointer), life - 1; }
    }

    /** `verifyRevision` of a stored revision, and the identity of what it verified. */
    predicate StoredVerifies(revision: RevisionName)
      reads this`revisions
    {
      revision in revisions && Verifies(revisions[revision])
    }

    /** `#claimSourceBinding`: every stored revision is read, in whatever order the directory lists them. */
    method ClaimSourceBinding(m: Manifest) returns (claimed: bool)
      modifies this`bindings, this`life
      ensures claimed == Spec.SourceClaimable(old(Disk()), m)
      ensures State() == if claimed then Spec.ClaimBinding(old(State()), m) else old(State())
    {
      if m.sourceRevision in bindings { return bindings[m.sourceRevision] == m.projectionRevision; }
      var unread := revisions.Keys;
      while unread != {}
        invariant unread <= revisions.Keys
        invariant forall r | r in revisions && r !in unread :: Verifies(revisions[r]) && !SourceConflict(r, m)
        decreases unread
      {
        var r :| r in unread;
        if !Verifies(revisions[r]) || SourceConflict(r, m) { return false; }
        unread := unread - {r};
      }
      if life > 0 { bindings, life := bindings[m.sourceRevision := m.projectionRevision], life - 1; }
      return true;
    }

    /** `#commitRevision`. */
    method CommitRevision(target: LockTarget) returns (verified: bool, reused: bool)
      requires target.temporaryDirectory in temporaries
      modifies this`revisions, this`temporaries, this`committed, this`life
      ensures State() == Spec.MoveRevision(old(State()), target)
      ensures verified == Spec.TargetVerified(Disk(), target)
      ensures reused == (target.projectionRevision in old(revisions))
    {
      reused := target.projectionRevision in revisions;
      if reused {
        RemoveTemporary(target.temporaryDirectory);
      } else if life > 0 {
        revisions := revisions[target.projectionRevision := temporaries[target.temporaryDirectory]];
        temporaries := temporaries - {target.temporaryDirectory};
        committed := committed + {target.projectionRevision};
        life := life - 1;
      }
      verified := StoredVerifies(target.projectionRevision)
                  && MatchesTarget(revisions[target.projectionRevision], target);
    }

    /** The payload loop of `publishIdentityProjection`, after the directory has been made. */
    method WriteFiles(name: string, publication: Publication)
      modifies this`temporaries, this`life
      ensures State() == Spec.WriteFiles(old(State()), name, publication, 0)
    {
      var written := 0;
      while written < publication.payloadCount + 1
        invariant written <= publication.payloadCount + 1
        invariant Spec.WriteFiles(State(), name, publication, written)
                  == Spec.WriteFiles(old(State()), name, publication, 0)
        invariant State() == old(State()).(d := old(Disk()).(temporaries := temporaries), life := life)
      {
        WriteTemporary(name, Tree(publication, written + 1));
        written := written + 1;
      }
    }

    /** `publishIdentityProjection`.  A pointer it leaves active never dangles, wherever it dies. */
    method PublishIdentityProjection(i: PublishInput) returns (outcome: PublishOutcome)
      modifies this
      ensures (State(), outcome) == Spec.PublishProjection(old(State()), i)
      ensures old(Inv(Disk())) ==> Inv(Disk())
    {
      if Inv(Disk()) { PublishKeepsInv(Disk(), i, life); }
      if !i.accepted || lock != Unlocked { return Raised; }
      var m := i.publication.manifest;
      var existing := m.projectionRevision in revisions;
      MakeLockDirectory();
      var record := Publishing(i.startedAt, Acquired,
                               LockTarget(m.projectionRevision, m.sourceRevision, m.asOf, Sha256(m), existing,
                                          i.temporary, PointerFor(m, i.startedAt)));
      WriteLock(record);
      if i.temporary in temporaries { return Raised; }
      WriteTemporary(i.temporary, Tree(i.publication, 0));
      WriteFiles(i.temporary, i.publication);
      if !Verifies(Tree(i.publication, i.publication.payloadCount + 1)) { return Raised; }
      var claimed := ClaimSourceBinding(m);
      if !claimed { return Raised; }
      outcome := CommitAndActivate(record);
    }

    method CommitAndActivate(acquired: Record) returns (outcome: PublishOutcome)
      requires acquired.Publishing?
      modifies this
      ensures (State(), outcome) == Spec.CommitAndActivate(old(State()), acquired)
    {
      var record := RecordAt(acquired, TemporaryRevisionComplete);
      WriteLock(record);
      if record.target.temporaryDirectory !in temporaries { return Raised; }
      var verified, reused := CommitRevision(record.target);
      if !verified { return Raised; }
      record := CommittedRecord(record, revisions[record.target.projectionRevision].publication.manifest);
      WriteLock(record);
      WriteActive(record.target.pointer);
      record := RecordAt(record, ActiveCommitted);
      WriteLock(record);
      RemoveLock();
      return if reused then Reused else Published;
    }

    /** `recoverPublication`.  Whatever it leaves, the outcome it is heading for is the one it started with. */
    method RecoverPublication(e: RecoveryReplies) returns (outcome: RecoveryOutcome)
      modifies this
      ensures (State(), outcome) == Spec.RecoverPublication(old(State()), e)
      ensures old(Inv(Disk())) ==> Inv(Disk()) && Destiny(Disk()) == old(Destiny(Disk()))
    {
      hide Inv, Destiny, Verifies, MatchesTarget;
      if Inv(Disk()) { RecoveryKeepsDestiny(Disk(), e, life); }
      if !lock.Owned? { return Clean; }
      if !e.leaseExpired || !e.ownerDead { return Degraded; }
      var record := lock.record;
      if record.Collecting? {
        RemoveLock();
        return RolledBack;
      }
      if record.phase == Acquired {
        RemoveTemporary(record.target.temporaryDirectory);
        RemoveLock();
        return RolledBack;
      }
      if record.phase == TemporaryRevisionComplete {
        var verified, reused;
        if record.target.temporaryDirectory in temporaries {
          if !Verifies(temporaries[record.target.temporaryDirectory]) { return Degraded; }
          verified, reused := CommitRevision(record.target);
        } else {
          verified := StoredVerifies(record.target.projectionRevision)
                      && MatchesTarget(revisions[record.target.projectionRevision], record.target);
        }
        if !verified { return Degraded; }
        record := CommittedRecord(record, revisions[record.target.projectionRevision].publication.manifest);
        WriteLock(record);
      }
      if record.phase == RevisionCommitted {
        if !StoredVerifies(record.target.projectionRevision)
           || Sha256(revisions[record.target.projectionRevision].publication.manifest) != record.target.manifestChecksum
           || revisions[record.target.projectionRevision].publication.manifest.sourceRevision
             != record.target.sourceRevision {
          return Degraded;
        }
        WriteActive(record.target.pointer);
        record := RecordAt(record, ActiveCommitted);
        WriteLock(record);
      }
      if !StoredVerifies(record.target.projectionRevision)
         || Sha256(revisions[record.target.projectionRevision].publication.manifest) != record.target.manifestChecksum
         || active != Some(record.target.pointer) {
        return Degraded;
      }
      RemoveLock();
      return Recovered;
    }

    /** `collectOrphanRevisions` over one directory listing; `aged` are the revisions past the grace period. */
    method CollectOrphanRevisions(listing: seq<RevisionName>, aged: set<RevisionName>)
      returns (ok: bool, removed: seq<RevisionName>)
      modifies this`lock, this`revisions, this`life
      ensures (State(), ok) == Spec.CollectOrphans(old(State()), listing, aged)
      ensures forall r | r in old(revisions) && r !in revisions ::
                r in removed && r in aged && r !in old(ProtectedRevisions(Disk()))
    {
      removed := [];
      if lock != Unlocked { return false, removed; }
      MakeLockDirectory();
      WriteLock(Collecting);
      var kept: set<RevisionName> := {};
      if active.Some? { kept := kept + {active.value.projectionRevision}; }
      if retained.Some? { kept := kept + {retained.value}; }
      assert kept == ProtectedRevisions(Disk());
      ghost var locked := State();
      var i := 0;
      while i < |listing|
        invariant i <= |listing|
        invariant Spec.CollectListed(State(), listing[i..], aged, kept)
                  == Spec.CollectListed(locked, listing, aged, kept)
        invariant State() == locked.(d := locked.d.(revisions := revisions), life := life)
        invariant forall r | r in old(revisions) && r !in revisions :: r in removed && r in aged && r !in kept
      {
        var name := listing[i];
        if name in revisions && name !in kept && name in aged {
          if !Verifies(revisions[name]) { return false, removed; }
          RemoveRevision(name);
          removed := removed + [name];
        }
        assert listing[i..][1..] == listing[i + 1..];
        i := i + 1;
      }
      RemoveLock();
      return true, removed;
    }

    method RecordLastVerifiedRevision(revision: RevisionName)
      modifies this`retained, this`life
      ensures State() == Spec.RecordLastVerified(old(State()), revision)
    {
      if StoredVerifies(revision) && life > 0 { retained, life := Some(revision), life - 1; }
    }
  }
}
