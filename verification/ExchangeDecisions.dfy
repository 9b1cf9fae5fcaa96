/** What each call of the exchange decides when nothing disturbs it, and what is stored, in the fields of the trees. */
module ExchangeDecisions {
  import opened Options
  import opened ExchangeProtocol
  import opened ExchangeSafety

  /******* Revisions *******/

  /** Manifest and every payload are written, conform, and are named by their own content. */
  predicate Whole(t: Tree) {
    var m := t.publication.manifest;
    && t.written == t.publication.payloadCount + 1 && t.publication.payloadsConform
    && m.projectionRevision.seed.sourceRevision == m.sourceRevision && m.projectionRevision.seed.asOf == m.asOf
    && m.projectionRevision.seed.content == m.content
  }

  lemma WholeExactly(t: Tree)
    ensures Verifies(t) <==> Whole(t)
  {}

  /** The pointer of a manifest. */
  predicate PointsTo(p: Pointer, m: Manifest, changedAt: string) {
    && p.projectionRevision == m.projectionRevision && p.manifestChecksum == Sha256(m)
    && p.sourceRevision == m.sourceRevision && p.asOf == m.asOf && p.changedAt == changedAt
  }

  /** The target's revision is stored, whole, and the one that was recorded; only a new one has its very checksum. */
  predicate Stored(d: Durable, target: LockTarget) {
    && target.projectionRevision in d.revisions
    && var t := d.revisions[target.projectionRevision];
       && Whole(t)
       && t.publication.manifest.projectionRevision == target.projectionRevision
       && t.publication.manifest.sourceRevision == target.sourceRevision
       && t.publication.manifest.asOf == target.asOf
       && (target.existingRevision || Sha256(t.publication.manifest) == target.manifestChecksum)
  }

  lemma StoredExactly(d: Durable, target: LockTarget)
    ensures TargetVerified(d, target) <==> Stored(d, target)
  {}

  /******* Recovery *******/

  /** The recorded revision is stored and whole, with the recorded checksum. */
  predicate Committed(d: Durable, target: LockTarget) {
    && target.projectionRevision in d.revisions && Whole(d.revisions[target.projectionRevision])
    && Sha256(d.revisions[target.projectionRevision].publication.manifest) == target.manifestChecksum
  }

  /** The temporary directory moved onto the revision's name, or removed where the revision is already there. */
  function Moved(d: Durable, target: LockTarget): Durable {
    if target.temporaryDirectory !in d.temporaries then d
    else
      var cleaned := d.(temporaries := d.temporaries - {target.temporaryDirectory});
      if target.projectionRevision in d.revisions then cleaned
      else
        cleaned.(revisions := d.revisions[target.projectionRevision := d.temporaries[target.temporaryDirectory]],
                 committed := d.committed + {target.projectionRevision})
  }

  /** How far the publication got decides whether recovery undoes it, finishes it, or leaves it alone. */
  ghost predicate Recovers(d: Durable, e: RecoveryReplies, after: Durable, outcome: RecoveryOutcome) {
    if !d.lock.Owned? then outcome == Clean && after == d
    else if !e.leaseExpired || !e.ownerDead then outcome == Degraded && after == d
    else if d.lock.record.Collecting? then outcome == RolledBack && after == d.(lock := Unlocked)
    else
      var target := d.lock.record.target;
      match d.lock.record.phase
      case Acquired =>
        outcome == RolledBack
        && after == d.(lock := Unlocked, temporaries := d.temporaries - {target.temporaryDirectory})
      case TemporaryRevisionComplete =>
        if target.temporaryDirectory in d.temporaries && !Whole(d.temporaries[target.temporaryDirectory]) then
          outcome == Degraded && after == d
        else if !Stored(Moved(d, target), target) then outcome == Degraded && after == Moved(d, target)
        else
          && outcome == Recovered && after.active.Some?
          && PointsTo(after.active.value, Moved(d, target).revisions[target.projectionRevision].publication.manifest,
                      d.lock.record.startedAt)
          && after == Moved(d, target).(lock := Unlocked, active := after.active)
      case RevisionCommitted =>
        if Committed(d, target)
           && d.revisions[target.projectionRevision].publication.manifest.sourceRevision == target.sourceRevision
        then outcome == Recovered && after == d.(lock := Unlocked, active := Some(target.pointer))
        else outcome == Degraded && after == d
      case ActiveCommitted =>
        if Committed(d, target) && d.active == Some(target.pointer)
        then outcome == Recovered && after == d.(lock := Unlocked) else outcome == Degraded && after == d
  }

  /** An undisturbed recovery, over any disk. */
  lemma RecoversExactly(d: Durable, e: RecoveryReplies, life: nat)
    requires life >= 5
    ensures var (p, outcome) := RecoverPublication(Process(d, life), e); Recovers(d, e, p.d, outcome)
  {}

  /******* Publish *******/

  /** The source is bound to this very revision, or unbound and every stored revision is whole and of another source. */
  predicate SourceFree(d: Durable, m: Manifest) {
    if m.sourceRevision in d.bindings then d.bindings[m.sourceRevision] == m.projectionRevision
    else forall r | r in d.revisions ::
           Whole(d.revisions[r]) && (r.seed.sourceRevision == m.sourceRevision ==> r == m.projectionRevision)
  }

  predicate GoesThrough(d: Durable, i: PublishInput) {
    var m := i.publication.manifest;
    && i.accepted && d.lock == Unlocked && i.temporary !in d.temporaries
    && Whole(Tree(i.publication, i.publication.payloadCount + 1)) && SourceFree(d, m)
    && (m.projectionRevision in d.revisions ==>
          && var t := d.revisions[m.projectionRevision];
             && Whole(t) && t.publication.manifest.projectionRevision == m.projectionRevision
             && t.publication.manifest.sourceRevision == m.sourceRevision && t.publication.manifest.asOf == m.asOf)
  }

  /**
   The revision is stored as it was given, or as it was, and is active; its source is bound, and nothing else changes.
   */
  ghost predicate PublishedAs(d: Durable, i: PublishInput, after: Durable) {
    var m := i.publication.manifest;
    && after.revisions == (if m.projectionRevision in d.revisions then d.revisions
                           else d.revisions[m.projectionRevision := Tree(i.publication,
                                                                         i.publication.payloadCount + 1)])
    && after.active.Some?
    && PointsTo(after.active.value, after.revisions[m.projectionRevision].publication.manifest, i.startedAt)
    && after.bindings == (if m.sourceRevision in d.bindings then d.bindings
                          else d.bindings[m.sourceRevision := m.projectionRevision])
    && after.lock == Unlocked && after.temporaries == d.temporaries && after.retained == d.retained
  }

  lemma ClaimableExactly(d: Durable, m: Manifest)
    ensures SourceClaimable(d, m) <==> SourceFree(d, m)
  {
    forall r | r in d.revisions ensures Verifies(d.revisions[r]) <==> Whole(d.revisions[r]) {}
  }

  lemma {:induction false} FillingLasts(p: Process, name: string, publication: Publication, from: nat)
    requires from <= publication.payloadCount + 1 && p.life >= publication.payloadCount + 1 - from
    ensures WriteFiles(p, name, publication, from).life == p.life - (publication.payloadCount + 1 - from)
    decreases publication.payloadCount + 1 - from
  {
    if from < publication.payloadCount + 1 {
      FillingLasts(WriteTemporary(p, name, Tree(publication, from + 1)), name, publication, from + 1);
    }
  }

  lemma CommitsExactly(p: Process, r: Record)
    requires r.Publishing? && p.life >= 6 && r.target.temporaryDirectory in p.d.temporaries
    ensures var (q, outcome) := CommitAndActivate(p, r);
            var moved := Moved(p.d, r.target);
            && (outcome != Raised <==> Stored(moved, r.target))
            && (outcome == Reused ==> r.target.projectionRevision in p.d.revisions)
            && (outcome == Published ==> r.target.projectionRevision !in p.d.revisions)
            && (outcome != Raised ==>
                  && q.d.active.Some?
                  && PointsTo(q.d.active.value, moved.revisions[r.target.projectionRevision].publication.manifest,
                              r.startedAt)
                  && q.d == moved.(lock := Unlocked, active := q.d.active))
  {}

  /** An undisturbed publication goes through exactly for a whole, free revision under a free lock. */
  lemma PublishesExactly(d: Durable, i: PublishInput, life: nat)
    requires life >= i.publication.payloadCount + 12
    ensures var (q, outcome) := PublishProjection(Process(d, life), i);
            && (outcome != Raised <==> GoesThrough(d, i))
            && (outcome == Published ==> i.publication.manifest.projectionRevision !in d.revisions)
            && (outcome == Reused ==> i.publication.manifest.projectionRevision in d.revisions)
            && (outcome != Raised ==> PublishedAs(d, i, q.d))
  {
    hide CommitAndActivate, WriteFiles, SourceClaimable, Verifies, Whole, PointsTo;
    if i.accepted && d.lock == Unlocked && i.temporary !in d.temporaries {
      var m, record := i.publication.manifest, AcquiredRecord(d, i);
      var acquired := SetLock(SetLock(Process(d, life), Unowned), Owned(record));
      var made := WriteTemporary(acquired, i.temporary, Tree(i.publication, 0));
      WriteFilesFrame(made, i.temporary, i.publication, 0);
      FillingLasts(made, i.temporary, i.publication, 0);
      var filled := WriteFiles(made, i.temporary, i.publication, 0);
      WholeExactly(Tree(i.publication, i.publication.payloadCount + 1));
      ClaimableExactly(filled.d, m);
      assert SourceFree(filled.d, m) <==> SourceFree(d, m);
      var claimed := ClaimBinding(filled, m);
      CommitsExactly(claimed, record);
      assert Moved(claimed.d, record.target).temporaries == d.temporaries;
    }
  }

  /******* Collection *******/

  /** In the listing, old enough, and neither active nor retained. */
  predicate Orphan(d: Durable, r: RevisionName, listing: seq<RevisionName>, aged: set<RevisionName>) {
    && r in d.revisions && r in listing && r in aged
    && (d.active.Some? ==> d.active.value.projectionRevision != r) && d.retained != Some(r)
  }

  lemma {:induction false} ListedExactly(p: Process, listing: seq<RevisionName>, aged: set<RevisionName>,
                                         kept: set<RevisionName>)
    requires p.life >= |listing|
    ensures var (q, ok) := CollectListed(p, listing, aged, kept);
            && (ok <==> forall r | r in p.d.revisions && r in listing && r in aged && r !in kept ::
                          Whole(p.d.revisions[r]))
            && q.life >= p.life - |listing| && q.d == p.d.(revisions := q.d.revisions)
            && (forall r | r in p.d.revisions && !(r in listing && r in aged && r !in kept) :: r in q.d.revisions)
            && (forall r | r in q.d.revisions :: r in p.d.revisions && q.d.revisions[r] == p.d.revisions[r])
            && (ok ==> forall r | r in q.d.revisions :: !(r in listing && r in aged && r !in kept))
    decreases |listing|
  {
    hide Whole;
    if listing != [] {
      var name := listing[0];
      assert listing == [name] + listing[1..];
      if name !in p.d.revisions || name in kept || name !in aged {
        ListedExactly(p, listing[1..], aged, kept);
      } else {
        WholeExactly(p.d.revisions[name]);
        ListedExactly(RemoveRevision(p, name), listing[1..], aged, kept);
      }
    }
  }

  /** An undisturbed collection removes exactly the orphans and gives its lock back, unless one of them is not whole. */
  lemma CollectsExactly(d: Durable, listing: seq<RevisionName>, aged: set<RevisionName>, life: nat)
    requires life >= |listing| + 4
    ensures var (q, ok) := CollectOrphans(Process(d, life), listing, aged);
            && (ok <==> d.lock == Unlocked
                        && forall r | Orphan(d, r, listing, aged) :: Whole(d.revisions[r]))
            && q.d == d.(revisions := q.d.revisions, lock := q.d.lock)
            && (d.lock == Unlocked && !ok ==> q.d.lock == Owned(Collecting))
            && (ok ==> q.d.lock == Unlocked && forall r | Orphan(d, r, listing, aged) :: r !in q.d.revisions)
            && (forall r | r in d.revisions && !Orphan(d, r, listing, aged) :: r in q.d.revisions)
            && (forall r | r in q.d.revisions :: r in d.revisions && q.d.revisions[r] == d.revisions[r])
  {
    hide Whole;
    if d.lock == Unlocked {
      var acquired := SetLock(SetLock(Process(d, life), Unowned), Owned(Collecting));
      ListedExactly(acquired, listing, aged, ProtectedRevisions(acquired.d));
    }
  }

  /** A revision is retained exactly when it is stored and whole. */
  lemma RetainsExactly(d: Durable, revision: RevisionName, life: nat)
    requires life >= 1
    ensures RecordLastVerified(Process(d, life), revision).d
            == (if revision in d.revisions && Whole(d.revisions[revision]) then d.(retained := Some(revision)) else d)
  {}

  /******* Reachable stores *******/

  const FRESH := Durable(Unlocked, map[], map[], None, map[], None, {})

  /**
   Over every run, every stored revision is whole and under its own name, and the active pointer is of one of them.
   */
  lemma StoredAreWhole(calls: seq<Call>)
    ensures var d := Run(FRESH, calls);
            && (forall r | r in d.revisions ::
                  Whole(d.revisions[r]) && d.revisions[r].publication.manifest.projectionRevision == r)
            && (d.active.Some? ==>
                  && d.active.value.projectionRevision in d.revisions
                  && PointsTo(d.active.value, d.revisions[d.active.value.projectionRevision].publication.manifest,
                              d.active.value.changedAt))
  {
    hide Run;
    ActiveNeverDangles(FRESH, calls);
    var d := Run(FRESH, calls);
    forall r | r in d.revisions ensures Whole(d.revisions[r]) { WholeExactly(d.revisions[r]); }
  }
}
