/**
 Publishing, recovering and collecting projection revisions (`src/personal-data/exchange.ts`) as a specification.

 As in the activation barrier, a process is the durable state plus the number of effects it performs before it dies.
 Atomic writes, renames and directory removals are one effect each; a revision directory is filled file by file.
 Checksums and content-derived revision names are constructors over what they are derived from, hence injective.
 */
module ExchangeProtocol {
  import opened Options

  /******* Revisions *******/

  /** What the projection revision name is derived from: everything in the manifest but `generated_at`. */
  datatype Seed = Seed(sourceRevision: string, asOf: string, content: string)

  datatype RevisionName = RevisionName(seed: Seed)

  datatype Manifest = Manifest(projectionRevision: RevisionName, sourceRevision: string, asOf: string,
                               content: string, generatedAt: string)

  datatype Checksum = Sha256(manifest: Manifest)

  datatype Publication = Publication(manifest: Manifest, payloadCount: nat, payloadsConform: bool)

  /** A revision directory holding the manifest and then the payloads, `written` of them so far. */
  datatype Tree = Tree(publication: Publication, written: nat)

  predicate NamedByContent(m: Manifest) {
    m.projectionRevision == RevisionName(Seed(m.sourceRevision, m.asOf, m.content))
  }

  /** `verifyRevision`: every file is there and consumer conformance passes. */
  predicate Verifies(t: Tree) {
    && t.written == t.publication.payloadCount + 1
    && NamedByContent(t.publication.manifest)
    && t.publication.payloadsConform
  }

  /******* Pointer and lock *******/

  datatype Pointer = Pointer(projectionRevision: RevisionName, manifestChecksum: Checksum, sourceRevision: string,
                             asOf: string, changedAt: string)

  function PointerFor(m: Manifest, changedAt: string): Pointer {
    Pointer(m.projectionRevision, Sha256(m), m.sourceRevision, m.asOf, changedAt)
  }

  datatype LockPhase = Acquired | TemporaryRevisionComplete | RevisionCommitted | ActiveCommitted

  datatype LockTarget = LockTarget(projectionRevision: RevisionName, sourceRevision: string, asOf: string,
                                   manifestChecksum: Checksum, existingRevision: bool, temporaryDirectory: string,
                                   pointer: Pointer)

  datatype Record = Publishing(startedAt: string, phase: LockPhase, target: LockTarget) | Collecting

  /** The lock directory may exist without its `owner.json`. */
  datatype Lock = Unlocked | Unowned | Owned(record: Record)

  datatype Durable = Durable(lock: Lock, revisions: map<RevisionName, Tree>, temporaries: map<string, Tree>,
                             active: Option<Pointer>, bindings: map<string, RevisionName>,
                             retained: Option<RevisionName>, committed: set<RevisionName>)

  datatype Process = Process(d: Durable, life: nat) {
    predicate Alive() { life > 0 }
  }

  /******* Effects *******/

  function Effect(p: Process, d: Durable): Process {
    if p.life == 0 then p else Process(d, p.life - 1)
  }

  function SetLock(p: Process, lock: Lock): Process { Effect(p, p.d.(lock := lock)) }

  function WriteTemporary(p: Process, name: string, t: Tree): Process {
    Effect(p, p.d.(temporaries := p.d.temporaries[name := t]))
  }

  function RemoveTemporary(p: Process, name: string): Process {
    Effect(p, p.d.(temporaries := p.d.temporaries - {name}))
  }

  /** `rename` of the temporary onto the revision name.  `committed` remembers every name this ever created. */
  function RenameRevision(p: Process, name: string, revision: RevisionName, t: Tree): Process {
    Effect(p, p.d.(temporaries := p.d.temporaries - {name}, revisions := p.d.revisions[revision := t],
                   committed := p.d.committed + {revision}))
  }

  function RemoveRevision(p: Process, revision: RevisionName): Process {
    Effect(p, p.d.(revisions := p.d.revisions - {revision}))
  }

  function WriteActive(p: Process, pointer: Pointer): Process { Effect(p, p.d.(active := Some(pointer))) }

  function WriteBinding(p: Process, source: string, revision: RevisionName): Process {
    Effect(p, p.d.(bindings := p.d.bindings[source := revision]))
  }

  function WriteRetained(p: Process, revision: RevisionName): Process {
    Effect(p, p.d.(retained := Some(revision)))
  }

  /******* Publish *******/

  datatype PublishInput = PublishInput(publication: Publication, accepted: bool, startedAt: string, temporary: string)

  datatype PublishOutcome = Published | Reused | Raised

  function AcquiredRecord(d: Durable, i: PublishInput): Record {
    var m := i.publication.manifest;
    Publishing(i.startedAt, Acquired,
               LockTarget(m.projectionRevision, m.sourceRevision, m.asOf, Sha256(m),
                          m.projectionRevision in d.revisions, i.temporary, PointerFor(m, i.startedAt)))
  }

  /** The manifest and then each payload, one synced file at a time. */
  function WriteFiles(p: Process, name: string, publication: Publication, from: nat): Process
    requires from <= publication.payloadCount + 1
    decreases publication.payloadCount + 1 - from
  {
    if from == publication.payloadCount + 1 then p
    else WriteFiles(WriteTemporary(p, name, Tree(publication, from + 1)), name, publication, from + 1)
  }

  predicate SourceConflict(existing: RevisionName, m: Manifest) {
    existing.seed.sourceRevision == m.sourceRevision && existing != m.projectionRevision
  }

  /** `#claimSourceBinding`: the bound revision, or else every stored one, must be this revision. */
  predicate SourceClaimable(d: Durable, m: Manifest) {
    if m.sourceRevision in d.bindings then d.bindings[m.sourceRevision] == m.projectionRevision
    else forall r | r in d.revisions :: Verifies(d.revisions[r]) && !SourceConflict(r, m)
  }

  function ClaimBinding(p: Process, m: Manifest): Process {
    if m.sourceRevision in p.d.bindings then p else WriteBinding(p, m.sourceRevision, m.projectionRevision)
  }

  predicate MatchesTarget(t: Tree, target: LockTarget) {
    var m := t.publication.manifest;
    && m.projectionRevision == target.projectionRevision
    && m.sourceRevision == target.sourceRevision
    && m.asOf == target.asOf
    && (!target.existingRevision ==> Sha256(m) == target.manifestChecksum)
  }

  /** `#commitRevision` up to its verification: rename, or keep the revision that is already there. */
  function MoveRevision(p: Process, target: LockTarget): Process
    requires target.temporaryDirectory in p.d.temporaries
  {
    if target.projectionRevision in p.d.revisions then RemoveTemporary(p, target.temporaryDirectory)
    else RenameRevision(p, target.temporaryDirectory, target.projectionRevision,
                        p.d.temporaries[target.temporaryDirectory])
  }

  predicate TargetVerified(d: Durable, target: LockTarget) {
    && target.projectionRevision in d.revisions
    && Verifies(d.revisions[target.projectionRevision])
    && MatchesTarget(d.revisions[target.projectionRevision], target)
  }

  function RecordAt(r: Record, phase: LockPhase): Record
    requires r.Publishing?
  {
    r.(phase := phase)
  }

  /** The record once the revision is committed: it carries the stored manifest's checksum and pointer. */
  function CommittedRecord(r: Record, m: Manifest): Record
    requires r.Publishing?
  {
    Publishing(r.startedAt, RevisionCommitted,
               r.target.(manifestChecksum := Sha256(m), pointer := PointerFor(m, r.startedAt)))
  }

  /** From the committed revision to the released lock. */
  function ActivateRevision(p: Process, r: Record): Process
    requires r.Publishing?
  {
    var activated := WriteActive(SetLock(p, Owned(r)), r.target.pointer);
    SetLock(SetLock(activated, Owned(RecordAt(r, ActiveCommitted))), Unlocked)
  }

  function CommitAndActivate(p: Process, r: Record): (Process, PublishOutcome)
    requires r.Publishing?
  {
    var claimed := SetLock(p, Owned(RecordAt(r, TemporaryRevisionComplete)));
    if r.target.temporaryDirectory !in claimed.d.temporaries then (claimed, Raised)
    else
      var moved := MoveRevision(claimed, r.target);
      if !TargetVerified(moved.d, r.target) then (moved, Raised)
      else
        var m := moved.d.revisions[r.target.projectionRevision].publication.manifest;
        (ActivateRevision(moved, CommittedRecord(r, m)),
         if r.target.projectionRevision in claimed.d.revisions then Reused else Published)
  }

  function PublishProjection(p: Process, i: PublishInput): (Process, PublishOutcome) {
    if !i.accepted || p.d.lock != Unlocked then (p, Raised)
    else
      var record := AcquiredRecord(p.d, i);
      var acquired := SetLock(SetLock(p, Unowned), Owned(record));
      if i.temporary in acquired.d.temporaries then (acquired, Raised)
      else
        var made := WriteTemporary(acquired, i.temporary, Tree(i.publication, 0));
        var filled := WriteFiles(made, i.temporary, i.publication, 0);
        if !Verifies(Tree(i.publication, i.publication.payloadCount + 1))
           || !SourceClaimable(filled.d, i.publication.manifest) then (filled, Raised)
        else CommitAndActivate(ClaimBinding(filled, i.publication.manifest), record)
  }

  /******* Recovery *******/

  datatype RecoveryReplies = RecoveryReplies(leaseExpired: bool, ownerDead: bool)

  datatype RecoveryOutcome = Clean | Recovered | RolledBack | Degraded

  /** Phase `revision_committed` onwards: pointer, phase, release. */
  function FinishCommitted(p: Process, r: Record): (Process, RecoveryOutcome)
    requires r.Publishing?
  {
    var target := r.target;
    if r.phase == RevisionCommitted
       && (target.projectionRevision !in p.d.revisions || !Verifies(p.d.revisions[target.projectionRevision])
           || Sha256(p.d.revisions[target.projectionRevision].publication.manifest) != target.manifestChecksum
           || p.d.revisions[target.projectionRevision].publication.manifest.sourceRevision != target.sourceRevision)
    then (p, Degraded)
    else
      var q := if r.phase == RevisionCommitted
               then SetLock(WriteActive(p, target.pointer), Owned(RecordAt(r, ActiveCommitted))) else p;
      if target.projectionRevision !in q.d.revisions || !Verifies(q.d.revisions[target.projectionRevision])
         || Sha256(q.d.revisions[target.projectionRevision].publication.manifest) != target.manifestChecksum
         || q.d.active != Some(target.pointer)
      then (q, Degraded)
      else (SetLock(q, Unlocked), Recovered)
  }

  /** Phase `temporary_revision_complete`: commit the temporary, or accept the revision it was already renamed to. */
  function FinishTemporary(p: Process, r: Record): (Process, Option<Record>)
    requires r.Publishing?
  {
    var target := r.target;
    if target.temporaryDirectory in p.d.temporaries && !Verifies(p.d.temporaries[target.temporaryDirectory])
       then (p, None)
    else
      var q := if target.temporaryDirectory in p.d.temporaries then MoveRevision(p, target) else p;
      if !TargetVerified(q.d, target) then (q, None)
      else
        var committed := CommittedRecord(r, q.d.revisions[target.projectionRevision].publication.manifest);
        (SetLock(q, Owned(committed)), Some(committed))
  }

  function RecoverPublication(p: Process, e: RecoveryReplies): (Process, RecoveryOutcome) {
    if !p.d.lock.Owned? then (p, Clean)
    else if !e.leaseExpired || !e.ownerDead then (p, Degraded)
    else
      var r := p.d.lock.record;
      if r.Collecting? then (SetLock(p, Unlocked), RolledBack)
      else if r.phase == Acquired then
        (SetLock(RemoveTemporary(p, r.target.temporaryDirectory), Unlocked), RolledBack)
      else if r.phase == TemporaryRevisionComplete then
        var (q, committed) := FinishTemporary(p, r);
        if committed.None? then (q, Degraded) else FinishCommitted(q, committed.value)
      else FinishCommitted(p, r)
  }

  /******* Orphan collection *******/

  function ProtectedRevisions(d: Durable): set<RevisionName> {
    (if d.active.Some? then {d.active.value.projectionRevision} else {})
    + (if d.retained.Some? then {d.retained.value} else {})
  }

  /** One pass over a directory listing.  `aged` are the revisions older than the grace period. */
  function CollectListed(p: Process, listing: seq<RevisionName>, aged: set<RevisionName>, kept: set<RevisionName>)
    : (Process, bool)
    decreases |listing|
  {
    if listing == [] then (p, true)
    else
      var name := listing[0];
      if name !in p.d.revisions || name in kept || name !in aged then CollectListed(p, listing[1..], aged, kept)
      else if !Verifies(p.d.revisions[name]) then (p, false)
      else CollectListed(RemoveRevision(p, name), listing[1..], aged, kept)
  }

  function CollectOrphans(p: Process, listing: seq<RevisionName>, aged: set<RevisionName>): (Process, bool) {
    if p.d.lock != Unlocked then (p, false)
    else
      var acquired := SetLock(SetLock(p, Unowned), Owned(Collecting));
      var (collected, ok) := CollectListed(acquired, listing, aged, ProtectedRevisions(acquired.d));
      if ok then (SetLock(collected, Unlocked), true) else (collected, false)
  }

  function RecordLastVerified(p: Process, revision: RevisionName): Process {
    if revision in p.d.revisions && Verifies(p.d.revisions[revision]) then WriteRetained(p, revision) else p
  }

  /******* Runs *******/

  datatype Operation =
    | Publish(input: PublishInput)
    | Recover(replies: RecoveryReplies)
    | Collect(listing: seq<RevisionName>, aged: set<RevisionName>)
    | Retain(revision: RevisionName)

  datatype Call = Call(operation: Operation, life: nat)

  function Perform(d: Durable, c: Call): Durable {
    var p := Process(d, c.life);
    match c.operation
    case Publish(i) => PublishProjection(p, i).0.d
    case Recover(e) => RecoverPublication(p, e).0.d
    case Collect(listing, aged) => CollectOrphans(p, listing, aged).0.d
    case Retain(revision) => RecordLastVerified(p, revision).d
  }

  function Run(d: Durable, calls: seq<Call>): Durable
    decreases |calls|
  {
    if calls == [] then d else Run(Perform(d, calls[0]), calls[1..])
  }
}
