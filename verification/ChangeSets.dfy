/**
 `createChangeSet` of `src/publication/index.ts`.  Hashes are constructors over what is hashed, so a change set
 id and checksum are injective in the identity and payload they are taken from.
 */
module ChangeSets {
  import opened Options
  import opened Canonical

  datatype Digest = ContentDigest(content: string) | OtherDigest(text: string)

  datatype PublicationOperation =
    | WriteFile(path: Text, content: string, contentChecksum: Digest)
    | DeleteFile(path: Text, contentChecksum: Digest)

  datatype OperationKind = WriteKind | DeleteKind

  datatype OperationRef = OperationRef(kind: OperationKind, path: Text, contentChecksum: Digest)

  datatype Decision = Accepted | Rewritten | Rejected

  datatype Candidate = Candidate(candidateId: string, revision: nat, checksum: string,
                                 baseAuthorityVersion: Option<string>, baseChecksum: Option<string>)

  datatype Receipt = Receipt(receiptId: string, decision: Decision, candidateId: string, candidateRevision: nat,
                             candidateChecksum: string, baseAuthorityVersion: Option<string>, decidedAt: string)

  datatype Identity = Identity(approvalReceiptId: string, candidateId: string, candidateRevision: nat,
                               candidateChecksum: string, baseAuthorityVersion: Option<string>,
                               baseChecksum: Option<string>, operations: seq<OperationRef>)

  datatype ChangeSetId = ChangeSetId(identity: Identity)

  datatype ChangeSetChecksum = ChangeSetChecksum(changeSetId: ChangeSetId, identity: Identity, createdAt: string)

  datatype ChangeSet = ChangeSet(changeSetId: ChangeSetId, identity: Identity, createdAt: string,
                                 checksum: ChangeSetChecksum)

  datatype Artifact = Artifact(changeSet: ChangeSet, operations: seq<PublicationOperation>)

  datatype ChangeSetError =
    | ApprovalMismatch | OperationsEmpty | OperationDuplicatePath | ContentChecksumMismatch

  datatype ChangeSetResult = Created(artifact: Artifact) | Refused(error: ChangeSetError)

  predicate ReceiptApproves(r: Receipt, c: Candidate) {
    && r.decision != Rejected
    && r.candidateId == c.candidateId
    && r.candidateRevision == c.revision
    && r.candidateChecksum == c.checksum
    && r.baseAuthorityVersion == c.baseAuthorityVersion
  }

  function PathOf(): PublicationOperation -> Text { (o: PublicationOperation) => o.path }

  predicate ContentMatches(o: PublicationOperation) {
    o.WriteFile? ==> o.contentChecksum == ContentDigest(o.content)
  }

  function Refs(operations: seq<PublicationOperation>): (r: seq<OperationRef>)
    ensures |r| == |operations|
    ensures forall i | 0 <= i < |r| ::
            r[i].path == operations[i].path && r[i].contentChecksum == operations[i].contentChecksum
  {
    if operations == [] then []
    else
      var o := operations[0];
      [OperationRef(if o.WriteFile? then WriteKind else DeleteKind, o.path, o.contentChecksum)] + Refs(operations[1..])
  }

  function IdentityFor(c: Candidate, r: Receipt, sorted: seq<PublicationOperation>): Identity {
    Identity(r.receiptId, c.candidateId, c.revision, c.checksum, c.baseAuthorityVersion, c.baseChecksum, Refs(sorted))
  }

  function ChangeSetFor(identity: Identity, createdAt: string): ChangeSet {
    var id := ChangeSetId(identity);
    ChangeSet(id, identity, createdAt, ChangeSetChecksum(id, identity, createdAt))
  }

  function CreateChangeSet(c: Candidate, r: Receipt, operations: seq<PublicationOperation>): ChangeSetResult {
    if !ReceiptApproves(r, c) then Refused(ApprovalMismatch)
    else if operations == [] then Refused(OperationsEmpty)
    else
      var sorted := Sort(operations, PathOf());
      if !DistinctBy(sorted, PathOf()) then Refused(OperationDuplicatePath)
      else if exists o | o in sorted :: !ContentMatches(o) then Refused(ContentChecksumMismatch)
      else Created(Artifact(ChangeSetFor(IdentityFor(c, r, sorted), r.decidedAt), sorted))
  }

  /******* Order *******/

  /** Every ordering of the same operations gives the same artifact, or the same refusal. */
  lemma ChangeSetIgnoresOrder(c: Candidate, r: Receipt, a: seq<PublicationOperation>, b: seq<PublicationOperation>)
    requires multiset(a) == multiset(b)
    ensures CreateChangeSet(c, r, a) == CreateChangeSet(c, r, b)
  {
    assert |multiset(a)| == |a| && |multiset(b)| == |b|;
    SortSorts(a, PathOf());
    SortSorts(b, PathOf());
    if DistinctBy(Sort(a, PathOf()), PathOf()) {
      DistinctIsAboutContents(Sort(a, PathOf()), a, PathOf());
      SortIgnoresOrder(a, b, PathOf());
    } else if DistinctBy(Sort(b, PathOf()), PathOf()) {
      DistinctIsAboutContents(Sort(b, PathOf()), Sort(a, PathOf()), PathOf());
    }
  }

  /** Rebuilding an artifact from its own, already sorted operations gives it back: the store's tamper check passes. */
  lemma ArtifactRebuilds(c: Candidate, r: Receipt, operations: seq<PublicationOperation>)
    requires CreateChangeSet(c, r, operations).Created?
    ensures var artifact := CreateChangeSet(c, r, operations).artifact;
            CreateChangeSet(c, r, artifact.operations) == Created(artifact)
  {
    SortSorts(operations, PathOf());
    SortKeepsSorted(Sort(operations, PathOf()), PathOf());
  }

  lemma {:induction false} RefsAt(s: seq<PublicationOperation>, i: nat)
    requires i < |s|
    ensures Refs(s)[i] == OperationRef(if s[i].WriteFile? then WriteKind else DeleteKind, s[i].path,
                                       s[i].contentChecksum)
  {
    if i > 0 {
      RefsAt(s[1..], i - 1);
      assert Refs(s)[i] == Refs(s[1..])[i - 1];
    }
  }

  lemma RefsDetermine(a: seq<PublicationOperation>, b: seq<PublicationOperation>)
    requires Refs(a) == Refs(b)
    requires forall o | o in a :: ContentMatches(o)
    requires forall o | o in b :: ContentMatches(o)
    ensures a == b
  {
    assert |Refs(a)| == |a| && |Refs(b)| == |b|;
    forall i | 0 <= i < |a| ensures a[i] == b[i] {
      RefsAt(a, i);
      RefsAt(b, i);
      assert ContentMatches(a[i]) && ContentMatches(b[i]);
    }
  }

  /** A change set id names one receipt, one candidate revision and one set of file contents. */
  lemma ChangeSetIdIsInjective(c: Candidate, r: Receipt, a: seq<PublicationOperation>,
                               c': Candidate, r': Receipt, b: seq<PublicationOperation>)
    requires CreateChangeSet(c, r, a).Created? && CreateChangeSet(c', r', b).Created?
    requires CreateChangeSet(c, r, a).artifact.changeSet.changeSetId
             == CreateChangeSet(c', r', b).artifact.changeSet.changeSetId
    ensures r.receiptId == r'.receiptId && c == c' && multiset(a) == multiset(b)
  {
    SortSorts(a, PathOf());
    SortSorts(b, PathOf());
    RefsDetermine(Sort(a, PathOf()), Sort(b, PathOf()));
  }
}
