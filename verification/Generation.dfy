/** The verifier's loops over a generation directory (`verifyGeneration`), against what they must accept. */
module Generation {
  import opened GenerationModel

  datatype Issue =
    | Unmanifested(path: Path) | Missing(path: Path) | DuplicateFile | DependencyMissing(path: Path)
    | ReadFailed(path: Path) | ChecksumMismatch(path: Path) | ArtifactInvalid | MixedGeneration(path: Path)
    | ContentMismatch(path: Path)

  /** The bytes of `f` are the listed ones, and they are parsed as an artifact. */
  predicate Parsed(files: map<Path, File>, f: ManifestFile) {
    f.path in files && FileChecksum(files[f.path]) == f.checksum && IsJson(f.path)
  }

  predicate Unreadable(files: map<Path, File>, f: ManifestFile) {
    f.path !in files || (Parsed(files, f) && !files[f.path].ArtifactFile?)
  }

  /** What is wrong with `f`, one issue per failed condition. */
  predicate Reports(m: Manifest, files: map<Path, File>, f: ManifestFile, x: Issue) {
    match x
    case DependencyMissing(p) => p == f.path && exists d | d in f.dependencies :: d !in PathsOf(m.files)
    case ReadFailed(p) => p == f.path && p !in files
    case ChecksumMismatch(p) => p == f.path && p in files && FileChecksum(files[p]) != f.checksum
    case ArtifactInvalid => Parsed(files, f) && !files[f.path].ArtifactFile?
    case MixedGeneration(p) =>
      p == f.path && Parsed(files, f) && files[p].ArtifactFile? && files[p].metadata != m.metadata
    case ContentMismatch(p) =>
      p == f.path && Parsed(files, f) && files[p].ArtifactFile?
        && files[p].checksum != PayloadChecksum(files[p].payload)
    case _ => false
  }

  lemma FileHoldsExactly(m: Manifest, files: map<Path, File>, f: ManifestFile)
    ensures FileHolds(m, files, f) <==> forall x :: !Reports(m, files, f, x)
  {
    hide PathsOf, IsJson;
    if forall x :: !Reports(m, files, f, x) {
      var p := f.path;
      assert !Reports(m, files, f, DependencyMissing(p)) && !Reports(m, files, f, ReadFailed(p));
      assert !Reports(m, files, f, ChecksumMismatch(p)) && !Reports(m, files, f, ArtifactInvalid);
      assert !Reports(m, files, f, MixedGeneration(p)) && !Reports(m, files, f, ContentMismatch(p));
    }
  }

  predicate DistinctFiles(files: seq<ManifestFile>) {
    forall i, j | 0 <= i < j < |files| :: files[i].path != files[j].path
  }

  lemma DistinctTail(files: seq<ManifestFile>)
    requires files != []
    ensures DistinctFiles(files) <==> files[0].path !in PathsOf(files[1..]) && DistinctFiles(files[1..])
    ensures PathsOf(files) == {files[0].path} + PathsOf(files[1..])
  {}

  lemma NoPaths(files: seq<ManifestFile>)
    requires files == []
    ensures PathsOf(files) == {} && DistinctFiles(files)
  {}

  /** The size of the path set tells whether a path is listed twice. */
  lemma {:induction false} PathCount(files: seq<ManifestFile>)
    ensures |PathsOf(files)| <= |files|
    ensures |PathsOf(files)| == |files| <==> DistinctFiles(files)
  {
    hide PathsOf, DistinctFiles;
    if files == [] {
      NoPaths(files);
    } else {
      PathCount(files[1..]);
      DistinctTail(files);
    }
  }

  /** The listing against the manifest; a directory lists each of its files once. */
  method CheckListing(manifest: Manifest, listing: seq<Path>) returns (issues: seq<Issue>)
    requires forall j, k | 0 <= j < k < |listing| :: listing[j] != listing[k]
    ensures forall x :: x in issues <==>
              || (x.Unmanifested? && x.path in listing && x.path !in PathsOf(manifest.files))
              || (x.Missing? && x.path in PathsOf(manifest.files) && x.path !in listing)
  {
    hide PathsOf;
    issues := [];
    var expected := PathsOf(manifest.files);
    for i := 0 to |listing|
      invariant forall p :: p in expected <==> p in PathsOf(manifest.files) && p !in listing[..i]
      invariant forall x :: x in issues <==>
                x.Unmanifested? && x.path in listing[..i] && x.path !in PathsOf(manifest.files)
    {
      assert listing[..i + 1] == listing[..i] + [listing[i]];
      if listing[i] in expected {
        expected := expected - {listing[i]};
      } else {
        issues := issues + [Unmanifested(listing[i])];
      }
    }
    assert listing[..|listing|] == listing;
    ghost var unmanifested := issues;
    ghost var missing := expected;
    while expected != {}
      invariant expected <= missing
      invariant forall x :: x in issues <==> x in unmanifested || (x.Missing? && x.path in missing - expected)
      decreases |expected|
    {
      var path :| path in expected;
      expected := expected - {path};
      issues := issues + [Missing(path)];
    }
  }

  /** One listed file; `go` is false where reading or parsing it throws, which ends the verification. */
  method CheckFile(manifest: Manifest, files: map<Path, File>, f: ManifestFile) returns (issues: seq<Issue>, go: bool)
    ensures forall x :: x in issues <==> Reports(manifest, files, f, x)
    ensures go <==> !Unreadable(files, f)
  {
    hide PathsOf, IsJson;
    issues := [];
    if exists d | d in f.dependencies :: d !in PathsOf(manifest.files) { issues := [DependencyMissing(f.path)]; }
    if f.path !in files { return issues + [ReadFailed(f.path)], false; }
    var file := files[f.path];
    if FileChecksum(file) != f.checksum { return issues + [ChecksumMismatch(f.path)], true; }
    if !IsJson(f.path) { return issues, true; }
    if !file.ArtifactFile? { return issues + [ArtifactInvalid], false; }
    if file.metadata != manifest.metadata { issues := issues + [MixedGeneration(f.path)]; }
    if file.checksum != PayloadChecksum(file.payload) { issues := issues + [ContentMismatch(f.path)]; }
    return issues, true;
  }

  ghost predicate Reported(m: Manifest, files: map<Path, File>, listed: seq<ManifestFile>, x: Issue) {
    exists f | f in listed :: Reports(m, files, f, x)
  }

  lemma ReportedOneMore(m: Manifest, files: map<Path, File>, listed: seq<ManifestFile>, f: ManifestFile, x: Issue)
    ensures Reported(m, files, listed + [f], x) <==> Reported(m, files, listed, x) || Reports(m, files, f, x)
  {}

  lemma NothingReported(m: Manifest, files: map<Path, File>)
    ensures forall x :: !Reported(m, files, [], x)
  {}

  /** The listed files in order, up to the first that cannot be read. */
  method CheckFiles(manifest: Manifest, files: map<Path, File>) returns (issues: seq<Issue>, read: nat)
    ensures read <= |manifest.files|
    ensures forall x :: x in issues <==> Reported(manifest, files, manifest.files[..read], x)
    ensures read == |manifest.files| || (read > 0 && Unreadable(files, manifest.files[read - 1]))
    ensures forall k | 0 <= k < read - 1 :: !Unreadable(files, manifest.files[k])
  {
    hide Reports, Unreadable, Reported;
    issues, read := [], 0;
    NothingReported(manifest, files);
    while read < |manifest.files|
      invariant 0 <= read <= |manifest.files|
      invariant forall x :: x in issues <==> Reported(manifest, files, manifest.files[..read], x)
      invariant forall k | 0 <= k < read :: !Unreadable(files, manifest.files[k])
    {
      var found, go := CheckFile(manifest, files, manifest.files[read]);
      forall x ensures x in issues + found <==> Reported(manifest, files, manifest.files[..read + 1], x) {
        assert manifest.files[..read + 1] == manifest.files[..read] + [manifest.files[read]];
        ReportedOneMore(manifest, files, manifest.files[..read], manifest.files[read], x);
      }
      issues, read := issues + found, read + 1;
      if !go { return; }
    }
  }

  lemma FilesHoldExactly(d: Directory, listing: seq<Path>)
    requires forall p :: p in listing <==> p in d.files
    ensures FilesHold(d) <==>
              && (forall p | p in listing :: p in PathsOf(d.manifest.files))
              && (forall p | p in PathsOf(d.manifest.files) :: p in listing)
              && DistinctFiles(d.manifest.files)
              && forall f | f in d.manifest.files :: FileHolds(d.manifest, d.files, f)
  {}

  /** Everything checked before the artifacts are compared with each other: no issue exactly when the files hold. */
  method VerifyFiles(d: Directory, listing: seq<Path>) returns (issues: seq<Issue>)
    requires forall j, k | 0 <= j < k < |listing| :: listing[j] != listing[k]
    requires forall p :: p in listing <==> p in d.files
    ensures issues == [] <==> FilesHold(d)
    ensures (forall f | f in d.manifest.files :: !Unreadable(d.files, f)) ==>
              forall x :: x in issues <==>
                || (x.Unmanifested? && x.path in d.files && x.path !in PathsOf(d.manifest.files))
                || (x.Missing? && x.path in PathsOf(d.manifest.files) && x.path !in d.files)
                || (x.DuplicateFile? && !DistinctFiles(d.manifest.files))
                || Reported(d.manifest, d.files, d.manifest.files, x)
  {
    hide PathsOf, FileHolds, Reports, Unreadable, DistinctFiles, FilesHold, Reported;
    FilesHoldExactly(d, listing);
    PathCount(d.manifest.files);
    var m := d.manifest;
    var listed := CheckListing(m, listing);
    var doubled := if |PathsOf(m.files)| != |m.files| then [DuplicateFile] else [];
    var reported, read := CheckFiles(m, d.files);
    issues := listed + doubled + reported;
    assert m.files[..|m.files|] == m.files;
    Quiet(m, d.files, reported, read);
    ghost var silent := listed == [];
    assert silent
           <==> (forall p | p in listing :: p in PathsOf(m.files))
                && (forall p | p in PathsOf(m.files) :: p in listing) by {
      if !silent { assert listed[0] in listed; }
      forall p | p in listing && p !in PathsOf(m.files) ensures !silent { assert Unmanifested(p) in listed; }
      forall p | p in PathsOf(m.files) && p !in listing ensures !silent { assert Missing(p) in listed; }
    }
    assert (forall f | f in m.files :: !Unreadable(d.files, f)) ==> read == |m.files|;
  }

  /** The loop over the listed files stays silent exactly when each of them holds. */
  lemma Quiet(m: Manifest, files: map<Path, File>, reported: seq<Issue>, read: nat)
    requires read <= |m.files|
    requires forall x :: x in reported <==> Reported(m, files, m.files[..read], x)
    requires read == |m.files| || (read > 0 && Unreadable(files, m.files[read - 1]))
    ensures reported == [] <==> forall f | f in m.files :: FileHolds(m, files, f)
  {
    hide Reports, Unreadable, FileHolds;
    if read < |m.files| { StopIsReported(m, files, m.files[..read]); }
    if reported == [] {
      assert m.files[..|m.files|] == m.files;
      forall f | f in m.files ensures FileHolds(m, files, f) {
        forall x ensures !Reports(m, files, f, x) { assert x !in reported; }
        FileHoldsExactly(m, files, f);
      }
    } else {
      assert reported[0] in reported;
      var f :| f in m.files[..read] && Reports(m, files, f, reported[0]);
      FileHoldsExactly(m, files, f);
    }
  }

  lemma StopIsReported(m: Manifest, files: map<Path, File>, listed: seq<ManifestFile>)
    requires listed != [] && Unreadable(files, listed[|listed| - 1])
    ensures exists x :: Reported(m, files, listed, x)
  {
    var f := listed[|listed| - 1];
    var x := if f.path !in files then ReadFailed(f.path) else ArtifactInvalid;
    assert f in listed && Reports(m, files, f, x);
    assert Reported(m, files, listed, x);
  }
}
