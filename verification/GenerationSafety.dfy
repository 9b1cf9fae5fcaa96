/** A generation id determines content, order does not, and verification accepts what building writes. */
module GenerationSafety {
  import opened Options
  import opened Canonical
  import opened GenerationModel
  import opened GenerationRecords

  /******* One id, one content *******/

  /**
   Two directories accepted under one id hold the same records, digest, registry, projections, index, view, domain
   projections, domain index and documents; only the package version and files beyond these may differ.
   */
  lemma {:induction false} OneIdOneContent(c: Checks, a: Directory, b: Directory)
    requires Verifies(c, a) && Verifies(c, b)
    requires a.manifest.metadata.generation == b.manifest.metadata.generation
    ensures a.manifest.metadata.sourceRevision == b.manifest.metadata.sourceRevision
    ensures a.manifest.metadata.contract == b.manifest.metadata.contract
    ensures a.manifest.authority == b.manifest.authority && a.manifest.domains == b.manifest.domains
    ensures forall p | p in {RecordsPath, RegistryPath, DigestPath, EntriesPath, IndexPath, ViewPath} ::
              PayloadAt(a, p) == PayloadAt(b, p)
    ensures a.manifest.domains.Some? ==>
              PayloadAt(a, DomainsPath) == PayloadAt(b, DomainsPath)
              && PayloadAt(a, DomainIndexPath) == PayloadAt(b, DomainIndexPath)
    ensures forall e | e in PayloadAt(a, EntriesPath).projections ::
              EntryPath(e) in a.files && EntryPath(e) in b.files && a.files[EntryPath(e)] == b.files[EntryPath(e)]
    ensures forall x, p | x in StoredDomains(a) && p in x.payloads ::
              var path := DomainDocument(a.manifest.metadata.generation, x.input.domainId, p.stableId);
              path in a.files && path in b.files && a.files[path] == b.files[path]
  {
    assert ExpectedId(a) == ExpectedId(b);
    hide Derive, FilesHold, RegistryHolds, EmbeddedHolds;
  }

  /******* Files *******/

  lemma {:induction false} FileAt(specs: seq<FileSpec>, i: nat)
    requires i < |specs| && DistinctPaths(specs)
    ensures specs[i].path in FilesOf(specs) && FilesOf(specs)[specs[i].path] == specs[i].file
  {
    if i > 0 {
      assert specs[0].path != specs[i].path;
      FileAt(specs[1..], i - 1);
    }
  }

  lemma {:induction false} FilePaths(specs: seq<FileSpec>)
    ensures forall p :: p in FilesOf(specs) <==> exists i :: 0 <= i < |specs| && specs[i].path == p
  {
    if specs != [] {
      FilePaths(specs[1..]);
      forall p | p in FilesOf(specs) ensures exists i :: 0 <= i < |specs| && specs[i].path == p {
        if p != specs[0].path {
          assert p in FilesOf(specs[1..]);
          var i :| 0 <= i < |specs[1..]| && specs[1..][i].path == p;
          assert specs[i + 1].path == p;
        }
      }
      forall i | 0 <= i < |specs| ensures specs[i].path in FilesOf(specs) {
        if i > 0 { assert specs[1..][i - 1].path in FilesOf(specs[1..]); }
      }
    }
  }

  /** Every artifact carries the build's metadata and its own checksum. */
  predicate SpecHolds(m: Metadata, s: FileSpec) {
    IsJson(s.path) ==>
      s.file.ArtifactFile? && s.file.metadata == m && s.file.checksum == PayloadChecksum(s.file.payload)
  }

  predicate Covers(within: seq<FileSpec>, p: Path) { exists t :: t in within && t.path == p }

  /** Each of `some` holds, and depends only on files of `within`. */
  predicate Supported(m: Metadata, some: seq<FileSpec>, within: seq<FileSpec>) {
    forall s | s in some :: SpecHolds(m, s) && forall p | p in s.dependencies :: Covers(within, p)
  }

  lemma {:induction false} WrittenPaths(specs: seq<FileSpec>)
    ensures FilesOf(specs).Keys == PathsOf(ManifestFiles(specs))
  {
    var files := ManifestFiles(specs);
    FilePaths(specs);
    forall p ensures p in FilesOf(specs).Keys <==> p in PathsOf(files) {
      if p in FilesOf(specs).Keys {
        var i :| 0 <= i < |specs| && specs[i].path == p;
        assert files[i] in files && files[i].path == p;
      }
      if p in PathsOf(files) {
        var f :| f in files && f.path == p;
        var i :| 0 <= i < |files| && files[i] == f;
        assert specs[i].path == p;
      }
    }
  }

  lemma {:induction false} WrittenFileHolds(m: Manifest, specs: seq<FileSpec>, i: nat)
    requires DistinctPaths(specs) && Supported(m.metadata, specs, specs) && i < |specs|
    requires m.files == ManifestFiles(specs)
    ensures FileHolds(m, FilesOf(specs), m.files[i])
  {
    FileAt(specs, i);
    hide FilesOf, DistinctPaths;
    assert specs[i] in specs && SpecHolds(m.metadata, specs[i]);
    forall p | p in specs[i].dependencies ensures p in PathsOf(m.files) {
      assert Covers(specs, p);
      var t :| t in specs && t.path == p;
      var k :| 0 <= k < |specs| && specs[k] == t;
      assert m.files[k] in m.files && m.files[k].path == p;
    }
  }

  lemma {:induction false} WrittenFilesHold(d: Directory, specs: seq<FileSpec>)
    requires DistinctPaths(specs) && Supported(d.manifest.metadata, specs, specs)
    requires d.files == FilesOf(specs) && d.manifest.files == ManifestFiles(specs)
    ensures FilesHold(d)
  {
    hide FilesOf, ManifestFiles, Supported, FileHolds, PathsOf;
    WrittenPaths(specs);
    forall f | f in d.manifest.files ensures FileHolds(d.manifest, d.files, f) {
      var i :| 0 <= i < |d.manifest.files| && d.manifest.files[i] == f;
      WrittenFileHolds(d.manifest, specs, i);
    }
  }

  /******* What is specified *******/

  lemma {:induction false} DomainSpecsAre(g: GenerationId, domains: seq<EmbeddedDomain>)
    requires forall d | d in domains :: HasText(d)
    ensures forall s | s in DomainSpecs(g, domains) ::
              s.path.DomainDocument? && s.dependencies == [DomainIndexPath, DomainsPath]
    ensures forall d, p | d in domains && p in d.payloads ::
              p.content.sentinel.Some? && DocumentSpec(g, d, p) in DomainSpecs(g, domains)
  {
    if domains != [] {
      assert domains[0] in domains && HasText(domains[0]);
      var first := DocumentSpecs(g, domains[0], domains[0].payloads);
      DomainSpecsAre(g, domains[1..]);
      forall d, p | d in domains && p in d.payloads
        ensures p.content.sentinel.Some? && DocumentSpec(g, d, p) in DomainSpecs(g, domains)
      {
        assert HasText(d);
        if d == domains[0] {
          var i :| 0 <= i < |domains[0].payloads| && domains[0].payloads[i] == p;
          assert first[i] == DocumentSpec(g, d, p) && first[i] in first;
        } else {
          assert d in domains[1..];
        }
      }
    }
  }

  lemma CoreIsSupported(m: Metadata, content: AuthorityContent, d: Derived)
    ensures var core := CoreSpecs(m, content, d);
            Supported(m, core, core)
              && forall p | p in {RecordsPath, RegistryPath, DigestPath, EntriesPath, IndexPath} :: Covers(core, p)
  {
    var core := CoreSpecs(m, content, d);
    assert core[0] in core && core[1] in core && core[2] in core && core[3] in core && core[4] in core;
    assert core[0].path == RecordsPath && core[1].path == RegistryPath && core[2].path == DigestPath
           && core[3].path == EntriesPath && core[4].path == IndexPath;
  }

  lemma CompositeIsSupported(m: Metadata, domains: seq<EmbeddedDomain>, d: Derived)
    requires forall x | x in domains :: HasText(x)
    ensures var composite := CompositeSpecs(m, domains, d); Supported(m, composite, composite)
  {
    hide HasText, DomainSpecs;
    var composite := CompositeSpecs(m, domains, d);
    if domains != [] {
      DomainSpecsAre(m.generation, domains);
      assert composite[0] in composite && composite[1] in composite;
      assert composite[0].path == DomainsPath && composite[1].path == DomainIndexPath;
    }
  }

  lemma SupportedInMore(m: Metadata, some: seq<FileSpec>, within: seq<FileSpec>, more: seq<FileSpec>)
    requires Supported(m, some, within) && forall s | s in within :: s in more
    ensures Supported(m, some, more)
  {}

  /** Everything a build writes depends on files it writes. */
  lemma SpecsAreSupported(m: Metadata, content: AuthorityContent, domains: seq<EmbeddedDomain>, d: Derived)
    requires forall x | x in domains :: HasText(x)
    ensures var specs := Specs(m, content, domains, d); Supported(m, specs, specs)
  {
    hide HasText, CoreSpecs, CompositeSpecs, SpecHolds;
    var specs := Specs(m, content, domains, d);
    CoreIsSupported(m, content, d);
    CompositeIsSupported(m, domains, d);
    SupportedInMore(m, CoreSpecs(m, content, d), CoreSpecs(m, content, d), specs);
    SupportedInMore(m, CompositeSpecs(m, domains, d), CompositeSpecs(m, domains, d), specs);
    EntriesAreSupported(m, d.entries, CoreSpecs(m, content, d));
    SupportedInMore(m, EntrySpecs(d.entries), CoreSpecs(m, content, d), specs);
  }

  lemma EntriesAreSupported(m: Metadata, entries: seq<ProjectionEntry>, within: seq<FileSpec>)
    requires Covers(within, EntriesPath)
    ensures Supported(m, EntrySpecs(entries), within)
  {}

  /** A written file is the specified one. */
  lemma {:induction false} WrittenAt(specs: seq<FileSpec>, s: FileSpec)
    requires s in specs && DistinctPaths(specs)
    ensures s.path in FilesOf(specs) && FilesOf(specs)[s.path] == s.file
  {
    var i :| 0 <= i < |specs| && specs[i] == s;
    FileAt(specs, i);
  }

  /******* Records and domains *******/

  lemma RegistryIsValid(records: seq<NormalizedRecord>, g: GenerationId)
    requires DistinctBy(records, NormalKey())
    ensures RegistryHolds(RegistryFor(records, g), g)
  {}

  function EmbeddedPaths(payloads: seq<EmbeddedPayload>): set<Text> { set p | p in payloads :: p.path }

  function ListedPaths(payloads: seq<ManifestPayload>): set<Text> { set p | p in payloads :: p.path }

  lemma {:induction false} DistinctPathCount(payloads: seq<EmbeddedPayload>)
    requires DistinctBy(payloads, EmbeddedKey())
    ensures |EmbeddedPaths(payloads)| == |payloads|
  {
    if payloads != [] {
      DistinctPathCount(payloads[1..]);
      assert payloads == [payloads[0]] + payloads[1..];
      assert EmbeddedPaths(payloads) == {payloads[0].path} + EmbeddedPaths(payloads[1..]);
      forall i | 1 <= i < |payloads| ensures payloads[i].path != payloads[0].path {
        assert EmbeddedKey()(payloads[0]) != EmbeddedKey()(payloads[i]);
      }
      assert payloads[0].path !in EmbeddedPaths(payloads[1..]);
    }
  }

  lemma {:induction false} ListedPathCount(payloads: seq<ManifestPayload>)
    ensures |ListedPaths(payloads)| <= |payloads|
  {
    if payloads != [] {
      ListedPathCount(payloads[1..]);
      assert payloads == [payloads[0]] + payloads[1..];
      assert ListedPaths(payloads) == {payloads[0].path} + ListedPaths(payloads[1..]);
    }
  }

  lemma {:induction false} FullSubset(a: set<Text>, b: set<Text>)
    requires a <= b && |b| <= |a|
    ensures a == b
  {
    if a != b {
      var x :| x in b && x !in a;
      SubsetCount(a, b - {x});
    }
  }

  lemma {:induction false} SubsetCount(a: set<Text>, b: set<Text>)
    requires a <= b
    ensures |a| <= |b|
    decreases |a|
  {
    if a != {} {
      var x :| x in a;
      SubsetCount(a - {x}, b - {x});
    }
  }

  /** An embedded domain agrees with its manifest in every payload, both ways. */
  lemma EmbeddedIsValid(d: DomainProjection)
    requires DomainHolds(d)
    ensures EmbeddedHolds(EmbedDomain(d))
  {
    var m := d.projection.manifest;
    var all := EmbedAll(m, d.projection.payloads);
    var sorted := Sort(all, EmbeddedKey());
    SortSorts(all, EmbeddedKey());
    var pathOf := (x: ConsumedPayload) => x.path;
    forall i, j | 0 <= i < j < |all| ensures EmbeddedKey()(all[i]) != EmbeddedKey()(all[j]) {
      assert pathOf(d.projection.payloads[i]) != pathOf(d.projection.payloads[j]);
    }
    DistinctIsAboutContents(all, sorted, EmbeddedKey());
    forall p | p in sorted
      ensures var found := FindPayload(m.payloads, p.path);
              found.Some? && found.value.stableId == p.stableId && found.value.checksum == p.checksum
              && found.value.media == p.media && ContentChecksum(p.content) == p.checksum
    {
      assert p in multiset(sorted);
      assert p in multiset(all);
      var i :| 0 <= i < |all| && all[i] == p;
      assert PayloadHolds(m, d.projection.payloads[i]);
    }
    CoveredBothWays(m, sorted);
  }

  lemma CoveredBothWays(m: DomainManifest, payloads: seq<EmbeddedPayload>)
    requires DistinctBy(payloads, EmbeddedKey()) && |payloads| == |m.payloads|
    requires forall p | p in payloads :: FindPayload(m.payloads, p.path).Some?
    ensures forall x | x in m.payloads :: exists p | p in payloads :: p.path == x.path
  {
    DistinctPathCount(payloads);
    ListedPathCount(m.payloads);
    forall path | path in EmbeddedPaths(payloads) ensures path in ListedPaths(m.payloads) {
      var p :| p in payloads && p.path == path;
      assert FindPayload(m.payloads, p.path).value in m.payloads;
    }
    FullSubset(EmbeddedPaths(payloads), ListedPaths(m.payloads));
    forall x | x in m.payloads ensures exists p | p in payloads :: p.path == x.path {
      assert x.path in ListedPaths(m.payloads);
    }
  }

  lemma NormalizedDomainsAreValid(domains: seq<DomainProjection>)
    requires NormalizeDomains(domains).Some?
    ensures forall d | d in NormalizeDomains(domains).value :: EmbeddedHolds(d)
    ensures DistinctBy(NormalizeDomains(domains).value, DomainKey())
  {
    hide EmbeddedHolds, DomainHolds;
    var all := EmbedDomains(domains);
    SortSorts(all, DomainKey());
    var idOf := (d: DomainProjection) => d.domainId;
    forall i, j | 0 <= i < j < |all| ensures DomainKey()(all[i]) != DomainKey()(all[j]) {
      assert idOf(domains[i]) != idOf(domains[j]);
    }
    DistinctIsAboutContents(all, Sort(all, DomainKey()), DomainKey());
    forall d | d in Sort(all, DomainKey()) ensures EmbeddedHolds(d) {
      assert d in multiset(Sort(all, DomainKey()));
      assert d in multiset(all);
      var i :| 0 <= i < |all| && all[i] == d;
      EmbeddedIsValid(domains[i]);
    }
  }

  /** What building `d` from normalized content and domains wrote. */
  ghost predicate Written(d: Directory, content: AuthorityContent, domains: seq<EmbeddedDomain>, derived: Derived) {
    var m := d.manifest.metadata;
    && (forall x | x in domains :: HasText(x))
    && var specs := Specs(m, content, domains, derived);
       DistinctPaths(specs) && d.files == FilesOf(specs) && d.manifest.files == ManifestFiles(specs)
  }

  /** Everything a successful build decided. */
  ghost predicate BuiltFrom(d: Directory, i: BuildInput, domains: seq<EmbeddedDomain>, derived: Derived) {
    && NormalizeDomains(i.domains) == Some(domains)
    && DistinctBy(i.records, RecordKey())
    && d.name == Named(IdFor(i, domains))
    && d.manifest.metadata == Metadata(CONTRACT, i.package, i.sourceRevision, d.name.id)
    && d.manifest.domains == (if domains != [] then Some(Inputs(domains)) else None)
    && d.manifest.authority == (if domains != [] then Some((i.sourceRevision, AuthorityChecksum(ContentOf(i))))
                                else None)
    && Derive(ContentOf(i), domains, i.sourceRevision, d.name.id) == Some(derived)
    && Written(d, ContentOf(i), domains, derived)
  }

  lemma BuildParts(c: Checks, i: BuildInput) returns (domains: seq<EmbeddedDomain>, derived: Derived)
    requires Build(c, i).Some?
    ensures BuiltFrom(Build(c, i).value, i, domains, derived) && AuthorityHolds(c, i.records, i.activeSystem)
  {
    hide Specs, NormalizeDomains, FilesOf, ManifestFiles, DigestFor, SortedRecords, DistinctPaths, HasText, RegistryFor,
         EntriesFor, IndexFor, DomainIndexesFor, Ids, Inputs;
    domains := NormalizeDomains(i.domains).value;
    derived := Derive(ContentOf(i), domains, i.sourceRevision, IdFor(i, domains)).value;
  }

  lemma DerivedIs(content: AuthorityContent, domains: seq<EmbeddedDomain>, revision: string, g: GenerationId,
                  d: Derived)
    requires Derive(content, domains, revision, g) == Some(d)
    ensures DigestFor(content.records, content.activeSystem) == Some(d.digest)
    ensures d.registry == RegistryFor(content.records, g)
    ensures d.index.IndexPayload? && d.view.ViewPayload? && d.registry.RegistryPayload?
    ensures d.digest.DigestPayload? && ActiveOf(d.digest.digest) == content.activeSystem
  {}

  lemma WrittenCore(d: Directory, content: AuthorityContent, domains: seq<EmbeddedDomain>, derived: Derived)
    requires Written(d, content, domains, derived)
    ensures forall s | s in CoreSpecs(d.manifest.metadata, content, derived) ::
            s.path in d.files && d.files[s.path] == s.file
    ensures forall s | s in CompositeSpecs(d.manifest.metadata, domains, derived) ::
              s.path in d.files && d.files[s.path] == s.file
    ensures forall s | s in EntrySpecs(derived.entries) :: s.path in d.files && d.files[s.path] == s.file
  {
    hide CoreSpecs, CompositeSpecs, EntrySpecs, FilesOf, ManifestFiles, DistinctPaths, HasText;
    var specs := Specs(d.manifest.metadata, content, domains, derived);
    forall s | s in specs ensures s.path in d.files && d.files[s.path] == s.file { WrittenAt(specs, s); }
  }

  lemma CoreArtifacts(d: Directory, content: AuthorityContent, domains: seq<EmbeddedDomain>, derived: Derived)
    requires Written(d, content, domains, derived)
    ensures Has(d, RecordsPath) && PayloadAt(d, RecordsPath) == RecordsPayload(content.records)
    ensures Has(d, RegistryPath) && PayloadAt(d, RegistryPath) == derived.registry
    ensures Has(d, DigestPath) && PayloadAt(d, DigestPath) == derived.digest
    ensures Has(d, EntriesPath) && PayloadAt(d, EntriesPath) == EntriesPayload(derived.entries)
    ensures Has(d, IndexPath) && PayloadAt(d, IndexPath) == derived.index
    ensures Has(d, ViewPath) && PayloadAt(d, ViewPath) == derived.view
  {
    hide Written, CompositeSpecs, EntrySpecs;
    WrittenCore(d, content, domains, derived);
    var core := CoreSpecs(d.manifest.metadata, content, derived);
    assert core[0] in core && core[1] in core && core[2] in core && core[3] in core && core[4] in core
           && core[5] in core;
  }

  lemma CompositeArtifacts(d: Directory, content: AuthorityContent, domains: seq<EmbeddedDomain>, derived: Derived)
    requires Written(d, content, domains, derived) && domains != []
    ensures Has(d, DomainsPath) && PayloadAt(d, DomainsPath) == DomainsPayload(domains)
    ensures Has(d, DomainIndexPath) && PayloadAt(d, DomainIndexPath) == derived.domainIndex
  {
    assert forall x | x in domains :: HasText(x);
    hide Written, CoreSpecs, EntrySpecs, HasText;
    WrittenCore(d, content, domains, derived);
    var composite := CompositeSpecs(d.manifest.metadata, domains, derived);
    assert composite[0] in composite && composite[1] in composite;
  }

  /** A written directory holds what its identity and its derived payloads are recomputed from. */
  lemma BuiltIsComplete(d: Directory, i: BuildInput, domains: seq<EmbeddedDomain>, derived: Derived)
    requires BuiltFrom(d, i, domains, derived)
    ensures RequiredPresent(d) && StoredContent(d) == ContentOf(i) && StoredDomains(d) == domains
  {
    hide Derive, NormalizeDomains, Written, Has, SortedRecords, IdFor;
    DerivedIs(ContentOf(i), domains, i.sourceRevision, d.name.id, derived);
    CoreArtifacts(d, ContentOf(i), domains, derived);
    if domains != [] { CompositeArtifacts(d, ContentOf(i), domains, derived); }
  }

  lemma BuiltFilesHold(d: Directory, i: BuildInput, domains: seq<EmbeddedDomain>, derived: Derived)
    requires BuiltFrom(d, i, domains, derived)
    ensures FilesHold(d)
  {
    hide Derive, NormalizeDomains, Specs, FilesOf, ManifestFiles, FilesHold, DistinctPaths, Supported, HasText;
    SpecsAreSupported(d.manifest.metadata, ContentOf(i), domains, derived);
    WrittenFilesHold(d, Specs(d.manifest.metadata, ContentOf(i), domains, derived));
  }

  lemma {:induction false} FindsDomain(domains: seq<EmbeddedDomain>, x: EmbeddedDomain)
    requires DistinctBy(domains, DomainKey()) && x in domains
    ensures FindDomain(domains, x.input.domainId) == Some(x)
  {
    if domains[0] != x {
      var k :| 0 <= k < |domains| && domains[k] == x;
      assert DomainKey()(domains[0]) != DomainKey()(domains[k]);
      FindsDomain(domains[1..], x);
    }
  }

  lemma {:induction false} FindsEmbedded(payloads: seq<EmbeddedPayload>, p: EmbeddedPayload)
    requires DistinctBy(payloads, EmbeddedKey()) && p in payloads
    ensures FindEmbedded(payloads, p.path) == Some(p)
  {
    if payloads[0] != p {
      var k :| 0 <= k < |payloads| && payloads[k] == p;
      assert EmbeddedKey()(payloads[0]) != EmbeddedKey()(payloads[k]);
      FindsEmbedded(payloads[1..], p);
    }
  }

  lemma EntryDocumentsHold(d: Directory, content: AuthorityContent, domains: seq<EmbeddedDomain>, derived: Derived)
    requires Written(d, content, domains, derived)
    ensures forall e | e in derived.entries ::
              EntryPath(e) in d.files && d.files[EntryPath(e)] == DocumentFile(EntryText(e))
  {
    hide Written, CoreSpecs, CompositeSpecs;
    WrittenCore(d, content, domains, derived);
    forall e | e in derived.entries
      ensures EntryPath(e) in d.files && d.files[EntryPath(e)] == DocumentFile(EntryText(e))
    {
      var k :| 0 <= k < |derived.entries| && derived.entries[k] == e;
      assert EntrySpecs(derived.entries)[k] in EntrySpecs(derived.entries);
    }
  }

  lemma DomainDocumentHolds(d: Directory, content: AuthorityContent, domains: seq<EmbeddedDomain>, derived: Derived,
                            x: EmbeddedDomain, p: EmbeddedPayload)
    requires Written(d, content, domains, derived) && x in domains && p in x.payloads
    requires DistinctBy(domains, DomainKey()) && EmbeddedHolds(x)
    ensures DocumentHolds(d.manifest.metadata.generation, domains, d.files, x, p)
  {
    assert HasText(x);
    assert forall y | y in domains :: HasText(y);
    assert DistinctBy(x.payloads, EmbeddedKey());
    hide Written, CoreSpecs, EntrySpecs, EmbeddedHolds, DistinctBy, DomainSpecs, FindDomain, FindEmbedded;
    var g := d.manifest.metadata.generation;
    WrittenCore(d, content, domains, derived);
    DomainSpecsAre(g, domains);
    FindsDomain(domains, x);
    FindsEmbedded(x.payloads, p);
    assert DocumentSpec(g, x, p) in DomainSpecs(g, domains);
    assert DocumentSpec(g, x, p) in CompositeSpecs(d.manifest.metadata, domains, derived);
  }

  lemma BuiltDocuments(d: Directory, i: BuildInput, domains: seq<EmbeddedDomain>, derived: Derived)
    requires BuiltFrom(d, i, domains, derived)
    ensures RequiredPresent(d) && DocumentsHold(d)
  {
    hide Derive, Written, NormalizeDomains, RequiredPresent, EmbeddedHolds, DocumentHolds, StoredContent, DistinctBy,
         SortedRecords;
    BuiltIsComplete(d, i, domains, derived);
    CoreArtifacts(d, ContentOf(i), domains, derived);
    EntryDocumentsHold(d, ContentOf(i), domains, derived);
    NormalizedDomainsAreValid(i.domains);
    forall x, p | x in domains && p in x.payloads
      ensures DocumentHolds(d.manifest.metadata.generation, domains, d.files, x, p)
    {
      DomainDocumentHolds(d, ContentOf(i), domains, derived, x, p);
    }
  }

  lemma BuiltDerivedHolds(d: Directory, i: BuildInput, domains: seq<EmbeddedDomain>, derived: Derived)
    requires BuiltFrom(d, i, domains, derived)
    ensures RequiredPresent(d) && DerivedHolds(d)
    ensures RegistryHolds(PayloadAt(d, RegistryPath), d.name.id)
  {
    hide Derive, Written, NormalizeDomains, RequiredPresent, StoredContent, StoredDomains, SortedRecords, RegistryFor,
         DistinctBy, RegistryHolds;
    BuiltIsComplete(d, i, domains, derived);
    DerivedIs(ContentOf(i), domains, i.sourceRevision, d.name.id, derived);
    CoreArtifacts(d, ContentOf(i), domains, derived);
    if domains != [] { CompositeArtifacts(d, ContentOf(i), domains, derived); }
    SortedRecordsAreDistinct(i.records);
    RegistryIsValid(ContentOf(i).records, d.name.id);
  }

  lemma BuiltIdentityHolds(d: Directory, i: BuildInput, domains: seq<EmbeddedDomain>, derived: Derived)
    requires BuiltFrom(d, i, domains, derived)
    ensures RequiredPresent(d) && DomainsHold(d) && ExpectedId(d) == d.manifest.metadata.generation
  {
    hide Derive, Written, NormalizeDomains, RequiredPresent, StoredContent, StoredDomains, SortedRecords, EmbeddedHolds,
         DistinctBy, Inputs;
    BuiltIsComplete(d, i, domains, derived);
    NormalizedDomainsAreValid(i.domains);
    assert d.manifest.domains.Some? <==> d.manifest.authority.Some?;
  }

  /** Every check of the verifier holds for what a build writes. */
  lemma VerifierAcceptsBuild(c: Checks, i: BuildInput)
    requires Build(c, i).Some?
    ensures Verifies(c, Build(c, i).value)
  {
    hide Build, Derive, Written, NormalizeDomains, RequiredPresent, StoredDomains, StoredContent, FilesHold,
         RegistryHolds, DocumentsHold, DerivedHolds, DomainsHold, ExpectedId, SortedRecords, DistinctBy;
    var d := Build(c, i).value;
    var domains, derived := BuildParts(c, i);
    BuiltIsComplete(d, i, domains, derived);
    BuiltFilesHold(d, i, domains, derived);
    BuiltDocuments(d, i, domains, derived);
    BuiltDerivedHolds(d, i, domains, derived);
    BuiltIdentityHolds(d, i, domains, derived);
    assert forall r | r in i.records :: Readable(c, r) && r.layer == LayerOf(r.schema);
    ReaderAndVerifierAgree(c, i.records, i.activeSystem);
  }
}
