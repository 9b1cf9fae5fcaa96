/** What an accepted generation says about its records and domains, payload by payload, in the fields of the records. */
module GenerationContents {
  import opened Options
  import opened Canonical
  import opened GenerationModel
  import opened GenerationRecords
  import opened GenerationSafety

  /******* Records *******/

  /** The section called `title` has this content, or there is none and the content is empty. */
  ghost predicate SectionSays(sections: seq<Section>, title: Text, content: string) {
    || (exists s | s in sections :: s.title == title && s.content == content)
    || (content == "" && forall s | s in sections :: s.title != title)
  }

  /** `governed_by` links to this system. */
  predicate LinksTo(r: NormalizedRecord, id: Text) {
    var relations := r.base.record.frontmatter.relations;
    relations.Relations? && relations.governedBy == Link(id)
  }

  /** A governing module under the active system. */
  predicate Governed(r: NormalizedRecord, active: Text) { r.base.role == "governing_module" && LinksTo(r, active) }

  ghost predicate HasContent(c: Checks, r: AuthorityRecord, title: string) {
    exists s | s in r.sections :: s.title == Ascii(title) && !c.blank(s.content)
  }

  /** Every section its kind asks for has content, and no personal model is an essence. */
  ghost predicate LintSays(c: Checks, r: AuthorityRecord) {
    && (r.layer.Cognitive? ==>
          && (forall title | title in REQUIRED_SECTIONS :: HasContent(c, r, title))
          && (r.recordType == "governing_system" ==> HasContent(c, r, "Persistent Kernel")))
    && !(r.schema.PersonalModelV2? && c.essence(r.body))
  }

  /**
   A kept record is valid, with its sections by title, the role of its kind, its own version, and the checksum of all of
   it.
   */
  ghost predicate KeptSays(c: Checks, n: NormalizedRecord) {
    var r := n.base.record;
    && c.contract(r.schema, r.frontmatter) && r.id != [] && r.recordType != ""
    && (match r.layer
        case Evidence => r.frontmatter.sourceId == Some(r.id)
        case Semantic => r.frontmatter.claimId == Some(r.id)
        case Cognitive => r.frontmatter.cognitiveId == Some(r.id))
    && LintSays(c, r)
    && (forall s | s in r.sections :: s.title != [])
    && (forall i, j | 0 <= i < j < |r.sections| :: TextLess(r.sections[i].title, r.sections[j].title))
    && r.frontmatter.version == Some(n.base.version)
    && n.checksum == RecordChecksum(n.base)
    && (match r.layer
        case Evidence => n.base.role == "evidence"
        case Semantic => n.base.role == "semantic"
        case Cognitive =>
          if r.recordType == "governing_system" || r.recordType == "governing_module" then n.base.role == r.recordType
          else n.base.role == "ordinary_framework")
  }

  lemma SectionIs(sections: seq<Section>, title: Text)
    ensures SectionSays(sections, title, SectionContent(sections, title))
  {
    if sections != [] && sections[0].title != title {
      SectionIs(sections[1..], title);
      assert sections == [sections[0]] + sections[1..];
    }
  }

  lemma SectionsAreSorted(r: AuthorityRecord)
    requires SectionsHold(r.sections) && r == InTitleOrder(r)
    ensures forall i, j | 0 <= i < j < |r.sections| :: TextLess(r.sections[i].title, r.sections[j].title)
  {
    SortSorts(r.sections, TitleKey());
    hide Sort, TextLess;
    forall i, j | 0 <= i < j < |r.sections| ensures TextLess(r.sections[i].title, r.sections[j].title) {
      assert TextAtMost(TitleKey()(r.sections[i]), TitleKey()(r.sections[j]));
      assert TitleKey()(r.sections[i]) != TitleKey()(r.sections[j]);
    }
  }

  lemma LintIs(c: Checks, r: AuthorityRecord)
    ensures LintHolds(c, r) <==> LintSays(c, r)
  {
    hide Ascii;
    forall title ensures Filled(c, r.sections, title) <==> HasContent(c, r, title) {}
  }

  lemma KeptIs(c: Checks, n: NormalizedRecord)
    requires Rebuilds(c, n)
    ensures KeptSays(c, n)
  {
    hide Sort, TextLess, LintHolds, LintSays;
    var r := n.base.record;
    assert r == InTitleOrder(r);
    SectionsAreSorted(r);
    LintIs(c, r);
  }

  /******* Digest *******/

  ghost predicate ModuleSays(m: ModuleDigest, r: NormalizedRecord, active: Text) {
    && m.id == r.base.record.id && m.version == r.base.version && m.governedBy == active
    && SectionSays(r.base.record.sections, Ascii("Runtime digest"), m.runtimeDigest)
  }

  /** The active system, and each module it governs, once and in order, with what its own record says. */
  ghost predicate DigestSays(digest: Digest, records: seq<NormalizedRecord>, active: Option<Text>) {
    match active
    case None => digest.NoSystem?
    case Some(id) =>
      && digest.Digest? && digest.active == id
      && (exists r | r in records ::
            && r.base.record.id == id && r.base.role == "governing_system" && digest.version == r.base.version
            && SectionSays(r.base.record.sections, Ascii("Runtime digest"), digest.runtimeDigest)
            && SectionSays(r.base.record.sections, Ascii("Persistent Kernel"), digest.kernel))
      && (forall i, j | 0 <= i < j < |digest.modules| :: TextLess(digest.modules[i].id, digest.modules[j].id))
      && (forall m | m in digest.modules :: exists r | r in records :: Governed(r, id) && ModuleSays(m, r, id))
      && (forall r | r in records && Governed(r, id) :: exists m | m in digest.modules :: ModuleSays(m, r, id))
  }

  function DigestOf(r: NormalizedRecord, active: Text): ModuleDigest {
    ModuleDigest(r.base.record.id, r.base.version, active,
                 SectionContent(r.base.record.sections, Ascii("Runtime digest")))
  }

  lemma {:induction false} ModuleComesFrom(records: seq<NormalizedRecord>, active: Text, m: ModuleDigest)
    returns (r: NormalizedRecord)
    requires m in Modules(records, active)
    ensures r in records && Governed(r, active) && m == DigestOf(r, active)
  {
    if Governed(records[0], active) && m == DigestOf(records[0], active) {
      r := records[0];
    } else {
      r := ModuleComesFrom(records[1..], active, m);
    }
  }

  lemma {:induction false} ModuleIsListed(records: seq<NormalizedRecord>, active: Text, r: NormalizedRecord)
    requires r in records && Governed(r, active)
    ensures DigestOf(r, active) in Modules(records, active)
  {
    if records[0] != r { ModuleIsListed(records[1..], active, r); }
  }

  lemma {:induction false} ModulesAreDistinct(records: seq<NormalizedRecord>, active: Text)
    requires DistinctBy(records, NormalKey())
    ensures DistinctBy(Modules(records, active), ModuleKey())
  {
    if records != [] {
      var r, others := records[0], Modules(records[1..], active);
      ModulesAreDistinct(records[1..], active);
      if Governed(r, active) {
        assert Modules(records, active) == [DigestOf(r, active)] + others;
        forall k | 0 <= k < |others| ensures others[k].id != r.base.record.id {
          var s := ModuleComesFrom(records[1..], active, others[k]);
          var j :| 0 <= j < |records[1..]| && records[1..][j] == s;
          assert NormalKey()(records[0]) != NormalKey()(records[j + 1]);
        }
      } else {
        assert Modules(records, active) == others;
      }
    }
  }

  lemma SortedModules(records: seq<NormalizedRecord>, active: Text)
    requires DistinctBy(records, NormalKey())
    ensures var modules := Sort(Modules(records, active), ModuleKey());
            && (forall i, j | 0 <= i < j < |modules| :: TextLess(modules[i].id, modules[j].id))
            && (forall m :: m in modules <==> m in Modules(records, active))
  {
    var modules := Modules(records, active);
    var sorted := Sort(modules, ModuleKey());
    ModulesAreDistinct(records, active);
    SortSorts(modules, ModuleKey());
    DistinctIsAboutContents(modules, sorted, ModuleKey());
    hide Modules, Sort, TextLess;
    forall i, j | 0 <= i < j < |sorted| ensures TextLess(sorted[i].id, sorted[j].id) {
      assert TextAtMost(ModuleKey()(sorted[i]), ModuleKey()(sorted[j]));
      assert ModuleKey()(sorted[i]) != ModuleKey()(sorted[j]);
    }
    forall m ensures m in sorted <==> m in modules { assert m in multiset(sorted) <==> m in multiset(modules); }
  }

  lemma DigestOfSays(r: NormalizedRecord, active: Text)
    ensures ModuleSays(DigestOf(r, active), r, active)
  {
    SectionIs(r.base.record.sections, Ascii("Runtime digest"));
  }

  lemma {:induction false} FindsRecord(records: seq<NormalizedRecord>, id: Text)
    ensures var found := FindRecord(records, id);
            found.Some? ==> found.value in records && found.value.base.record.id == id
  {
    if records != [] { FindsRecord(records[1..], id); }
  }

  lemma DigestIs(records: seq<NormalizedRecord>, active: Option<Text>)
    requires DistinctBy(records, NormalKey()) && DigestFor(records, active).Some?
    ensures DigestFor(records, active).value.DigestPayload?
            && DigestSays(DigestFor(records, active).value.digest, records, active)
  {
    if active.Some? {
      hide Modules, TextLess, Sort, ModuleSays;
      var id, digest := active.value, DigestFor(records, active).value.digest;
      FindsRecord(records, id);
      var system := FindRecord(records, id).value;
      SectionIs(system.base.record.sections, Ascii("Runtime digest"));
      SectionIs(system.base.record.sections, Ascii("Persistent Kernel"));
      SortedModules(records, id);
      hide SectionSays, Ascii;
      forall m | m in digest.modules ensures exists r | r in records :: Governed(r, id) && ModuleSays(m, r, id) {
        var r := ModuleComesFrom(records, id, m);
        DigestOfSays(r, id);
      }
      forall r | r in records && Governed(r, id) ensures exists m | m in digest.modules :: ModuleSays(m, r, id) {
        ModuleIsListed(records, id, r);
        DigestOfSays(r, id);
        assert DigestOf(r, id) in digest.modules;
      }
    }
  }

  /******* Registry, entries, index and view *******/

  ghost predicate Registers(e: RegistryEntry, r: NormalizedRecord, g: GenerationId) {
    && e.id == r.base.record.id && e.role == r.base.role && e.version == r.base.version
    && e.generation == g && e.checksum == r.checksum
    && forall id :: e.governedBy == Some(id) <==> LinksTo(r, id)
  }

  ghost predicate RegistrySays(p: Payload, records: seq<NormalizedRecord>, g: GenerationId) {
    && p.RegistryPayload? && |p.entries| == |records|
    && (forall i | 0 <= i < |records| :: Registers(p.entries[i], records[i], g))
    && multiset(p.checksum.entries) == multiset(p.entries)
    && forall i, j | 0 <= i < j < |p.checksum.entries| :: TextLess(p.checksum.entries[i].id, p.checksum.entries[j].id)
  }

  /** The record as it is projected: its own fields, its body, and its source references in order. */
  ghost predicate Projects(e: ProjectionEntry, n: NormalizedRecord, g: GenerationId) {
    var r := n.base.record;
    && e.generation == g && e.layer == r.layer && e.stableId == r.id && e.version == n.base.version
    && e.role == (if r.recordType == "personal_model" then "personal_model" else n.base.role)
    && e.checksum == n.checksum && e.content == r.body
    && (r.frontmatter.sourceRefs.Absent? || r.frontmatter.sourceRefs.Refs?)
    && multiset(e.sourceRefs) == multiset(if r.frontmatter.sourceRefs.Refs? then r.frontmatter.sourceRefs.ids else [])
    && forall k, l | 0 <= k < l < |e.sourceRefs| :: TextAtMost(e.sourceRefs[k], e.sourceRefs[l])
  }

  ghost predicate EntriesSay(entries: seq<ProjectionEntry>, records: seq<NormalizedRecord>, g: GenerationId) {
    |entries| == |records| && forall i | 0 <= i < |records| :: Projects(entries[i], records[i], g)
  }

  ghost predicate IndexSays(p: Payload, records: seq<NormalizedRecord>) {
    && p.IndexPayload? && |p.index| == |records|
    && forall i | 0 <= i < |records| ::
         p.index[i] == IndexEntry(records[i].base.record.id, records[i].base.record.layer, records[i].base.role,
                                  records[i].base.version, records[i].checksum)
  }

  ghost predicate ViewSays(p: Payload, records: seq<NormalizedRecord>, active: Option<Text>, revision: string) {
    && p.ViewPayload? && p.revision == revision && p.active == active && |p.refs| == |records|
    && forall i | 0 <= i < |records| :: p.refs[i] == records[i].base.record.id
  }

  lemma EntryRegisters(r: NormalizedRecord, g: GenerationId)
    ensures Registers(RegistryEntryOf(r, g), r, g)
  {}

  lemma RegistryIsSorted(records: seq<NormalizedRecord>, g: GenerationId)
    requires DistinctBy(records, NormalKey())
    ensures var entries := RegistryEntries(records, g);
            var sorted := ChecksumOfRegistry(entries).entries;
            && multiset(sorted) == multiset(entries)
            && forall i, j | 0 <= i < j < |sorted| :: TextLess(sorted[i].id, sorted[j].id)
  {
    var entries := RegistryEntries(records, g);
    var sorted := Sort(entries, RegistryKey());
    forall i, j | 0 <= i < j < |entries| ensures RegistryKey()(entries[i]) != RegistryKey()(entries[j]) {
      assert NormalKey()(records[i]) != NormalKey()(records[j]);
    }
    SortSorts(entries, RegistryKey());
    DistinctIsAboutContents(entries, sorted, RegistryKey());
    hide Sort, TextLess, RegistryEntries;
    forall i, j | 0 <= i < j < |sorted| ensures TextLess(sorted[i].id, sorted[j].id) {
      assert TextAtMost(RegistryKey()(sorted[i]), RegistryKey()(sorted[j]));
      assert RegistryKey()(sorted[i]) != RegistryKey()(sorted[j]);
    }
  }

  lemma RegistryIs(records: seq<NormalizedRecord>, g: GenerationId)
    requires DistinctBy(records, NormalKey())
    ensures RegistrySays(RegistryFor(records, g), records, g)
  {
    hide Registers, ChecksumOfRegistry, TextLess, DistinctBy;
    RegistryIsSorted(records, g);
    var entries := RegistryEntries(records, g);
    forall i | 0 <= i < |records| ensures Registers(entries[i], records[i], g) {
      assert entries[i] == RegistryEntryOf(records[i], g);
      EntryRegisters(records[i], g);
    }
  }

  lemma EntryProjects(n: NormalizedRecord, g: GenerationId)
    requires Projectable(n)
    ensures Projects(EntryFor(n, g), n, g)
  {
    var refs := n.base.record.frontmatter.sourceRefs;
    if refs.Refs? {
      SortSorts(refs.ids, TextKey());
      var sorted := Sort(refs.ids, TextKey());
      assert forall k, l | 0 <= k < l < |sorted| :: TextAtMost(TextKey()(sorted[k]), TextKey()(sorted[l]));
    }
  }

  lemma EntriesAre(records: seq<NormalizedRecord>, g: GenerationId)
    requires forall r | r in records :: Projectable(r)
    ensures EntriesSay(EntriesFor(records, g), records, g)
  {
    hide Projects, Projectable;
    var entries := EntriesFor(records, g);
    forall i | 0 <= i < |records| ensures Projects(entries[i], records[i], g) {
      assert records[i] in records && entries[i] == EntryFor(records[i], g);
      EntryProjects(records[i], g);
    }
  }

  lemma {:induction false} IndexIs(records: seq<NormalizedRecord>)
    ensures IndexSays(IndexPayload(IndexFor(records)), records)
  {
    if records != [] { IndexIs(records[1..]); }
  }

  lemma {:induction false} ViewIs(records: seq<NormalizedRecord>, active: Option<Text>, revision: string)
    ensures ViewSays(ViewPayload(revision, active, Ids(records)), records, active, revision)
  {}

  /******* Domains *******/

  /** An embedded domain is its manifest's own: same revision, and each listed payload once, as listed. */
  ghost predicate EmbeddedSays(d: EmbeddedDomain) {
    && d.input.manifestChecksum == DomainManifestChecksum(d.manifest)
    && d.input.revision == d.manifest.revision && d.input.sourceRevision == d.manifest.sourceRevision
    && d.input.asOf == d.manifest.asOf
    && |d.payloads| == |d.manifest.payloads|
    && (forall i, j | 0 <= i < j < |d.payloads| :: d.payloads[i].path != d.payloads[j].path)
    && (forall p | p in d.payloads :: PayloadListed(p, d.manifest))
    && forall x | x in d.manifest.payloads :: exists p | p in d.payloads :: p.path == x.path
  }

  predicate PayloadListed(p: EmbeddedPayload, m: DomainManifest) {
    ManifestPayload(p.stableId, p.path, p.media, p.checksum) in m.payloads && p.checksum == ContentChecksum(p.content)
  }

  predicate IndexesPayload(doc: IndexDocument, p: EmbeddedPayload, d: EmbeddedDomain, g: GenerationId) {
    && doc.stableId == p.stableId && doc.payloadPath == p.path
    && doc.documentPath == DomainDocument(g, d.input.domainId, p.stableId)
    && doc.checksum == p.checksum && Some(doc.sentinel) == p.content.sentinel && doc.references == d.manifest.references
  }

  /** A domain's index says what is embedded: every payload, in order, with what is to be found of it. */
  ghost predicate IndexesDomain(x: DomainIndex, d: EmbeddedDomain, g: GenerationId) {
    && x.generation == g && x.domainId == d.input.domainId && x.revision == d.input.revision
    && x.manifestChecksum == d.input.manifestChecksum && x.retractions == d.manifest.retractions
    && |x.documents| == |d.payloads|
    && forall k | 0 <= k < |d.payloads| :: IndexesPayload(x.documents[k], d.payloads[k], d, g)
  }

  ghost predicate DomainIndexSays(p: Payload, domains: seq<EmbeddedDomain>, g: GenerationId) {
    && p.DomainIndexPayload? && |p.domainIndexes| == |domains|
    && forall i | 0 <= i < |domains| :: IndexesDomain(p.domainIndexes[i], domains[i], g)
  }

  lemma EmbeddedIs(d: EmbeddedDomain)
    requires EmbeddedHolds(d)
    ensures EmbeddedSays(d)
  {
    forall p | p in d.payloads ensures PayloadListed(p, d.manifest) {
      var found := FindPayload(d.manifest.payloads, p.path);
      assert found.value in d.manifest.payloads;
      assert found.value == ManifestPayload(p.stableId, p.path, p.media, p.checksum);
    }
    forall i, j | 0 <= i < j < |d.payloads| ensures d.payloads[i].path != d.payloads[j].path {
      assert EmbeddedKey()(d.payloads[i]) != EmbeddedKey()(d.payloads[j]);
    }
  }

  lemma {:induction false} DocumentsAre(g: GenerationId, d: EmbeddedDomain, payloads: seq<EmbeddedPayload>)
    requires forall p | p in payloads :: p.content.sentinel.Some?
    ensures forall k | 0 <= k < |payloads| :: IndexesPayload(DocumentsFor(g, d, payloads)[k], payloads[k], d, g)
  {
    if payloads != [] {
      assert payloads[0] in payloads;
      DocumentsAre(g, d, payloads[1..]);
    }
  }

  lemma {:induction false} DomainIndexIs(domains: seq<EmbeddedDomain>, g: GenerationId)
    requires forall d | d in domains :: HasText(d)
    ensures DomainIndexSays(DomainIndexPayload(DomainIndexesFor(domains, g)), domains, g)
  {
    if domains != [] {
      assert domains[0] in domains && HasText(domains[0]);
      DocumentsAre(g, domains[0], domains[0].payloads);
      assert IndexesDomain(IndexOfDomain(g, domains[0]), domains[0], g);
      hide HasText, IndexesDomain, IndexOfDomain;
      DomainIndexIs(domains[1..], g);
    }
  }

  /******* References *******/

  /** Some record is called `id`, and is of this layer. */
  ghost predicate Names(records: seq<AuthorityRecord>, id: Text, layer: Option<Layer>) {
    exists r | r in records :: r.id == id && (layer.Some? ==> r.layer == layer.value)
  }

  ghost predicate NamesSystem(records: seq<AuthorityRecord>, id: Text) {
    exists r | r in records :: r.id == id && r.layer.Cognitive? && r.recordType == "governing_system"
  }

  ghost predicate ListNames(records: seq<AuthorityRecord>, refs: Refs, layer: Option<Layer>) {
    !refs.NotList? && (refs.Refs? ==> forall id | id in refs.ids :: Names(records, id, layer))
  }

  /** What a record refers to is there, and of the right kind; a governing module has a governing system. */
  ghost predicate RefersTo(records: seq<AuthorityRecord>, r: AuthorityRecord) {
    var f := r.frontmatter;
    && (r.layer.Semantic? ==>
          && ListNames(records, f.sourceRefs, Some(Evidence)) && ListNames(records, f.supersedes, Some(Semantic))
          && (r.schema.SemanticV2? ==> ListNames(records, f.relatedClaims, Some(Semantic)))
          && (!r.schema.SemanticV2? ==> ListNames(records, f.counterevidenceRefs, None)))
    && (r.layer.Cognitive? ==>
          && ListNames(records, f.sourceRefs, Some(Evidence))
          && f.relations.Relations? && f.relations.complements.Refs? && f.relations.tensions.Refs?
          && ListNames(records, f.relations.complements, Some(Cognitive))
          && ListNames(records, f.relations.tensions, Some(Cognitive))
          && (f.relations.parent.NoLink?
              || (f.relations.parent.Link? && f.relations.parent.id != []
                  && Names(records, f.relations.parent.id, Some(Cognitive))))
          && (f.relations.governedBy.NoLink?
              || (f.relations.governedBy.Link? && f.relations.governedBy.id != []
                  && NamesSystem(records, f.relations.governedBy.id)))
          && (r.recordType == "governing_module" ==> f.relations.governedBy.Link?))
  }

  lemma RebuiltAreDistinct(records: seq<NormalizedRecord>)
    requires DistinctBy(records, NormalKey())
    ensures DistinctBy(Rebuilt(records), RecordKey())
    ensures forall n | n in records :: n.base.record in Rebuilt(records)
  {
    var rebuilt := Rebuilt(records);
    forall i, j | 0 <= i < j < |rebuilt| ensures RecordKey()(rebuilt[i]) != RecordKey()(rebuilt[j]) {
      assert NormalKey()(records[i]) != NormalKey()(records[j]);
    }
    forall n | n in records ensures n.base.record in rebuilt {
      var i :| 0 <= i < |records| && records[i] == n;
      assert rebuilt[i] in rebuilt;
    }
  }

  /** References hold exactly when what every record refers to is there, of records with distinct ids. */
  lemma ReferencesExactly(records: seq<AuthorityRecord>, active: Option<Text>)
    requires DistinctBy(records, RecordKey())
    ensures ReferencesHold(records, active) <==>
            (forall r | r in records :: RefersTo(records, r)) && (active.Some? ==> NamesSystem(records, active.value))
  {
    hide DistinctBy, Resolves, ResolvesToSystem, Names, NamesSystem;
    forall id, layer ensures Resolves(records, id, layer) <==> Names(records, id, layer) {
      NamesExactly(records, id, layer);
    }
    forall id ensures ResolvesToSystem(records, id) <==> NamesSystem(records, id) { NamesExactly(records, id, None); }
    forall r ensures ReferencesResolve(records, r) <==> RefersTo(records, r) {}
  }

  lemma NamesExactly(records: seq<AuthorityRecord>, id: Text, layer: Option<Layer>)
    requires DistinctBy(records, RecordKey())
    ensures Resolves(records, id, layer) <==> Names(records, id, layer)
    ensures ResolvesToSystem(records, id) <==> NamesSystem(records, id)
  {
    hide DistinctBy, Resolves, ResolvesToSystem;
    ResolvesExactly(records, id, layer);
  }

  /******* Directories *******/

  /** The artifact at `path` holds this payload, under the directory's metadata and its own checksum. */
  predicate Holds(d: Directory, path: Path, p: Payload) {
    path in d.files && d.files[path] == ArtifactFile(d.manifest.metadata, PayloadChecksum(p), p)
  }

  /** Each entry has its document. */
  predicate EntriesWritten(d: Directory, entries: seq<ProjectionEntry>) {
    forall e | e in entries ::
      var path := EntryDocument(e.generation, e.layer, e.role, e.stableId, e.version, e.checksum);
      path in d.files && d.files[path] == DocumentFile(EntryText(e))
  }

  /** Everything a generation derives from its records, in their own fields. */
  ghost predicate RecordsSay(c: Checks, d: Directory, records: seq<NormalizedRecord>, active: Option<Text>) {
    var g := d.manifest.metadata.generation;
    && (forall i, j | 0 <= i < j < |records| :: records[i].base.record.id != records[j].base.record.id)
    && (forall n | n in records :: KeptSays(c, n) && RefersTo(Rebuilt(records), n.base.record))
    && (active.Some? ==> NamesSystem(Rebuilt(records), active.value))
    && Holds(d, RecordsPath, RecordsPayload(records))
    && (exists digest :: Holds(d, DigestPath, DigestPayload(digest)) && DigestSays(digest, records, active))
    && (exists p :: Holds(d, RegistryPath, p) && RegistrySays(p, records, g))
    && (exists p :: Holds(d, IndexPath, p) && IndexSays(p, records))
    && (exists p :: Holds(d, ViewPath, p) && ViewSays(p, records, active, d.manifest.metadata.sourceRevision))
    && (exists entries: seq<ProjectionEntry> ::
          Holds(d, EntriesPath, EntriesPayload(entries)) && EntriesSay(entries, records, g)
            && EntriesWritten(d, entries))
  }

  /** The document of a payload: indexed as its domain says, with the content embedded under that domain and path. */
  ghost predicate DocumentSays(d: Directory, domains: seq<EmbeddedDomain>, x: EmbeddedDomain, p: EmbeddedPayload) {
    var g := d.manifest.metadata.generation;
    var path := DomainDocument(g, x.input.domainId, p.stableId);
    && path in d.files
    && exists owner, source, doc | owner in domains && source in owner.payloads ::
         && owner.input.domainId == x.input.domainId && source.path == p.path
         && IndexesPayload(doc, p, x, g)
         && d.files[path] == DocumentFile(DomainText(g, owner.input, doc, source.content))
  }

  /** Everything it says of its domains. */
  ghost predicate DomainsSay(d: Directory, domains: seq<EmbeddedDomain>) {
    && Holds(d, DomainsPath, DomainsPayload(domains))
    && (exists p :: Holds(d, DomainIndexPath, p) && DomainIndexSays(p, domains, d.manifest.metadata.generation))
    && (forall x | x in domains :: EmbeddedSays(x))
    && (forall x, p | x in domains && p in x.payloads :: DocumentSays(d, domains, x, p))
  }

  predicate Listed(d: Directory, p: Path) { exists f | f in d.manifest.files :: f.path == p }

  /** The manifest lists exactly the files there are, once each, with their checksums and listed dependencies. */
  ghost predicate FilesSay(d: Directory) {
    && (forall p :: p in d.files <==> Listed(d, p))
    && (forall i, j | 0 <= i < j < |d.manifest.files| :: d.manifest.files[i].path != d.manifest.files[j].path)
    && (forall f | f in d.manifest.files :: f.path in d.files && f.checksum == FileChecksum(d.files[f.path]))
    && (forall f, p | f in d.manifest.files && p in f.dependencies :: Listed(d, p))
    && (forall p | p in d.files && !p.EntryDocument? && !p.DomainDocument? && (p.OtherPath? ==> p.json) ::
          d.files[p].ArtifactFile? && Holds(d, p, d.files[p].payload))
  }

  lemma FilesAreSaid(d: Directory)
    requires FilesHold(d)
    ensures FilesSay(d)
  {
    hide FileHolds;
    forall p ensures p in d.files <==> Listed(d, p) { assert p in d.files.Keys <==> p in PathsOf(d.manifest.files); }
    forall f | f in d.manifest.files ensures f.path in d.files && f.checksum == FileChecksum(d.files[f.path]) {
      FileIsSaid(d, f);
    }
    forall f, p | f in d.manifest.files && p in f.dependencies ensures Listed(d, p) {
      FileIsSaid(d, f);
      assert p in PathsOf(d.manifest.files);
    }
    forall p | p in d.files && !p.EntryDocument? && !p.DomainDocument? && (p.OtherPath? ==> p.json)
      ensures d.files[p].ArtifactFile? && Holds(d, p, d.files[p].payload)
    {
      assert Listed(d, p);
      var f :| f in d.manifest.files && f.path == p;
      FileIsSaid(d, f);
    }
  }

  /** The file checks accept exactly such directories. */
  lemma FilesHoldExactly(d: Directory)
    ensures FilesHold(d) <==> FilesSay(d)
  {
    if FilesHold(d) { FilesAreSaid(d); }
    if FilesSay(d) {
      forall p ensures p in d.files.Keys <==> p in PathsOf(d.manifest.files) { assert p in d.files <==> Listed(d, p); }
      forall f | f in d.manifest.files ensures FileHolds(d.manifest, d.files, f) {
        forall p | p in f.dependencies ensures p in PathsOf(d.manifest.files) { assert Listed(d, p); }
      }
    }
  }

  lemma FileIsSaid(d: Directory, f: ManifestFile)
    requires FilesHold(d) && f in d.manifest.files
    ensures f.path in d.files && f.checksum == FileChecksum(d.files[f.path])
    ensures forall p | p in f.dependencies :: p in PathsOf(d.manifest.files)
    ensures !f.path.EntryDocument? && !f.path.DomainDocument? && (f.path.OtherPath? ==> f.path.json) ==>
              d.files[f.path].ArtifactFile? && Holds(d, f.path, d.files[f.path].payload)
  {
    assert FileHolds(d.manifest, d.files, f);
  }

  lemma ArtifactHolds(d: Directory, path: Path)
    requires FilesHold(d) && Has(d, path) && IsJson(path)
    ensures Holds(d, path, PayloadAt(d, path))
  {
    assert path in PathsOf(d.manifest.files);
    var f :| f in d.manifest.files && f.path == path;
    assert FileHolds(d.manifest, d.files, f);
  }

  lemma RegisteredAreDistinct(records: seq<NormalizedRecord>, g: GenerationId)
    requires RegistryHolds(RegistryFor(records, g), g)
    ensures DistinctBy(records, NormalKey())
  {
    var entries := RegistryEntries(records, g);
    forall i, j | 0 <= i < j < |records| ensures NormalKey()(records[i]) != NormalKey()(records[j]) {
      assert RegistryKey()(entries[i]) != RegistryKey()(entries[j]);
    }
  }

  lemma IdsDiffer(records: seq<NormalizedRecord>)
    requires DistinctBy(records, NormalKey())
    ensures forall i, j | 0 <= i < j < |records| :: records[i].base.record.id != records[j].base.record.id
  {
    assert forall i, j | 0 <= i < j < |records| :: NormalKey()(records[i]) != NormalKey()(records[j]);
  }

  lemma RecordsAreSaid(c: Checks, d: Directory, records: seq<NormalizedRecord>, active: Option<Text>)
    requires DistinctBy(records, NormalKey()) && KeptRecordsHold(c, records, active)
    ensures forall i, j | 0 <= i < j < |records| :: records[i].base.record.id != records[j].base.record.id
    ensures forall n | n in records :: KeptSays(c, n) && RefersTo(Rebuilt(records), n.base.record)
    ensures active.Some? ==> NamesSystem(Rebuilt(records), active.value)
  {
    hide DistinctBy, KeptSays, Rebuilds, ReferencesHold, NamesSystem, RefersTo, Rebuilt;
    IdsDiffer(records);
    RebuiltAreDistinct(records);
    ReferencesExactly(Rebuilt(records), active);
    forall n | n in records ensures KeptSays(c, n) && RefersTo(Rebuilt(records), n.base.record) {
      KeptIs(c, n);
      assert n.base.record in Rebuilt(records);
    }
  }

  lemma PresentArtifacts(d: Directory)
    requires FilesHold(d) && RequiredPresent(d)
    ensures forall p | p in {RecordsPath, RegistryPath, DigestPath, EntriesPath, IndexPath, ViewPath} ::
              Holds(d, p, PayloadAt(d, p))
    ensures d.manifest.domains.Some? ==>
              Holds(d, DomainsPath, PayloadAt(d, DomainsPath))
              && Holds(d, DomainIndexPath, PayloadAt(d, DomainIndexPath))
  {
    hide FilesHold, Holds, FileHolds;
    ArtifactHolds(d, RecordsPath);
    ArtifactHolds(d, RegistryPath);
    ArtifactHolds(d, DigestPath);
    ArtifactHolds(d, EntriesPath);
    ArtifactHolds(d, IndexPath);
    ArtifactHolds(d, ViewPath);
    if d.manifest.domains.Some? {
      ArtifactHolds(d, DomainsPath);
      ArtifactHolds(d, DomainIndexPath);
    }
  }

  lemma DerivedParts(content: AuthorityContent, domains: seq<EmbeddedDomain>, revision: string, g: GenerationId)
    requires Derive(content, domains, revision, g).Some?
    ensures var derived := Derive(content, domains, revision, g).value;
            && DigestFor(content.records, content.activeSystem) == Some(derived.digest)
            && derived.registry == RegistryFor(content.records, g)
            && derived.entries == EntriesFor(content.records, g)
            && derived.index == IndexPayload(IndexFor(content.records))
            && derived.view == ViewPayload(revision, content.activeSystem, Ids(content.records))
            && (forall r | r in content.records :: Projectable(r))
            && (forall x | x in domains :: HasText(x))
            && derived.domainIndex == DomainIndexPayload(DomainIndexesFor(domains, g))
  {}

  lemma EntryDocumentsAre(d: Directory)
    requires RequiredPresent(d) && DocumentsHold(d)
    ensures EntriesWritten(d, PayloadAt(d, EntriesPath).projections)
  {
    hide DocumentHolds;
    forall e | e in PayloadAt(d, EntriesPath).projections
      ensures var path := EntryDocument(e.generation, e.layer, e.role, e.stableId, e.version, e.checksum);
              path in d.files && d.files[path] == DocumentFile(EntryText(e))
    {
      assert EntryPath(e) in d.files;
    }
  }

  lemma {:induction false} FoundDomain(domains: seq<EmbeddedDomain>, id: Text)
    ensures var found := FindDomain(domains, id);
            found.Some? ==> found.value in domains && found.value.input.domainId == id
  {
    if domains != [] { FoundDomain(domains[1..], id); }
  }

  lemma {:induction false} FoundEmbedded(payloads: seq<EmbeddedPayload>, path: Text)
    ensures var found := FindEmbedded(payloads, path);
            found.Some? ==> found.value in payloads && found.value.path == path
  {
    if payloads != [] { FoundEmbedded(payloads[1..], path); }
  }

  lemma DocumentIsSaid(d: Directory, domains: seq<EmbeddedDomain>, x: EmbeddedDomain, p: EmbeddedPayload)
    requires DocumentHolds(d.manifest.metadata.generation, domains, d.files, x, p)
    ensures DocumentSays(d, domains, x, p)
  {
    var g := d.manifest.metadata.generation;
    FoundDomain(domains, x.input.domainId);
    var owner := FindDomain(domains, x.input.domainId).value;
    FoundEmbedded(owner.payloads, p.path);
    assert IndexesPayload(DocumentFor(g, x, p), p, x, g);
  }

  lemma DomainsAreSaid(d: Directory)
    requires RequiredPresent(d) && FilesHold(d) && DocumentsHold(d) && DomainsHold(d) && DerivedHolds(d)
    requires d.manifest.domains.Some?
    ensures DomainsSay(d, StoredDomains(d))
  {
    hide FilesHold, Derive, EmbeddedHolds, EmbeddedSays, Holds, DomainIndexSays, DocumentHolds, DocumentSays,
         DomainIndexesFor, HasText;
    var domains, g := StoredDomains(d), d.manifest.metadata.generation;
    PresentArtifacts(d);
    DerivedParts(StoredContent(d), domains, d.manifest.metadata.sourceRevision, g);
    DomainIndexIs(domains, g);
    assert Holds(d, DomainsPath, DomainsPayload(domains));
    assert Holds(d, DomainIndexPath, PayloadAt(d, DomainIndexPath));
    forall x | x in domains ensures EmbeddedSays(x) { EmbeddedIs(x); }
    forall x, p | x in domains && p in x.payloads ensures DocumentSays(d, domains, x, p) {
      DocumentIsSaid(d, domains, x, p);
    }
  }

  /**
   Of every directory that verifies: the digest, registry, entries, index, view, domain index and documents say what
   the kept records and embedded domains say, field by field, and every reference among the records is there.
   */
  lemma VerifiedSays(c: Checks, d: Directory)
    requires Verifies(c, d)
    ensures RequiredPresent(d) && FilesSay(d)
    ensures d.name.Named? ==> d.name.id == d.manifest.metadata.generation
    ensures RecordsSay(c, d, StoredContent(d).records, StoredContent(d).activeSystem)
    ensures d.manifest.domains.Some? ==> DomainsSay(d, StoredDomains(d))
  {
    hide FilesHold, FilesSay, Derive, KeptRecordsHold, RegistryHolds, EmbeddedHolds, Holds, DigestSays, RegistrySays,
         EntriesSay,
         IndexSays, ViewSays, DomainIndexSays, DocumentsHold, KeptSays, RefersTo, NamesSystem, RegistryFor, DistinctBy,
         DigestFor, EntriesFor, IndexFor, Ids, DomainsSay, ExpectedId;
    var records, active, g := StoredContent(d).records, StoredContent(d).activeSystem, d.manifest.metadata.generation;
    FilesAreSaid(d);
    PresentArtifacts(d);
    DerivedParts(StoredContent(d), StoredDomains(d), d.manifest.metadata.sourceRevision, g);
    RegisteredAreDistinct(records, g);
    RecordsAreSaid(c, d, records, active);
    DigestIs(records, active);
    RegistryIs(records, g);
    EntriesAre(records, g);
    IndexIs(records);
    ViewIs(records, active, d.manifest.metadata.sourceRevision);
    assert Holds(d, DigestPath, DigestPayload(PayloadAt(d, DigestPath).digest));
    assert Holds(d, RegistryPath, PayloadAt(d, RegistryPath));
    assert Holds(d, IndexPath, PayloadAt(d, IndexPath));
    assert Holds(d, ViewPath, PayloadAt(d, ViewPath));
    assert Holds(d, EntriesPath, EntriesPayload(PayloadAt(d, EntriesPath).projections));
    EntryDocumentsAre(d);
    if d.manifest.domains.Some? { DomainsAreSaid(d); }
  }

  /******* Building *******/

  /** The record as read, with its sections by title. */
  ghost predicate KeptFrom(r: AuthorityRecord, n: NormalizedRecord) {
    n.base.record == r.(sections := n.base.record.sections) && multiset(n.base.record.sections) == multiset(r.sections)
  }

  ghost predicate IsKept(r: AuthorityRecord, records: seq<NormalizedRecord>) {
    exists n | n in records :: KeptFrom(r, n)
  }

  /** Every record that was read, by id, and nothing else. */
  ghost predicate RecordsKept(read: seq<AuthorityRecord>, records: seq<NormalizedRecord>) {
    && |records| == |read| && (forall r | r in read :: IsKept(r, records))
    && forall i, j | 0 <= i < j < |records| :: TextLess(records[i].base.record.id, records[j].base.record.id)
  }

  predicate SamePayload(q: ConsumedPayload, p: EmbeddedPayload) {
    p.path == q.path && p.media == q.media && p.checksum == q.checksum && p.content == q.content
  }

  /** The projection as consumed, its payloads by path. */
  ghost predicate EmbeddedFrom(d: DomainProjection, x: EmbeddedDomain) {
    var p := d.projection;
    && x.input == DomainIdentity(d.domainId, p.status, p.revision, p.pointerRevision, p.manifestChecksum,
                                 p.sourceRevision, p.asOf)
    && x.manifest == p.manifest && |x.payloads| == |p.payloads|
    && (forall q | q in p.payloads :: exists e | e in x.payloads :: SamePayload(q, e))
    && forall i, j | 0 <= i < j < |x.payloads| :: TextLess(x.payloads[i].path, x.payloads[j].path)
  }

  ghost predicate IsEmbedded(d: DomainProjection, domains: seq<EmbeddedDomain>) {
    exists x | x in domains :: EmbeddedFrom(d, x)
  }

  /** Every projection that was consumed, by domain, and none that offers current state. */
  ghost predicate DomainsEmbedded(consumed: seq<DomainProjection>, domains: seq<EmbeddedDomain>) {
    && |domains| == |consumed|
    && (forall d | d in consumed :: IsEmbedded(d, domains) && !d.projection.manifest.offersFitnessState)
    && forall i, j | 0 <= i < j < |domains| :: TextLess(domains[i].input.domainId, domains[j].input.domainId)
  }

  lemma StrictlySorted<T>(s: seq<T>, key: T -> Text)
    requires DistinctBy(s, key)
    ensures var sorted := Sort(s, key);
            && multiset(sorted) == multiset(s) && |sorted| == |s| && (forall x :: x in sorted <==> x in s)
            && forall i, j | 0 <= i < j < |sorted| :: TextLess(key(sorted[i]), key(sorted[j]))
  {
    hide TextLess;
    var sorted := Sort(s, key);
    SortSorts(s, key);
    DistinctIsAboutContents(s, sorted, key);
    assert |multiset(sorted)| == |sorted| && |multiset(s)| == |s|;
    forall x ensures x in sorted <==> x in s { assert x in multiset(sorted) <==> x in multiset(s); }
    forall i, j | 0 <= i < j < |sorted| ensures TextLess(key(sorted[i]), key(sorted[j])) {
      assert TextAtMost(key(sorted[i]), key(sorted[j])) && key(sorted[i]) != key(sorted[j]);
    }
  }

  lemma RecordsAreKept(read: seq<AuthorityRecord>)
    requires DistinctBy(read, RecordKey())
    ensures RecordsKept(read, SortedRecords(read))
  {
    hide TextLess, Sort;
    var normal := NormalizeRecords(read);
    forall i, j | 0 <= i < j < |normal| ensures NormalKey()(normal[i]) != NormalKey()(normal[j]) {
      assert RecordKey()(read[i]) != RecordKey()(read[j]);
    }
    StrictlySorted(normal, NormalKey());
    var sorted := SortedRecords(read);
    forall r | r in read ensures IsKept(r, sorted) {
      var i :| 0 <= i < |read| && read[i] == r;
      assert normal[i] in sorted && normal[i] == NormalizeRecord(r);
      SortSorts(r.sections, TitleKey());
      assert KeptFrom(r, normal[i]);
    }
    assert forall i, j | 0 <= i < j < |sorted| :: TextLess(NormalKey()(sorted[i]), NormalKey()(sorted[j]));
  }

  lemma StrictOrder<T>(s: seq<T>, key: T -> Text)
    requires SortedBy(s, key) && DistinctBy(s, key)
    ensures forall i, j | 0 <= i < j < |s| :: TextLess(key(s[i]), key(s[j]))
  {}

  lemma SortedMembers<T>(s: seq<T>, key: T -> Text)
    ensures var sorted := Sort(s, key);
            |sorted| == |s| && (forall x :: x in sorted <==> x in s) && SortedBy(sorted, key)
  {
    hide SortedBy;
    var sorted := Sort(s, key);
    SortSorts(s, key);
    assert |multiset(sorted)| == |sorted| && |multiset(s)| == |s|;
    forall x ensures x in sorted <==> x in s { assert x in multiset(sorted) <==> x in multiset(s); }
  }

  lemma EmbeddedArePayloads(d: DomainProjection)
    requires DomainHolds(d)
    ensures var x := EmbedDomain(d);
            && |x.payloads| == |d.projection.payloads| && SortedBy(x.payloads, EmbeddedKey())
            && forall q | q in d.projection.payloads :: exists e | e in x.payloads :: SamePayload(q, e)
  {
    hide Sort, FindPayload, SortedBy, DistinctBy, TextLess;
    var all, x := EmbedAll(d.projection.manifest, d.projection.payloads), EmbedDomain(d);
    SortedMembers(all, EmbeddedKey());
    forall q | q in d.projection.payloads ensures exists e | e in x.payloads :: SamePayload(q, e) {
      var i :| 0 <= i < |all| && d.projection.payloads[i] == q;
      assert all[i] in x.payloads && SamePayload(q, all[i]);
    }
  }

  lemma EmbeddedPathsDiffer(d: DomainProjection)
    requires DomainHolds(d)
    ensures DistinctBy(EmbedDomain(d).payloads, EmbeddedKey())
  {
    hide DomainHolds, EmbedDomain;
    EmbeddedIsValid(d);
  }

  lemma DomainIsEmbedded(d: DomainProjection)
    requires DomainHolds(d)
    ensures EmbeddedFrom(d, EmbedDomain(d))
  {
    hide Sort, SortedBy, DistinctBy, TextLess, DomainHolds, EmbedAll, SamePayload;
    var x := EmbedDomain(d);
    EmbeddedArePayloads(d);
    EmbeddedPathsDiffer(d);
    StrictOrder(x.payloads, EmbeddedKey());
    assert forall i, j | 0 <= i < j < |x.payloads| ::
             TextLess(EmbeddedKey()(x.payloads[i]), EmbeddedKey()(x.payloads[j]));
  }

  lemma DomainsAreSorted(consumed: seq<DomainProjection>)
    requires NormalizeDomains(consumed).Some?
    ensures var all, domains := EmbedDomains(consumed), NormalizeDomains(consumed).value;
            && |domains| == |all| && (forall x :: x in domains <==> x in all)
            && forall i, j | 0 <= i < j < |domains| :: TextLess(domains[i].input.domainId, domains[j].input.domainId)
  {
    hide TextLess, Sort, DomainHolds, EmbedDomain, DistinctBy, SortedBy, EmbeddedHolds;
    var domains := NormalizeDomains(consumed).value;
    NormalizedDomainsAreValid(consumed);
    SortedMembers(EmbedDomains(consumed), DomainKey());
    StrictOrder(domains, DomainKey());
    assert forall i, j | 0 <= i < j < |domains| :: TextLess(DomainKey()(domains[i]), DomainKey()(domains[j]));
  }

  lemma EachIsEmbedded(consumed: seq<DomainProjection>, d: DomainProjection)
    requires NormalizeDomains(consumed).Some? && d in consumed
    ensures IsEmbedded(d, NormalizeDomains(consumed).value) && !d.projection.manifest.offersFitnessState
  {
    hide TextLess, Sort, SortedBy, DistinctBy, DomainHolds, EmbedDomain, EmbeddedFrom;
    assert DomainHolds(d);
    var all, domains := EmbedDomains(consumed), NormalizeDomains(consumed).value;
    DomainsAreSorted(consumed);
    var i :| 0 <= i < |all| && consumed[i] == d;
    DomainIsEmbedded(d);
    assert all[i] in domains && all[i] == EmbedDomain(d);
    OffersNothing(d);
  }

  lemma DomainsAreEmbedded(consumed: seq<DomainProjection>)
    requires NormalizeDomains(consumed).Some?
    ensures DomainsEmbedded(consumed, NormalizeDomains(consumed).value)
  {
    hide TextLess, Sort, DistinctBy, DomainHolds, EmbedDomain, IsEmbedded;
    var domains := NormalizeDomains(consumed).value;
    DomainsAreSorted(consumed);
    forall d | d in consumed ensures IsEmbedded(d, domains) && !d.projection.manifest.offersFitnessState {
      EachIsEmbedded(consumed, d);
    }
  }

  lemma OffersNothing(d: DomainProjection)
    requires DomainHolds(d)
    ensures !d.projection.manifest.offersFitnessState
  {}

  /** Of every directory a build returns: it verifies, and what it says is said of all the records and domains read. */
  lemma BuiltSays(c: Checks, i: BuildInput)
    requires Build(c, i).Some?
    ensures var d := Build(c, i).value;
            && Verifies(c, d) && RequiredPresent(d)
            && RecordsSay(c, d, StoredContent(d).records, i.activeSystem)
            && RecordsKept(i.records, StoredContent(d).records)
            && DomainsEmbedded(i.domains, StoredDomains(d))
            && (d.manifest.domains.Some? <==> i.domains != [])
            && (i.domains != [] ==> DomainsSay(d, StoredDomains(d)))
            && d.manifest.metadata
               == Metadata("v2", i.package, i.sourceRevision, d.manifest.metadata.generation)
            && d.name == Named(d.manifest.metadata.generation)
  {
    hide Build, Verifies, RecordsSay, RecordsKept, DomainsEmbedded, DomainsSay, RequiredPresent, Written, Derive,
         NormalizeDomains, SortedRecords, DistinctBy, Inputs;
    var d := Build(c, i).value;
    var domains, derived := BuildParts(c, i);
    BuiltIsComplete(d, i, domains, derived);
    VerifierAcceptsBuild(c, i);
    VerifiedSays(c, d);
    RecordsAreKept(i.records);
    DomainsAreEmbedded(i.domains);
    assert domains == [] <==> i.domains == [] by { EmbeddedCount(i.domains, domains); }
  }

  lemma EmbeddedCount(consumed: seq<DomainProjection>, domains: seq<EmbeddedDomain>)
    requires DomainsEmbedded(consumed, domains)
    ensures |domains| == |consumed|
  {}
}
