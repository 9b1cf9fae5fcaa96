/** Exactly which authority records and domain projections a generation is built from. */
module GenerationBuilds {
  import opened Options
  import opened Canonical
  import opened GenerationContents
  import opened GenerationModel
  import opened GenerationRecords
  import opened GenerationSafety

  /******* Authority *******/

  /**
   A record as the reader returns it: of its schema's layer, under its own id, with every section its kind asks for.
   */
  ghost predicate ReadSays(c: Checks, r: AuthorityRecord) {
    && c.contract(r.schema, r.frontmatter) && r.id != [] && r.recordType != "" && r.frontmatter.version.Some?
    && (match r.layer
        case Evidence => r.schema.EvidenceV2? && r.frontmatter.sourceId == Some(r.id)
        case Semantic => (r.schema.SemanticV2? || r.schema.PersonalModelV2?) && r.frontmatter.claimId == Some(r.id)
        case Cognitive => r.schema.CognitiveV2? && r.frontmatter.cognitiveId == Some(r.id))
    && (forall i, j | 0 <= i < j < |r.sections| :: r.sections[i].title != r.sections[j].title)
    && (forall s | s in r.sections :: s.title != [])
    && LintSays(c, r)
  }

  /** Records under distinct ids, each readable, whose references are there, as is the active system. */
  ghost predicate AuthoritySays(c: Checks, records: seq<AuthorityRecord>, active: Option<Text>) {
    && records != []
    && (forall i, j | 0 <= i < j < |records| :: records[i].id != records[j].id)
    && (forall r | r in records :: ReadSays(c, r) && RefersTo(records, r))
    && (active.Some? ==> NamesSystem(records, active.value))
  }

  lemma ReadableExactly(c: Checks, r: AuthorityRecord)
    ensures Readable(c, r) <==> ReadSays(c, r)
  {
    hide LintHolds, LintSays;
    LintIs(c, r);
    assert DistinctBy(r.sections, TitleKey()) <==>
           forall i, j | 0 <= i < j < |r.sections| :: r.sections[i].title != r.sections[j].title;
  }

  /** The reader accepts exactly these. */
  lemma AuthorityExactly(c: Checks, records: seq<AuthorityRecord>, active: Option<Text>)
    ensures AuthorityHolds(c, records, active) <==> AuthoritySays(c, records, active)
  {
    hide Readable, ReadSays, ReferencesHold, RefersTo, NamesSystem;
    assert DistinctBy(records, RecordKey()) <==>
           forall i, j | 0 <= i < j < |records| :: records[i].id != records[j].id;
    if DistinctBy(records, RecordKey()) { ReferencesExactly(records, active); }
    forall r ensures Readable(c, r) <==> ReadSays(c, r) { ReadableExactly(c, r); }
  }

  /******* Domains *******/

  /** The first entry of the manifest for this path lists it, under `stableId`. */
  ghost predicate ListedAs(m: DomainManifest, path: Text, entry: ManifestPayload) {
    exists k | 0 <= k < |m.payloads| ::
      m.payloads[k] == entry && entry.path == path && forall j | 0 <= j < k :: m.payloads[j].path != path
  }

  ghost predicate PayloadSays(m: DomainManifest, p: ConsumedPayload) {
    p.checksum == ContentChecksum(p.content)
    && exists stableId :: ListedAs(m, p.path, ManifestPayload(stableId, p.path, p.media, p.checksum))
  }

  /**
   What a consumed projection must say to be embedded: no current state, its manifest's own identity, every payload.
   */
  ghost predicate DomainSays(d: DomainProjection) {
    var p := d.projection;
    && !p.manifest.offersFitnessState
    && p.manifestChecksum == DomainManifestChecksum(p.manifest) && p.revision == p.manifest.revision
    && p.sourceRevision == p.manifest.sourceRevision && p.asOf == p.manifest.asOf
    && |p.payloads| == |p.manifest.payloads|
    && (forall i, j | 0 <= i < j < |p.payloads| :: p.payloads[i].path != p.payloads[j].path)
    && forall x | x in p.payloads :: PayloadSays(p.manifest, x)
  }

  lemma {:induction false} FoundIsListed(payloads: seq<ManifestPayload>, path: Text)
    ensures var found := FindPayload(payloads, path);
            found.Some? ==> exists k | 0 <= k < |payloads| ::
              payloads[k] == found.value && forall j | 0 <= j < k :: payloads[j].path != path
  {
    if payloads != [] {
      if payloads[0].path == path {
        assert payloads[0] == FindPayload(payloads, path).value;
      } else {
        FoundIsListed(payloads[1..], path);
        if FindPayload(payloads, path).Some? {
          var k :| 0 <= k < |payloads[1..]| && payloads[1..][k] == FindPayload(payloads, path).value
                   && forall j | 0 <= j < k :: payloads[1..][j].path != path;
          assert payloads[k + 1] == payloads[1..][k];
          assert forall j | 0 < j < k + 1 :: payloads[j] == payloads[1..][j - 1];
        }
      }
    }
  }

  lemma ListedExactly(m: DomainManifest, path: Text, entry: ManifestPayload)
    ensures FindPayload(m.payloads, path) == Some(entry) <==> ListedAs(m, path, entry)
  {
    FoundIsListed(m.payloads, path);
    if ListedAs(m, path, entry) {
      var k :| 0 <= k < |m.payloads| && m.payloads[k] == entry && entry.path == path
               && forall j | 0 <= j < k :: m.payloads[j].path != path;
      var found := FindPayload(m.payloads, path);
      var l :| 0 <= l < |m.payloads| && m.payloads[l] == found.value
               && forall j | 0 <= j < l :: m.payloads[j].path != path;
      assert k == l;
    }
  }

  lemma PayloadExactly(m: DomainManifest, p: ConsumedPayload)
    ensures PayloadHolds(m, p) <==> PayloadSays(m, p)
  {
    hide ListedAs, FindPayload;
    forall entry ensures FindPayload(m.payloads, p.path) == Some(entry) <==> ListedAs(m, p.path, entry) {
      ListedExactly(m, p.path, entry);
    }
    if PayloadHolds(m, p) {
      var found := FindPayload(m.payloads, p.path).value;
      assert found == ManifestPayload(found.stableId, p.path, p.media, p.checksum);
      assert ListedAs(m, p.path, found);
    }
  }

  lemma DomainExactly(d: DomainProjection)
    ensures DomainHolds(d) <==> DomainSays(d)
  {
    hide PayloadHolds, PayloadSays;
    forall x ensures PayloadHolds(d.projection.manifest, x) <==> PayloadSays(d.projection.manifest, x) {
      PayloadExactly(d.projection.manifest, x);
    }
    var byPath := (x: ConsumedPayload) => x.path;
    var payloads := d.projection.payloads;
    assert DistinctBy(payloads, byPath) <==>
           forall i, j | 0 <= i < j < |payloads| :: payloads[i].path != payloads[j].path;
  }

  /******* Digest and entries *******/

  lemma KeptOf(records: seq<AuthorityRecord>, n: NormalizedRecord) returns (r: AuthorityRecord)
    requires n in SortedRecords(records)
    ensures r in records && n == NormalizeRecord(r)
  {
    KeptAreImages(records);
    r :| r in records && n == NormalizeRecord(r);
  }

  lemma {:induction false} FindsById(records: seq<NormalizedRecord>, n: NormalizedRecord)
    requires DistinctBy(records, NormalKey()) && n in records
    ensures FindRecord(records, n.base.record.id) == Some(n)
  {
    if records[0] != n {
      var k :| 0 <= k < |records| && records[k] == n;
      assert NormalKey()(records[0]) != NormalKey()(records[k]);
      FindsById(records[1..], n);
    }
  }

  lemma ModuleIsGoverned(records: seq<AuthorityRecord>, r: AuthorityRecord)
    requires RefersTo(records, r) && NormalizeRecord(r).base.role == "governing_module"
    ensures GovernedBy(NormalizeRecord(r)).Some?
  {}

  /** Of an accepted authority the digest can be made. */
  lemma DigestIsMade(c: Checks, records: seq<AuthorityRecord>, active: Option<Text>)
    requires AuthorityHolds(c, records, active)
    ensures DigestFor(SortedRecords(records), active).Some?
  {
    hide SortedRecords, Modules, DistinctBy, RefersTo, NormalizeRecord, Readable, ReferencesHold;
    var kept := SortedRecords(records);
    ReferencesExactly(records, active);
    SortedRecordsAreDistinct(records);
    if active.Some? {
      forall n | n in kept && IsModule(n) ensures GovernedBy(n).Some? {
        var r := KeptOf(records, n);
        ModuleIsGoverned(records, r);
      }
      var r :| r in records && r.id == active.value && r.layer.Cognitive? && r.recordType == "governing_system";
      KeptAreImages(records);
      SystemIsKept(r);
      FindsById(kept, NormalizeRecord(r));
    }
  }

  lemma SystemIsKept(r: AuthorityRecord)
    requires r.layer.Cognitive? && r.recordType == "governing_system"
    ensures NormalizeRecord(r).base.role == "governing_system" && NormalizeRecord(r).base.record.id == r.id
  {}

  /** `source_refs` is absent or a list. */
  predicate ListsSources(r: AuthorityRecord) { r.frontmatter.sourceRefs.Absent? || r.frontmatter.sourceRefs.Refs? }

  lemma ProjectableExactly(r: AuthorityRecord)
    ensures Projectable(NormalizeRecord(r)) <==> ListsSources(r)
  {}

  lemma AllProjectable(records: seq<AuthorityRecord>)
    ensures (forall n | n in SortedRecords(records) :: Projectable(n)) <==> (forall r | r in records :: ListsSources(r))
  {
    hide SortedRecords, Projectable, ListsSources, NormalizeRecord;
    KeptAreImages(records);
    forall r ensures Projectable(NormalizeRecord(r)) <==> ListsSources(r) { ProjectableExactly(r); }
    if forall r | r in records :: ListsSources(r) {
      forall n | n in SortedRecords(records) ensures Projectable(n) { var r := KeptOf(records, n); }
    }
    if forall n | n in SortedRecords(records) :: Projectable(n) {
      forall r | r in records ensures ListsSources(r) { assert NormalizeRecord(r) in SortedRecords(records); }
    }
  }

  /******* Paths *******/

  predicate Disjoint(a: seq<FileSpec>, b: seq<FileSpec>) { forall x, y | x in a && y in b :: x.path != y.path }

  lemma DistinctConcat(a: seq<FileSpec>, b: seq<FileSpec>)
    ensures DistinctPaths(a + b) <==> DistinctPaths(a) && DistinctPaths(b) && Disjoint(a, b)
  {
    var c := a + b;
    if DistinctPaths(c) {
      forall i, j | 0 <= i < j < |a| ensures a[i].path != a[j].path { assert c[i].path != c[j].path; }
      forall i, j | 0 <= i < j < |b| ensures b[i].path != b[j].path {
        assert c[|a| + i].path != c[|a| + j].path;
      }
      forall x, y | x in a && y in b ensures x.path != y.path {
        var i :| 0 <= i < |a| && a[i] == x;
        var j :| 0 <= j < |b| && b[j] == y;
        assert c[i].path != c[|a| + j].path;
      }
    }
    if DistinctPaths(a) && DistinctPaths(b) && Disjoint(a, b) {
      forall i, j | 0 <= i < j < |c| ensures c[i].path != c[j].path {
        if i < |a| && j >= |a| { assert c[i] in a && c[j] in b; }
      }
    }
  }

  predicate StableIdsDiffer(payloads: seq<EmbeddedPayload>) {
    forall i, j | 0 <= i < j < |payloads| :: payloads[i].stableId != payloads[j].stableId
  }

  lemma DocumentsDiffer(g: GenerationId, d: EmbeddedDomain, payloads: seq<EmbeddedPayload>)
    requires forall p | p in payloads :: p.content.sentinel.Some?
    ensures DistinctPaths(DocumentSpecs(g, d, payloads)) <==> StableIdsDiffer(payloads)
    ensures forall s | s in DocumentSpecs(g, d, payloads) ::
              s.path.DomainDocument? && s.path.domainId == d.input.domainId
  {
    var specs := DocumentSpecs(g, d, payloads);
    forall i | 0 <= i < |payloads|
      ensures specs[i].path == DomainDocument(g, d.input.domainId, payloads[i].stableId)
    {
      assert specs[i] == DocumentSpec(g, d, payloads[i]);
    }
    if DistinctPaths(specs) {
      forall i, j | 0 <= i < j < |payloads| ensures payloads[i].stableId != payloads[j].stableId {
        assert specs[i].path != specs[j].path;
      }
    }
  }

  predicate OfDomain(s: FileSpec, domains: seq<EmbeddedDomain>) {
    s.path.DomainDocument? && exists d | d in domains :: d.input.domainId == s.path.domainId
  }

  lemma {:induction false} DocumentsAreOfDomains(g: GenerationId, domains: seq<EmbeddedDomain>)
    requires forall d | d in domains :: HasText(d)
    ensures forall s | s in DomainSpecs(g, domains) :: OfDomain(s, domains)
  {
    if domains != [] {
      hide DocumentSpecs;
      var d, rest := domains[0], domains[1..];
      assert d in domains && HasText(d) && domains == [d] + rest;
      DocumentsDiffer(g, d, d.payloads);
      DocumentsAreOfDomains(g, rest);
    }
  }

  lemma FirstIdDiffers(domains: seq<EmbeddedDomain>)
    requires DistinctBy(domains, DomainKey()) && domains != []
    ensures DistinctBy(domains[1..], DomainKey())
    ensures forall e | e in domains[1..] :: e.input.domainId != domains[0].input.domainId
  {
    forall i, j | 0 <= i < j < |domains[1..]| ensures DomainKey()(domains[1..][i]) != DomainKey()(domains[1..][j]) {
      assert DomainKey()(domains[i + 1]) != DomainKey()(domains[j + 1]);
    }
    forall e | e in domains[1..] ensures e.input.domainId != domains[0].input.domainId {
      var k :| 0 <= k < |domains[1..]| && domains[1..][k] == e;
      assert DomainKey()(domains[0]) != DomainKey()(domains[k + 1]);
    }
  }

  lemma {:induction false} DomainDocumentsDiffer(g: GenerationId, domains: seq<EmbeddedDomain>)
    requires (forall d | d in domains :: HasText(d)) && DistinctBy(domains, DomainKey())
    ensures DistinctPaths(DomainSpecs(g, domains)) <==> forall d | d in domains :: StableIdsDiffer(d.payloads)
  {
    if domains != [] {
      hide StableIdsDiffer, DistinctPaths, DocumentSpecs, DistinctBy;
      var d, rest := domains[0], domains[1..];
      assert d in domains && HasText(d) && domains == [d] + rest;
      DocumentsDiffer(g, d, d.payloads);
      FirstIdDiffers(domains);
      DocumentsAreOfDomains(g, rest);
      DomainDocumentsDiffer(g, rest);
      DistinctConcat(DocumentSpecs(g, d, d.payloads), DomainSpecs(g, rest));
    }
  }

  lemma EntriesDiffer(records: seq<NormalizedRecord>, g: GenerationId)
    requires DistinctBy(records, NormalKey())
    ensures DistinctPaths(EntrySpecs(EntriesFor(records, g)))
    ensures forall s | s in EntrySpecs(EntriesFor(records, g)) :: s.path.EntryDocument?
  {
    var entries := EntriesFor(records, g);
    var specs := EntrySpecs(entries);
    forall i, j | 0 <= i < j < |specs| ensures specs[i].path != specs[j].path {
      assert NormalKey()(records[i]) != NormalKey()(records[j]);
      assert entries[i] == EntryFor(records[i], g) && entries[j] == EntryFor(records[j], g);
    }
  }

  lemma CoreDiffers(m: Metadata, content: AuthorityContent, d: Derived)
    ensures DistinctPaths(CoreSpecs(m, content, d))
    ensures forall s | s in CoreSpecs(m, content, d) ::
              s.path in {RecordsPath, RegistryPath, DigestPath, EntriesPath, IndexPath, ViewPath}
  {}

  lemma DocumentsAreDocuments(g: GenerationId, domains: seq<EmbeddedDomain>)
    requires forall d | d in domains :: HasText(d)
    ensures forall s | s in DomainSpecs(g, domains) :: s.path.DomainDocument?
  {
    hide DomainSpecs, HasText;
    DocumentsAreOfDomains(g, domains);
  }

  lemma HeadsDiffer(m: Metadata, domains: seq<EmbeddedDomain>, d: Derived, documents: seq<FileSpec>)
    requires forall s | s in documents :: s.path.DomainDocument?
    ensures var heads := [FileSpec(DomainsPath, Artifact(m, DomainsPayload(domains)), []),
                          FileSpec(DomainIndexPath, Artifact(m, d.domainIndex), [DomainsPath])];
            && DistinctPaths(heads) && Disjoint(heads, documents)
            && forall s | s in heads :: s.path in {DomainsPath, DomainIndexPath}
  {
    hide Artifact;
  }

  lemma CompositeDiffers(m: Metadata, domains: seq<EmbeddedDomain>, d: Derived)
    requires (forall x | x in domains :: HasText(x)) && DistinctBy(domains, DomainKey())
    ensures DistinctPaths(CompositeSpecs(m, domains, d)) <==> forall x | x in domains :: StableIdsDiffer(x.payloads)
    ensures forall s | s in CompositeSpecs(m, domains, d) ::
              s.path in {DomainsPath, DomainIndexPath} || s.path.DomainDocument?
  {
    if domains != [] {
      hide StableIdsDiffer, HasText, DomainSpecs, DistinctBy, DistinctPaths, Disjoint, Artifact;
      DomainDocumentsDiffer(m.generation, domains);
      DocumentsAreDocuments(m.generation, domains);
      HeadsDiffer(m, domains, d, DomainSpecs(m.generation, domains));
      var heads := [FileSpec(DomainsPath, Artifact(m, DomainsPayload(domains)), []),
                    FileSpec(DomainIndexPath, Artifact(m, d.domainIndex), [DomainsPath])];
      DistinctConcat(heads, DomainSpecs(m.generation, domains));
    }
  }

  lemma SpecsDifferExactly(m: Metadata, content: AuthorityContent, domains: seq<EmbeddedDomain>, d: Derived)
    requires (forall x | x in domains :: HasText(x)) && DistinctBy(domains, DomainKey())
    requires DistinctBy(content.records, NormalKey()) && d.entries == EntriesFor(content.records, m.generation)
    ensures DistinctPaths(Specs(m, content, domains, d)) <==> forall x | x in domains :: StableIdsDiffer(x.payloads)
  {
    hide StableIdsDiffer, HasText, DistinctBy, CoreSpecs, CompositeSpecs, EntrySpecs, EntriesFor, DistinctPaths;
    var core, composite, entries := CoreSpecs(m, content, d), CompositeSpecs(m, domains, d), EntrySpecs(d.entries);
    CoreDiffers(m, content, d);
    CompositeDiffers(m, domains, d);
    EntriesDiffer(content.records, m.generation);
    DistinctConcat(core, composite);
    DistinctConcat(core + composite, entries);
  }

  /******* Domains as consumed *******/

  /** `ids` are the stable ids the payloads are listed under, no two the same. */
  ghost predicate ListedUnder(d: DomainProjection, ids: seq<Text>) {
    var m, payloads := d.projection.manifest, d.projection.payloads;
    && |ids| == |payloads| && (forall i, j | 0 <= i < j < |ids| :: ids[i] != ids[j])
    && forall i | 0 <= i < |payloads| ::
         ListedAs(m, payloads[i].path,
                  ManifestPayload(ids[i], payloads[i].path, payloads[i].media, payloads[i].checksum))
  }

  /** Every payload has text, and is listed under a stable id of its own. */
  ghost predicate DocumentsSay(d: DomainProjection) {
    (forall p | p in d.projection.payloads :: p.content.sentinel.Some?) && exists ids :: ListedUnder(d, ids)
  }

  function StableIds(payloads: seq<EmbeddedPayload>): (r: seq<Text>)
    ensures |r| == |payloads| && forall i | 0 <= i < |r| :: r[i] == payloads[i].stableId
  {
    if payloads == [] then [] else [payloads[0].stableId] + StableIds(payloads[1..])
  }

  lemma EmbeddedIsListed(m: DomainManifest, p: ConsumedPayload, id: Text)
    requires PayloadHolds(m, p)
    ensures Embed(m, p).stableId == id <==> ListedAs(m, p.path, ManifestPayload(id, p.path, p.media, p.checksum))
  {
    ListedExactly(m, p.path, ManifestPayload(id, p.path, p.media, p.checksum));
  }

  lemma DifferentIdsAreListed(d: DomainProjection)
    requires DomainHolds(d) && StableIdsDiffer(EmbedAll(d.projection.manifest, d.projection.payloads))
    ensures ListedUnder(d, StableIds(EmbedAll(d.projection.manifest, d.projection.payloads)))
  {
    hide ListedAs, Embed;
    var m, payloads := d.projection.manifest, d.projection.payloads;
    var ids := StableIds(EmbedAll(m, payloads));
    forall i | 0 <= i < |payloads|
      ensures ListedAs(m, payloads[i].path,
                       ManifestPayload(ids[i], payloads[i].path, payloads[i].media, payloads[i].checksum))
    {
      assert PayloadHolds(m, payloads[i]);
      hide PayloadHolds;
      EmbeddedIsListed(m, payloads[i], ids[i]);
    }
  }

  lemma ListedIdsDiffer(d: DomainProjection, ids: seq<Text>)
    requires DomainHolds(d) && ListedUnder(d, ids)
    ensures StableIdsDiffer(EmbedAll(d.projection.manifest, d.projection.payloads))
  {
    hide ListedAs, Embed;
    var m, payloads := d.projection.manifest, d.projection.payloads;
    var all := EmbedAll(m, payloads);
    forall i | 0 <= i < |all| ensures all[i].stableId == ids[i] {
      assert PayloadHolds(m, payloads[i]);
      hide PayloadHolds;
      EmbeddedIsListed(m, payloads[i], ids[i]);
    }
  }

  lemma StableIdsExactly(d: DomainProjection)
    requires DomainHolds(d)
    ensures StableIdsDiffer(EmbedAll(d.projection.manifest, d.projection.payloads)) <==> exists ids ::
            ListedUnder(d, ids)
  {
    hide ListedUnder, Embed, StableIdsDiffer;
    if StableIdsDiffer(EmbedAll(d.projection.manifest, d.projection.payloads)) { DifferentIdsAreListed(d); }
    if ids :| ListedUnder(d, ids) { ListedIdsDiffer(d, ids); }
  }

  lemma DifferIgnoresOrder(a: seq<EmbeddedPayload>, b: seq<EmbeddedPayload>)
    requires multiset(a) == multiset(b) && StableIdsDiffer(a)
    ensures StableIdsDiffer(b)
  {
    var byId := (p: EmbeddedPayload) => p.stableId;
    assert DistinctBy(a, byId);
    DistinctIsAboutContents(a, b, byId);
    forall i, j | 0 <= i < j < |b| ensures b[i].stableId != b[j].stableId { assert byId(b[i]) != byId(b[j]); }
  }

  lemma DocumentsExactly(d: DomainProjection)
    requires DomainHolds(d)
    ensures HasText(EmbedDomain(d)) && StableIdsDiffer(EmbedDomain(d).payloads) <==> DocumentsSay(d)
  {
    hide ListedUnder, Sort, Embed, StableIdsDiffer;
    var all, payloads := EmbedAll(d.projection.manifest, d.projection.payloads), d.projection.payloads;
    var sorted := EmbedDomain(d).payloads;
    SortSorts(all, EmbeddedKey());
    SortedMembers(all, EmbeddedKey());
    hide SortedBy;
    if StableIdsDiffer(all) { DifferIgnoresOrder(all, sorted); }
    if StableIdsDiffer(sorted) { DifferIgnoresOrder(sorted, all); }
    StableIdsExactly(d);
    TextExactly(d, all);
  }

  lemma TextExactly(d: DomainProjection, all: seq<EmbeddedPayload>)
    requires DomainHolds(d) && all == EmbedAll(d.projection.manifest, d.projection.payloads)
    ensures (forall p | p in all :: p.content.sentinel.Some?)
            <==> (forall p | p in d.projection.payloads :: p.content.sentinel.Some?)
  {
    var payloads := d.projection.payloads;
    hide DomainHolds;
    if forall p | p in all :: p.content.sentinel.Some? {
      forall p | p in payloads ensures p.content.sentinel.Some? {
        var i :| 0 <= i < |payloads| && payloads[i] == p;
        assert all[i] in all;
      }
    }
    if forall p | p in payloads :: p.content.sentinel.Some? {
      forall p | p in all ensures p.content.sentinel.Some? {
        var i :| 0 <= i < |all| && all[i] == p;
        assert payloads[i] in payloads;
      }
    }
  }

  /** The projections a build takes: each embeddable and with its documents, under distinct domain ids. */
  ghost predicate ProjectionsSay(domains: seq<DomainProjection>) {
    && (forall d | d in domains :: DomainSays(d) && DocumentsSay(d))
    && forall i, j | 0 <= i < j < |domains| :: domains[i].domainId != domains[j].domainId
  }

  lemma NormalizedExactly(domains: seq<DomainProjection>)
    ensures NormalizeDomains(domains).Some? <==>
            (forall d | d in domains :: DomainSays(d))
            && forall i, j | 0 <= i < j < |domains| :: domains[i].domainId != domains[j].domainId
  {
    hide DomainHolds, DomainSays;
    forall d ensures DomainHolds(d) <==> DomainSays(d) { DomainExactly(d); }
    var byId := (d: DomainProjection) => d.domainId;
    assert DistinctBy(domains, byId) <==> forall i, j | 0 <= i < j < |domains| ::
           domains[i].domainId != domains[j].domainId;
  }

  lemma ProjectionsExactly(domains: seq<DomainProjection>)
    requires NormalizeDomains(domains).Some?
    ensures var embedded := NormalizeDomains(domains).value;
            (forall x | x in embedded :: HasText(x) && StableIdsDiffer(x.payloads)) <==> ProjectionsSay(domains)
  {
    NormalizedExactly(domains);
    assert forall d | d in domains :: DomainHolds(d);
    DomainsAreSorted(domains);
    hide DomainHolds, DomainSays, DocumentsSay, HasText, StableIdsDiffer, EmbedDomain, NormalizeDomains;
    var all, embedded := EmbedDomains(domains), NormalizeDomains(domains).value;
    forall d | d in domains
      ensures HasText(EmbedDomain(d)) && StableIdsDiffer(EmbedDomain(d).payloads) <==> DocumentsSay(d)
      ensures EmbedDomain(d) in embedded
    {
      DocumentsExactly(d);
      var i :| 0 <= i < |domains| && domains[i] == d;
      assert all[i] == EmbedDomain(d) && all[i] in embedded;
    }
    forall x | x in embedded ensures exists d | d in domains :: x == EmbedDomain(d) {
      var i :| 0 <= i < |all| && all[i] == x;
      assert domains[i] in domains;
    }
  }

  /**
   Of an accepted authority and embedded domains, a generation is built exactly when nothing lacks a text or a name.
   */
  lemma DerivedExactly(c: Checks, i: BuildInput, domains: seq<EmbeddedDomain>, g: GenerationId)
    requires AuthorityHolds(c, i.records, i.activeSystem)
    ensures Derive(ContentOf(i), domains, i.sourceRevision, g).Some? <==>
            (forall r | r in i.records :: ListsSources(r)) && forall x | x in domains :: HasText(x)
  {
    hide SortedRecords, DigestFor, Projectable, ListsSources, AuthorityHolds, HasText;
    DigestIsMade(c, i.records, i.activeSystem);
    AllProjectable(i.records);
  }

  /**
   A generation is built exactly from readable records whose references and active system are there and whose sources
   are listed, and from projections that are embeddable, with documents under their own names.
   */
  lemma BuildsExactly(c: Checks, i: BuildInput)
    ensures Build(c, i).Some? <==>
            && !c.blank(i.package) && AuthoritySays(c, i.records, i.activeSystem)
            && (forall r | r in i.records :: ListsSources(r)) && ProjectionsSay(i.domains)
  {
    hide NormalizeDomains, AuthorityHolds, AuthoritySays, DomainSays, DocumentsSay, Derive, Specs, ListsSources,
         DistinctPaths, HasText, StableIdsDiffer, FilesOf, ManifestFiles, Inputs, IdFor;
    AuthorityExactly(c, i.records, i.activeSystem);
    NormalizedExactly(i.domains);
    if NormalizeDomains(i.domains).Some? && AuthorityHolds(c, i.records, i.activeSystem) {
      var domains := NormalizeDomains(i.domains).value;
      var g := IdFor(i, domains);
      var m := Metadata(CONTRACT, i.package, i.sourceRevision, g);
      DerivedExactly(c, i, domains, g);
      ProjectionsExactly(i.domains);
      if Derive(ContentOf(i), domains, i.sourceRevision, g).Some? {
        NormalizedDomainsAreValid(i.domains);
        RecordsDiffer(c, i);
        EntriesOfDerived(ContentOf(i), domains, i.sourceRevision, g);
        SpecsDifferExactly(m, ContentOf(i), domains, Derive(ContentOf(i), domains, i.sourceRevision, g).value);
      }
    }
  }

  lemma RecordsDiffer(c: Checks, i: BuildInput)
    requires AuthorityHolds(c, i.records, i.activeSystem)
    ensures DistinctBy(ContentOf(i).records, NormalKey())
  {
    SortedRecordsAreDistinct(i.records);
  }

  lemma EntriesOfDerived(content: AuthorityContent, domains: seq<EmbeddedDomain>, revision: string, g: GenerationId)
    requires Derive(content, domains, revision, g).Some?
    ensures Derive(content, domains, revision, g).value.entries == EntriesFor(content.records, g)
  {}
}
