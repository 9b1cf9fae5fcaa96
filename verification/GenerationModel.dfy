/**
 How a generation is derived from authority records and domain projections, and how a written one is verified
 (`src/generation/index.ts`).  Artifacts and documents are typed values, a checksum is a constructor over what it is
 taken of, and a path is a constructor over the names it is joined from.
 */
module GenerationModel {
  import opened Options
  import opened Canonical
  import opened GenerationRecords

  /******* Domain projections *******/

  datatype Media = JsonMedia | MarkdownMedia

  /** Payload bytes, with the text sentinel they contain, if any line has text. */
  datatype Content = Content(bytes: string, sentinel: Option<string>)

  datatype ContentChecksum = ContentChecksum(content: Content)

  datatype ManifestPayload = ManifestPayload(stableId: Text, path: Text, media: Media, checksum: ContentChecksum)

  datatype SourceReference = SourceReference(id: string, path: string)

  datatype DomainManifest = DomainManifest(revision: string, sourceRevision: string, asOf: string,
                                           references: seq<SourceReference>, retractions: nat,
                                           offersFitnessState: bool, payloads: seq<ManifestPayload>)

  datatype DomainManifestChecksum = DomainManifestChecksum(manifest: DomainManifest)

  datatype ConsumedPayload = ConsumedPayload(path: Text, media: Media, checksum: ContentChecksum, content: Content)

  datatype ConsumedProjection = ConsumedProjection(status: string, revision: string, pointerRevision: string,
                                                   manifestChecksum: DomainManifestChecksum, sourceRevision: string,
                                                   asOf: string, manifest: DomainManifest,
                                                   payloads: seq<ConsumedPayload>)

  datatype DomainProjection = DomainProjection(domainId: Text, projection: ConsumedProjection)

  datatype DomainIdentity = DomainIdentity(domainId: Text, status: string, revision: string, pointerRevision: string,
                                           manifestChecksum: DomainManifestChecksum, sourceRevision: string,
                                           asOf: string)

  datatype EmbeddedPayload = EmbeddedPayload(stableId: Text, path: Text, media: Media, checksum: ContentChecksum,
                                             content: Content)

  datatype EmbeddedDomain = EmbeddedDomain(input: DomainIdentity, manifest: DomainManifest,
                                           payloads: seq<EmbeddedPayload>)

  function DomainKey(): EmbeddedDomain -> Text { (d: EmbeddedDomain) => d.input.domainId }

  function EmbeddedKey(): EmbeddedPayload -> Text { (p: EmbeddedPayload) => p.path }

  function FindPayload(payloads: seq<ManifestPayload>, path: Text): (r: Option<ManifestPayload>)
    ensures r.Some? ==> r.value in payloads && r.value.path == path
    ensures r.None? ==> forall p | p in payloads :: p.path != path
  {
    if payloads == [] then None
    else if payloads[0].path == path then Some(payloads[0])
    else FindPayload(payloads[1..], path)
  }

  predicate PayloadHolds(m: DomainManifest, p: ConsumedPayload) {
    var found := FindPayload(m.payloads, p.path);
    && found.Some? && found.value.media == p.media && found.value.checksum == p.checksum
    && ContentChecksum(p.content) == p.checksum
  }

  function Embed(m: DomainManifest, p: ConsumedPayload): (r: EmbeddedPayload)
    requires PayloadHolds(m, p)
    ensures r.path == p.path
  {
    EmbeddedPayload(FindPayload(m.payloads, p.path).value.stableId, p.path, p.media, p.checksum, p.content)
  }

  function EmbedAll(m: DomainManifest, payloads: seq<ConsumedPayload>): (r: seq<EmbeddedPayload>)
    requires forall p | p in payloads :: PayloadHolds(m, p)
    ensures |r| == |payloads| && forall i | 0 <= i < |r| :: payloads[i] in payloads && r[i] == Embed(m, payloads[i])
  {
    if payloads == [] then []
    else
      assert payloads[0] in payloads;
      [Embed(m, payloads[0])] + EmbedAll(m, payloads[1..])
  }

  /** Everything `normalizedDomainProjections` checks of one domain. */
  predicate DomainHolds(d: DomainProjection) {
    var p := d.projection;
    && !p.manifest.offersFitnessState
    && p.manifestChecksum == DomainManifestChecksum(p.manifest)
    && p.manifest.revision == p.revision && p.manifest.sourceRevision == p.sourceRevision && p.manifest.asOf == p.asOf
    && (forall x | x in p.payloads :: PayloadHolds(p.manifest, x))
    && |p.payloads| == |p.manifest.payloads|
    && DistinctBy(p.payloads, (x: ConsumedPayload) => x.path)
  }

  function EmbedDomain(d: DomainProjection): (r: EmbeddedDomain)
    requires DomainHolds(d)
    ensures r.input.domainId == d.domainId
  {
    var p := d.projection;
    EmbeddedDomain(DomainIdentity(d.domainId, p.status, p.revision, p.pointerRevision, p.manifestChecksum,
                                  p.sourceRevision, p.asOf),
                   p.manifest, Sort(EmbedAll(p.manifest, p.payloads), EmbeddedKey()))
  }

  function EmbedDomains(domains: seq<DomainProjection>): (r: seq<EmbeddedDomain>)
    requires forall d | d in domains :: DomainHolds(d)
    ensures |r| == |domains| && forall i | 0 <= i < |r| :: domains[i] in domains && r[i] == EmbedDomain(domains[i])
  {
    if domains == [] then []
    else
      assert domains[0] in domains;
      [EmbedDomain(domains[0])] + EmbedDomains(domains[1..])
  }

  /** `normalizedDomainProjections`, with `None` for its throws. */
  function NormalizeDomains(domains: seq<DomainProjection>): Option<seq<EmbeddedDomain>> {
    if (exists d | d in domains :: !DomainHolds(d)) || !DistinctBy(domains, (d: DomainProjection) => d.domainId)
       then None
    else Some(Sort(EmbedDomains(domains), DomainKey()))
  }

  /******* Identity *******/

  datatype AuthorityContent = AuthorityContent(activeSystem: Option<Text>, records: seq<NormalizedRecord>)

  datatype AuthorityChecksum = AuthorityChecksum(content: AuthorityContent)

  /** The hash of the identity seed: version 2 without domains, version 3 with them. */
  datatype GenerationId =
    | RecordsOnly(contract: string, sourceRevision: string, content: AuthorityContent)
    | Composite(contract: string, revision: string, checksum: AuthorityChecksum, content: AuthorityContent,
                domains: seq<EmbeddedDomain>)

  const CONTRACT: string := "v2"

  /******* Payloads *******/

  datatype RegistryEntry = RegistryEntry(id: Text, role: string, version: string, generation: GenerationId,
                                         checksum: RecordChecksum, governedBy: Option<Text>)

  datatype RegistryChecksum = RegistryChecksum(entries: seq<RegistryEntry>)

  datatype ModuleDigest = ModuleDigest(id: Text, version: string, governedBy: Text, runtimeDigest: string)

  datatype Digest = NoSystem | Digest(active: Text, version: string, runtimeDigest: string, kernel: string,
                                      modules: seq<ModuleDigest>)

  datatype ProjectionEntry = ProjectionEntry(generation: GenerationId, layer: Layer, stableId: Text, version: string,
                                             role: string, checksum: RecordChecksum, sourceRefs: seq<Text>,
                                             content: string)

  datatype IndexEntry = IndexEntry(id: Text, layer: Layer, role: string, version: string, checksum: RecordChecksum)

  datatype IndexDocument = IndexDocument(stableId: Text, payloadPath: Text, documentPath: Path,
                                         checksum: ContentChecksum, sentinel: string, references: seq<SourceReference>)

  datatype DomainIndex = DomainIndex(generation: GenerationId, domainId: Text, revision: string,
                                     manifestChecksum: DomainManifestChecksum, retractions: nat,
                                     documents: seq<IndexDocument>)

  datatype Payload =
    | RecordsPayload(records: seq<NormalizedRecord>)
    | RegistryPayload(checksum: RegistryChecksum, entries: seq<RegistryEntry>)
    | DigestPayload(digest: Digest)
    | EntriesPayload(projections: seq<ProjectionEntry>)
    | IndexPayload(index: seq<IndexEntry>)
    | ViewPayload(revision: string, active: Option<Text>, refs: seq<Text>)
    | DomainsPayload(domains: seq<EmbeddedDomain>)
    | DomainIndexPayload(domainIndexes: seq<DomainIndex>)
    | OtherPayload(json: string)

  datatype Path =
    | RecordsPath | RegistryPath | DigestPath | EntriesPath | IndexPath | ViewPath | DomainsPath | DomainIndexPath
    | EntryDocument(generation: GenerationId, layer: Layer, role: string, stableId: Text, version: string,
                    checksum: RecordChecksum)
    | DomainDocument(generation: GenerationId, domainId: Text, documentId: Text)
    | OtherPath(name: string, json: bool)

  function RegistryKey(): RegistryEntry -> Text { (e: RegistryEntry) => e.id }

  function ModuleKey(): ModuleDigest -> Text { (m: ModuleDigest) => m.id }

  function TextKey(): Text -> Text { (t: Text) => t }

  /** `governed_by`, when it is text. */
  function GovernedBy(r: NormalizedRecord): Option<Text> {
    var relations := r.base.record.frontmatter.relations;
    if relations.Relations? && relations.governedBy.Link? then Some(relations.governedBy.id) else None
  }

  function RegistryEntryOf(r: NormalizedRecord, g: GenerationId): RegistryEntry {
    RegistryEntry(r.base.record.id, r.base.role, r.base.version, g, r.checksum, GovernedBy(r))
  }

  function RegistryEntries(records: seq<NormalizedRecord>, g: GenerationId): (e: seq<RegistryEntry>)
    ensures |e| == |records| && forall i | 0 <= i < |e| :: e[i] == RegistryEntryOf(records[i], g)
  {
    if records == [] then [] else [RegistryEntryOf(records[0], g)] + RegistryEntries(records[1..], g)
  }

  /** `calculateRegistryChecksum`. */
  function ChecksumOfRegistry(entries: seq<RegistryEntry>): RegistryChecksum {
    RegistryChecksum(Sort(entries, RegistryKey()))
  }

  function RegistryFor(records: seq<NormalizedRecord>, g: GenerationId): Payload {
    RegistryPayload(ChecksumOfRegistry(RegistryEntries(records, g)), RegistryEntries(records, g))
  }

  function FindRecord(records: seq<NormalizedRecord>, id: Text): Option<NormalizedRecord> {
    if records == [] then None else if records[0].base.record.id == id then Some(records[0])
       else FindRecord(records[1..], id)
  }

  function SectionContent(sections: seq<Section>, title: Text): string {
    if sections == [] then "" else if sections[0].title == title then sections[0].content
    else SectionContent(sections[1..], title)
  }

  predicate IsModule(r: NormalizedRecord) {
    r.base.role == "governing_module" && !r.base.record.frontmatter.relations.Undefined?
  }

  function Modules(records: seq<NormalizedRecord>, active: Text): seq<ModuleDigest> {
    if records == [] then []
    else
      var r := records[0];
      (if IsModule(r) && GovernedBy(r) == Some(active)
       then [ModuleDigest(r.base.record.id, r.base.version, active,
                          SectionContent(r.base.record.sections, Ascii("Runtime digest")))]
       else []) + Modules(records[1..], active)
  }

  /** `governingDigestPayload`, with `None` for its throws. */
  function DigestFor(records: seq<NormalizedRecord>, active: Option<Text>): Option<Payload> {
    if active.None? then Some(DigestPayload(NoSystem))
    else
      var system := FindRecord(records, active.value);
      if system.None? || system.value.base.role != "governing_system"
         || exists r | r in records :: IsModule(r) && GovernedBy(r).None? then None
      else
        var sections := system.value.base.record.sections;
        Some(DigestPayload(Digest(active.value, system.value.base.version,
                                  SectionContent(sections, Ascii("Runtime digest")),
                                  SectionContent(sections, Ascii("Persistent Kernel")),
                                  Sort(Modules(records, active.value), ModuleKey()))))
  }

  /** `projectionRoleFor` and `sourceRefsFor`, where they do not throw. */
  predicate Projectable(r: NormalizedRecord) {
    var refs := r.base.record.frontmatter.sourceRefs;
    (r.base.record.recordType == "personal_model" || r.base.role != "current_state") && (refs.Absent? || refs.Refs?)
  }

  function EntryFor(r: NormalizedRecord, g: GenerationId): ProjectionEntry {
    var x := r.base.record;
    var refs := x.frontmatter.sourceRefs;
    ProjectionEntry(g, x.layer, x.id, r.base.version,
                    if x.recordType == "personal_model" then "personal_model" else r.base.role, r.checksum,
                    if refs.Refs? then Sort(refs.ids, TextKey()) else [], x.body)
  }

  function EntriesFor(records: seq<NormalizedRecord>, g: GenerationId): (e: seq<ProjectionEntry>)
    ensures |e| == |records| && forall i | 0 <= i < |e| :: e[i] == EntryFor(records[i], g)
  {
    if records == [] then [] else [EntryFor(records[0], g)] + EntriesFor(records[1..], g)
  }

  function IndexFor(records: seq<NormalizedRecord>): (e: seq<IndexEntry>)
    ensures |e| == |records|
  {
    if records == [] then []
    else
      var r := records[0];
      [IndexEntry(r.base.record.id, r.base.record.layer, r.base.role, r.base.version, r.checksum)]
        + IndexFor(records[1..])
  }

  function Ids(records: seq<NormalizedRecord>): (r: seq<Text>)
    ensures |r| == |records| && forall i | 0 <= i < |r| :: r[i] == records[i].base.record.id
  {
    if records == [] then [] else [records[0].base.record.id] + Ids(records[1..])
  }

  function DocumentFor(g: GenerationId, d: EmbeddedDomain, p: EmbeddedPayload): IndexDocument
    requires p.content.sentinel.Some?
  {
    IndexDocument(p.stableId, p.path, DomainDocument(g, d.input.domainId, p.stableId), p.checksum,
                  p.content.sentinel.value, d.manifest.references)
  }

  function DocumentsFor(g: GenerationId, d: EmbeddedDomain, payloads: seq<EmbeddedPayload>): (r: seq<IndexDocument>)
    requires forall p | p in payloads :: p.content.sentinel.Some?
    ensures |r| == |payloads|
  {
    if payloads == [] then []
    else
      assert payloads[0] in payloads;
      [DocumentFor(g, d, payloads[0])] + DocumentsFor(g, d, payloads[1..])
  }

  predicate HasText(d: EmbeddedDomain) { forall p | p in d.payloads :: p.content.sentinel.Some? }

  function IndexOfDomain(g: GenerationId, d: EmbeddedDomain): DomainIndex
    requires HasText(d)
  {
    DomainIndex(g, d.input.domainId, d.input.revision, d.input.manifestChecksum, d.manifest.retractions,
                DocumentsFor(g, d, d.payloads))
  }

  function DomainIndexesFor(domains: seq<EmbeddedDomain>, g: GenerationId): (r: seq<DomainIndex>)
    requires forall d | d in domains :: HasText(d)
  {
    if domains == [] then []
    else
      assert domains[0] in domains;
      [IndexOfDomain(g, domains[0])] + DomainIndexesFor(domains[1..], g)
  }

  /** Every payload derived from records, domains and an id, or `None` where a builder throws. */
  datatype Derived = Derived(registry: Payload, digest: Payload, entries: seq<ProjectionEntry>, index: Payload,
                             view: Payload, domainIndex: Payload)

  function Derive(content: AuthorityContent, domains: seq<EmbeddedDomain>, sourceRevision: string, g: GenerationId)
    : Option<Derived>
  {
    var digest := DigestFor(content.records, content.activeSystem);
    if digest.None? || (exists r | r in content.records :: !Projectable(r)) || (exists d | d in domains :: !HasText(d))
       then None
    else
      Some(Derived(RegistryFor(content.records, g), digest.value, EntriesFor(content.records, g),
                   IndexPayload(IndexFor(content.records)),
                   ViewPayload(sourceRevision, content.activeSystem, Ids(content.records)),
                   DomainIndexPayload(DomainIndexesFor(domains, g))))
  }

  /******* Files *******/

  datatype Metadata = Metadata(contract: string, package: string, sourceRevision: string, generation: GenerationId)

  datatype PayloadChecksum = PayloadChecksum(payload: Payload)

  datatype Document =
    | EntryText(entry: ProjectionEntry)
    | DomainText(generation: GenerationId, domain: DomainIdentity, document: IndexDocument, content: Content)
    | OtherText(text: string)

  datatype File = ArtifactFile(metadata: Metadata, checksum: PayloadChecksum, payload: Payload)
    | DocumentFile(document: Document)

  datatype FileChecksum = FileChecksum(file: File)

  datatype FileSpec = FileSpec(path: Path, file: File, dependencies: seq<Path>)

  datatype ManifestFile = ManifestFile(path: Path, checksum: FileChecksum, dependencies: seq<Path>)

  /** `domains` is present in a version 3 manifest only. */
  datatype Manifest = Manifest(metadata: Metadata, authority: Option<(string, AuthorityChecksum)>,
                               domains: Option<seq<DomainIdentity>>, files: seq<ManifestFile>)

  /** The last part of a directory's path: a generation id when it has the form of one. */
  datatype Name = Named(id: GenerationId) | OtherName(text: string)

  datatype Directory = Directory(name: Name, manifest: Manifest, files: map<Path, File>)

  function Artifact(m: Metadata, p: Payload): File { ArtifactFile(m, PayloadChecksum(p), p) }

  function EntryPath(e: ProjectionEntry): Path {
    EntryDocument(e.generation, e.layer, e.role, e.stableId, e.version, e.checksum)
  }

  function EntrySpecs(entries: seq<ProjectionEntry>): (r: seq<FileSpec>)
    ensures |r| == |entries|
    ensures forall i | 0 <= i < |r| ::
              r[i] == FileSpec(EntryPath(entries[i]), DocumentFile(EntryText(entries[i])), [EntriesPath])
  {
    if entries == [] then []
    else [FileSpec(EntryPath(entries[0]), DocumentFile(EntryText(entries[0])), [EntriesPath])]
         + EntrySpecs(entries[1..])
  }

  function DocumentSpec(g: GenerationId, d: EmbeddedDomain, p: EmbeddedPayload): FileSpec
    requires p.content.sentinel.Some?
  {
    var document := DocumentFor(g, d, p);
    FileSpec(document.documentPath, DocumentFile(DomainText(g, d.input, document, p.content)),
             [DomainIndexPath, DomainsPath])
  }

  function DocumentSpecs(g: GenerationId, d: EmbeddedDomain, payloads: seq<EmbeddedPayload>): (r: seq<FileSpec>)
    requires forall p | p in payloads :: p.content.sentinel.Some?
    ensures |r| == |payloads|
    ensures forall i | 0 <= i < |r| :: payloads[i] in payloads && r[i] == DocumentSpec(g, d, payloads[i])
  {
    if payloads == [] then []
    else
      assert payloads[0] in payloads;
      [DocumentSpec(g, d, payloads[0])] + DocumentSpecs(g, d, payloads[1..])
  }

  function DomainSpecs(g: GenerationId, domains: seq<EmbeddedDomain>): (r: seq<FileSpec>)
    requires forall d | d in domains :: HasText(d)
  {
    if domains == [] then []
    else
      assert domains[0] in domains && HasText(domains[0]);
      DocumentSpecs(g, domains[0], domains[0].payloads) + DomainSpecs(g, domains[1..])
  }

  function CoreSpecs(m: Metadata, content: AuthorityContent, d: Derived): seq<FileSpec> {
    [FileSpec(RecordsPath, Artifact(m, RecordsPayload(content.records)), []),
     FileSpec(RegistryPath, Artifact(m, d.registry), [RecordsPath]),
     FileSpec(DigestPath, Artifact(m, d.digest), [RecordsPath, RegistryPath]),
     FileSpec(EntriesPath, Artifact(m, EntriesPayload(d.entries)), [RecordsPath, RegistryPath]),
     FileSpec(IndexPath, Artifact(m, d.index), [RegistryPath]),
     FileSpec(ViewPath, Artifact(m, d.view), [DigestPath, IndexPath, EntriesPath, RegistryPath])]
  }

  function CompositeSpecs(m: Metadata, domains: seq<EmbeddedDomain>, d: Derived): seq<FileSpec>
    requires forall x | x in domains :: HasText(x)
  {
    if domains == [] then []
    else
      [FileSpec(DomainsPath, Artifact(m, DomainsPayload(domains)), []),
       FileSpec(DomainIndexPath, Artifact(m, d.domainIndex), [DomainsPath])]
      + DomainSpecs(m.generation, domains)
  }

  function Specs(m: Metadata, content: AuthorityContent, domains: seq<EmbeddedDomain>, d: Derived): seq<FileSpec>
    requires forall x | x in domains :: HasText(x)
  {
    CoreSpecs(m, content, d) + CompositeSpecs(m, domains, d) + EntrySpecs(d.entries)
  }

  function FilesOf(specs: seq<FileSpec>): map<Path, File> {
    if specs == [] then map[] else FilesOf(specs[1..])[specs[0].path := specs[0].file]
  }

  function ManifestFiles(specs: seq<FileSpec>): (r: seq<ManifestFile>)
    ensures |r| == |specs|
    ensures forall i | 0 <= i < |r| ::
            r[i] == ManifestFile(specs[i].path, FileChecksum(specs[i].file), specs[i].dependencies)
  {
    if specs == [] then []
    else [ManifestFile(specs[0].path, FileChecksum(specs[0].file), specs[0].dependencies)] + ManifestFiles(specs[1..])
  }

  predicate DistinctPaths(specs: seq<FileSpec>) { forall i, j | 0 <= i < j < |specs| :: specs[i].path != specs[j].path }

  /******* Build *******/

  datatype BuildInput = BuildInput(sourceRevision: string, package: string, activeSystem: Option<Text>,
                                   records: seq<AuthorityRecord>, domains: seq<DomainProjection>)

  function ContentOf(i: BuildInput): AuthorityContent { AuthorityContent(i.activeSystem, SortedRecords(i.records)) }

  function IdFor(i: BuildInput, domains: seq<EmbeddedDomain>): GenerationId {
    var content := ContentOf(i);
    if domains == [] then RecordsOnly(CONTRACT, i.sourceRevision, content)
    else Composite(CONTRACT, i.sourceRevision, AuthorityChecksum(content), content, domains)
  }

  function Inputs(domains: seq<EmbeddedDomain>): (r: seq<DomainIdentity>)
    ensures |r| == |domains|
  {
    if domains == [] then [] else [domains[0].input] + Inputs(domains[1..])
  }

  /**
   `buildGeneration` for a generation that does not exist yet, from the records the authority reader returns.  A
   second file for one path fails the build.
   */
  function Build(c: Checks, i: BuildInput): Option<Directory> {
    var domains := NormalizeDomains(i.domains);
    if c.blank(i.package) || !AuthorityHolds(c, i.records, i.activeSystem) || domains.None? then None
    else
      var g := IdFor(i, domains.value);
      var m := Metadata(CONTRACT, i.package, i.sourceRevision, g);
      var derived := Derive(ContentOf(i), domains.value, i.sourceRevision, g);
      if derived.None? then None
      else
        var specs := Specs(m, ContentOf(i), domains.value, derived.value);
        if !DistinctPaths(specs) then None
        else
          var composite := domains.value != [];
          Some(Directory(Named(g),
                         Manifest(m, if composite then Some((i.sourceRevision, AuthorityChecksum(ContentOf(i))))
                                  else None,
                                     if composite then Some(Inputs(domains.value)) else None, ManifestFiles(specs)),
                         FilesOf(specs)))
  }

  /******* Verify *******/

  predicate IsJson(p: Path) { !p.EntryDocument? && !p.DomainDocument? && (p.OtherPath? ==> p.json) }

  function PathsOf(files: seq<ManifestFile>): set<Path> { set f | f in files :: f.path }

  predicate FileHolds(m: Manifest, files: map<Path, File>, f: ManifestFile) {
    && (forall d | d in f.dependencies :: d in PathsOf(m.files))
    && f.path in files
    && FileChecksum(files[f.path]) == f.checksum
    && (IsJson(f.path) ==>
          && files[f.path].ArtifactFile?
          && files[f.path].metadata == m.metadata
          && files[f.path].checksum == PayloadChecksum(files[f.path].payload))
  }

  predicate FilesHold(d: Directory) {
    && d.files.Keys == PathsOf(d.manifest.files)
    && (forall i, j | 0 <= i < j < |d.manifest.files| :: d.manifest.files[i].path != d.manifest.files[j].path)
    && (forall f | f in d.manifest.files :: FileHolds(d.manifest, d.files, f))
  }

  predicate Has(d: Directory, p: Path) { p in d.files && d.files[p].ArtifactFile? }

  function PayloadAt(d: Directory, p: Path): Payload
    requires Has(d, p)
  {
    d.files[p].payload
  }

  predicate RequiredPresent(d: Directory) {
    && Has(d, RecordsPath) && Has(d, RegistryPath) && Has(d, DigestPath) && Has(d, EntriesPath) && Has(d, IndexPath)
       && Has(d, ViewPath)
    && (d.manifest.domains.Some? ==> Has(d, DomainsPath) && Has(d, DomainIndexPath))
    && PayloadAt(d, RecordsPath).RecordsPayload? && PayloadAt(d, RegistryPath).RegistryPayload?
    && PayloadAt(d, DigestPath).DigestPayload? && PayloadAt(d, EntriesPath).EntriesPayload?
    && PayloadAt(d, IndexPath).IndexPayload? && PayloadAt(d, ViewPath).ViewPayload?
    && (d.manifest.domains.Some? ==> PayloadAt(d, DomainsPath).DomainsPayload?)
    && (d.manifest.domains.Some? <==> d.manifest.authority.Some?)
  }

  predicate RegistryHolds(p: Payload, g: GenerationId)
    requires p.RegistryPayload?
  {
    && DistinctBy(p.entries, RegistryKey())
    && (forall e | e in p.entries :: e.generation == g)
    && p.checksum == ChecksumOfRegistry(p.entries)
  }

  function ActiveOf(digest: Digest): Option<Text> { if digest.NoSystem? then None else Some(digest.active) }

  /** What the identity is recomputed from: the stored records, the digest's active system and the stored domains. */
  function StoredContent(d: Directory): AuthorityContent
    requires RequiredPresent(d)
  {
    AuthorityContent(ActiveOf(PayloadAt(d, DigestPath).digest), PayloadAt(d, RecordsPath).records)
  }

  function StoredDomains(d: Directory): seq<EmbeddedDomain>
    requires RequiredPresent(d)
  {
    if d.manifest.domains.Some? then PayloadAt(d, DomainsPath).domains else []
  }

  function ExpectedId(d: Directory): GenerationId
    requires RequiredPresent(d)
  {
    var m := d.manifest;
    if m.domains.None? then RecordsOnly(m.metadata.contract, m.metadata.sourceRevision, StoredContent(d))
    else Composite(m.metadata.contract, m.authority.value.0, m.authority.value.1, StoredContent(d), StoredDomains(d))
  }

  /** One embedded domain against its own manifest. */
  predicate EmbeddedHolds(d: EmbeddedDomain) {
    && DomainManifestChecksum(d.manifest) == d.input.manifestChecksum
    && d.manifest.revision == d.input.revision && d.manifest.sourceRevision == d.input.sourceRevision
    && d.manifest.asOf == d.input.asOf
    && |d.payloads| == |d.manifest.payloads|
    && DistinctBy(d.payloads, EmbeddedKey())
    && (forall p | p in d.payloads ::
          var found := FindPayload(d.manifest.payloads, p.path);
          found.Some? && found.value.stableId == p.stableId && found.value.checksum == p.checksum
          && found.value.media == p.media && ContentChecksum(p.content) == p.checksum)
    && (forall x | x in d.manifest.payloads :: exists p | p in d.payloads :: p.path == x.path)
  }

  predicate DomainsHold(d: Directory)
    requires RequiredPresent(d)
  {
    d.manifest.domains.Some? ==>
      && d.manifest.authority.value == (d.manifest.metadata.sourceRevision, AuthorityChecksum(StoredContent(d)))
      && Inputs(StoredDomains(d)) == d.manifest.domains.value
      && forall x | x in StoredDomains(d) :: EmbeddedHolds(x)
  }

  /** The derived payloads are the recomputed ones. */
  predicate DerivedHolds(d: Directory)
    requires RequiredPresent(d)
  {
    var derived := Derive(StoredContent(d), StoredDomains(d), d.manifest.metadata.sourceRevision,
                          d.manifest.metadata.generation);
    && derived.Some?
    && PayloadAt(d, RegistryPath) == derived.value.registry
    && PayloadAt(d, DigestPath) == derived.value.digest
    && PayloadAt(d, EntriesPath) == EntriesPayload(derived.value.entries)
    && PayloadAt(d, IndexPath) == derived.value.index
    && PayloadAt(d, ViewPath) == derived.value.view
    && (d.manifest.domains.Some? ==> PayloadAt(d, DomainIndexPath) == derived.value.domainIndex)
  }

  function FindDomain(domains: seq<EmbeddedDomain>, id: Text): Option<EmbeddedDomain> {
    if domains == [] then None else if domains[0].input.domainId == id then Some(domains[0])
       else FindDomain(domains[1..], id)
  }

  function FindEmbedded(payloads: seq<EmbeddedPayload>, path: Text): Option<EmbeddedPayload> {
    if payloads == [] then None else if payloads[0].path == path then Some(payloads[0])
       else FindEmbedded(payloads[1..], path)
  }

  /** The document of payload `p` of domain `x`, written from the first domain and payload with those names. */
  predicate DocumentHolds(g: GenerationId, domains: seq<EmbeddedDomain>, files: map<Path, File>, x: EmbeddedDomain,
                          p: EmbeddedPayload)
  {
    var owner := FindDomain(domains, x.input.domainId);
    && p.content.sentinel.Some? && owner.Some?
    && var source, document := FindEmbedded(owner.value.payloads, p.path), DocumentFor(g, x, p);
       && source.Some? && document.documentPath in files
       && files[document.documentPath]
          == DocumentFile(DomainText(g, owner.value.input, document, source.value.content))
  }

  predicate DocumentsHold(d: Directory)
    requires RequiredPresent(d)
  {
    && (forall e | e in PayloadAt(d, EntriesPath).projections ::
          EntryPath(e) in d.files && d.files[EntryPath(e)] == DocumentFile(EntryText(e)))
    && (forall x, p | x in StoredDomains(d) && p in x.payloads ::
          DocumentHolds(d.manifest.metadata.generation, StoredDomains(d), d.files, x, p))
  }

  /** `verifyGeneration` reports no issue. */
  predicate Verifies(c: Checks, d: Directory) {
    && (d.name.Named? ==> d.manifest.metadata.generation == d.name.id)
    && FilesHold(d)
    && RequiredPresent(d)
    && RegistryHolds(PayloadAt(d, RegistryPath), d.manifest.metadata.generation)
    && KeptRecordsHold(c, StoredContent(d).records, StoredContent(d).activeSystem)
    && DomainsHold(d)
    && ExpectedId(d) == d.manifest.metadata.generation
    && DerivedHolds(d)
    && DocumentsHold(d)
  }
}
