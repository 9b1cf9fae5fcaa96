/**
 The projection producer and consumer of `src/personal-data/projection.ts`, over typed documents.  A document's
 bytes are a constructor over it, which is what an injective serializer and an injective hash allow: a text payload
 ends in a line feed and a JSON one never does, so the kinds of bytes do not overlap either.
 */
module ProjectionModel {
  import opened Options
  import opened Canonical
  import opened Jcs
  import opened JcsCanonicity
  import opened PayloadText

  /******* Documents *******/

  datatype Participant = StellaRuntime | StellaFitness

  /** In the order of their names. */
  datatype Category = Background | FitnessHistory | Identity

  datatype Entry = Entry(id: Text, category: Category, content: string, references: seq<Text>)

  datatype IdentityContext = IdentityContext(instanceId: string, producer: Participant, consumer: Participant,
                                             sourceRevision: string, asOf: string, categories: seq<Category>,
                                             entries: seq<Entry>)

  datatype Reference = Reference(id: Text, path: Text, revision: string, checksum: string)

  datatype Conflict = Conflict(id: Text, references: seq<Text>, summary: string)

  datatype Retraction = Retraction(id: Text, reference: Text, revision: string)

  datatype CapabilityState = Available | Degraded | Unavailable

  datatype Capability = Capability(id: Text, state: CapabilityState)

  datatype Media = JsonMedia | MarkdownMedia

  datatype PayloadMeta = PayloadMeta(stableId: Text, path: Text, media: Media, checksum: Checksum)

  datatype Collections = Collections(categories: seq<Category>, references: seq<Reference>, conflicts: seq<Conflict>,
                                     retractions: seq<Retraction>, capabilities: seq<Capability>,
                                     payloads: seq<PayloadMeta>)

  datatype Origin = Origin(instanceId: string, producer: Participant, consumer: Participant, sourceRevision: string,
                           asOf: string)

  /** `projectionRevisionFor`: the hash of its seed. */
  datatype Revision = Revision(origin: Origin, collections: Collections)

  datatype Manifest = Manifest(origin: Origin, revision: Revision, collections: Collections, generatedAt: string)

  datatype PointerStatus = Active | Stale | Blocked | Revoked

  datatype PointerBody = PointerBody(origin: Origin, status: PointerStatus, revision: Option<Revision>,
                                     lastVerified: Option<Revision>, manifestChecksum: Checksum, changedAt: string)

  datatype PointerRevision = PointerRevision(body: PointerBody)

  datatype Pointer = Pointer(body: PointerBody, pointerRevision: PointerRevision)

  datatype Bytes =
    | ManifestBytes(manifest: Manifest)
    | PointerBytes(pointer: Pointer)
    | IdentityBytes(context: IdentityContext)
    | JsonBytes(json: Text)
    | TextBytes(text: Text)

  datatype Checksum = Checksum(bytes: Bytes)

  datatype Artifact = Artifact(stableId: Text, path: Text, media: Media, bytes: Bytes)

  datatype ProjectionError =
    | PayloadPathDuplicate | PayloadStableIdDuplicate | ReferenceDuplicate | ReferencePathDuplicate | ConflictDuplicate
    | RetractionDuplicate | CapabilityDuplicate | CategoryDuplicate | ContextSourceMismatch | PayloadInvalid
    | SourceNondeterministic | PointerInvalid | PointerIdentityMismatch | NotConsumable | StaleForbidden
    | RevisionMissing | ManifestInvalid | CollectionOrderInvalid | TupleMismatch | RevisionMismatch
    | PurposePairMismatch | CapabilityUnavailable | PayloadChecksumMismatch | PayloadNotCanonical | PointerChanged
    | ContextValueInvalid | LocaleInvalid | ContextEmpty | SourcePolicyRejected

  datatype Reply<T> = Ok(value: T) | Refused(error: ProjectionError)

  /******* Sorting keys *******/

  function CategoryRank(c: Category): CodeUnit {
    match c case Background => 0 case FitnessHistory => 1 case Identity => 2
  }

  function CategoryKey(): Category -> Text { (c: Category) => [CategoryRank(c)] }

  function TextKey(): Text -> Text { (t: Text) => t }

  /** By category, then by id. */
  function EntryKey(): Entry -> Text { (e: Entry) => [CategoryRank(e.category)] + e.id }

  function ReferenceKey(): Reference -> Text { (r: Reference) => r.id }

  function ReferencePath(): Reference -> Text { (r: Reference) => r.path }

  function ConflictKey(): Conflict -> Text { (c: Conflict) => c.id }

  function RetractionKey(): Retraction -> Text { (r: Retraction) => r.id }

  function CapabilityKey(): Capability -> Text { (c: Capability) => c.id }

  function MetaKey(): PayloadMeta -> Text { (p: PayloadMeta) => p.path }

  function MetaStableId(): PayloadMeta -> Text { (p: PayloadMeta) => p.stableId }

  function ArtifactKey(): Artifact -> Text { (a: Artifact) => a.path }

  /******* Normal forms *******/

  function NormalizeEntry(e: Entry): (r: Entry)
    ensures r.id == e.id && r.category == e.category
  {
    e.(references := Sort(e.references, TextKey()))
  }

  function NormalizeEntries(entries: seq<Entry>): (r: seq<Entry>)
    ensures |r| == |entries| && forall i | 0 <= i < |r| :: r[i] == NormalizeEntry(entries[i])
  {
    if entries == [] then [] else [NormalizeEntry(entries[0])] + NormalizeEntries(entries[1..])
  }

  /** `normalizeIdentityContext`. */
  function NormalizeContext(c: IdentityContext): IdentityContext {
    c.(categories := Sort(c.categories, CategoryKey()), entries := Sort(NormalizeEntries(c.entries), EntryKey()))
  }

  function NormalizeConflict(c: Conflict): (r: Conflict)
    ensures r.id == c.id
  {
    c.(references := Sort(c.references, TextKey()))
  }

  function NormalizeConflicts(conflicts: seq<Conflict>): (r: seq<Conflict>)
    ensures |r| == |conflicts| && forall i | 0 <= i < |r| :: r[i] == NormalizeConflict(conflicts[i])
  {
    if conflicts == [] then [] else [NormalizeConflict(conflicts[0])] + NormalizeConflicts(conflicts[1..])
  }

  /** `normalizeProjectionCollections`; references have distinct ids wherever it is used. */
  function Normalize(c: Collections): Collections {
    Collections(Sort(c.categories, CategoryKey()), Sort(c.references, ReferenceKey()),
                Sort(NormalizeConflicts(c.conflicts), ConflictKey()), Sort(c.retractions, RetractionKey()),
                Sort(c.capabilities, CapabilityKey()), Sort(c.payloads, MetaKey()))
  }

  /******* Producer *******/

  datatype PayloadValue = IdentityValue(context: IdentityContext) | JsonValue(json: Json) | TextValue(text: Text)

  datatype PayloadInput = PayloadInput(stableId: Text, path: Text, value: PayloadValue)

  function InputPath(): PayloadInput -> Text { (p: PayloadInput) => p.path }

  function InputStableId(): PayloadInput -> Text { (p: PayloadInput) => p.stableId }

  datatype ProducerInput = ProducerInput(origin: Origin, categories: seq<Category>, references: seq<Reference>,
                                         conflicts: seq<Conflict>, retractions: seq<Retraction>,
                                         capabilities: seq<Capability>, payloads: seq<PayloadInput>,
                                         generatedAt: string)

  datatype Publication = Publication(manifest: Manifest, manifestBytes: Bytes, payloads: seq<Artifact>)

  predicate ContextMatches(c: IdentityContext, o: Origin) {
    && c.instanceId == o.instanceId && c.producer == o.producer && c.consumer == o.consumer
    && c.sourceRevision == o.sourceRevision && c.asOf == o.asOf
  }

  /** A payload's canonical bytes, or `None` where canonicalizing it throws. */
  function PayloadBytes(nfc: Text -> Text, value: PayloadValue, o: Origin): Option<Bytes> {
    match value
    case IdentityValue(c) => if ContextMatches(c, o) then Some(IdentityBytes(NormalizeContext(c))) else None
    case JsonValue(v) => var text := Serialize(v); if text.Some? then Some(JsonBytes(text.value)) else None
    case TextValue(t) => var text := CanonicalText(nfc, t); if text.Some? then Some(TextBytes(text.value)) else None
  }

  function MediaOf(value: PayloadValue): Media { if value.TextValue? then MarkdownMedia else JsonMedia }

  predicate AllCanonical(nfc: Text -> Text, payloads: seq<PayloadInput>, o: Origin) {
    forall p | p in payloads :: PayloadBytes(nfc, p.value, o).Some?
  }

  function ArtifactOf(nfc: Text -> Text, p: PayloadInput, o: Origin): Artifact
    requires PayloadBytes(nfc, p.value, o).Some?
  {
    Artifact(p.stableId, p.path, MediaOf(p.value), PayloadBytes(nfc, p.value, o).value)
  }

  function Artifacts(nfc: Text -> Text, payloads: seq<PayloadInput>, o: Origin): (r: seq<Artifact>)
    requires AllCanonical(nfc, payloads, o)
    ensures |r| == |payloads| && forall i | 0 <= i < |r| :: r[i] == ArtifactOf(nfc, payloads[i], o)
  {
    if payloads == [] then []
    else
      assert payloads[0] in payloads;
      [ArtifactOf(nfc, payloads[0], o)] + Artifacts(nfc, payloads[1..], o)
  }

  function MetaOf(a: Artifact): PayloadMeta { PayloadMeta(a.stableId, a.path, a.media, Checksum(a.bytes)) }

  function Metas(artifacts: seq<Artifact>): (r: seq<PayloadMeta>)
    ensures |r| == |artifacts| && forall i | 0 <= i < |r| :: r[i] == MetaOf(artifacts[i])
  {
    if artifacts == [] then [] else [MetaOf(artifacts[0])] + Metas(artifacts[1..])
  }

  function DuplicateError(i: ProducerInput): Option<ProjectionError> {
    if !DistinctBy(i.payloads, InputPath()) then Some(PayloadPathDuplicate)
    else if !DistinctBy(i.payloads, InputStableId()) then Some(PayloadStableIdDuplicate)
    else if !DistinctBy(i.references, ReferenceKey()) then Some(ReferenceDuplicate)
    else if !DistinctBy(i.references, ReferencePath()) then Some(ReferencePathDuplicate)
    else if !DistinctBy(i.conflicts, ConflictKey()) then Some(ConflictDuplicate)
    else if !DistinctBy(i.retractions, RetractionKey()) then Some(RetractionDuplicate)
    else if !DistinctBy(i.capabilities, CapabilityKey()) then Some(CapabilityDuplicate)
    else if !DistinctBy(i.categories, CategoryKey()) then Some(CategoryDuplicate)
    else None
  }

  /** `runProjectionProducerConformance` up to the ledger. */
  function Produce(nfc: Text -> Text, i: ProducerInput): Reply<Publication> {
    if DuplicateError(i).Some? then Refused(DuplicateError(i).value)
    else if exists p | p in i.payloads :: p.value.IdentityValue? && !ContextMatches(p.value.context, i.origin) then
      Refused(ContextSourceMismatch)
    else if !AllCanonical(nfc, i.payloads, i.origin) then Refused(PayloadInvalid)
    else
      var artifacts := Sort(Artifacts(nfc, i.payloads, i.origin), ArtifactKey());
      var normalized := Normalize(Collections(i.categories, i.references, i.conflicts, i.retractions, i.capabilities,
                                              Metas(artifacts)));
      var manifest := Manifest(i.origin, Revision(i.origin, normalized), normalized, i.generatedAt);
      Ok(Publication(manifest, ManifestBytes(manifest), artifacts))
  }

  /******* Determinism ledger *******/

  datatype Binding = Binding(sourceRevision: string, asOf: string, revision: Revision,
                             checksums: seq<(Text, Checksum)>)

  function Checksums(metas: seq<PayloadMeta>): seq<(Text, Checksum)> {
    if metas == [] then [] else [(metas[0].path, metas[0].checksum)] + Checksums(metas[1..])
  }

  function BindingOf(m: Manifest): Binding {
    Binding(m.origin.sourceRevision, m.origin.asOf, m.revision, Checksums(m.collections.payloads))
  }

  type Ledger = map<string, Binding>

  predicate Claimable(ledger: Ledger, b: Binding) {
    b.sourceRevision in ledger ==> ledger[b.sourceRevision] == b
  }

  /** A whole producer run: the publication, and the ledger with its claim. */
  function Publish(nfc: Text -> Text, ledger: Ledger, i: ProducerInput): (Ledger, Reply<Publication>) {
    var produced := Produce(nfc, i);
    if produced.Refused? then (ledger, produced)
    else
      var b := BindingOf(produced.value.manifest);
      if Claimable(ledger, b) then (ledger[b.sourceRevision := b], produced)
         else (ledger, Refused(SourceNondeterministic))
  }

  /******* Pointer *******/

  /** `pointerFor` of `src/personal-data/exchange.ts`. */
  function PointerFor(m: Manifest, changedAt: string): Pointer {
    var body := PointerBody(m.origin, Active, Some(m.revision), None, Checksum(ManifestBytes(m)), changedAt);
    Pointer(body, PointerRevision(body))
  }

  /******* Consumer *******/

  datatype Purpose = IdentityBackground | MaterialIdentityUpdate | FitnessHistoryPurpose | CurrentFitnessState

  datatype ConsumerOptions = ConsumerOptions(instanceId: string, producer: Participant, consumer: Participant,
                                             purpose: Purpose)

  /** What the port answers: the pointer twice, manifests by revision, payloads by path. */
  datatype Port = Port(firstPointer: Bytes, secondPointer: Bytes, manifests: map<Revision, Bytes>,
                       payloads: map<Text, Bytes>)

  datatype Consumed = Consumed(status: PointerStatus, pointer: Pointer, manifest: Manifest, payloads: seq<Artifact>)

  function Ascii(s: string): Text { seq(|s|, i requires 0 <= i < |s| => (s[i] as int % 0x10000) as CodeUnit) }

  function RequiredCapabilities(p: Purpose): seq<Text> {
    match p
    case IdentityBackground => [Ascii("identity_context"), Ascii("background_context")]
    case MaterialIdentityUpdate => [Ascii("material_identity_update")]
    case FitnessHistoryPurpose => [Ascii("fitness_history_context")]
    case CurrentFitnessState => [Ascii("current_fitness_state")]
  }

  predicate PairFits(o: ConsumerOptions) {
    if o.purpose in {IdentityBackground, MaterialIdentityUpdate}
       then o.producer == StellaRuntime && o.consumer == StellaFitness
    else o.producer == StellaFitness && o.consumer == StellaRuntime
  }

  predicate CapabilityAvailable(m: Manifest, p: Purpose) {
    exists c | c in m.collections.capabilities :: c.id in RequiredCapabilities(p) && c.state == Available
  }

  /** The pointer's own checks, and the revision it selects. */
  function SelectRevision(o: ConsumerOptions, first: Bytes): Reply<Revision> {
    if !first.PointerBytes? then Refused(PointerInvalid)
    else
      var b := first.pointer.body;
      if b.origin.instanceId != o.instanceId || b.origin.producer != o.producer || b.origin.consumer != o.consumer then
        Refused(PointerIdentityMismatch)
      else if b.status in {Blocked, Revoked} then Refused(NotConsumable)
      else if b.status == Stale && o.purpose !in {IdentityBackground, FitnessHistoryPurpose}
           then Refused(StaleForbidden)
      else
        var revision := if b.status == Active then b.revision else b.lastVerified;
        if revision.None? then Refused(RevisionMissing) else Ok(revision.value)
  }

  /** The manifest's checks, in order. */
  function ManifestError(o: ConsumerOptions, p: Pointer, revision: Revision, bytes: Bytes): Option<ProjectionError> {
    if !bytes.ManifestBytes? then Some(ManifestInvalid)
    else
      var m := bytes.manifest;
      var c := m.collections;
      if Normalize(c) != c then Some(CollectionOrderInvalid)
      else if !DistinctBy(c.references, ReferenceKey()) then Some(ReferenceDuplicate)
      else if !DistinctBy(c.references, ReferencePath()) then Some(ReferencePathDuplicate)
      else if !DistinctBy(c.conflicts, ConflictKey()) then Some(ConflictDuplicate)
      else if !DistinctBy(c.retractions, RetractionKey()) then Some(RetractionDuplicate)
      else if !DistinctBy(c.capabilities, CapabilityKey()) then Some(CapabilityDuplicate)
      else if m.origin.instanceId != o.instanceId || m.origin.producer != o.producer || m.origin.consumer != o.consumer
              || m.revision != revision || m.origin.sourceRevision != p.body.origin.sourceRevision
              || m.origin.asOf != p.body.origin.asOf || Checksum(bytes) != p.body.manifestChecksum
                then Some(TupleMismatch)
      else if Revision(m.origin, c) != revision then Some(RevisionMismatch)
      else if !PairFits(o) then Some(PurposePairMismatch)
      else if !CapabilityAvailable(m, o.purpose) then Some(CapabilityUnavailable)
      else if !DistinctBy(c.payloads, MetaKey()) then Some(PayloadPathDuplicate)
      else if !DistinctBy(c.payloads, MetaStableId()) then Some(PayloadStableIdDuplicate)
      else None
  }

  /** One payload's checks. */
  function PayloadError(nfc: Text -> Text, parse: Text -> Option<Json>, origin: Origin, meta: PayloadMeta, bytes: Bytes)
    : Option<ProjectionError>
  {
    if Checksum(bytes) != meta.checksum then Some(PayloadChecksumMismatch)
    else if meta.media == MarkdownMedia then
      if bytes.TextBytes? && CanonicalText(nfc, bytes.text) == Some(bytes.text) then None else Some(PayloadNotCanonical)
    else
      match bytes
      case IdentityBytes(c) =>
        if !ContextMatches(c, origin) then Some(ContextSourceMismatch)
        else if NormalizeContext(c) != c then Some(CollectionOrderInvalid) else None
      case JsonBytes(text) => if ParseJcsDocument(parse, text).Some? then None else Some(PayloadNotCanonical)
      case TextBytes(_) => Some(PayloadNotCanonical)
      case _ => None
  }

  function ConsumePayloads(nfc: Text -> Text, parse: Text -> Option<Json>, origin: Origin, metas: seq<PayloadMeta>,
                           payloads: map<Text, Bytes>)
    : Reply<seq<Artifact>>
  {
    if metas == [] then Ok([])
    else
      var meta := metas[0];
      if meta.path !in payloads then Refused(PayloadChecksumMismatch)
      else
        var error := PayloadError(nfc, parse, origin, meta, payloads[meta.path]);
        if error.Some? then Refused(error.value)
        else
          var rest := ConsumePayloads(nfc, parse, origin, metas[1..], payloads);
          if rest.Refused? then rest
          else Ok([Artifact(meta.stableId, meta.path, meta.media, payloads[meta.path])] + rest.value)
  }

  /** `runProjectionConsumerConformance`. */
  function Consume(nfc: Text -> Text, parse: Text -> Option<Json>, o: ConsumerOptions, port: Port): Reply<Consumed> {
    var selected := SelectRevision(o, port.firstPointer);
    if selected.Refused? then Refused(selected.error)
    else if selected.value !in port.manifests then Refused(ManifestInvalid)
    else
      var pointer := port.firstPointer.pointer;
      var bytes := port.manifests[selected.value];
      var error := ManifestError(o, pointer, selected.value, bytes);
      if error.Some? then Refused(error.value)
      else
        var m := bytes.manifest;
        var payloads := ConsumePayloads(nfc, parse, m.origin, m.collections.payloads, port.payloads);
        if payloads.Refused? then Refused(payloads.error)
        else if port.secondPointer != port.firstPointer then Refused(PointerChanged)
        else Ok(Consumed(pointer.body.status, pointer, m, payloads.value))
  }

  /** A publication served with the pointer made for it. */
  function Served(p: Publication, changedAt: string): Port {
    var pointer := PointerBytes(PointerFor(p.manifest, changedAt));
    Port(pointer, pointer, map[p.manifest.revision := p.manifestBytes], PayloadMap(p.payloads))
  }

  function PayloadMap(artifacts: seq<Artifact>): map<Text, Bytes> {
    if artifacts == [] then map[]
    else PayloadMap(artifacts[1..])[artifacts[0].path := artifacts[0].bytes]
  }
}
