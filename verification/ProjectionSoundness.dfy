/** What the producer publishes and what the consumer accepts, in the fields of the documents. */
module ProjectionSoundness {
  import opened Options
  import opened Canonical
  import opened Jcs
  import opened PayloadText
  import opened ProjectionConformance
  import opened ProjectionModel

  /******* Order *******/

  predicate CategoryAtMost(a: Category, b: Category) { a == b || a == Background || b == Identity }

  predicate EntryAtMost(a: Entry, b: Entry) {
    if a.category == b.category then TextAtMost(a.id, b.id) else CategoryAtMost(a.category, b.category)
  }

  predicate Ascending(s: seq<Text>) { forall i, j | 0 <= i < j < |s| :: TextAtMost(s[i], s[j]) }

  lemma SortedExactly<T>(s: seq<T>, key: T -> Text)
    ensures Sort(s, key) == s <==> SortedBy(s, key)
  {
    SortSorts(s, key);
    if SortedBy(s, key) { SortKeepsSorted(s, key); }
  }

  /** Categories, entries and the references of each entry, in order. */
  ghost predicate ContextOrdered(c: IdentityContext) {
    && (forall i, j | 0 <= i < j < |c.categories| :: CategoryAtMost(c.categories[i], c.categories[j]))
    && (forall i, j | 0 <= i < j < |c.entries| :: EntryAtMost(c.entries[i], c.entries[j]))
    && forall i | 0 <= i < |c.entries| :: Ascending(c.entries[i].references)
  }

  lemma CategoriesSorted(s: seq<Category>)
    ensures SortedBy(s, CategoryKey()) <==> forall i, j | 0 <= i < j < |s| :: CategoryAtMost(s[i], s[j])
  {
    forall a: Category, b: Category ensures TextAtMost(CategoryKey()(a), CategoryKey()(b)) <==> CategoryAtMost(a, b) {
      SingleUnits(CategoryRank(a), CategoryRank(b));
    }
  }

  lemma SingleUnits(a: CodeUnit, b: CodeUnit)
    ensures TextAtMost([a], [b]) <==> a <= b
  {}

  lemma EntriesSorted(s: seq<Entry>)
    ensures SortedBy(s, EntryKey()) <==> forall i, j | 0 <= i < j < |s| :: EntryAtMost(s[i], s[j])
  {
    forall a: Entry, b: Entry ensures TextAtMost(EntryKey()(a), EntryKey()(b)) <==> EntryAtMost(a, b) {
      var x, y := EntryKey()(a), EntryKey()(b);
      assert x[1..] == a.id && y[1..] == b.id;
      if x == y { assert a.id == b.id; }
    }
  }

  lemma {:induction false} NormalEntriesExactly(entries: seq<Entry>)
    ensures NormalizeEntries(entries) == entries <==>
            forall i | 0 <= i < |entries| :: Ascending(entries[i].references)
  {
    forall e: Entry ensures NormalizeEntry(e) == e <==> Ascending(e.references) {
      SortedExactly(e.references, TextKey());
      assert SortedBy(e.references, TextKey()) <==> Ascending(e.references);
    }
    if forall i | 0 <= i < |entries| :: Ascending(entries[i].references) {
      assert forall i | 0 <= i < |entries| :: NormalizeEntries(entries)[i] == entries[i];
    }
    if NormalizeEntries(entries) == entries {
      forall i | 0 <= i < |entries| ensures Ascending(entries[i].references) {
        assert NormalizeEntries(entries)[i] == NormalizeEntry(entries[i]);
      }
    }
  }

  lemma NormalContextExactly(c: IdentityContext)
    ensures NormalizeContext(c) == c <==> ContextOrdered(c)
  {
    hide Ascending, EntryAtMost, CategoryAtMost;
    CategoriesSorted(c.categories);
    SortedExactly(c.categories, CategoryKey());
    EntriesSorted(c.entries);
    NormalEntriesExactly(c.entries);
    var entries := NormalizeEntries(c.entries);
    SortedExactly(entries, EntryKey());
    if NormalizeContext(c) == c {
      assert c.entries == Sort(entries, EntryKey());
      SortSorts(entries, EntryKey());
      NormalEntries(c.entries);
      SortedEntriesAreNormal(entries);
    }
  }

  predicate RefsAscending(c: Conflict) { Ascending(c.references) }

  lemma {:induction false} NormalConflictsExactly(conflicts: seq<Conflict>)
    ensures NormalizeConflicts(conflicts) == conflicts <==> forall i | 0 <= i < |conflicts| ::
            RefsAscending(conflicts[i])
  {
    forall c: Conflict ensures NormalizeConflict(c) == c <==> RefsAscending(c) {
      SortedExactly(c.references, TextKey());
      assert SortedBy(c.references, TextKey()) <==> Ascending(c.references);
    }
    if forall i | 0 <= i < |conflicts| :: RefsAscending(conflicts[i]) {
      assert forall i | 0 <= i < |conflicts| :: NormalizeConflicts(conflicts)[i] == conflicts[i];
    }
    if NormalizeConflicts(conflicts) == conflicts {
      forall i | 0 <= i < |conflicts| ensures RefsAscending(conflicts[i]) {
        assert NormalizeConflicts(conflicts)[i] == NormalizeConflict(conflicts[i]);
      }
    }
  }

  /** Every collection of a manifest in its order. */
  ghost predicate CollectionsOrdered(c: Collections) {
    && (forall i, j | 0 <= i < j < |c.categories| :: CategoryAtMost(c.categories[i], c.categories[j]))
    && (forall i, j | 0 <= i < j < |c.references| :: TextAtMost(c.references[i].id, c.references[j].id))
    && (forall i, j | 0 <= i < j < |c.conflicts| :: TextAtMost(c.conflicts[i].id, c.conflicts[j].id))
    && (forall i | 0 <= i < |c.conflicts| :: RefsAscending(c.conflicts[i]))
    && (forall i, j | 0 <= i < j < |c.retractions| :: TextAtMost(c.retractions[i].id, c.retractions[j].id))
    && (forall i, j | 0 <= i < j < |c.capabilities| :: TextAtMost(c.capabilities[i].id, c.capabilities[j].id))
    && (forall i, j | 0 <= i < j < |c.payloads| :: TextAtMost(c.payloads[i].path, c.payloads[j].path))
  }

  lemma ConflictsOrderedExactly(conflicts: seq<Conflict>)
    ensures Sort(NormalizeConflicts(conflicts), ConflictKey()) == conflicts <==>
            SortedBy(conflicts, ConflictKey()) && forall i | 0 <= i < |conflicts| :: RefsAscending(conflicts[i])
  {
    hide RefsAscending, TextAtMost;
    NormalConflictsExactly(conflicts);
    var normal := NormalizeConflicts(conflicts);
    SortedExactly(normal, ConflictKey());
    if Sort(normal, ConflictKey()) == conflicts {
      SortSorts(normal, ConflictKey());
      NormalConflicts(conflicts);
      SortedConflictsAreNormal(normal);
    }
  }

  lemma NormalExactly(c: Collections)
    ensures Normalize(c) == c <==> CollectionsOrdered(c)
  {
    hide RefsAscending, TextAtMost, Sort, CategoryAtMost;
    CategoriesSorted(c.categories);
    SortedExactly(c.categories, CategoryKey());
    SortedExactly(c.references, ReferenceKey());
    SortedExactly(c.retractions, RetractionKey());
    SortedExactly(c.capabilities, CapabilityKey());
    SortedExactly(c.payloads, MetaKey());
    ConflictsOrderedExactly(c.conflicts);
  }

  /******* Consumer *******/

  /** Only an identity context or background may still be served stale. */
  predicate MayBeStale(p: Purpose) { p == IdentityBackground || p == FitnessHistoryPurpose }

  /** The pointer is for this caller, and it is active with this revision, or stale with this one last verified. */
  predicate Selects(o: ConsumerOptions, b: PointerBody, revision: Revision) {
    && b.origin.instanceId == o.instanceId && b.origin.producer == o.producer && b.origin.consumer == o.consumer
    && (|| (b.status == Active && b.revision == Some(revision))
        || (b.status == Stale && MayBeStale(o.purpose) && b.lastVerified == Some(revision)))
  }

  /** Identity goes from the runtime to fitness, and history and state go back. */
  predicate PairServes(o: ConsumerOptions) {
    match o.purpose
    case IdentityBackground => o.producer == StellaRuntime && o.consumer == StellaFitness
    case MaterialIdentityUpdate => o.producer == StellaRuntime && o.consumer == StellaFitness
    case FitnessHistoryPurpose => o.producer == StellaFitness && o.consumer == StellaRuntime
    case CurrentFitnessState => o.producer == StellaFitness && o.consumer == StellaRuntime
  }

  /** The capability is one the purpose asks for. */
  predicate ServesPurpose(id: Text, p: Purpose) {
    || (p == IdentityBackground && (id == Ascii("identity_context") || id == Ascii("background_context")))
    || (p == MaterialIdentityUpdate && id == Ascii("material_identity_update"))
    || (p == FitnessHistoryPurpose && id == Ascii("fitness_history_context"))
    || (p == CurrentFitnessState && id == Ascii("current_fitness_state"))
  }

  ghost predicate NoRepeats(c: Collections) {
    && (forall i, j | 0 <= i < j < |c.references| ::
          c.references[i].id != c.references[j].id && c.references[i].path != c.references[j].path)
    && (forall i, j | 0 <= i < j < |c.conflicts| :: c.conflicts[i].id != c.conflicts[j].id)
    && (forall i, j | 0 <= i < j < |c.retractions| :: c.retractions[i].id != c.retractions[j].id)
    && (forall i, j | 0 <= i < j < |c.capabilities| :: c.capabilities[i].id != c.capabilities[j].id)
    && (forall i, j | 0 <= i < j < |c.payloads| ::
          c.payloads[i].path != c.payloads[j].path && c.payloads[i].stableId != c.payloads[j].stableId)
  }

  /**
   The manifest is the pointer's, for the caller's pair and purpose, in order and under its own content's revision.
   */
  ghost predicate ManifestServes(o: ConsumerOptions, b: PointerBody, revision: Revision, m: Manifest) {
    && m.origin.instanceId == o.instanceId && m.origin.producer == o.producer && m.origin.consumer == o.consumer
    && m.origin.sourceRevision == b.origin.sourceRevision && m.origin.asOf == b.origin.asOf
    && b.manifestChecksum == Checksum(ManifestBytes(m))
    && m.revision == revision && revision == Revision(m.origin, m.collections)
    && CollectionsOrdered(m.collections) && NoRepeats(m.collections)
    && PairServes(o)
    && exists c | c in m.collections.capabilities :: c.state == Available && ServesPurpose(c.id, o.purpose)
  }

  /** The payload has its listed checksum, and is canonical as its media type asks. */
  ghost predicate PayloadServes(nfc: Text -> Text, parse: Text -> Option<Json>, origin: Origin, meta: PayloadMeta,
                                payloads: map<Text, Bytes>) {
    && meta.path in payloads
    && var bytes := payloads[meta.path];
       && Checksum(bytes) == meta.checksum
       && (meta.media == MarkdownMedia ==> bytes.TextBytes? && CanonicalText(nfc, bytes.text) == Some(bytes.text))
       && (meta.media == JsonMedia ==>
             && !bytes.TextBytes?
             && (bytes.JsonBytes? ==>
                   parse(bytes.json).Some? && Serialize(parse(bytes.json).value) == Some(bytes.json))
             && (bytes.IdentityBytes? ==>
                   && bytes.context.instanceId == origin.instanceId && bytes.context.producer == origin.producer
                   && bytes.context.consumer == origin.consumer
                   && bytes.context.sourceRevision == origin.sourceRevision && bytes.context.asOf == origin.asOf
                   && ContextOrdered(bytes.context)))
  }

  lemma SelectsExactly(o: ConsumerOptions, first: Bytes, revision: Revision)
    ensures SelectRevision(o, first) == Ok(revision) <==>
            first.PointerBytes? && Selects(o, first.pointer.body, revision)
  {}

  lemma NoRepeatsExactly(c: Collections)
    ensures NoRepeats(c) <==>
            && DistinctBy(c.references, ReferenceKey()) && DistinctBy(c.references, ReferencePath())
            && DistinctBy(c.conflicts, ConflictKey()) && DistinctBy(c.retractions, RetractionKey())
            && DistinctBy(c.capabilities, CapabilityKey())
            && DistinctBy(c.payloads, MetaKey()) && DistinctBy(c.payloads, MetaStableId())
  {}

  lemma CapabilityExactly(m: Manifest, p: Purpose)
    ensures CapabilityAvailable(m, p) <==>
            exists c | c in m.collections.capabilities :: c.state == Available && ServesPurpose(c.id, p)
  {
    hide Ascii;
    forall id ensures id in RequiredCapabilities(p) <==> ServesPurpose(id, p) {}
  }

  lemma PairExactly(o: ConsumerOptions)
    ensures PairFits(o) <==> PairServes(o)
  {}

  lemma ManifestAcceptedExactly(o: ConsumerOptions, p: Pointer, revision: Revision, bytes: Bytes)
    ensures ManifestError(o, p, revision, bytes).None?
            <==> bytes.ManifestBytes? && ManifestServes(o, p.body, revision, bytes.manifest)
  {
    hide Normalize, DistinctBy, NoRepeats, CollectionsOrdered, ServesPurpose, RequiredCapabilities, CapabilityAvailable,
         PairFits, PairServes;
    if bytes.ManifestBytes? {
      var c := bytes.manifest.collections;
      NormalExactly(c);
      NoRepeatsExactly(c);
      CapabilityExactly(bytes.manifest, o.purpose);
      PairExactly(o);
    }
  }

  lemma PayloadAcceptedExactly(nfc: Text -> Text, parse: Text -> Option<Json>, origin: Origin, meta: PayloadMeta,
                               payloads: map<Text, Bytes>)
    ensures PayloadServes(nfc, parse, origin, meta, payloads) <==>
            meta.path in payloads && PayloadError(nfc, parse, origin, meta, payloads[meta.path]).None?
  {
    if meta.path in payloads && payloads[meta.path].IdentityBytes? {
      NormalContextExactly(payloads[meta.path].context);
      hide NormalizeContext, ContextOrdered;
    }
  }

  /** Every listed payload, in order, as the port serves it. */
  ghost predicate ServedAs(r: seq<Artifact>, metas: seq<PayloadMeta>, payloads: map<Text, Bytes>) {
    && |r| == |metas|
    && forall i | 0 <= i < |r| ::
         && metas[i].path in payloads
         && r[i] == Artifact(metas[i].stableId, metas[i].path, metas[i].media, payloads[metas[i].path])
  }

  lemma {:induction false} PayloadsAcceptedExactly(nfc: Text -> Text, parse: Text -> Option<Json>, origin: Origin,
                                                   metas: seq<PayloadMeta>, payloads: map<Text, Bytes>)
    ensures var r := ConsumePayloads(nfc, parse, origin, metas, payloads);
            && (r.Ok? <==> forall meta | meta in metas :: PayloadServes(nfc, parse, origin, meta, payloads))
            && (r.Ok? ==> ServedAs(r.value, metas, payloads))
  {
    hide PayloadServes, PayloadError;
    if metas != [] {
      PayloadAcceptedExactly(nfc, parse, origin, metas[0], payloads);
      PayloadsAcceptedExactly(nfc, parse, origin, metas[1..], payloads);
      assert metas == [metas[0]] + metas[1..];
    }
  }

  /** What a port must serve for `m` to be consumed. */
  ghost predicate Serves(nfc: Text -> Text, parse: Text -> Option<Json>, o: ConsumerOptions, port: Port, m: Manifest) {
    && port.firstPointer.PointerBytes? && port.secondPointer == port.firstPointer
    && Selects(o, port.firstPointer.pointer.body, m.revision)
    && m.revision in port.manifests && port.manifests[m.revision] == ManifestBytes(m)
    && ManifestServes(o, port.firstPointer.pointer.body, m.revision, m)
    && forall meta | meta in m.collections.payloads :: PayloadServes(nfc, parse, m.origin, meta, port.payloads)
  }

  /**
   For every port: a consumption succeeds with a manifest exactly when the pointer selects it, active or rightly stale,
   and pointer, manifest, pair, capability and every payload fit; and it returns just what was served.
   */
  lemma ConsumesExactly(nfc: Text -> Text, parse: Text -> Option<Json>, o: ConsumerOptions, port: Port, m: Manifest)
    ensures var r := Consume(nfc, parse, o, port);
            && (r.Ok? && r.value.manifest == m <==> Serves(nfc, parse, o, port, m))
            && (r.Ok? ==>
                  && port.firstPointer == PointerBytes(r.value.pointer)
                  && r.value.status == r.value.pointer.body.status
                  && ServedAs(r.value.payloads, r.value.manifest.collections.payloads, port.payloads))
  {
    hide ManifestServes, PayloadServes, ManifestError, SelectRevision, Selects, ServedAs;
    var selected := SelectRevision(o, port.firstPointer);
    SelectsExactly(o, port.firstPointer, m.revision);
    if selected.Ok? {
      SelectsExactly(o, port.firstPointer, selected.value);
      if selected.value in port.manifests {
        var bytes := port.manifests[selected.value];
        ManifestAcceptedExactly(o, port.firstPointer.pointer, selected.value, bytes);
        if bytes.ManifestBytes? {
          ManifestHasRevision(o, port.firstPointer.pointer.body, selected.value, bytes.manifest);
          PayloadsAcceptedExactly(nfc, parse, bytes.manifest.origin, bytes.manifest.collections.payloads,
                                  port.payloads);
        }
      }
    }
  }

  lemma ManifestHasRevision(o: ConsumerOptions, b: PointerBody, revision: Revision, m: Manifest)
    ensures ManifestServes(o, b, revision, m) ==> m.revision == revision
  {}

  /******* Producer *******/

  predicate SameEntry(a: Entry, b: Entry) {
    a.id == b.id && a.category == b.category && a.content == b.content
      && multiset(a.references) == multiset(b.references)
  }

  ghost predicate HasEntry(r: seq<Entry>, x: Entry) { exists y | y in r :: SameEntry(x, y) }

  ghost predicate EntryFrom(entries: seq<Entry>, y: Entry) { exists x | x in entries :: SameEntry(x, y) }

  ghost predicate EntriesPublished(entries: seq<Entry>, r: seq<Entry>) {
    |r| == |entries| && (forall x | x in entries :: HasEntry(r, x)) && forall y | y in r :: EntryFrom(entries, y)
  }

  /** The same context, in order. */
  ghost predicate ContextPublished(c: IdentityContext, r: IdentityContext) {
    && r == c.(categories := r.categories, entries := r.entries) && ContextOrdered(r)
    && multiset(r.categories) == multiset(c.categories) && EntriesPublished(c.entries, r.entries)
  }

  /** The artifact of an input: its name, place and media, and its value in canonical bytes. */
  ghost predicate PayloadPublished(nfc: Text -> Text, p: PayloadInput, a: Artifact) {
    && a.stableId == p.stableId && a.path == p.path
    && match p.value
       case IdentityValue(c) => a.media == JsonMedia && a.bytes.IdentityBytes? && ContextPublished(c, a.bytes.context)
       case JsonValue(v) => a.media == JsonMedia && a.bytes.JsonBytes? && Serialize(v) == Some(a.bytes.json)
       case TextValue(t) =>
         a.media == MarkdownMedia && a.bytes.TextBytes? && CanonicalText(nfc, t) == Some(a.bytes.text)
  }

  lemma {:induction false} InBoth<T>(a: seq<T>, b: seq<T>)
    requires multiset(a) == multiset(b)
    ensures |a| == |b| && forall x :: x in a <==> x in b
  {
    assert |multiset(a)| == |a| && |multiset(b)| == |b|;
    forall x ensures x in a <==> x in b { assert x in multiset(a) <==> x in multiset(b); }
  }

  lemma ReorderedEntries(entries: seq<Entry>, normal: seq<Entry>, r: seq<Entry>)
    requires |normal| == |entries| && forall i | 0 <= i < |entries| :: SameEntry(entries[i], normal[i])
    requires multiset(r) == multiset(normal)
    ensures EntriesPublished(entries, r)
  {
    InBoth(normal, r);
    forall x | x in entries ensures HasEntry(r, x) {
      var i :| 0 <= i < |entries| && entries[i] == x;
      assert normal[i] in r && SameEntry(x, normal[i]);
    }
    forall y | y in r ensures EntryFrom(entries, y) {
      var i :| 0 <= i < |normal| && normal[i] == y;
      assert entries[i] in entries && SameEntry(entries[i], y);
    }
  }

  lemma ContextIsPublished(c: IdentityContext)
    ensures ContextPublished(c, NormalizeContext(c))
  {
    var r := NormalizeContext(c);
    ContextIsNormal(c);
    NormalContextExactly(r);
    SortSorts(c.categories, CategoryKey());
    var normal := NormalizeEntries(c.entries);
    SortSorts(normal, EntryKey());
    forall i | 0 <= i < |c.entries| ensures SameEntry(c.entries[i], normal[i]) {
      assert normal[i] == NormalizeEntry(c.entries[i]);
      SortSorts(c.entries[i].references, TextKey());
    }
    hide Sort, ContextOrdered, SameEntry, EntriesPublished;
    ReorderedEntries(c.entries, normal, r.entries);
  }

  lemma ArtifactIsPublished(nfc: Text -> Text, p: PayloadInput, o: Origin)
    requires PayloadBytes(nfc, p.value, o).Some?
    ensures PayloadPublished(nfc, p, ArtifactOf(nfc, p, o))
  {
    if p.value.IdentityValue? { ContextIsPublished(p.value.context); }
    hide ContextPublished, NormalizeContext, Serialize, CanonicalText;
  }

  predicate SameConflict(a: Conflict, b: Conflict) {
    a.id == b.id && a.summary == b.summary && multiset(a.references) == multiset(b.references)
  }

  ghost predicate HasConflict(r: seq<Conflict>, x: Conflict) { exists y | y in r :: SameConflict(x, y) }

  ghost predicate ConflictFrom(conflicts: seq<Conflict>, y: Conflict) {
    exists x | x in conflicts :: SameConflict(x, y)
  }

  ghost predicate ConflictsPublished(conflicts: seq<Conflict>, r: seq<Conflict>) {
    |r| == |conflicts| && (forall x | x in conflicts :: HasConflict(r, x)) && forall y | y in r ::
      ConflictFrom(conflicts, y)
  }

  lemma ReorderedConflicts(conflicts: seq<Conflict>, normal: seq<Conflict>, r: seq<Conflict>)
    requires |normal| == |conflicts| && forall i | 0 <= i < |conflicts| :: SameConflict(conflicts[i], normal[i])
    requires multiset(r) == multiset(normal)
    ensures ConflictsPublished(conflicts, r)
  {
    InBoth(normal, r);
    forall x | x in conflicts ensures HasConflict(r, x) {
      var i :| 0 <= i < |conflicts| && conflicts[i] == x;
      assert normal[i] in r && SameConflict(x, normal[i]);
    }
    forall y | y in r ensures ConflictFrom(conflicts, y) {
      var i :| 0 <= i < |normal| && normal[i] == y;
      assert conflicts[i] in conflicts && SameConflict(conflicts[i], y);
    }
  }

  lemma ConflictsArePublished(conflicts: seq<Conflict>)
    ensures ConflictsPublished(conflicts, Sort(NormalizeConflicts(conflicts), ConflictKey()))
  {
    var normal := NormalizeConflicts(conflicts);
    SortSorts(normal, ConflictKey());
    forall i | 0 <= i < |conflicts| ensures SameConflict(conflicts[i], normal[i]) {
      assert normal[i] == NormalizeConflict(conflicts[i]);
      SortSorts(conflicts[i].references, TextKey());
    }
    hide Sort, SameConflict, ConflictsPublished;
    ReorderedConflicts(conflicts, normal, Sort(normal, ConflictKey()));
  }

  /** No name is given twice, contexts are the origin's own, and every value has canonical bytes. */
  ghost predicate Publishable(nfc: Text -> Text, i: ProducerInput) {
    && (forall j, k | 0 <= j < k < |i.payloads| ::
          i.payloads[j].path != i.payloads[k].path && i.payloads[j].stableId != i.payloads[k].stableId)
    && (forall j, k | 0 <= j < k < |i.references| ::
          i.references[j].id != i.references[k].id && i.references[j].path != i.references[k].path)
    && (forall j, k | 0 <= j < k < |i.conflicts| :: i.conflicts[j].id != i.conflicts[k].id)
    && (forall j, k | 0 <= j < k < |i.retractions| :: i.retractions[j].id != i.retractions[k].id)
    && (forall j, k | 0 <= j < k < |i.capabilities| :: i.capabilities[j].id != i.capabilities[k].id)
    && (forall j, k | 0 <= j < k < |i.categories| :: i.categories[j] != i.categories[k])
    && forall p | p in i.payloads :: ValuePublishable(nfc, p.value, i.origin)
  }

  predicate ValuePublishable(nfc: Text -> Text, value: PayloadValue, o: Origin) {
    match value
    case IdentityValue(c) =>
      && c.instanceId == o.instanceId && c.producer == o.producer && c.consumer == o.consumer
      && c.sourceRevision == o.sourceRevision && c.asOf == o.asOf
    case JsonValue(v) => Serialize(v).Some?
    case TextValue(t) => CanonicalText(nfc, t).Some?
  }

  /** A publication of the input: everything in it, each collection in order, every payload in canonical bytes. */
  ghost predicate Publishes(nfc: Text -> Text, i: ProducerInput, p: Publication) {
    && p.manifestBytes == ManifestBytes(p.manifest)
    && p.manifest.origin == i.origin && p.manifest.generatedAt == i.generatedAt
    && p.manifest.revision == Revision(i.origin, p.manifest.collections)
    && var c := p.manifest.collections;
       && CollectionsOrdered(c)
       && multiset(c.categories) == multiset(i.categories) && multiset(c.references) == multiset(i.references)
       && multiset(c.retractions) == multiset(i.retractions) && multiset(c.capabilities) == multiset(i.capabilities)
       && ConflictsPublished(i.conflicts, c.conflicts)
       && |p.payloads| == |i.payloads| == |c.payloads|
       && (forall k | 0 <= k < |c.payloads| ::
             c.payloads[k] == PayloadMeta(p.payloads[k].stableId, p.payloads[k].path, p.payloads[k].media,
                                          Checksum(p.payloads[k].bytes)))
       && (forall j | 0 <= j < |i.payloads| ::
             exists k | 0 <= k < |p.payloads| :: PayloadPublished(nfc, i.payloads[j], p.payloads[k]))
  }

  lemma CategoriesDistinct(s: seq<Category>)
    ensures DistinctBy(s, CategoryKey()) <==> forall j, k | 0 <= j < k < |s| :: s[j] != s[k]
  {
    forall a: Category, b: Category ensures CategoryKey()(a) == CategoryKey()(b) <==> a == b {
      assert CategoryKey()(a)[0] == CategoryRank(a) && CategoryKey()(b)[0] == CategoryRank(b);
    }
  }

  lemma PublishableExactly(nfc: Text -> Text, i: ProducerInput)
    ensures Produce(nfc, i).Ok? <==> Publishable(nfc, i)
  {
    hide Sort, Artifacts, Serialize, CanonicalText, NormalizeContext, Normalize;
    CategoriesDistinct(i.categories);
    hide CategoryKey;
    forall p | p in i.payloads
      ensures PayloadBytes(nfc, p.value, i.origin).Some? <==> ValuePublishable(nfc, p.value, i.origin)
    {}
  }

  /** The producer publishes exactly what is publishable, and the publication says just what its input says. */
  lemma ProducesExactly(nfc: Text -> Text, i: ProducerInput)
    ensures Produce(nfc, i).Ok? <==> Publishable(nfc, i)
    ensures Produce(nfc, i).Ok? ==> Publishes(nfc, i, Produce(nfc, i).value)
  {
    PublishableExactly(nfc, i);
    if Produce(nfc, i).Ok? {
      ProducedManifestIsClean(nfc, i);
      NormalExactly(Produce(nfc, i).value.manifest.collections);
      MetasOfSorted(nfc, i);
      CollectionsArePublished(nfc, i);
      PayloadsArePublished(nfc, i);
      hide Produce, CollectionsOrdered, Normalize, DistinctBy, SortedBy, Publishable, ConflictsPublished,
           PayloadPublished, Sort;
    }
  }

  lemma CollectionsArePublished(nfc: Text -> Text, i: ProducerInput)
    requires Produce(nfc, i).Ok?
    ensures var p := Produce(nfc, i).value;
            var c := p.manifest.collections;
            && p.manifestBytes == ManifestBytes(p.manifest)
            && p.manifest.origin == i.origin && p.manifest.generatedAt == i.generatedAt
            && p.manifest.revision == Revision(i.origin, c)
            && multiset(c.categories) == multiset(i.categories) && multiset(c.references) == multiset(i.references)
            && multiset(c.retractions) == multiset(i.retractions)
               && multiset(c.capabilities) == multiset(i.capabilities)
            && ConflictsPublished(i.conflicts, c.conflicts)
  {
    SortSorts(i.categories, CategoryKey());
    SortSorts(i.references, ReferenceKey());
    SortSorts(i.retractions, RetractionKey());
    SortSorts(i.capabilities, CapabilityKey());
    ConflictsArePublished(i.conflicts);
    hide Sort, SortedBy, ConflictsPublished, DistinctBy, Artifacts, AllCanonical, NormalizeConflicts, Metas;
  }

  lemma PayloadsArePublished(nfc: Text -> Text, i: ProducerInput)
    requires Produce(nfc, i).Ok?
    ensures var p := Produce(nfc, i).value;
            && |p.payloads| == |i.payloads|
            && forall j | 0 <= j < |i.payloads| ::
                 exists k | 0 <= k < |p.payloads| :: PayloadPublished(nfc, i.payloads[j], p.payloads[k])
  {
    assert AllCanonical(nfc, i.payloads, i.origin);
    var artifacts := Artifacts(nfc, i.payloads, i.origin);
    SortSorts(artifacts, ArtifactKey());
    var sorted := Sort(artifacts, ArtifactKey());
    assert Produce(nfc, i).value.payloads == sorted;
    InBoth(artifacts, sorted);
    hide Produce, Sort, PayloadBytes, PayloadPublished;
    forall j | 0 <= j < |i.payloads|
      ensures exists k | 0 <= k < |sorted| :: PayloadPublished(nfc, i.payloads[j], sorted[k])
    {
      assert i.payloads[j] in i.payloads;
      ArtifactIsPublished(nfc, i.payloads[j], i.origin);
      assert artifacts[j] in sorted;
    }
  }
}
