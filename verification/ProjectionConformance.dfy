/** The consumer accepts what the producer makes, and one revision means one content. */
module ProjectionConformance {
  import opened Options
  import opened Canonical
  import opened Jcs
  import opened JcsCanonicity
  import opened PayloadText
  import opened ProjectionModel

  /******* Normal forms are stable *******/

  lemma {:induction false} NormalEntries(entries: seq<Entry>)
    ensures NormalizeEntries(NormalizeEntries(entries)) == NormalizeEntries(entries)
  {
    if entries != [] {
      SortSorts(entries[0].references, TextKey());
      SortKeepsSorted(Sort(entries[0].references, TextKey()), TextKey());
      NormalEntries(entries[1..]);
    }
  }

  lemma {:induction false} NormalConflicts(conflicts: seq<Conflict>)
    ensures NormalizeConflicts(NormalizeConflicts(conflicts)) == NormalizeConflicts(conflicts)
  {
    if conflicts != [] {
      SortSorts(conflicts[0].references, TextKey());
      SortKeepsSorted(Sort(conflicts[0].references, TextKey()), TextKey());
      NormalConflicts(conflicts[1..]);
    }
  }

  lemma SortedEntriesAreNormal(entries: seq<Entry>)
    requires NormalizeEntries(entries) == entries
    ensures NormalizeEntries(Sort(entries, EntryKey())) == Sort(entries, EntryKey())
  {
    var sorted := Sort(entries, EntryKey());
    SortSorts(entries, EntryKey());
    forall i | 0 <= i < |sorted| ensures NormalizeEntry(sorted[i]) == sorted[i] {
      assert sorted[i] in multiset(sorted);
      assert sorted[i] in multiset(entries);
      var j :| 0 <= j < |entries| && entries[j] == sorted[i];
      assert NormalizeEntries(entries)[j] == NormalizeEntry(entries[j]);
    }
  }

  lemma SortedConflictsAreNormal(conflicts: seq<Conflict>)
    requires NormalizeConflicts(conflicts) == conflicts
    ensures NormalizeConflicts(Sort(conflicts, ConflictKey())) == Sort(conflicts, ConflictKey())
  {
    var sorted := Sort(conflicts, ConflictKey());
    SortSorts(conflicts, ConflictKey());
    forall i | 0 <= i < |sorted| ensures NormalizeConflict(sorted[i]) == sorted[i] {
      assert sorted[i] in multiset(sorted);
      assert sorted[i] in multiset(conflicts);
      var j :| 0 <= j < |conflicts| && conflicts[j] == sorted[i];
      assert NormalizeConflicts(conflicts)[j] == NormalizeConflict(conflicts[j]);
    }
  }

  lemma SortTwice<T>(s: seq<T>, key: T -> Text)
    ensures Sort(Sort(s, key), key) == Sort(s, key)
  {
    SortSorts(s, key);
    SortKeepsSorted(Sort(s, key), key);
  }

  /** Normalizing a context twice is normalizing it once. */
  lemma ContextIsNormal(c: IdentityContext)
    ensures NormalizeContext(NormalizeContext(c)) == NormalizeContext(c)
  {
    NormalEntries(c.entries);
    SortedEntriesAreNormal(NormalizeEntries(c.entries));
    SortTwice(NormalizeEntries(c.entries), EntryKey());
    SortTwice(c.categories, CategoryKey());
    hide Sort;
  }

  lemma CollectionsAreNormal(c: Collections)
    ensures Normalize(Normalize(c)) == Normalize(c)
  {
    NormalConflicts(c.conflicts);
    SortedConflictsAreNormal(NormalizeConflicts(c.conflicts));
    SortTwice(NormalizeConflicts(c.conflicts), ConflictKey());
    SortTwice(c.categories, CategoryKey());
    SortTwice(c.references, ReferenceKey());
    SortTwice(c.retractions, RetractionKey());
    SortTwice(c.capabilities, CapabilityKey());
    SortTwice(c.payloads, MetaKey());
    hide Sort;
  }

  /******* What a publication looks like *******/

  lemma SortKeepsDistinct<T>(s: seq<T>, key: T -> Text, other: T -> Text)
    requires DistinctBy(s, other)
    ensures DistinctBy(Sort(s, key), other)
  {
    SortSorts(s, key);
    DistinctIsAboutContents(s, Sort(s, key), other);
  }

  lemma MetasOfSorted(nfc: Text -> Text, i: ProducerInput)
    requires Produce(nfc, i).Ok?
    ensures var p := Produce(nfc, i).value;
            && SortedBy(Metas(p.payloads), MetaKey())
            && p.manifest.collections.payloads == Metas(p.payloads)
            && DistinctBy(p.payloads, ArtifactKey())
            && DistinctBy(Metas(p.payloads), MetaKey()) && DistinctBy(Metas(p.payloads), MetaStableId())
  {
    var artifacts := Artifacts(nfc, i.payloads, i.origin);
    SortSorts(artifacts, ArtifactKey());
    assert DistinctBy(artifacts, ArtifactKey()) by {
      forall j, k | 0 <= j < k < |artifacts| ensures ArtifactKey()(artifacts[j]) != ArtifactKey()(artifacts[k]) {
        assert InputPath()(i.payloads[j]) != InputPath()(i.payloads[k]);
      }
    }
    var stable: Artifact -> Text := (a: Artifact) => a.stableId;
    assert DistinctBy(artifacts, stable) by {
      forall j, k | 0 <= j < k < |artifacts| ensures stable(artifacts[j]) != stable(artifacts[k]) {
        assert InputStableId()(i.payloads[j]) != InputStableId()(i.payloads[k]);
      }
    }
    SortKeepsDistinct(artifacts, ArtifactKey(), ArtifactKey());
    SortKeepsDistinct(artifacts, ArtifactKey(), stable);
    var sorted := Sort(artifacts, ArtifactKey());
    var metas := Metas(sorted);
    forall j, k | 0 <= j < k < |metas|
      ensures TextAtMost(MetaKey()(metas[j]), MetaKey()(metas[k])) && MetaKey()(metas[j]) != MetaKey()(metas[k])
              && MetaStableId()(metas[j]) != MetaStableId()(metas[k])
    {
      assert TextAtMost(ArtifactKey()(sorted[j]), ArtifactKey()(sorted[k])) && stable(sorted[j]) != stable(sorted[k]);
    }
    SortKeepsSorted(metas, MetaKey());
  }

  lemma ProducedManifestIsClean(nfc: Text -> Text, i: ProducerInput)
    requires Produce(nfc, i).Ok?
    ensures var c := Produce(nfc, i).value.manifest.collections;
            && Normalize(c) == c
            && DistinctBy(c.references, ReferenceKey()) && DistinctBy(c.references, ReferencePath())
            && DistinctBy(c.conflicts, ConflictKey()) && DistinctBy(c.retractions, RetractionKey())
            && DistinctBy(c.capabilities, CapabilityKey())
  {
    var metas := Metas(Sort(Artifacts(nfc, i.payloads, i.origin), ArtifactKey()));
    CollectionsAreNormal(Collections(i.categories, i.references, i.conflicts, i.retractions, i.capabilities, metas));
    SortKeepsDistinct(i.references, ReferenceKey(), ReferenceKey());
    SortKeepsDistinct(i.references, ReferenceKey(), ReferencePath());
    var conflicts := NormalizeConflicts(i.conflicts);
    assert DistinctBy(conflicts, ConflictKey()) by {
      forall j, k | 0 <= j < k < |conflicts| ensures ConflictKey()(conflicts[j]) != ConflictKey()(conflicts[k]) {
        assert ConflictKey()(i.conflicts[j]) != ConflictKey()(i.conflicts[k]);
      }
    }
    SortKeepsDistinct(conflicts, ConflictKey(), ConflictKey());
    SortKeepsDistinct(i.retractions, RetractionKey(), RetractionKey());
    SortKeepsDistinct(i.capabilities, CapabilityKey(), CapabilityKey());
    hide Sort, NormalizeConflicts, Metas, Artifacts;
  }

  /******* Payloads *******/

  lemma ProducedBytesAreAccepted(nfc: Text -> Text, parse: Text -> Option<Json>, p: PayloadInput, o: Origin)
    requires Normalizes(nfc) && ReadsJson(parse) && PayloadBytes(nfc, p.value, o).Some?
    requires p.value.JsonValue? ==> WellFormed(p.value.json)
    ensures var a := ArtifactOf(nfc, p, o);
            PayloadError(nfc, parse, o, MetaOf(a), a.bytes).None?
  {
    match p.value
    case IdentityValue(c) => ContextIsNormal(c);
    case JsonValue(v) => AcceptsExactlyCanonicalText(parse, Serialize(v).value);
    case TextValue(t) => CanonicalizationIsIdempotent(nfc, t);
  }

  lemma {:induction false} PayloadMapLookup(artifacts: seq<Artifact>, i: nat)
    requires i < |artifacts| && DistinctBy(artifacts, ArtifactKey())
    ensures artifacts[i].path in PayloadMap(artifacts) && PayloadMap(artifacts)[artifacts[i].path] == artifacts[i].bytes
  {
    if i > 0 {
      assert ArtifactKey()(artifacts[0]) != ArtifactKey()(artifacts[i]);
      PayloadMapLookup(artifacts[1..], i - 1);
    }
  }

  lemma {:induction false} PayloadsAreConsumed(nfc: Text -> Text, parse: Text -> Option<Json>, o: Origin,
                                               artifacts: seq<Artifact>, payloads: map<Text, Bytes>)
    requires forall a | a in artifacts ::
               && a.path in payloads && payloads[a.path] == a.bytes
               && PayloadError(nfc, parse, o, MetaOf(a), a.bytes).None?
    ensures ConsumePayloads(nfc, parse, o, Metas(artifacts), payloads) == Ok(artifacts)
  {
    if artifacts != [] {
      assert artifacts[0] in artifacts;
      PayloadsAreConsumed(nfc, parse, o, artifacts[1..], payloads);
      assert artifacts == [artifacts[0]] + artifacts[1..];
    }
  }

  /** JSON values as a heap can hold them: no object with a repeated key. */
  predicate ValuesWellFormed(payloads: seq<PayloadInput>) {
    forall p | p in payloads :: p.value.JsonValue? ==> WellFormed(p.value.json)
  }

  lemma ArtifactIsAccepted(nfc: Text -> Text, parse: Text -> Option<Json>, i: ProducerInput, a: Artifact)
    requires Normalizes(nfc) && ReadsJson(parse) && Produce(nfc, i).Ok? && ValuesWellFormed(i.payloads)
    requires a in Produce(nfc, i).value.payloads
    ensures PayloadError(nfc, parse, i.origin, MetaOf(a), a.bytes).None?
  {
    assert a in Sort(Artifacts(nfc, i.payloads, i.origin), ArtifactKey());
    var artifacts := Artifacts(nfc, i.payloads, i.origin);
    SortSorts(artifacts, ArtifactKey());
    hide Produce, Sort, PayloadBytes, ReadsJson, Normalizes, PayloadError;
    assert a in multiset(Sort(artifacts, ArtifactKey()));
    assert a in multiset(artifacts);
    var j :| 0 <= j < |artifacts| && artifacts[j] == a;
    assert i.payloads[j] in i.payloads;
    ProducedBytesAreAccepted(nfc, parse, i.payloads[j], i.origin);
  }

  lemma {:induction false} ProducedPayloadsAreConsumed(nfc: Text -> Text, parse: Text -> Option<Json>, i: ProducerInput)
    requires Normalizes(nfc) && ReadsJson(parse) && Produce(nfc, i).Ok? && ValuesWellFormed(i.payloads)
    ensures var p := Produce(nfc, i).value;
            ConsumePayloads(nfc, parse, i.origin, p.manifest.collections.payloads, PayloadMap(p.payloads))
              == Ok(p.payloads)
  {
    hide Produce, ReadsJson, Normalizes, PayloadError, PayloadMap, Metas, DistinctBy, SortedBy, ConsumePayloads;
    var p := Produce(nfc, i).value;
    MetasOfSorted(nfc, i);
    forall a | a in p.payloads
      ensures a.path in PayloadMap(p.payloads) && PayloadMap(p.payloads)[a.path] == a.bytes
      ensures PayloadError(nfc, parse, i.origin, MetaOf(a), a.bytes).None?
    {
      var k :| 0 <= k < |p.payloads| && p.payloads[k] == a;
      PayloadMapLookup(p.payloads, k);
      ArtifactIsAccepted(nfc, parse, i, a);
    }
    PayloadsAreConsumed(nfc, parse, i.origin, p.payloads, PayloadMap(p.payloads));
  }

  /******* Main results *******/

  /** The consumer's options fit the producer's input. */
  predicate Fits(o: ConsumerOptions, i: ProducerInput, m: Manifest) {
    && o.instanceId == i.origin.instanceId && o.producer == i.origin.producer && o.consumer == i.origin.consumer
    && PairFits(o)
    && (exists c | c in m.collections.capabilities :: c.id in RequiredCapabilities(o.purpose) && c.state == Available)
  }

  lemma {:induction false} ProducedManifestIsAccepted(nfc: Text -> Text, i: ProducerInput, o: ConsumerOptions,
                                                      changedAt: string)
    requires Produce(nfc, i).Ok? && Fits(o, i, Produce(nfc, i).value.manifest)
    ensures var p := Produce(nfc, i).value;
            ManifestError(o, PointerFor(p.manifest, changedAt), p.manifest.revision, p.manifestBytes).None?
  {
    ProducedManifestIsClean(nfc, i);
    MetasOfSorted(nfc, i);
    hide Normalize, DistinctBy, Artifacts, AllCanonical, Sort, DuplicateError;
  }

  /**
   Every publication, served with its own pointer, passes the consumer for every purpose that fits it, and comes
   back as it was: the same manifest and the same payload bytes.
   */
  lemma {:induction false} ConsumerAcceptsProducer(nfc: Text -> Text, parse: Text -> Option<Json>, i: ProducerInput,
                                                   o: ConsumerOptions,
                                changedAt: string)
    requires Normalizes(nfc) && ReadsJson(parse) && ValuesWellFormed(i.payloads)
    requires Produce(nfc, i).Ok? && Fits(o, i, Produce(nfc, i).value.manifest)
    ensures var p := Produce(nfc, i).value;
            Consume(nfc, parse, o, Served(p, changedAt))
            == Ok(Consumed(Active, PointerFor(p.manifest, changedAt), p.manifest, p.payloads))
  {
    hide ManifestError, ConsumePayloads, PayloadMap, Sort, Normalize, Artifacts, AllCanonical, DuplicateError,
         ReadsJson, Normalizes;
    ProducedManifestIsAccepted(nfc, i, o, changedAt);
    ProducedPayloadsAreConsumed(nfc, parse, i);
  }

  lemma AcceptedBytesMatch(nfc: Text -> Text, parse: Text -> Option<Json>, o: Origin, meta: PayloadMeta, bytes: Bytes)
    requires PayloadError(nfc, parse, o, meta, bytes).None?
    ensures Checksum(bytes) == meta.checksum
  {}

  lemma {:induction false} ConsumedBytes(nfc: Text -> Text, parse: Text -> Option<Json>, o: Origin,
                                         metas: seq<PayloadMeta>, payloads: map<Text, Bytes>)
    requires ConsumePayloads(nfc, parse, o, metas, payloads).Ok?
    ensures Metas(ConsumePayloads(nfc, parse, o, metas, payloads).value) == metas
  {
    if metas != [] {
      AcceptedBytesMatch(nfc, parse, o, metas[0], payloads[metas[0].path]);
      hide PayloadError;
      ConsumedBytes(nfc, parse, o, metas[1..], payloads);
      var consumed := ConsumePayloads(nfc, parse, o, metas, payloads).value;
      assert consumed[1..] == ConsumePayloads(nfc, parse, o, metas[1..], payloads).value;
      assert metas == [metas[0]] + metas[1..];
    }
  }

  lemma {:induction false} MetasDetermineArtifacts(a: seq<Artifact>, b: seq<Artifact>)
    requires Metas(a) == Metas(b)
    ensures a == b
  {}

  /** What a successful consumption has checked: the revision is the hash of its content, and so is every payload. */
  lemma ConsumptionChecks(nfc: Text -> Text, parse: Text -> Option<Json>, o: ConsumerOptions, port: Port)
    requires Consume(nfc, parse, o, port).Ok?
    ensures var x := Consume(nfc, parse, o, port).value;
            && x.manifest.revision == Revision(x.manifest.origin, x.manifest.collections)
            && Metas(x.payloads) == x.manifest.collections.payloads
  {
    var selected := SelectRevision(o, port.firstPointer).value;
    var m := port.manifests[selected].manifest;
    ConsumedBytes(nfc, parse, m.origin, m.collections.payloads, port.payloads);
    hide SelectRevision, ConsumePayloads, Normalize, DistinctBy, CapabilityAvailable, PairFits;
  }

  /**
   Whatever two ports serve, two consumptions that succeed under one projection revision agree on its origin, on
   every collection and on every payload byte.
   */
  lemma {:induction false} OneRevisionOneContent(nfc: Text -> Text, parse: Text -> Option<Json>, o: ConsumerOptions,
                                                 a: Port,
                              o': ConsumerOptions, b: Port)
    requires Consume(nfc, parse, o, a).Ok? && Consume(nfc, parse, o', b).Ok?
    requires Consume(nfc, parse, o, a).value.manifest.revision == Consume(nfc, parse, o', b).value.manifest.revision
    ensures var x, y := Consume(nfc, parse, o, a).value, Consume(nfc, parse, o', b).value;
            x.manifest.origin == y.manifest.origin && x.manifest.collections == y.manifest.collections
            && x.payloads == y.payloads
  {
    ConsumptionChecks(nfc, parse, o, a);
    ConsumptionChecks(nfc, parse, o', b);
    hide Consume;
    MetasDetermineArtifacts(Consume(nfc, parse, o, a).value.payloads, Consume(nfc, parse, o', b).value.payloads);
  }
}
