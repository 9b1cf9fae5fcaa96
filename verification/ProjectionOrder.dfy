/** What the producer makes does not depend on the order of its inputs, and exactly where it does. */
module ProjectionOrder {
  import opened Canonical
  import opened Ordering
  import opened ProjectionModel
  import opened ProjectionConformance

  /******* Identity contexts *******/

  /** Equal up to the order of categories, of entries and of each entry's references. */
  predicate ContextPermuted(a: IdentityContext, b: IdentityContext) {
    && b == a.(categories := b.categories, entries := b.entries)
    && multiset(a.categories) == multiset(b.categories)
    && multiset(NormalizeEntries(a.entries)) == multiset(NormalizeEntries(b.entries))
  }

  lemma CategoriesAreDetermined(categories: seq<Category>)
    ensures KeyDetermines(categories, CategoryKey())
  {}

  /** With one entry per category and id, order does not show in the normal form. */
  lemma ContextIgnoresOrder(a: IdentityContext, b: IdentityContext)
    requires ContextPermuted(a, b) && KeyDetermines(NormalizeEntries(a.entries), EntryKey())
    ensures NormalizeContext(a) == NormalizeContext(b)
  {
    CategoriesAreDetermined(a.categories);
    DeterminedSortIgnoresOrder(a.categories, b.categories, CategoryKey());
    DeterminedSortIgnoresOrder(NormalizeEntries(a.entries), NormalizeEntries(b.entries), EntryKey());
  }

  /**
   Every order of the entries gives the same context exactly when entries with the same category and id are the
   same entry: two different ones keep the order they came in.
   */
  lemma EntryOrderIsForgottenExactly(c: IdentityContext)
    ensures (forall b: seq<Entry> | multiset(b) == multiset(c.entries) ::
               NormalizeContext(c.(entries := b)) == NormalizeContext(c))
            <==> KeyDetermines(NormalizeEntries(c.entries), EntryKey())
  {
    var normal := NormalizeEntries(c.entries);
    if KeyDetermines(normal, EntryKey()) {
      forall b: seq<Entry> | multiset(b) == multiset(c.entries)
        ensures NormalizeContext(c.(entries := b)) == NormalizeContext(c)
      {
        ImagesPermute(c.entries, b, normal, NormalizeEntries(b), NormalizeEntry);
        ContextIgnoresOrder(c, c.(entries := b));
      }
    } else {
      var i, j :| 0 <= i < |normal| && 0 <= j < |normal| && EntryKey()(normal[i]) == EntryKey()(normal[j])
        && normal[i] != normal[j];
      var first := FirstIndex(normal, EntryKey(), EntryKey()(normal[i]), i);
      var m := if normal[first] == normal[i] then j else i;
      MovedContextDiffers(c, first, m);
    }
  }

  lemma NormalizedMove(e: seq<Entry>, m: nat)
    requires m < |e|
    ensures NormalizeEntries(ToFront(e, m)) == ToFront(NormalizeEntries(e), m)
  {
    hide NormalizeEntries, NormalizeEntry, ToFront;
  }

  /** Moving the later of two different entries with one category and id to the front changes the context. */
  lemma MovedContextDiffers(c: IdentityContext, first: nat, m: nat)
    requires var normal := NormalizeEntries(c.entries);
             && first < |c.entries| && m < |c.entries|
             && EntryKey()(normal[m]) == EntryKey()(normal[first]) && normal[m] != normal[first]
             && forall j | 0 <= j < first :: EntryKey()(normal[j]) != EntryKey()(normal[first])
    ensures exists b: seq<Entry> ::
            multiset(b) == multiset(c.entries) && NormalizeContext(c.(entries := b)) != NormalizeContext(c)
  {
    var e := c.entries;
    MovingShows(NormalizeEntries(e), EntryKey(), first, m);
    NormalizedMove(e, m);
    ToFrontPermutes(e, m);
    hide NormalizeEntries, Sort, ToFront;
    assert NormalizeContext(c.(entries := ToFront(e, m))) != NormalizeContext(c);
  }

  /******* Producer inputs *******/

  function NormalPayload(p: PayloadInput): (r: PayloadInput)
    ensures r.path == p.path && r.stableId == p.stableId
  {
    if p.value.IdentityValue? then p.(value := IdentityValue(NormalizeContext(p.value.context))) else p
  }

  function NormalPayloads(payloads: seq<PayloadInput>): (r: seq<PayloadInput>)
    ensures |r| == |payloads| && forall i | 0 <= i < |r| :: r[i] == NormalPayload(payloads[i])
  {
    if payloads == [] then [] else [NormalPayload(payloads[0])] + NormalPayloads(payloads[1..])
  }

  /** Equal up to the order of every collection, of each conflict's references and inside every identity context. */
  predicate InputPermuted(a: ProducerInput, b: ProducerInput) {
    && a.origin == b.origin && a.generatedAt == b.generatedAt
    && multiset(a.categories) == multiset(b.categories)
    && multiset(a.references) == multiset(b.references)
    && multiset(NormalizeConflicts(a.conflicts)) == multiset(NormalizeConflicts(b.conflicts))
    && multiset(a.retractions) == multiset(b.retractions)
    && multiset(a.capabilities) == multiset(b.capabilities)
    && multiset(NormalPayloads(a.payloads)) == multiset(NormalPayloads(b.payloads))
  }

  /** Keys of a list are keys of its image under a map that keeps them. */
  lemma DistinctAcross<T, U>(a: seq<T>, b: seq<U>, key: T -> Text, other: U -> Text)
    requires |a| == |b| && (forall i | 0 <= i < |a| :: key(a[i]) == other(b[i])) && DistinctBy(a, key)
    ensures DistinctBy(b, other)
  {}

  lemma ConflictsStayDistinct(a: seq<Conflict>, b: seq<Conflict>)
    requires multiset(NormalizeConflicts(a)) == multiset(NormalizeConflicts(b)) && DistinctBy(a, ConflictKey())
    ensures DistinctBy(b, ConflictKey()) && DistinctBy(NormalizeConflicts(a), ConflictKey())
  {
    DistinctAcross(a, NormalizeConflicts(a), ConflictKey(), ConflictKey());
    DistinctIsAboutContents(NormalizeConflicts(a), NormalizeConflicts(b), ConflictKey());
    DistinctAcross(NormalizeConflicts(b), b, ConflictKey(), ConflictKey());
  }

  lemma PayloadsStayDistinct(a: seq<PayloadInput>, b: seq<PayloadInput>, key: PayloadInput -> Text)
    requires multiset(NormalPayloads(a)) == multiset(NormalPayloads(b)) && DistinctBy(a, key)
    requires forall p :: key(NormalPayload(p)) == key(p)
    ensures DistinctBy(b, key)
  {
    DistinctAcross(a, NormalPayloads(a), key, key);
    DistinctIsAboutContents(NormalPayloads(a), NormalPayloads(b), key);
    DistinctAcross(NormalPayloads(b), b, key, key);
  }

  lemma PermutedHasNoDuplicates(a: ProducerInput, b: ProducerInput)
    requires InputPermuted(a, b) && DuplicateError(a).None?
    ensures DuplicateError(b).None?
  {
    PayloadsStayDistinct(a.payloads, b.payloads, InputPath());
    PayloadsStayDistinct(a.payloads, b.payloads, InputStableId());
    DistinctIsAboutContents(a.references, b.references, ReferenceKey());
    DistinctIsAboutContents(a.references, b.references, ReferencePath());
    ConflictsStayDistinct(a.conflicts, b.conflicts);
    DistinctIsAboutContents(a.retractions, b.retractions, RetractionKey());
    DistinctIsAboutContents(a.capabilities, b.capabilities, CapabilityKey());
    DistinctIsAboutContents(a.categories, b.categories, CategoryKey());
    hide DistinctBy, NormalPayloads, NormalizeConflicts;
  }

  lemma NormalPayloadHasTheSameBytes(nfc: Text -> Text, p: PayloadInput, o: Origin)
    ensures PayloadBytes(nfc, NormalPayload(p).value, o) == PayloadBytes(nfc, p.value, o)
    ensures MediaOf(NormalPayload(p).value) == MediaOf(p.value)
  {
    if p.value.IdentityValue? { ContextIsNormal(p.value.context); }
    hide NormalizeContext;
  }

  lemma NormalPayloadsHaveTheSameArtifacts(nfc: Text -> Text, payloads: seq<PayloadInput>, o: Origin)
    ensures AllCanonical(nfc, NormalPayloads(payloads), o) <==> AllCanonical(nfc, payloads, o)
    ensures AllCanonical(nfc, payloads, o) ==>
              Artifacts(nfc, NormalPayloads(payloads), o) == Artifacts(nfc, payloads, o)
  {
    var normal := NormalPayloads(payloads);
    forall i | 0 <= i < |payloads|
      ensures PayloadBytes(nfc, normal[i].value, o) == PayloadBytes(nfc, payloads[i].value, o)
      ensures MediaOf(normal[i].value) == MediaOf(payloads[i].value)
    {
      NormalPayloadHasTheSameBytes(nfc, payloads[i], o);
    }
    hide PayloadBytes;
    if AllCanonical(nfc, payloads, o) {
      forall p | p in normal ensures PayloadBytes(nfc, p.value, o).Some? {
        var i :| 0 <= i < |normal| && normal[i] == p;
        assert payloads[i] in payloads;
      }
    }
    if AllCanonical(nfc, normal, o) {
      forall p | p in payloads ensures PayloadBytes(nfc, p.value, o).Some? {
        var i :| 0 <= i < |payloads| && payloads[i] == p;
        assert normal[i] in normal;
      }
    }
  }

  lemma ArtifactsPermute(nfc: Text -> Text, a: seq<PayloadInput>, b: seq<PayloadInput>, o: Origin)
    requires multiset(a) == multiset(b) && AllCanonical(nfc, a, o)
    ensures AllCanonical(nfc, b, o)
    ensures multiset(Artifacts(nfc, a, o)) == multiset(Artifacts(nfc, b, o))
  {
    hide PayloadBytes;
    forall p | p in b ensures p in a { assert p in multiset(b) && p in multiset(a); }
    var image := (p: PayloadInput) =>
      if PayloadBytes(nfc, p.value, o).Some? then ArtifactOf(nfc, p, o)
         else Artifact(p.stableId, p.path, JsonMedia, JsonBytes([]));
    ImagesPermute(a, b, Artifacts(nfc, a, o), Artifacts(nfc, b, o), image);
  }

  lemma PermutedArtifacts(nfc: Text -> Text, a: ProducerInput, b: ProducerInput)
    requires InputPermuted(a, b) && DuplicateError(a).None? && AllCanonical(nfc, a.payloads, a.origin)
    ensures AllCanonical(nfc, b.payloads, a.origin)
    ensures Sort(Artifacts(nfc, a.payloads, a.origin), ArtifactKey())
            == Sort(Artifacts(nfc, b.payloads, a.origin), ArtifactKey())
  {
    var o := a.origin;
    NormalPayloadsHaveTheSameArtifacts(nfc, a.payloads, o);
    NormalPayloadsHaveTheSameArtifacts(nfc, b.payloads, o);
    ArtifactsPermute(nfc, NormalPayloads(a.payloads), NormalPayloads(b.payloads), o);
    var x, y := Artifacts(nfc, a.payloads, o), Artifacts(nfc, b.payloads, o);
    ArtifactsAreDistinct(nfc, a.payloads, o);
    hide DistinctBy, Artifacts, AllCanonical, NormalPayloads, Sort;
    SortIgnoresOrder(x, y, ArtifactKey());
  }

  lemma ArtifactsAreDistinct(nfc: Text -> Text, payloads: seq<PayloadInput>, o: Origin)
    requires AllCanonical(nfc, payloads, o) && DistinctBy(payloads, InputPath())
    ensures DistinctBy(Artifacts(nfc, payloads, o), ArtifactKey())
  {}

  lemma PermutedCollections(a: ProducerInput, b: ProducerInput, metas: seq<PayloadMeta>)
    requires InputPermuted(a, b) && DuplicateError(a).None?
    ensures Normalize(Collections(a.categories, a.references, a.conflicts, a.retractions, a.capabilities, metas))
            == Normalize(Collections(b.categories, b.references, b.conflicts, b.retractions, b.capabilities, metas))
  {
    SortIgnoresOrder(a.categories, b.categories, CategoryKey());
    SortIgnoresOrder(a.references, b.references, ReferenceKey());
    ConflictsStayDistinct(a.conflicts, b.conflicts);
    SortIgnoresOrder(NormalizeConflicts(a.conflicts), NormalizeConflicts(b.conflicts), ConflictKey());
    SortIgnoresOrder(a.retractions, b.retractions, RetractionKey());
    SortIgnoresOrder(a.capabilities, b.capabilities, CapabilityKey());
    hide DistinctBy, NormalizeConflicts, Sort;
  }

  /** The whole publication, revision and bytes included, is the same for every order of every input collection. */
  lemma ProducerIgnoresOrder(nfc: Text -> Text, a: ProducerInput, b: ProducerInput)
    requires InputPermuted(a, b) && Produce(nfc, a).Ok?
    ensures Produce(nfc, b) == Produce(nfc, a)
  {
    PermutedHasNoDuplicates(a, b);
    PermutedArtifacts(nfc, a, b);
    PermutedCollections(a, b, Metas(Sort(Artifacts(nfc, a.payloads, a.origin), ArtifactKey())));
    PermutedContextsMatch(nfc, b);
    hide InputPermuted, Normalize, Sort, Artifacts, Metas, DuplicateError;
  }

  /** Payloads that can be canonicalized are for this origin. */
  lemma PermutedContextsMatch(nfc: Text -> Text, i: ProducerInput)
    requires AllCanonical(nfc, i.payloads, i.origin)
    ensures forall p | p in i.payloads && p.value.IdentityValue? :: ContextMatches(p.value.context, i.origin)
  {}
}
