/** Nothing a generation holds depends on the order its records, domains, sections or payloads were read in. */
module GenerationOrder {
  import opened Options
  import opened Canonical
  import opened Ordering
  import opened GenerationModel
  import opened GenerationRecords

  /** The same record with its sections read in another order; the sections of a record are a map by title. */
  ghost predicate SameRecord(a: AuthorityRecord, b: AuthorityRecord) {
    multiset(a.sections) == multiset(b.sections) && DistinctBy(a.sections, TitleKey())
      && a == b.(sections := a.sections)
  }

  /** The same domain with its payloads consumed in another order. */
  ghost predicate SameDomain(a: DomainProjection, b: DomainProjection) {
    var p, q := a.projection, b.projection;
    multiset(p.payloads) == multiset(q.payloads) && a == b.(projection := q.(payloads := p.payloads))
  }

  ghost predicate SameRecords(a: seq<AuthorityRecord>, b: seq<AuthorityRecord>) {
    |a| == |b| && forall i | 0 <= i < |a| :: SameRecord(a[i], b[i])
  }

  ghost predicate SameDomains(a: seq<DomainProjection>, b: seq<DomainProjection>) {
    |a| == |b| && forall i | 0 <= i < |a| :: SameDomain(a[i], b[i])
  }

  /******* Records *******/

  lemma SameRecordNormalizes(a: AuthorityRecord, b: AuthorityRecord)
    requires SameRecord(a, b)
    ensures NormalizeRecord(a) == NormalizeRecord(b) && RecordKey()(a) == RecordKey()(b)
  {
    hide Sort, DistinctBy;
    SortIgnoresOrder(a.sections, b.sections, TitleKey());
  }

  lemma SameRecordsNormalize(a: seq<AuthorityRecord>, b: seq<AuthorityRecord>)
    requires SameRecords(a, b)
    ensures NormalizeRecords(a) == NormalizeRecords(b)
    ensures DistinctBy(a, RecordKey()) <==> DistinctBy(b, RecordKey())
  {
    hide SameRecord, NormalizeRecord;
    forall i | 0 <= i < |a|
      ensures NormalizeRecords(a)[i] == NormalizeRecords(b)[i] && RecordKey()(a[i]) == RecordKey()(b[i])
    {
      SameRecordNormalizes(a[i], b[i]);
    }
  }

  lemma DistinctEitherWay<T>(a: seq<T>, b: seq<T>, key: T -> Text)
    requires multiset(a) == multiset(b)
    ensures DistinctBy(a, key) <==> DistinctBy(b, key)
  {
    if DistinctBy(a, key) { DistinctIsAboutContents(a, b, key); }
    if DistinctBy(b, key) { DistinctIsAboutContents(b, a, key); }
  }

  lemma RecordsIgnoreOrder(a: seq<AuthorityRecord>, b: seq<AuthorityRecord>)
    requires multiset(a) == multiset(b)
    ensures DistinctBy(a, RecordKey()) <==> DistinctBy(b, RecordKey())
    ensures DistinctBy(a, RecordKey()) ==> SortedRecords(a) == SortedRecords(b)
  {
    hide NormalizeRecord;
    DistinctEitherWay(a, b, RecordKey());
    if DistinctBy(a, RecordKey()) {
      var x, y := NormalizeRecords(a), NormalizeRecords(b);
      MatchesPermute(a, b, x, y);
      forall i, j | 0 <= i < j < |x| ensures NormalKey()(x[i]) != NormalKey()(x[j]) {
        assert RecordKey()(a[i]) != RecordKey()(a[j]);
      }
      SortIgnoresOrder(x, y, NormalKey());
    }
  }

  lemma MultisetContents<T>(a: seq<T>, b: seq<T>)
    requires multiset(a) == multiset(b)
    ensures forall x :: x in a <==> x in b
  {
    assert forall x :: x in a <==> x in multiset(a);
    assert forall x :: x in b <==> x in multiset(b);
  }

  lemma SchemasIgnoreOrder(a: seq<AuthorityRecord>, same: seq<AuthorityRecord>, b: seq<AuthorityRecord>)
    requires SameRecords(a, same) && multiset(same) == multiset(b)
    ensures (forall r | r in a :: r.layer == LayerOf(r.schema)) <==> (forall r | r in b :: r.layer == LayerOf(r.schema))
  {
    MultisetContents(same, b);
    forall i | 0 <= i < |a| ensures a[i].layer == same[i].layer && a[i].schema == same[i].schema {
      assert SameRecord(a[i], same[i]);
    }
    hide SameRecords, LayerOf;
    forall r | r in a ensures exists s | s in same :: r.layer == s.layer && r.schema == s.schema {
      var i :| 0 <= i < |a| && a[i] == r;
      assert same[i] in same;
    }
    forall s | s in same ensures exists r | r in a :: r.layer == s.layer && r.schema == s.schema {
      var i :| 0 <= i < |same| && same[i] == s;
      assert a[i] in a;
    }
  }

  /** The reader accepts the same records in whatever order they, and their sections, come. */
  lemma AuthorityIgnoresOrder(c: Checks, a: seq<AuthorityRecord>, same: seq<AuthorityRecord>, b: seq<AuthorityRecord>,
                              active: Option<Text>)
    requires SameRecords(a, same) && multiset(same) == multiset(b)
    ensures AuthorityHolds(c, a, active) <==> AuthorityHolds(c, b, active)
    ensures AuthorityHolds(c, a, active) ==> SortedRecords(a) == SortedRecords(b)
  {
    assert |a| == |same|;
    hide SameRecords, Readable, ReferencesHold, DistinctBy, KeptRecordsHold, NormalizeRecords, LayerOf;
    SameRecordsNormalize(a, same);
    RecordsIgnoreOrder(same, b);
    SchemasIgnoreOrder(a, same, b);
    assert |a| == |same| == |multiset(same)| == |multiset(b)| == |b|;
    ReadableHaveSchemas(c, a, active);
    ReadableHaveSchemas(c, b, active);
    if DistinctBy(a, RecordKey()) && forall r | r in a :: r.layer == LayerOf(r.schema) {
      ReaderAndVerifierAgree(c, a, active);
      ReaderAndVerifierAgree(c, b, active);
    }
  }

  lemma ReadableHaveSchemas(c: Checks, records: seq<AuthorityRecord>, active: Option<Text>)
    ensures AuthorityHolds(c, records, active) ==> forall r | r in records :: r.layer == LayerOf(r.schema)
  {}

  /******* Domains *******/

  lemma DistinctImages<T, U>(a: seq<T>, x: seq<U>, key: T -> Text, image: U -> Text)
    requires |x| == |a| && DistinctBy(a, key) && forall i | 0 <= i < |a| :: image(x[i]) == key(a[i])
    ensures DistinctBy(x, image)
  {}

  lemma PayloadsIgnoreOrder(m: DomainManifest, a: seq<ConsumedPayload>, b: seq<ConsumedPayload>)
    requires multiset(a) == multiset(b)
    requires (forall p | p in a :: PayloadHolds(m, p)) && (forall p | p in b :: PayloadHolds(m, p))
    requires DistinctBy(a, (x: ConsumedPayload) => x.path)
    ensures Sort(EmbedAll(m, a), EmbeddedKey()) == Sort(EmbedAll(m, b), EmbeddedKey())
  {
    hide PayloadHolds;
    var x, y := EmbedAll(m, a), EmbedAll(m, b);
    MatchesPermute(a, b, x, y);
    DistinctImages(a, x, (p: ConsumedPayload) => p.path, EmbeddedKey());
    SortIgnoresOrder(x, y, EmbeddedKey());
  }

  lemma SameDomainEmbeds(a: DomainProjection, b: DomainProjection)
    requires SameDomain(a, b)
    ensures DomainHolds(a) <==> DomainHolds(b)
    ensures DomainHolds(a) ==> EmbedDomain(a) == EmbedDomain(b)
  {
    hide PayloadHolds;
    var p, q := a.projection.payloads, b.projection.payloads;
    var m := a.projection.manifest;
    DistinctEitherWay(p, q, (x: ConsumedPayload) => x.path);
    assert forall x :: x in p <==> x in multiset(p);
    assert forall x :: x in q <==> x in multiset(q);
    assert |p| == |multiset(p)| == |multiset(q)| == |q|;
    if DomainHolds(a) { PayloadsIgnoreOrder(m, p, q); }
  }

  ghost predicate AllHold(domains: seq<DomainProjection>) { forall d | d in domains :: DomainHolds(d) }

  function IdKey(): DomainProjection -> Text { (d: DomainProjection) => d.domainId }

  lemma NormalizeDomainsIs(domains: seq<DomainProjection>)
    ensures NormalizeDomains(domains)
            == if AllHold(domains) && DistinctBy(domains, IdKey()) then Some(Sort(EmbedDomains(domains), DomainKey()))
              else None
  {}

  lemma AllHoldByIndex(domains: seq<DomainProjection>)
    ensures AllHold(domains) <==> forall i | 0 <= i < |domains| :: DomainHolds(domains[i])
  {}

  lemma AllHoldIgnoresOrder(a: seq<DomainProjection>, b: seq<DomainProjection>)
    requires multiset(a) == multiset(b)
    ensures AllHold(a) <==> AllHold(b)
  {
    hide DomainHolds;
    assert forall d :: d in a <==> d in multiset(a);
    assert forall d :: d in b <==> d in multiset(b);
  }

  lemma EmbedsIgnoreOrder(a: seq<DomainProjection>, b: seq<DomainProjection>)
    requires multiset(a) == multiset(b) && AllHold(a) && AllHold(b) && DistinctBy(a, IdKey())
    ensures Sort(EmbedDomains(a), DomainKey()) == Sort(EmbedDomains(b), DomainKey())
  {
    hide DomainHolds, EmbedDomain;
    var x, y := EmbedDomains(a), EmbedDomains(b);
    MatchesPermute(a, b, x, y);
    DistinctImages(a, x, IdKey(), DomainKey());
    SortIgnoresOrder(x, y, DomainKey());
  }

  lemma SameDomainsEmbed(a: seq<DomainProjection>, b: seq<DomainProjection>)
    requires SameDomains(a, b)
    ensures AllHold(a) <==> AllHold(b)
    ensures DistinctBy(a, IdKey()) <==> DistinctBy(b, IdKey())
    ensures AllHold(a) ==> EmbedDomains(a) == EmbedDomains(b)
  {
    hide DomainHolds, EmbedDomain;
    forall i | 0 <= i < |a|
      ensures IdKey()(a[i]) == IdKey()(b[i]) && (DomainHolds(a[i]) <==> DomainHolds(b[i]))
      ensures DomainHolds(a[i]) ==> EmbedDomain(a[i]) == EmbedDomain(b[i])
    {
      assert SameDomain(a[i], b[i]);
      SameDomainEmbeds(a[i], b[i]);
    }
    AllHoldByIndex(a);
    AllHoldByIndex(b);
    if AllHold(a) {
      forall i | 0 <= i < |a| ensures EmbedDomains(a)[i] == EmbedDomains(b)[i] { assert a[i] in a; }
    }
  }

  lemma {:induction false} DomainsIgnoreOrder(a: seq<DomainProjection>, b: seq<DomainProjection>)
    requires multiset(a) == multiset(b)
    ensures NormalizeDomains(a) == NormalizeDomains(b)
  {
    hide DomainHolds, AllHold, NormalizeDomains, DistinctBy, Sort, EmbedDomains;
    NormalizeDomainsIs(a);
    NormalizeDomainsIs(b);
    DistinctEitherWay(a, b, IdKey());
    AllHoldIgnoresOrder(a, b);
    if AllHold(a) && DistinctBy(a, IdKey()) { EmbedsIgnoreOrder(a, b); }
  }

  /******* Builds *******/

  /**
   Two inputs that differ only in the order records, domains, sections of a record or payloads of a domain come in:
   `records` and `domains` are those of `a`, each item as `b` reads it.
   */
  ghost predicate SameInput(a: BuildInput, b: BuildInput, records: seq<AuthorityRecord>, domains: seq<DomainProjection>)
  {
    && a == b.(records := a.records, domains := a.domains)
    && SameRecords(a.records, records) && multiset(records) == multiset(b.records)
    && SameDomains(a.domains, domains) && multiset(domains) == multiset(b.domains)
  }

  lemma DomainsAgree(a: seq<DomainProjection>, same: seq<DomainProjection>, b: seq<DomainProjection>)
    requires SameDomains(a, same) && multiset(same) == multiset(b)
    ensures NormalizeDomains(a) == NormalizeDomains(b)
  {
    hide NormalizeDomains, AllHold, SameDomains, DistinctBy;
    NormalizeDomainsIs(a);
    NormalizeDomainsIs(same);
    SameDomainsEmbed(a, same);
    DomainsIgnoreOrder(same, b);
  }

  /** The whole directory, its name included, is the same: every file, every payload and the manifest. */
  lemma {:induction false} BuildIgnoresOrder(c: Checks, a: BuildInput, b: BuildInput,
                          records: seq<AuthorityRecord>, domains: seq<DomainProjection>)
    requires SameInput(a, b, records, domains)
    ensures Build(c, a) == Build(c, b)
  {
    hide NormalizeDomains, SortedRecords, SameRecords, SameDomains, AuthorityHolds, Derive, Specs, DistinctPaths,
         FilesOf, ManifestFiles;
    AuthorityIgnoresOrder(c, a.records, records, b.records, a.activeSystem);
    DomainsAgree(a.domains, domains, b.domains);
    if AuthorityHolds(c, a.records, a.activeSystem) { assert ContentOf(a) == ContentOf(b); }
  }
}
