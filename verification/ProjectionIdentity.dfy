/** `buildRuntimeIdentityProjection`: what it makes is what the consumer takes for identity background. */
module ProjectionIdentity {
  import opened Options
  import opened Canonical
  import opened Ordering
  import opened Jcs
  import opened JcsCanonicity
  import opened PayloadText
  import opened ProjectionModel
  import opened ProjectionConformance
  import opened ProjectionOrder

  /******* Input *******/

  /** `wellFormed` is what the locale and the time zone check say; no other value is asked. */
  datatype ContextValue = ContextValue(content: string, references: seq<Text>, wellFormed: bool)

  datatype BackgroundKind = EquipmentAccess | InjuryConstraints | MobilityConstraints | TrainingExperience

  datatype BackgroundValue = BackgroundValue(kind: BackgroundKind, value: ContextValue)

  datatype RecordKind = Cognitive | PersonalModel

  datatype DataClass = PublicIdentity | StableFitnessBackground

  datatype Policy = Policy(referenceId: Text, kind: RecordKind, dataClasses: set<DataClass>, allowed: set<Text>,
                           projectionSafe: bool)

  datatype Fields = Fields(communicationPreferences: Option<ContextValue>, language: Option<ContextValue>,
                           preferredName: Option<ContextValue>, stellaIdentity: Option<ContextValue>,
                           stellaPersona: Option<ContextValue>, timezone: Option<ContextValue>)

  datatype BuildInput = BuildInput(instanceId: string, sourceRevision: string, asOf: string, references: seq<Reference>,
                                   policies: seq<Policy>, fields: Fields, background: seq<BackgroundValue>,
                                   generatedAt: string)

  /** `IDENTITY_FIELDS`, in its order. */
  function FieldList(f: Fields): seq<(Text, Option<ContextValue>)> {
    [(Ascii("communication-preferences"), f.communicationPreferences), (Ascii("language"), f.language),
     (Ascii("preferred-name"), f.preferredName), (Ascii("stella-identity"), f.stellaIdentity),
     (Ascii("stella-persona"), f.stellaPersona), (Ascii("timezone"), f.timezone)]
  }

  function BackgroundId(k: BackgroundKind): Text {
    match k
    case EquipmentAccess => Ascii("fitness-equipment-access")
    case InjuryConstraints => Ascii("fitness-injury-constraints")
    case MobilityConstraints => Ascii("fitness-mobility-constraints")
    case TrainingExperience => Ascii("fitness-training-experience")
  }

  const IDENTITY_IDS: set<Text> := {Ascii("communication-preferences"), Ascii("language"), Ascii("preferred-name"),
                                    Ascii("stella-identity"), Ascii("stella-persona"), Ascii("timezone")}

  const BACKGROUND_IDS: set<Text> := {Ascii("fitness-equipment-access"), Ascii("fitness-injury-constraints"),
                                      Ascii("fitness-mobility-constraints"), Ascii("fitness-training-experience")}

  const COGNITIVE_IDS: set<Text> := {Ascii("stella-identity"), Ascii("stella-persona")}

  /** `runtimeIdentityContextCategoryForEntryId`. */
  function CategoryForId(id: Text): Option<Category> {
    if id in IDENTITY_IDS then Some(Identity) else if id in BACKGROUND_IDS then Some(Background) else None
  }

  /******* Entries *******/

  /** `assertContextValue`. */
  predicate ValueHolds(v: ContextValue, known: set<Text>) {
    v.content != "" && v.references != [] && forall r | r in v.references :: r in known
  }

  function FieldEntries(fields: seq<(Text, Option<ContextValue>)>): seq<Entry> {
    if fields == [] then []
    else
      (if fields[0].1.Some? then [Entry(fields[0].0, Identity, fields[0].1.value.content, fields[0].1.value.references)]
       else []) + FieldEntries(fields[1..])
  }

  function BackgroundEntry(): BackgroundValue -> Entry {
    (b: BackgroundValue) => Entry(BackgroundId(b.kind), Background, b.value.content, b.value.references)
  }

  function BackgroundEntries(background: seq<BackgroundValue>): (r: seq<Entry>)
    ensures |r| == |background| && forall i | 0 <= i < |r| :: r[i] == BackgroundEntry()(background[i])
  {
    if background == [] then [] else [BackgroundEntry()(background[0])] + BackgroundEntries(background[1..])
  }

  /******* Source policy *******/

  predicate NameUnit(c: CodeUnit, first: bool) {
    (0x61 <= c <= 0x7A) || (0x30 <= c <= 0x39) || (!first && (c == 0x2E || c == 0x5F || c == 0x2D))
  }

  /** `prefix`, one path component of 1 to 128 units, `suffix`. */
  predicate PathMatches(path: Text, prefix: Text, suffix: Text) {
    && |prefix| + 1 <= |path| - |suffix| <= |prefix| + 128
    && prefix <= path && path[|path| - |suffix|..] == suffix
    && forall i | |prefix| <= i < |path| - |suffix| :: NameUnit(path[i], i == |prefix|)
  }

  predicate SourcePathValid(kind: RecordKind, path: Text) {
    if kind == Cognitive then PathMatches(path, Ascii("cognitive/"), Ascii("/entity.md"))
    else PathMatches(path, Ascii("semantic/"), Ascii("/claim.md"))
  }

  predicate PolicyAllows(p: Policy, r: Reference, e: Entry) {
    && p.projectionSafe
    && (if e.category == Background then StableFitnessBackground else PublicIdentity) in p.dataClasses
    && e.id in p.allowed
    && SourcePathValid(p.kind, r.path)
    && p.kind == (if e.id in COGNITIVE_IDS then Cognitive else PersonalModel)
  }

  function PolicyKey(): Policy -> Text { (p: Policy) => p.referenceId }

  predicate ReferenceAllowed(e: Entry, id: Text, references: seq<Reference>, policies: seq<Policy>) {
    exists r, p :: r in references && p in policies && r.id == id && p.referenceId == id && PolicyAllows(p, r, e)
  }

  predicate EntryAllowed(e: Entry, references: seq<Reference>, policies: seq<Policy>) {
    && CategoryForId(e.id) == Some(e.category)
    && forall id | id in e.references :: ReferenceAllowed(e, id, references, policies)
  }

  predicate ReferenceUsed(r: Reference, entries: seq<Entry>) { exists e :: e in entries && r.id in e.references }

  /** `assertRuntimeIdentityContextPolicy`. */
  predicate PolicyHolds(entries: seq<Entry>, references: seq<Reference>, policies: seq<Policy>) {
    && DistinctBy(references, ReferenceKey()) && DistinctBy(policies, PolicyKey()) && |policies| == |references|
    && (forall e | e in entries :: EntryAllowed(e, references, policies))
    && (forall r | r in references :: ReferenceUsed(r, entries))
  }

  /******* Builder *******/

  function Available1(id: string): Capability { Capability(Ascii(id), Available) }

  function ContextFor(i: BuildInput, entries: seq<Entry>, hasBackground: bool, hasIdentity: bool): IdentityContext {
    IdentityContext(i.instanceId, StellaRuntime, StellaFitness, i.sourceRevision, i.asOf,
                    (if hasBackground then [Background] else []) + (if hasIdentity then [Identity] else []), entries)
  }

  function IdentityEntries(i: BuildInput): seq<Entry> { FieldEntries(FieldList(i.fields)) }

  function AllEntries(i: BuildInput): seq<Entry> { IdentityEntries(i) + BackgroundEntries(i.background) }

  function KnownIds(references: seq<Reference>): set<Text> { set r | r in references :: r.id }

  predicate FieldsHold(f: Fields, known: set<Text>) {
    && (forall x | x in FieldList(f) :: x.1.Some? ==> ValueHolds(x.1.value, known))
    && (f.language.Some? ==> f.language.value.wellFormed)
    && (f.timezone.Some? ==> f.timezone.value.wellFormed)
  }

  predicate BackgroundHolds(background: seq<BackgroundValue>, known: set<Text>) {
    forall b | b in background :: ValueHolds(b.value, known)
  }

  /** What it throws before it hands anything on. */
  function BuildError(i: BuildInput): Option<ProjectionError> {
    if !FieldsHold(i.fields, KnownIds(i.references)) then Some(ContextValueInvalid)
    else if !BackgroundHolds(i.background, KnownIds(i.references)) then Some(ContextValueInvalid)
    else if AllEntries(i) == [] then Some(ContextEmpty)
    else if !PolicyHolds(AllEntries(i), i.references, i.policies) then Some(SourcePolicyRejected)
    else None
  }

  /** The producer input it hands on. */
  function IdentityInput(i: BuildInput): ProducerInput {
    var hasBackground, hasIdentity := i.background != [], IdentityEntries(i) != [];
    var context := ContextFor(i, AllEntries(i), hasBackground, hasIdentity);
    ProducerInput(Origin(i.instanceId, StellaRuntime, StellaFitness, i.sourceRevision, i.asOf), context.categories,
                  i.references, [], [],
                  (if hasBackground then [Available1("background_context")] else [])
                  + (if hasIdentity then [Available1("identity_context")] else []),
                  [PayloadInput(Ascii("runtime-identity-context"), Ascii("payloads/identity-context.json"),
                                IdentityValue(context))], i.generatedAt)
  }

  /** `buildRuntimeIdentityProjection`, with its claim on the determinism ledger. */
  function BuildIdentity(nfc: Text -> Text, ledger: Ledger, i: BuildInput): (Ledger, Reply<Publication>) {
    if BuildError(i).Some? then (ledger, Refused(BuildError(i).value)) else Publish(nfc, ledger, IdentityInput(i))
  }

  /******* The consumer takes it *******/

  lemma CapabilityIsThere(i: BuildInput)
    requires BuildError(i).None?
    ensures exists c :: c in IdentityInput(i).capabilities
                        && c.id in RequiredCapabilities(IdentityBackground) && c.state == Available
  {
    assert AllEntries(i) != [];
    hide BuildError, PolicyHolds;
    var background := Available1("background_context");
    var identity := Available1("identity_context");
    assert background in IdentityInput(i).capabilities || identity in IdentityInput(i).capabilities by {
      hide Ascii, IdentityEntries;
      if i.background == [] { assert IdentityEntries(i) != []; }
    }
    assert RequiredCapabilities(IdentityBackground)[0] == identity.id;
    assert RequiredCapabilities(IdentityBackground)[1] == background.id;
    hide Ascii, IdentityInput;
    assert background.id in RequiredCapabilities(IdentityBackground)
           && identity.id in RequiredCapabilities(IdentityBackground);
  }

  lemma SortKeepsMember<T>(s: seq<T>, key: T -> Text, x: T)
    requires x in s
    ensures x in Sort(s, key)
  {
    SortSorts(s, key);
    assert x in multiset(s);
    assert x in multiset(Sort(s, key));
  }

  function IdentityOptions(i: BuildInput): ConsumerOptions {
    ConsumerOptions(i.instanceId, StellaRuntime, StellaFitness, IdentityBackground)
  }

  lemma ProducedCapabilities(nfc: Text -> Text, i: ProducerInput, c: Capability)
    requires Produce(nfc, i).Ok? && c in i.capabilities
    ensures c in Produce(nfc, i).value.manifest.collections.capabilities
  {
    SortKeepsMember(i.capabilities, CapabilityKey(), c);
    hide Sort, Artifacts, AllCanonical, DuplicateError;
  }

  lemma PublishedIsProduced(nfc: Text -> Text, ledger: Ledger, i: ProducerInput)
    requires Publish(nfc, ledger, i).1.Ok?
    ensures Publish(nfc, ledger, i).1 == Produce(nfc, i)
  {}

  lemma InputIsForIdentity(i: BuildInput)
    ensures IdentityInput(i).origin == Origin(i.instanceId, StellaRuntime, StellaFitness, i.sourceRevision, i.asOf)
    ensures ValuesWellFormed(IdentityInput(i).payloads)
  {}

  /**
   Every identity projection that is built, served with the pointer made for it, passes the consumer for identity
   background and gives back the same manifest and the same payload bytes.
   */
  lemma {:induction false} BuiltIdentityIsConsumed(nfc: Text -> Text, parse: Text -> Option<Json>, ledger: Ledger,
                                                   i: BuildInput,
                                changedAt: string)
    requires Normalizes(nfc) && ReadsJson(parse)
    requires BuildIdentity(nfc, ledger, i).1.Ok?
    ensures var p := BuildIdentity(nfc, ledger, i).1.value;
            Consume(nfc, parse, IdentityOptions(i), Served(p, changedAt))
            == Ok(Consumed(Active, PointerFor(p.manifest, changedAt), p.manifest, p.payloads))
  {
    hide IdentityInput, Produce, Consume, RequiredCapabilities, BuildError, Normalizes, ReadsJson, Publish, Served,
         PointerFor, ManifestError, DuplicateError, ValuesWellFormed;
    var input := IdentityInput(i);
    CapabilityIsThere(i);
    PublishedIsProduced(nfc, ledger, input);
    var c :| c in input.capabilities && c.id in RequiredCapabilities(IdentityBackground) && c.state == Available;
    ProducedCapabilities(nfc, input, c);
    InputIsForIdentity(i);
    ConsumerAcceptsProducer(nfc, parse, input, IdentityOptions(i), changedAt);
  }

  /******* Order *******/

  /** Equal up to the order of the references, the policies and the background values. */
  predicate BuildPermuted(a: BuildInput, b: BuildInput) {
    && b == a.(references := b.references, policies := b.policies, background := b.background)
    && multiset(a.references) == multiset(b.references)
    && multiset(a.policies) == multiset(b.policies)
    && multiset(a.background) == multiset(b.background)
  }

  /** Background values of one kind are one value, up to the order of its references. */
  ghost predicate OneValuePerKind(i: BuildInput) { KeyDetermines(NormalizeEntries(AllEntries(i)), EntryKey()) }

  lemma SameMembers<T>(a: seq<T>, b: seq<T>)
    requires multiset(a) == multiset(b)
    ensures forall x :: x in a <==> x in b
    ensures |a| == |b|
  {
    forall x ensures x in a <==> x in b { assert x in a <==> x in multiset(a); assert x in b <==> x in multiset(b); }
    assert |multiset(a)| == |a| && |multiset(b)| == |b|;
  }

  lemma EntryAllowedAnyOrder(e: Entry, a: BuildInput, b: BuildInput)
    requires BuildPermuted(a, b) && EntryAllowed(e, a.references, a.policies)
    ensures EntryAllowed(e, b.references, b.policies)
  {
    SameMembers(a.references, b.references);
    SameMembers(a.policies, b.policies);
    hide PolicyAllows, CategoryForId;
    forall id | id in e.references ensures ReferenceAllowed(e, id, b.references, b.policies) {
      assert ReferenceAllowed(e, id, a.references, a.policies);
      var r, p :| r in a.references && p in a.policies && r.id == id && p.referenceId == id && PolicyAllows(p, r, e);
      assert r in b.references && p in b.policies;
    }
  }

  lemma PolicyIgnoresOrder(x: seq<Entry>, y: seq<Entry>, a: BuildInput, b: BuildInput)
    requires BuildPermuted(a, b) && multiset(x) == multiset(y) && PolicyHolds(x, a.references, a.policies)
    ensures PolicyHolds(y, b.references, b.policies)
  {
    SameMembers(x, y);
    SameMembers(a.references, b.references);
    SameMembers(a.policies, b.policies);
    DistinctIsAboutContents(a.references, b.references, ReferenceKey());
    DistinctIsAboutContents(a.policies, b.policies, PolicyKey());
    hide EntryAllowed, DistinctBy;
    forall e | e in y ensures EntryAllowed(e, b.references, b.policies) {
      assert e in x;
      EntryAllowedAnyOrder(e, a, b);
    }
    forall r | r in b.references ensures ReferenceUsed(r, y) {
      assert r in a.references;
      assert ReferenceUsed(r, x);
    }
  }

  lemma EntriesPermute(a: BuildInput, b: BuildInput)
    requires BuildPermuted(a, b)
    ensures IdentityEntries(a) == IdentityEntries(b)
    ensures multiset(AllEntries(a)) == multiset(AllEntries(b))
    ensures a.background == [] <==> b.background == []
  {
    ImagesPermute(a.background, b.background, BackgroundEntries(a.background), BackgroundEntries(b.background),
                  BackgroundEntry());
    SameMembers(a.background, b.background);
    hide FieldEntries, FieldList, BackgroundEntries;
  }

  lemma KnownIdsIgnoreOrder(a: seq<Reference>, b: seq<Reference>)
    requires forall r :: r in a <==> r in b
    ensures KnownIds(a) == KnownIds(b)
  {}

  lemma ErrorsIgnoreOrder(a: BuildInput, b: BuildInput)
    requires BuildPermuted(a, b) && BuildError(a).None?
    ensures BuildError(b).None?
  {
    hide KnownIds, AllEntries, PolicyHolds, ValueHolds, FieldsHold;
    EntriesPermute(a, b);
    SameMembers(a.background, b.background);
    SameMembers(a.references, b.references);
    SameMembers(AllEntries(a), AllEntries(b));
    KnownIdsIgnoreOrder(a.references, b.references);
    PolicyIgnoresOrder(AllEntries(a), AllEntries(b), a, b);
  }

  lemma ContextsPermute(a: BuildInput, b: BuildInput, hasBackground: bool, hasIdentity: bool)
    requires BuildPermuted(a, b) && OneValuePerKind(a)
    ensures NormalizeContext(ContextFor(a, AllEntries(a), hasBackground, hasIdentity))
            == NormalizeContext(ContextFor(b, AllEntries(b), hasBackground, hasIdentity))
  {
    EntriesPermute(a, b);
    var x, y := AllEntries(a), AllEntries(b);
    hide AllEntries, NormalizeEntries, NormalizeContext;
    ImagesPermute(x, y, NormalizeEntries(x), NormalizeEntries(y), NormalizeEntry);
    ContextIgnoresOrder(ContextFor(a, x, hasBackground, hasIdentity), ContextFor(b, y, hasBackground, hasIdentity));
  }

  /** The two producer inputs are the same up to order. */
  lemma BuiltInputsPermute(a: BuildInput, b: BuildInput)
    requires BuildPermuted(a, b) && OneValuePerKind(a)
    ensures InputPermuted(IdentityInput(a), IdentityInput(b))
  {
    hide OneValuePerKind, AllEntries, IdentityEntries, Ascii, NormalizeContext;
    EntriesPermute(a, b);
    ContextsPermute(a, b, a.background != [], IdentityEntries(a) != []);
    var x, y := IdentityInput(a), IdentityInput(b);
    assert |x.payloads| == 1 && |y.payloads| == 1;
    assert NormalPayload(x.payloads[0]) == NormalPayload(y.payloads[0]);
    hide IdentityInput;
    assert NormalPayloads(x.payloads) == NormalPayloads(y.payloads);
  }

  /** With one value per background kind, no order of the input shows in the publication or in the ledger. */
  lemma {:induction false} BuilderIgnoresOrder(nfc: Text -> Text, ledger: Ledger, a: BuildInput, b: BuildInput)
    requires BuildPermuted(a, b) && OneValuePerKind(a) && BuildIdentity(nfc, ledger, a).1.Ok?
    ensures BuildIdentity(nfc, ledger, b) == BuildIdentity(nfc, ledger, a)
  {
    hide IdentityInput, OneValuePerKind, BuildPermuted, InputPermuted, Produce, BuildError, BindingOf;
    ErrorsIgnoreOrder(a, b);
    BuiltInputsPermute(a, b);
    PublishedIsProduced(nfc, ledger, IdentityInput(a));
    ProducerIgnoresOrder(nfc, IdentityInput(a), IdentityInput(b));
  }

  /******* Two values of one kind *******/

  lemma {:induction false} FieldEntryIds(fields: seq<(Text, Option<ContextValue>)>)
    ensures forall e | e in FieldEntries(fields) :: e.category == Identity && exists x | x in fields :: x.0 == e.id
  {
    if fields != [] {
      FieldEntryIds(fields[1..]);
      assert fields == [fields[0]] + fields[1..];
    }
  }

  lemma {:induction false} FieldEntriesDetermined(fields: seq<(Text, Option<ContextValue>)>)
    requires forall i, j | 0 <= i < j < |fields| :: fields[i].0 != fields[j].0
    ensures DistinctBy(FieldEntries(fields), EntryKey())
  {
    if fields != [] {
      FieldEntriesDetermined(fields[1..]);
      FieldEntryIds(fields[1..]);
      var rest := FieldEntries(fields[1..]);
      forall k | 0 <= k < |rest| ensures rest[k].id != fields[0].0 {
        assert rest[k] in rest;
        var x :| x in fields[1..] && x.0 == rest[k].id;
        var i :| 1 <= i < |fields| && fields[i] == x;
      }
      assert FieldEntries(fields) == rest || FieldEntries(fields) == [FieldEntries(fields)[0]] + rest;
      forall k | 0 <= k < |rest| ensures EntryKey()(rest[k])[1..] == rest[k].id {}
    }
  }

  lemma FieldsHaveTheirIds(f: Fields)
    ensures forall i, j | 0 <= i < j < 6 :: FieldList(f)[i].0 != FieldList(f)[j].0
  {
    var ids := FieldList(f);
    assert |ids| == 6;
    assert |ids[0].0| == 25 && |ids[1].0| == 8 && |ids[2].0| == 14 && |ids[3].0| == 15 && |ids[4].0| == 14
           && |ids[5].0| == 8;
    assert ids[1].0[0] == 0x6C && ids[5].0[0] == 0x74 && ids[2].0[0] == 0x70 && ids[4].0[0] == 0x73;
  }

  /** An identity entry shares its key with nothing else, so entries with one key are background entries. */
  lemma IdentityEntriesAreAlone(i: BuildInput)
    ensures DistinctBy(IdentityEntries(i), EntryKey())
    ensures forall e, b | e in IdentityEntries(i) && b in BackgroundEntries(i.background) ::
              EntryKey()(e) != EntryKey()(b)
  {
    hide Ascii, FieldList, DistinctBy;
    FieldsHaveTheirIds(i.fields);
    assert |FieldList(i.fields)| == 6 by { FieldCount(i.fields); }
    FieldEntriesDetermined(FieldList(i.fields));
    FieldEntryIds(FieldList(i.fields));
    forall e, b | e in IdentityEntries(i) && b in BackgroundEntries(i.background)
      ensures EntryKey()(e) != EntryKey()(b)
    {
      assert EntryKey()(e)[0] == 2 && EntryKey()(b)[0] == 0;
    }
  }

  lemma FieldCount(f: Fields)
    ensures |FieldList(f)| == 6
  {}

  lemma {:induction false} NormalizedConcatenation(a: seq<Entry>, b: seq<Entry>)
    ensures NormalizeEntries(a + b) == NormalizeEntries(a) + NormalizeEntries(b)
  {}

  lemma {:induction false} WithKeyConcatenates<T>(a: seq<T>, b: seq<T>, key: T -> Text, k: Text)
    ensures WithKey(a + b, key, k) == WithKey(a, key, k) + WithKey(b, key, k)
  {
    if a == [] {
      assert a + b == b;
    } else {
      WithKeyConcatenates(a[1..], b, key, k);
      assert (a + b)[1..] == a[1..] + b;
      assert (a + b)[0] == a[0];
    }
  }

  lemma {:induction false} NoneWithKey<T>(a: seq<T>, key: T -> Text, k: Text)
    requires forall x | x in a :: key(x) != k
    ensures WithKey(a, key, k) == []
  {
    if a != [] { NoneWithKey(a[1..], key, k); }
  }

  /** Behind entries with other keys, moving a different entry with the key of `s[first]` to the front shows. */
  lemma MovingShowsBehind(others: seq<Entry>, s: seq<Entry>, first: nat, m: nat)
    requires first < |s| && m < |s| && EntryKey()(s[m]) == EntryKey()(s[first]) && s[m] != s[first]
    requires forall j | 0 <= j < first :: EntryKey()(s[j]) != EntryKey()(s[first])
    requires forall x | x in others :: EntryKey()(x) != EntryKey()(s[first])
    ensures Sort(others + ToFront(s, m), EntryKey()) != Sort(others + s, EntryKey())
  {
    hide ToFront, Sort;
    var key, k := EntryKey(), EntryKey()(s[first]);
    FirstWithKey(s, key, first);
    FirstWithKey(ToFront(s, m), key, 0);
    NoneWithKey(others, key, k);
    WithKeyConcatenates(others, s, key, k);
    WithKeyConcatenates(others, ToFront(s, m), key, k);
    SortIsStable(others + s, key, k);
    SortIsStable(others + ToFront(s, m), key, k);
    assert WithKey(others + s, key, k)[0] == s[first];
    assert WithKey(others + ToFront(s, m), key, k)[0] == s[m];
  }

  lemma BackgroundMoves(background: seq<BackgroundValue>, m: nat)
    requires m < |background|
    ensures BackgroundEntries(ToFront(background, m)) == ToFront(BackgroundEntries(background), m)
  {
    hide ToFront, BackgroundEntries, BackgroundEntry;
  }

  /** The background entries, as a context keeps them. */
  function KeptBackground(i: BuildInput): (r: seq<Entry>)
    ensures |r| == |i.background|
  {
    NormalizeEntries(BackgroundEntries(i.background))
  }

  lemma AllNormalEntries(i: BuildInput)
    ensures NormalizeEntries(AllEntries(i)) == NormalizeEntries(IdentityEntries(i)) + KeptBackground(i)
    ensures DistinctBy(NormalizeEntries(IdentityEntries(i)), EntryKey())
    ensures forall e, b | e in NormalizeEntries(IdentityEntries(i)) && b in KeptBackground(i) ::
              EntryKey()(e) != EntryKey()(b)
  {
    hide IdentityEntries, BackgroundEntries;
    IdentityEntriesAreAlone(i);
    NormalizedConcatenation(IdentityEntries(i), BackgroundEntries(i.background));
    var x, y := IdentityEntries(i), BackgroundEntries(i.background);
    forall a, b | 0 <= a < b < |x| ensures EntryKey()(NormalizeEntries(x)[a]) != EntryKey()(NormalizeEntries(x)[b]) {
      assert EntryKey()(x[a]) != EntryKey()(x[b]);
    }
    forall e, b | e in NormalizeEntries(x) && b in KeptBackground(i) ensures EntryKey()(e) != EntryKey()(b) {
      var j :| 0 <= j < |x| && NormalizeEntries(x)[j] == e;
      var k :| 0 <= k < |y| && KeptBackground(i)[k] == b;
      assert x[j] in x && y[k] in y && EntryKey()(x[j]) == EntryKey()(e) && EntryKey()(y[k]) == EntryKey()(b);
    }
  }

  lemma AloneAt(own: seq<Entry>, s: seq<Entry>, a: nat, b: nat)
    requires DistinctBy(own, EntryKey()) && forall e, x | e in own && x in s :: EntryKey()(e) != EntryKey()(x)
    requires a < |own| && b < |own + s| && a != b
    ensures EntryKey()((own + s)[a]) != EntryKey()((own + s)[b])
  {
    if b >= |own| {
      assert own[a] in own && s[b - |own|] in s;
    } else if a < b {
      assert EntryKey()(own[a]) != EntryKey()(own[b]);
    } else {
      assert EntryKey()(own[b]) != EntryKey()(own[a]);
    }
  }

  /** Two different values of one kind, the first of them the first of its kind. */
  lemma TwoOfOneKind(i: BuildInput) returns (first: nat, m: nat)
    requires !OneValuePerKind(i)
    ensures first < |i.background| && m < |i.background|
    ensures var s := KeptBackground(i);
            && EntryKey()(s[m]) == EntryKey()(s[first]) && s[m] != s[first]
            && forall j | 0 <= j < first :: EntryKey()(s[j]) != EntryKey()(s[first])
  {
    AllNormalEntries(i);
    var all, own, s := NormalizeEntries(AllEntries(i)), NormalizeEntries(IdentityEntries(i)), KeptBackground(i);
    hide AllEntries, IdentityEntries, NormalizeEntries, KeptBackground, EntryKey;
    var a, b :| 0 <= a < |all| && 0 <= b < |all| && EntryKey()(all[a]) == EntryKey()(all[b]) && all[a] != all[b];
    if a < |own| { AloneAt(own, s, a, b); }
    if b < |own| { AloneAt(own, s, b, a); }
    var x, y := a - |own|, b - |own|;
    assert all[a] == s[x] && all[b] == s[y];
    first := FirstIndex(s, EntryKey(), EntryKey()(s[x]), x);
    m := if s[first] == s[x] then y else x;
  }

  function Moved(i: BuildInput, m: nat): BuildInput
    requires m < |i.background|
  {
    i.(background := ToFront(i.background, m))
  }

  /** The context is not the same with that value in front. */
  lemma MovedContextShows(i: BuildInput, first: nat, m: nat, hasBackground: bool, hasIdentity: bool)
    requires first < |i.background| && m < |i.background|
    requires var s := KeptBackground(i);
             && EntryKey()(s[m]) == EntryKey()(s[first]) && s[m] != s[first]
             && forall j | 0 <= j < first :: EntryKey()(s[j]) != EntryKey()(s[first])
    ensures NormalizeContext(ContextFor(Moved(i, m), AllEntries(Moved(i, m)), hasBackground, hasIdentity))
            != NormalizeContext(ContextFor(i, AllEntries(i), hasBackground, hasIdentity))
  {
    var own := NormalizeEntries(IdentityEntries(i));
    AllNormalEntries(i);
    AllNormalEntries(Moved(i, m));
    BackgroundMoves(i.background, m);
    NormalizedMove(BackgroundEntries(i.background), m);
    assert KeptBackground(Moved(i, m)) == ToFront(KeptBackground(i), m);
    assert IdentityEntries(Moved(i, m)) == IdentityEntries(i);
    hide AllEntries, IdentityEntries, NormalizeEntries, KeptBackground, ToFront, Sort;
    forall x | x in own ensures EntryKey()(x) != EntryKey()(KeptBackground(i)[first]) {
      assert KeptBackground(i)[first] in KeptBackground(i);
    }
    MovingShowsBehind(own, KeptBackground(i), first, m);
  }

  /** What is published of a build is its context, in normal form. */
  lemma PublishedContext(nfc: Text -> Text, ledger: Ledger, i: BuildInput)
    requires BuildIdentity(nfc, ledger, i).1.Ok?
    ensures var p := BuildIdentity(nfc, ledger, i).1.value;
            && |p.payloads| == 1
            && p.payloads[0].bytes
               == IdentityBytes(NormalizeContext(ContextFor(i, AllEntries(i), i.background != [],
                                                            IdentityEntries(i) != [])))
  {
    hide BuildError, NormalizeContext, AllEntries, IdentityEntries, DuplicateError, Normalize, BindingOf, Ascii;
    var input := IdentityInput(i);
    PublishedIsProduced(nfc, ledger, input);
    assert |input.payloads| == 1 && input.payloads[0] in input.payloads;
    hide IdentityInput;
    var artifacts := Artifacts(nfc, input.payloads, input.origin);
    assert artifacts == [artifacts[0]] && Sort(artifacts, ArtifactKey()) == artifacts;
  }

  /**
   A build that goes through gives the same publication and ledger for every order of its input exactly when background
   values of one kind are one value: two different ones are not refused, and the order they come in is published.
   */
  lemma BuilderOrderIsForgottenExactly(nfc: Text -> Text, ledger: Ledger, a: BuildInput)
    requires BuildIdentity(nfc, ledger, a).1.Ok?
    ensures (forall b | BuildPermuted(a, b) :: BuildIdentity(nfc, ledger, b) == BuildIdentity(nfc, ledger, a))
            <==> OneValuePerKind(a)
  {
    hide BuildIdentity, OneValuePerKind;
    if OneValuePerKind(a) {
      forall b | BuildPermuted(a, b) ensures BuildIdentity(nfc, ledger, b) == BuildIdentity(nfc, ledger, a) {
        BuilderIgnoresOrder(nfc, ledger, a, b);
      }
    } else {
      var first, m := TwoOfOneKind(a);
      MovedBuildDiffers(nfc, ledger, a, first, m);
      ToFrontPermutes(a.background, m);
      assert BuildPermuted(a, Moved(a, m));
    }
  }

  lemma MovedBuildDiffers(nfc: Text -> Text, ledger: Ledger, a: BuildInput, first: nat, m: nat)
    requires BuildIdentity(nfc, ledger, a).1.Ok? && first < |a.background| && m < |a.background|
    requires var s := KeptBackground(a);
             && EntryKey()(s[m]) == EntryKey()(s[first]) && s[m] != s[first]
             && forall j | 0 <= j < first :: EntryKey()(s[j]) != EntryKey()(s[first])
    ensures BuildIdentity(nfc, ledger, Moved(a, m)) != BuildIdentity(nfc, ledger, a)
  {
    hide BuildIdentity, NormalizeContext, AllEntries, NormalizeEntries, ToFront;
    var b := Moved(a, m);
    assert b.background != [] && a.background != [] && IdentityEntries(b) == IdentityEntries(a);
    hide IdentityEntries, Moved;
    if BuildIdentity(nfc, ledger, b) == BuildIdentity(nfc, ledger, a) {
      PublishedContext(nfc, ledger, a);
      PublishedContext(nfc, ledger, b);
      MovedContextShows(a, first, m, true, IdentityEntries(a) != []);
      assert false;
    }
  }

  /** A record that may be projected as stable fitness background under `id`. */
  function ClaimReference(): Reference { Reference(Ascii("claim"), Ascii("semantic/a/claim.md"), "", "") }

  function InjuryPolicy(): Policy {
    Policy(Ascii("claim"), PersonalModel, {StableFitnessBackground}, {BackgroundId(InjuryConstraints)}, true)
  }

  function Injury(content: string): BackgroundValue {
    BackgroundValue(InjuryConstraints, ContextValue(content, [Ascii("claim")], true))
  }

  /** An input with two injury constraints and nothing else. */
  function TwoInjuries(x: string, y: string): BuildInput {
    BuildInput("", "", "", [ClaimReference()], [InjuryPolicy()], Fields(None, None, None, None, None, None),
               [Injury(x), Injury(y)], "")
  }

  lemma NoFields(i: BuildInput)
    requires i.fields == Fields(None, None, None, None, None, None)
    ensures IdentityEntries(i) == []
  {
    hide Ascii;
    var l := FieldList(i.fields);
    assert l[1..][1..][1..][1..][1..][1..] == [];
    assert FieldEntries(l[1..][1..][1..][1..][1..]) == [];
    assert FieldEntries(l[1..][1..][1..][1..]) == [];
    assert FieldEntries(l[1..][1..][1..]) == [];
    assert FieldEntries(l[1..][1..]) == [];
    assert FieldEntries(l[1..]) == [];
  }

  lemma InjuryIsBackground()
    ensures CategoryForId(BackgroundId(InjuryConstraints)) == Some(Background)
    ensures BackgroundId(InjuryConstraints) !in COGNITIVE_IDS
  {
    assert BackgroundId(InjuryConstraints)[0] == 0x66;
    assert Ascii("communication-preferences")[0] == 0x63 && Ascii("language")[0] == 0x6C;
    assert Ascii("preferred-name")[0] == 0x70 && Ascii("timezone")[0] == 0x74;
    assert Ascii("stella-identity")[0] == 0x73 && Ascii("stella-persona")[0] == 0x73;
  }

  lemma ClaimPathIsValid()
    ensures SourcePathValid(PersonalModel, ClaimReference().path)
  {
    var path, prefix, suffix := Ascii("semantic/a/claim.md"), Ascii("semantic/"), Ascii("/claim.md");
    assert |path| == 19 && |prefix| == 9 && |suffix| == 9;
    assert path[..9] == prefix;
    assert path[10..] == suffix;
    assert path[9] == 0x61;
  }

  function InjuryEntry(content: string): Entry {
    Entry(BackgroundId(InjuryConstraints), Background, content, [Ascii("claim")])
  }

  lemma TwoEntries(x: string, y: string)
    ensures AllEntries(TwoInjuries(x, y)) == [InjuryEntry(x), InjuryEntry(y)]
    ensures KeptBackground(TwoInjuries(x, y)) == [NormalizeEntry(InjuryEntry(x)), NormalizeEntry(InjuryEntry(y))]
  {
    hide Ascii, IdentityEntries, NormalizeEntry;
    NoFields(TwoInjuries(x, y));
    var background := TwoInjuries(x, y).background;
    assert background[1..][1..] == [];
    assert BackgroundEntries(background) == [InjuryEntry(x), InjuryEntry(y)];
  }

  lemma InjuryAllowed(content: string)
    ensures EntryAllowed(InjuryEntry(content), [ClaimReference()], [InjuryPolicy()])
  {
    InjuryIsBackground();
    ClaimPathIsValid();
    hide Ascii, SourcePathValid, CategoryForId, BackgroundId;
    var r, p, e := ClaimReference(), InjuryPolicy(), InjuryEntry(content);
    assert r in [ClaimReference()] && p in [InjuryPolicy()];
    assert PolicyAllows(p, r, e);
    assert ReferenceAllowed(e, r.id, [ClaimReference()], [InjuryPolicy()]);
  }

  lemma TwoInjuriesHold(x: string, y: string)
    requires x != "" && y != ""
    ensures BuildError(TwoInjuries(x, y)).None?
  {
    hide Ascii, AllEntries, EntryAllowed, FieldList;
    var i, entries := TwoInjuries(x, y), [InjuryEntry(x), InjuryEntry(y)];
    TwoEntries(x, y);
    InjuryAllowed(x);
    InjuryAllowed(y);
    assert ReferenceUsed(ClaimReference(), entries) by {
      assert entries[0] in entries && entries[0].references[0] in entries[0].references;
    }
    NoFieldsHold(i, KnownIds(i.references));
    assert ClaimReference() in i.references && Ascii("claim") in KnownIds(i.references);
    assert BackgroundHolds(i.background, KnownIds(i.references));
  }

  lemma NoFieldsHold(i: BuildInput, known: set<Text>)
    requires i.fields == Fields(None, None, None, None, None, None)
    ensures FieldsHold(i.fields, known)
  {
    hide Ascii;
  }

  lemma HoldingBuildIsPublished(nfc: Text -> Text, i: BuildInput)
    requires BuildError(i).None? && IdentityEntries(i) == [] && i.references == [ClaimReference()]
    ensures BuildIdentity(nfc, map[], i).1.Ok?
  {
    hide BuildError, Ascii, AllEntries, IdentityEntries, NormalizeContext, Normalize, Artifacts, BindingOf, Metas;
    var input := IdentityInput(i);
    assert |input.payloads| == 1 && |input.references| == 1 && input.conflicts == [] && input.retractions == [];
    assert |input.capabilities| <= 1 && |input.categories| <= 1;
    assert DuplicateError(input).None?;
    assert ContextMatches(input.payloads[0].value.context, input.origin);
  }

  /** Two different values of one kind are accepted, and published in the order they came in. */
  lemma TwoOfOneKindShow(nfc: Text -> Text, x: string, y: string)
    requires x != "" && y != "" && x != y
    ensures var a, b := TwoInjuries(x, y), TwoInjuries(y, x);
            && BuildPermuted(a, b)
            && BuildIdentity(nfc, map[], a).1.Ok? && BuildIdentity(nfc, map[], b).1.Ok?
            && BuildIdentity(nfc, map[], b) != BuildIdentity(nfc, map[], a)
  {
    hide IdentityEntries, BuildError, Ascii, BuildIdentity, KeptBackground, ToFront, Moved, BuildPermuted,
         NormalizeEntry;
    var a, b := TwoInjuries(x, y), TwoInjuries(y, x);
    NoFields(a);
    NoFields(b);
    TwoInjuriesHold(x, y);
    TwoInjuriesHold(y, x);
    HoldingBuildIsPublished(nfc, a);
    HoldingBuildIsPublished(nfc, b);
    InjuriesMove(x, y);
    TwoEntries(x, y);
    InjuryNormal(x);
    InjuryNormal(y);
    MovedBuildDiffers(nfc, map[], a, 0, 1);
  }

  lemma InjuriesMove(x: string, y: string)
    ensures Moved(TwoInjuries(x, y), 1) == TwoInjuries(y, x)
    ensures BuildPermuted(TwoInjuries(x, y), TwoInjuries(y, x))
  {
    hide Ascii;
    ToFrontPermutes(TwoInjuries(x, y).background, 1);
    assert ToFront(TwoInjuries(x, y).background, 1) == TwoInjuries(y, x).background;
  }

  lemma InjuryNormal(x: string)
    ensures NormalizeEntry(InjuryEntry(x)).content == x
    ensures EntryKey()(NormalizeEntry(InjuryEntry(x))) == [CategoryRank(Background)] + BackgroundId(InjuryConstraints)
  {}
}
