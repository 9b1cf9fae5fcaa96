/** When an identity projection is built and what is handed on to be published, value by value. */
module IdentityBuilds {
  import opened Options
  import opened Canonical
  import opened ProjectionModel
  import opened ProjectionIdentity

  /******* What is given *******/

  /** The field that is published under `id` is given as `v`. */
  predicate GivenField(f: Fields, id: string, v: ContextValue) {
    || (id == "communication-preferences" && f.communicationPreferences == Some(v))
    || (id == "language" && f.language == Some(v))
    || (id == "preferred-name" && f.preferredName == Some(v))
    || (id == "stella-identity" && f.stellaIdentity == Some(v))
    || (id == "stella-persona" && f.stellaPersona == Some(v))
    || (id == "timezone" && f.timezone == Some(v))
  }

  predicate NamesKind(id: string, k: BackgroundKind) {
    || (id == "fitness-equipment-access" && k == EquipmentAccess)
    || (id == "fitness-injury-constraints" && k == InjuryConstraints)
    || (id == "fitness-mobility-constraints" && k == MobilityConstraints)
    || (id == "fitness-training-experience" && k == TrainingExperience)
  }

  predicate GivenBackground(background: seq<BackgroundValue>, id: string, v: ContextValue) {
    exists b | b in background :: NamesKind(id, b.kind) && b.value == v
  }

  predicate Given(i: BuildInput, id: string, data: DataClass, v: ContextValue) {
    if data == PublicIdentity then GivenField(i.fields, id, v) else GivenBackground(i.background, id, v)
  }

  /******* What allows it *******/

  predicate IsNameUnit(c: CodeUnit) { 'a' as int <= c as int <= 'z' as int || '0' as int <= c as int <= '9' as int }

  /** One folder name: a small letter or digit, then up to 127 of these, dots, underscores and hyphens. */
  predicate IsName(name: Text) {
    && 1 <= |name| <= 128 && IsNameUnit(name[0])
    && forall k | 0 <= k < |name| :: IsNameUnit(name[k]) || name[k] as int in {'.' as int, '_' as int, '-' as int}
  }

  ghost predicate IsSourcePath(path: Text, kind: RecordKind) {
    exists name: Text :: IsName(name)
      && path == if kind == Cognitive then Ascii("cognitive/") + name + Ascii("/entity.md")
                 else Ascii("semantic/") + name + Ascii("/claim.md")
  }

  /** A listed source and its policy let the value be published under `id`. */
  ghost predicate Granted(i: BuildInput, id: string, data: DataClass, reference: Text) {
    exists r, p | r in i.references && p in i.policies ::
      && r.id == reference && p.referenceId == reference
      && p.projectionSafe && data in p.dataClasses && Ascii(id) in p.allowed
      && p.kind == (if id in {"stella-identity", "stella-persona"} then Cognitive else PersonalModel)
      && IsSourcePath(r.path, p.kind)
  }

  ghost predicate Used(i: BuildInput, reference: Text) {
    exists id, data, v :: Given(i, id, data, v) && reference in v.references
  }

  ghost predicate Buildable(i: BuildInput) {
    && (exists id, data, v :: Given(i, id, data, v))
    && (forall id, data, v | Given(i, id, data, v) ::
          v.content != "" && v.references != [] && forall r | r in v.references :: Granted(i, id, data, r))
    && (i.fields.language.Some? ==> i.fields.language.value.wellFormed)
    && (i.fields.timezone.Some? ==> i.fields.timezone.value.wellFormed)
    && (forall j, k | 0 <= j < k < |i.references| :: i.references[j].id != i.references[k].id)
    && (forall j, k | 0 <= j < k < |i.policies| :: i.policies[j].referenceId != i.policies[k].referenceId)
    && |i.policies| == |i.references|
    && forall r | r in i.references :: Used(i, r.id)
  }

  /******* The specification says the same *******/

  predicate IsPlain(s: string) { forall k | 0 <= k < |s| :: s[k] as int < 0x1_0000 }

  lemma AsciiIsInjective(s: string, t: string)
    requires IsPlain(s) && IsPlain(t) && Ascii(s) == Ascii(t)
    ensures s == t
  {
    assert |Ascii(s)| == |s| && |Ascii(t)| == |t|;
    forall k | 0 <= k < |s| ensures s[k] == t[k] { assert Ascii(s)[k] == Ascii(t)[k]; }
  }

  const FIELD_IDS: set<string> :=
    {"communication-preferences", "language", "preferred-name", "stella-identity", "stella-persona", "timezone"}

  lemma PlainIds(id: string, k: BackgroundKind)
    ensures id in FIELD_IDS || NamesKind(id, k) ==> IsPlain(id)
  {}

  lemma FieldIds(id: string)
    requires id in FIELD_IDS
    ensures Ascii(id) in IDENTITY_IDS
    ensures Ascii(id) in COGNITIVE_IDS <==> id in {"stella-identity", "stella-persona"}
  {
    PlainIds(id, EquipmentAccess);
    PlainIds("stella-identity", EquipmentAccess);
    PlainIds("stella-persona", EquipmentAccess);
    if Ascii(id) == Ascii("stella-identity") { AsciiIsInjective(id, "stella-identity"); }
    if Ascii(id) == Ascii("stella-persona") { AsciiIsInjective(id, "stella-persona"); }
    hide Ascii;
  }

  lemma BackgroundIds(id: string, k: BackgroundKind)
    requires NamesKind(id, k)
    ensures Ascii(id) == BackgroundId(k) && CategoryForId(Ascii(id)) == Some(Background)
    ensures Ascii(id) !in COGNITIVE_IDS && id !in {"stella-identity", "stella-persona"}
  {
    assert Ascii(id)[0] == 0x66;
    assert Ascii("communication-preferences")[0] == 0x63 && Ascii("language")[0] == 0x6C;
    assert Ascii("preferred-name")[0] == 0x70 && Ascii("timezone")[0] == 0x74;
    assert Ascii("stella-identity")[0] == 0x73 && Ascii("stella-persona")[0] == 0x73;
    hide Ascii;
  }

  function EntryOf(id: string, data: DataClass, v: ContextValue): Entry {
    Entry(Ascii(id), if data == PublicIdentity then Identity else Background, v.content, v.references)
  }

  lemma {:induction false} FieldEntriesExactly(fields: seq<(Text, Option<ContextValue>)>, e: Entry)
    ensures e in FieldEntries(fields) <==>
              exists x | x in fields ::
                x.1.Some? && e == Entry(x.0, Identity, x.1.value.content, x.1.value.references)
  {
    if fields != [] {
      FieldEntriesExactly(fields[1..], e);
      assert fields == [fields[0]] + fields[1..];
    }
  }

  lemma GivenIsListed(f: Fields, id: string, v: ContextValue)
    ensures GivenField(f, id, v) <==> id in FIELD_IDS && (Ascii(id), Some(v)) in FieldList(f)
  {
    PlainIds(id, EquipmentAccess);
    forall other | other in FIELD_IDS && id in FIELD_IDS && Ascii(id) == Ascii(other) ensures id == other {
      PlainIds(other, EquipmentAccess);
      AsciiIsInjective(id, other);
    }
    hide Ascii, IsPlain;
    var l := FieldList(f);
    if id in FIELD_IDS && (Ascii(id), Some(v)) in l {
      var k :| 0 <= k < 6 && l[k] == (Ascii(id), Some(v));
      var names := ["communication-preferences", "language", "preferred-name", "stella-identity", "stella-persona",
                    "timezone"];
      assert names[k] in FIELD_IDS && Ascii(names[k]) == Ascii(id);
      assert names[k] == id;
    }
    if GivenField(f, id, v) {
      assert l[0] in l && l[1] in l && l[2] in l && l[3] in l && l[4] in l && l[5] in l;
    }
  }

  lemma ListedHasId(f: Fields, x: (Text, Option<ContextValue>)) returns (id: string)
    requires x in FieldList(f)
    ensures id in FIELD_IDS && x.0 == Ascii(id)
  {
    hide Ascii;
    var names := ["communication-preferences", "language", "preferred-name", "stella-identity", "stella-persona",
                  "timezone"];
    var k :| 0 <= k < 6 && FieldList(f)[k] == x;
    id := names[k];
  }

  lemma FieldsExactly(i: BuildInput, e: Entry)
    ensures e in IdentityEntries(i) <==>
              exists id, v :: GivenField(i.fields, id, v) && e == EntryOf(id, PublicIdentity, v)
  {
    FieldEntriesExactly(FieldList(i.fields), e);
    hide FieldList, FieldEntries, Ascii, GivenField;
    if e in IdentityEntries(i) {
      var x :| x in FieldList(i.fields) && x.1.Some?
        && e == Entry(x.0, Identity, x.1.value.content, x.1.value.references);
      var id := ListedHasId(i.fields, x);
      GivenIsListed(i.fields, id, x.1.value);
      assert GivenField(i.fields, id, x.1.value) && e == EntryOf(id, PublicIdentity, x.1.value);
    }
    forall id, v | GivenField(i.fields, id, v) && e == EntryOf(id, PublicIdentity, v)
      ensures e in IdentityEntries(i)
    {
      GivenIsListed(i.fields, id, v);
      assert (Ascii(id), Some(v)) in FieldList(i.fields);
    }
  }

  lemma KindHasId(k: BackgroundKind) returns (id: string)
    ensures NamesKind(id, k) && Ascii(id) == BackgroundId(k)
  {
    hide Ascii;
    id := match k
    case EquipmentAccess => "fitness-equipment-access"
    case InjuryConstraints => "fitness-injury-constraints"
    case MobilityConstraints => "fitness-mobility-constraints"
    case TrainingExperience => "fitness-training-experience";
  }

  lemma BackgroundExactly(i: BuildInput, e: Entry)
    ensures e in BackgroundEntries(i.background) <==>
              exists id, v :: GivenBackground(i.background, id, v) && e == EntryOf(id, StableFitnessBackground, v)
  {
    hide Ascii, NamesKind, BackgroundId;
    var entries := BackgroundEntries(i.background);
    if e in entries {
      var k :| 0 <= k < |entries| && entries[k] == e;
      var b := i.background[k];
      assert e == BackgroundEntry()(b) && b in i.background;
      var id := KindHasId(b.kind);
      assert GivenBackground(i.background, id, b.value) && e == EntryOf(id, StableFitnessBackground, b.value);
    }
    forall id, v | GivenBackground(i.background, id, v) && e == EntryOf(id, StableFitnessBackground, v)
      ensures e in entries
    {
      var b :| b in i.background && NamesKind(id, b.kind) && b.value == v;
      BackgroundIds(id, b.kind);
      var k :| 0 <= k < |i.background| && i.background[k] == b;
      assert entries[k] == e;
    }
  }

  /** The entries are the given values, each under its id and class. */
  lemma EntriesExactly(i: BuildInput, e: Entry)
    ensures e in AllEntries(i) <==> exists id, data, v :: Given(i, id, data, v) && e == EntryOf(id, data, v)
  {
    FieldsExactly(i, e);
    BackgroundExactly(i, e);
    hide EntryOf, GivenField, GivenBackground, IdentityEntries, BackgroundEntries;
    if e in IdentityEntries(i) {
      var id, v :| GivenField(i.fields, id, v) && e == EntryOf(id, PublicIdentity, v);
      assert Given(i, id, PublicIdentity, v);
    } else if e in AllEntries(i) {
      var id, v :| GivenBackground(i.background, id, v) && e == EntryOf(id, StableFitnessBackground, v);
      assert Given(i, id, StableFitnessBackground, v);
    }
  }

  /******* Policy *******/

  lemma NameIsMatched(path: Text, prefix: Text, suffix: Text, name: Text)
    requires IsName(name) && path == prefix + name + suffix
    ensures PathMatches(path, prefix, suffix)
  {
    forall k | |prefix| <= k < |path| - |suffix| ensures NameUnit(path[k], k == |prefix|) {
      assert path[k] == name[k - |prefix|];
    }
    assert path[|path| - |suffix|..] == suffix;
    assert path[..|prefix|] == prefix;
  }

  lemma MatchedHasName(path: Text, prefix: Text, suffix: Text) returns (name: Text)
    requires PathMatches(path, prefix, suffix)
    ensures IsName(name) && path == prefix + name + suffix
  {
    name := path[|prefix|..|path| - |suffix|];
    assert path == prefix + name + suffix by {
      assert path == path[..|prefix|] + name + path[|path| - |suffix|..];
    }
    forall k | 0 <= k < |name| ensures NameUnit(name[k], k == 0) { assert name[k] == path[|prefix| + k]; }
  }

  lemma PathExactly(kind: RecordKind, path: Text)
    ensures SourcePathValid(kind, path) <==> IsSourcePath(path, kind)
  {
    var prefix := if kind == Cognitive then Ascii("cognitive/") else Ascii("semantic/");
    var suffix := if kind == Cognitive then Ascii("/entity.md") else Ascii("/claim.md");
    hide Ascii, IsName, PathMatches;
    if SourcePathValid(kind, path) { var name := MatchedHasName(path, prefix, suffix); }
    forall name: Text | IsName(name) && path == prefix + name + suffix ensures PathMatches(path, prefix, suffix) {
      NameIsMatched(path, prefix, suffix, name);
    }
  }

  lemma GivenIds(i: BuildInput, id: string, data: DataClass, v: ContextValue)
    requires Given(i, id, data, v)
    ensures CategoryForId(Ascii(id)) == Some(if data == PublicIdentity then Identity else Background)
    ensures Ascii(id) in COGNITIVE_IDS <==> id in {"stella-identity", "stella-persona"}
  {
    hide Ascii;
    if data == PublicIdentity {
      FieldIds(id);
    } else {
      var b :| b in i.background && NamesKind(id, b.kind) && b.value == v;
      BackgroundIds(id, b.kind);
    }
  }

  lemma PolicyExactly(i: BuildInput, id: string, data: DataClass, v: ContextValue, r: Reference, p: Policy)
    requires Given(i, id, data, v)
    ensures PolicyAllows(p, r, EntryOf(id, data, v)) <==>
              && p.projectionSafe && data in p.dataClasses && Ascii(id) in p.allowed
              && p.kind == (if id in {"stella-identity", "stella-persona"} then Cognitive else PersonalModel)
              && IsSourcePath(r.path, p.kind)
  {
    GivenIds(i, id, data, v);
    PathExactly(p.kind, r.path);
    hide Ascii, Given, SourcePathValid, IsSourcePath;
  }

  lemma GrantedExactly(i: BuildInput, id: string, data: DataClass, v: ContextValue, reference: Text)
    requires Given(i, id, data, v)
    ensures ReferenceAllowed(EntryOf(id, data, v), reference, i.references, i.policies)
            <==> Granted(i, id, data, reference)
  {
    var e := EntryOf(id, data, v);
    forall r, p ensures PolicyAllows(p, r, e) <==>
              && p.projectionSafe && data in p.dataClasses && Ascii(id) in p.allowed
              && p.kind == (if id in {"stella-identity", "stella-persona"} then Cognitive else PersonalModel)
              && IsSourcePath(r.path, p.kind) {
      PolicyExactly(i, id, data, v, r, p);
    }
    hide Ascii, Given, PolicyAllows, IsSourcePath;
    if ReferenceAllowed(e, reference, i.references, i.policies) {
      var r, p :| r in i.references && p in i.policies && r.id == reference && p.referenceId == reference
        && PolicyAllows(p, r, e);
      assert Granted(i, id, data, reference);
    }
    if Granted(i, id, data, reference) {
      var r, p :| r in i.references && p in i.policies && r.id == reference && p.referenceId == reference
        && p.projectionSafe && data in p.dataClasses && Ascii(id) in p.allowed
        && p.kind == (if id in {"stella-identity", "stella-persona"} then Cognitive else PersonalModel)
        && IsSourcePath(r.path, p.kind);
      assert PolicyAllows(p, r, e);
    }
  }

  /******* The builder *******/

  lemma ValuesExactly(i: BuildInput, known: set<Text>)
    ensures FieldsHold(i.fields, known) && BackgroundHolds(i.background, known) <==>
              && (i.fields.language.Some? ==> i.fields.language.value.wellFormed)
              && (i.fields.timezone.Some? ==> i.fields.timezone.value.wellFormed)
              && forall id, data, v | Given(i, id, data, v) :: ValueHolds(v, known)
  {
    hide ValueHolds, Ascii, FieldList, GivenField, NamesKind;
    if FieldsHold(i.fields, known) && BackgroundHolds(i.background, known) {
      forall id, data, v | Given(i, id, data, v) ensures ValueHolds(v, known) {
        if data == PublicIdentity {
          GivenIsListed(i.fields, id, v);
          assert (Ascii(id), Some(v)) in FieldList(i.fields);
        }
      }
    }
    if forall id, data, v | Given(i, id, data, v) :: ValueHolds(v, known) {
      forall x | x in FieldList(i.fields) && x.1.Some? ensures ValueHolds(x.1.value, known) {
        var id := ListedHasId(i.fields, x);
        GivenIsListed(i.fields, id, x.1.value);
        assert Given(i, id, PublicIdentity, x.1.value);
      }
      forall b | b in i.background ensures ValueHolds(b.value, known) {
        var id := KindHasId(b.kind);
        assert Given(i, id, StableFitnessBackground, b.value);
      }
    }
  }

  lemma NonEmptyExactly(i: BuildInput)
    ensures AllEntries(i) != [] <==> exists id, data, v :: Given(i, id, data, v)
  {
    hide AllEntries, EntryOf, Given;
    if AllEntries(i) != [] { EntriesExactly(i, AllEntries(i)[0]); }
    forall id, data, v | Given(i, id, data, v) ensures AllEntries(i) != [] { EntriesExactly(i, EntryOf(id, data, v)); }
  }

  lemma AllowedExactly(i: BuildInput)
    ensures (forall e | e in AllEntries(i) :: EntryAllowed(e, i.references, i.policies)) <==>
              forall id, data, v, r | Given(i, id, data, v) && r in v.references :: Granted(i, id, data, r)
  {
    hide AllEntries, Given, Granted, ReferenceAllowed, CategoryForId, Ascii;
    if forall e | e in AllEntries(i) :: EntryAllowed(e, i.references, i.policies) {
      forall id, data, v, r | Given(i, id, data, v) && r in v.references ensures Granted(i, id, data, r) {
        EntriesExactly(i, EntryOf(id, data, v));
        GrantedExactly(i, id, data, v, r);
      }
    }
    if forall id, data, v, r | Given(i, id, data, v) && r in v.references :: Granted(i, id, data, r) {
      forall e | e in AllEntries(i) ensures EntryAllowed(e, i.references, i.policies) {
        EntriesExactly(i, e);
        var id, data, v :| Given(i, id, data, v) && e == EntryOf(id, data, v);
        GivenIds(i, id, data, v);
        forall r | r in e.references ensures ReferenceAllowed(e, r, i.references, i.policies) {
          GrantedExactly(i, id, data, v, r);
        }
      }
    }
  }

  lemma UsedExactly(i: BuildInput, r: Reference)
    ensures ReferenceUsed(r, AllEntries(i)) <==> Used(i, r.id)
  {
    hide AllEntries, Given, Ascii;
    if ReferenceUsed(r, AllEntries(i)) {
      var e :| e in AllEntries(i) && r.id in e.references;
      EntriesExactly(i, e);
      var id, data, v :| Given(i, id, data, v) && e == EntryOf(id, data, v);
    }
    forall id, data, v | Given(i, id, data, v) && r.id in v.references ensures ReferenceUsed(r, AllEntries(i)) {
      EntriesExactly(i, EntryOf(id, data, v));
      assert r.id in EntryOf(id, data, v).references;
    }
  }

  lemma DistinctExactly(i: BuildInput)
    ensures DistinctBy(i.references, ReferenceKey()) <==>
              forall j, k | 0 <= j < k < |i.references| :: i.references[j].id != i.references[k].id
    ensures DistinctBy(i.policies, PolicyKey()) <==>
              forall j, k | 0 <= j < k < |i.policies| :: i.policies[j].referenceId != i.policies[k].referenceId
  {
    forall j, k | 0 <= j < k < |i.references|
      ensures ReferenceKey()(i.references[j]) == i.references[j].id
      ensures ReferenceKey()(i.references[k]) == i.references[k].id
    {}
    forall j, k | 0 <= j < k < |i.policies|
      ensures PolicyKey()(i.policies[j]) == i.policies[j].referenceId
      ensures PolicyKey()(i.policies[k]) == i.policies[k].referenceId
    {}
  }

  lemma BuildableExactly(i: BuildInput)
    ensures BuildError(i).None? <==> Buildable(i)
  {
    var known := KnownIds(i.references);
    ValuesExactly(i, known);
    NonEmptyExactly(i);
    AllowedExactly(i);
    DistinctExactly(i);
    forall r ensures ReferenceUsed(r, AllEntries(i)) <==> Used(i, r.id) { UsedExactly(i, r); }
    hide AllEntries, Given, EntryAllowed, Used, ReferenceUsed, FieldsHold, BackgroundHolds, DistinctBy;
    forall id, data, r | Granted(i, id, data, r) ensures r in known {
      var x, p :| x in i.references && p in i.policies && x.id == r && p.referenceId == r
        && p.projectionSafe && data in p.dataClasses && Ascii(id) in p.allowed
        && p.kind == (if id in {"stella-identity", "stella-persona"} then Cognitive else PersonalModel)
        && IsSourcePath(x.path, p.kind);
    }
    hide Granted, KnownIds;
    if Buildable(i) {
      forall id, data, v | Given(i, id, data, v) ensures ValueHolds(v, known) {
        forall r | r in v.references ensures r in known { assert Granted(i, id, data, r); }
      }
    }
  }

  /** What is handed on: one payload with the given values, and what they are of, all of it available. */
  ghost predicate HandsOn(i: BuildInput, p: ProducerInput) {
    var fields := exists id, v :: GivenField(i.fields, id, v);
    && p.origin == Origin(i.instanceId, StellaRuntime, StellaFitness, i.sourceRevision, i.asOf)
    && p.generatedAt == i.generatedAt
    && p.references == i.references && p.conflicts == [] && p.retractions == []
    && p.categories == (if i.background != [] then [Background] else []) + (if fields then [Identity] else [])
    && p.capabilities == (if i.background != [] then [Capability(Ascii("background_context"), Available)] else [])
                         + (if fields then [Capability(Ascii("identity_context"), Available)] else [])
    && |p.payloads| == 1
    && p.payloads[0].stableId == Ascii("runtime-identity-context")
    && p.payloads[0].path == Ascii("payloads/identity-context.json")
    && p.payloads[0].value.IdentityValue?
    && var context := p.payloads[0].value.context;
       && context.instanceId == i.instanceId
       && context.producer == StellaRuntime && context.consumer == StellaFitness
       && context.sourceRevision == i.sourceRevision && context.asOf == i.asOf
       && context.categories == p.categories
       && HoldsGiven(i, context.entries)
  }

  /** The given values and no others, the background values as often as given and in their order. */
  ghost predicate HoldsGiven(i: BuildInput, entries: seq<Entry>) {
    && |entries| >= |i.background|
    && var n := |entries| - |i.background|;
       && (forall id, v | GivenField(i.fields, id, v) :: EntryOf(id, PublicIdentity, v) in entries[..n])
       && (forall k | 0 <= k < n :: IsField(i, entries[k]))
       && DistinctIds(entries[..n])
       && forall k | 0 <= k < |i.background| :: IsBackground(i.background[k], entries[n + k])
  }

  predicate DistinctIds(entries: seq<Entry>) { forall j, k | 0 <= j < k < |entries| :: entries[j].id != entries[k].id }

  ghost predicate IsField(i: BuildInput, e: Entry) {
    exists id, v :: GivenField(i.fields, id, v) && e == EntryOf(id, PublicIdentity, v)
  }

  ghost predicate IsBackground(b: BackgroundValue, e: Entry) {
    exists id :: NamesKind(id, b.kind) && e == EntryOf(id, StableFitnessBackground, b.value)
  }

  lemma {:induction false} FieldEntriesDistinct(fields: seq<(Text, Option<ContextValue>)>)
    requires forall j, k | 0 <= j < k < |fields| :: fields[j].0 != fields[k].0
    ensures DistinctIds(FieldEntries(fields))
  {
    if fields != [] {
      FieldEntriesDistinct(fields[1..]);
      var rest := FieldEntries(fields[1..]);
      forall k | 0 <= k < |rest| ensures rest[k].id != fields[0].0 { FieldEntriesExactly(fields[1..], rest[k]); }
    }
  }

  lemma FieldIdsDistinct(f: Fields)
    ensures |FieldList(f)| == 6
    ensures forall j, k | 0 <= j < k < 6 :: FieldList(f)[j].0 != FieldList(f)[k].0
  {
    assert |Ascii("communication-preferences")| == 25 && |Ascii("stella-identity")| == 15;
    assert |Ascii("language")| == 8 && |Ascii("timezone")| == 8;
    assert |Ascii("preferred-name")| == 14 && |Ascii("stella-persona")| == 14;
    assert Ascii("language")[0] == 0x6C && Ascii("timezone")[0] == 0x74;
    assert Ascii("preferred-name")[0] == 0x70 && Ascii("stella-persona")[0] == 0x73;
    hide Ascii;
  }

  lemma FieldsAreDistinct(i: BuildInput)
    ensures DistinctIds(IdentityEntries(i))
  {
    FieldIdsDistinct(i.fields);
    FieldEntriesDistinct(FieldList(i.fields));
    hide FieldList;
  }

  lemma GivenAreHeld(i: BuildInput)
    ensures HoldsGiven(i, AllEntries(i))
  {
    hide Ascii, FieldList, FieldEntries, NamesKind, GivenField, BackgroundId;
    var entries, n := AllEntries(i), |IdentityEntries(i)|;
    assert entries[..n] == IdentityEntries(i) && entries[n..] == BackgroundEntries(i.background);
    FieldsAreDistinct(i);
    forall id, v | GivenField(i.fields, id, v) ensures EntryOf(id, PublicIdentity, v) in entries[..n] {
      FieldsExactly(i, EntryOf(id, PublicIdentity, v));
    }
    forall k | 0 <= k < n ensures IsField(i, entries[k]) {
      FieldsExactly(i, entries[k]);
      assert entries[k] == IdentityEntries(i)[k];
    }
    forall k | 0 <= k < |i.background| ensures IsBackground(i.background[k], entries[n + k]) {
      assert entries[n + k] == entries[n..][k] == BackgroundEntry()(i.background[k]);
      var id := KindHasId(i.background[k].kind);
      assert entries[n + k] == EntryOf(id, StableFitnessBackground, i.background[k].value);
    }
  }

  lemma FieldsAreThere(i: BuildInput)
    ensures IdentityEntries(i) != [] <==> exists id, v :: GivenField(i.fields, id, v)
  {
    hide IdentityEntries, GivenField, EntryOf;
    if IdentityEntries(i) != [] { FieldsExactly(i, IdentityEntries(i)[0]); }
    forall id, v | GivenField(i.fields, id, v) ensures IdentityEntries(i) != [] {
      FieldsExactly(i, EntryOf(id, PublicIdentity, v));
    }
  }

  /**
   A projection is handed on to be published exactly when something is given, every given value has text, well formed
   where that is checked, and sources that each grant it, and every listed source is used.
   */
  lemma BuildsExactly(nfc: Text -> Text, ledger: Ledger, i: BuildInput)
    ensures HandsOn(i, IdentityInput(i))
    ensures Buildable(i) ==> BuildIdentity(nfc, ledger, i) == Publish(nfc, ledger, IdentityInput(i))
    ensures !Buildable(i) ==> BuildIdentity(nfc, ledger, i).0 == ledger && BuildIdentity(nfc, ledger, i).1.Refused?
  {
    BuildableExactly(i);
    GivenAreHeld(i);
    FieldsAreThere(i);
    hide Ascii, BuildError, Buildable, HoldsGiven, IdentityEntries, AllEntries, GivenField, Publish;
  }
}
