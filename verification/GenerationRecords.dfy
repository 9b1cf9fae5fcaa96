/**
 Authority records: what the reader demands of them, how a generation keeps them, and how the verifier rebuilds them
 from what is kept (`src/generation/index.ts`, `src/authority/index.ts`).
 */
module GenerationRecords {
  import opened Options
  import opened Canonical

  datatype Layer = Evidence | Semantic | Cognitive

  datatype Schema = EvidenceV2 | SemanticV2 | PersonalModelV2 | CognitiveV2

  /** A front-matter field that should list ids. */
  datatype Refs = Absent | Null | NotList | Refs(ids: seq<Text>)

  /** A relation that should be `null` or an id. */
  datatype Link = NoLink | NotText | Link(id: Text)

  datatype Relations =
    | Undefined | NotObject
    | Relations(complements: Refs, tensions: Refs, parent: Link, governedBy: Link)

  /** `version` is the first of the four version fields when it can be read; `rest` is every other field. */
  datatype FrontMatter = FrontMatter(sourceId: Option<Text>, claimId: Option<Text>, cognitiveId: Option<Text>,
                                     version: Option<string>, sourceRefs: Refs, supersedes: Refs, relatedClaims: Refs,
                                     counterevidenceRefs: Refs, relations: Relations, rest: string)

  datatype Section = Section(title: Text, content: string)

  /** `sections` is a map by title, in the order it is read. */
  datatype AuthorityRecord = AuthorityRecord(id: Text, layer: Layer, schema: Schema, recordType: string,
                                             frontmatter: FrontMatter, body: string, sections: seq<Section>)

  /** A record with everything its checksum covers. */
  datatype RecordBase = RecordBase(record: AuthorityRecord, role: string, version: string)

  datatype RecordChecksum = RecordChecksum(base: RecordBase)

  datatype NormalizedRecord = NormalizedRecord(base: RecordBase, checksum: RecordChecksum)

  /**
   The checks this model takes as given: the schema of a front matter, whether a section is blank, and whether a body
   makes a personal model an essence.
   */
  datatype Checks = Checks(contract: (Schema, FrontMatter) -> bool, blank: string -> bool, essence: string -> bool)

  function TitleKey(): Section -> Text { (s: Section) => s.title }

  function RecordKey(): AuthorityRecord -> Text { (r: AuthorityRecord) => r.id }

  function NormalKey(): NormalizedRecord -> Text { (r: NormalizedRecord) => r.base.record.id }

  function Ascii(s: string): Text { seq(|s|, i requires 0 <= i < |s| => (s[i] as int % 0x10000) as CodeUnit) }

  /******* Reading *******/

  function LayerOf(s: Schema): Layer {
    match s
    case EvidenceV2 => Evidence
    case SemanticV2 => Semantic
    case PersonalModelV2 => Semantic
    case CognitiveV2 => Cognitive
  }

  /** The front-matter field that holds the id of a record of layer `l`. */
  function IdField(l: Layer, f: FrontMatter): Option<Text> {
    match l
    case Evidence => f.sourceId
    case Semantic => f.claimId
    case Cognitive => f.cognitiveId
  }

  const REQUIRED_SECTIONS: set<string> := {
    "User definition", "Core propositions", "Direction and active attention", "Observational strengths",
    "Compression tendencies and blind spots", "Applicable and inapplicable boundaries", "Cognitive signature",
    "Cognitive operators", "Relations and tensions", "Positive examples, counterexamples, and calibration",
    "Runtime digest", "Source explanation"
  }

  predicate Filled(c: Checks, sections: seq<Section>, title: string) {
    exists s | s in sections :: s.title == Ascii(title) && !c.blank(s.content)
  }

  /** `lintAuthorityRecord` finds nothing. */
  predicate LintHolds(c: Checks, r: AuthorityRecord) {
    && (r.layer.Cognitive? ==>
          && (forall title | title in REQUIRED_SECTIONS :: Filled(c, r.sections, title))
          && (r.recordType == "governing_system" ==> Filled(c, r.sections, "Persistent Kernel")))
    && !(r.schema.PersonalModelV2? && c.essence(r.body))
  }

  predicate SectionsHold(sections: seq<Section>) {
    DistinctBy(sections, TitleKey()) && forall s | s in sections :: s.title != []
  }

  /**
   What a record the authority reader returns has passed (`parseAuthorityMarkdown`, `readAuthority`, `versionFor`).
   */
  predicate Readable(c: Checks, r: AuthorityRecord) {
    && r.layer == LayerOf(r.schema)
    && c.contract(r.schema, r.frontmatter)
    && IdField(r.layer, r.frontmatter) == Some(r.id)
    && r.id != [] && r.recordType != ""
    && SectionsHold(r.sections)
    && LintHolds(c, r)
    && r.frontmatter.version.Some?
  }

  /******* References *******/

  /** `records.filter` of `resolveStableId`. */
  function Matching(records: seq<AuthorityRecord>, id: Text): seq<AuthorityRecord> {
    if records == [] then []
    else (if records[0].id == id then [records[0]] else []) + Matching(records[1..], id)
  }

  /** `resolveStableId` returns: `id` names one record, of the expected layer. */
  predicate Resolves(records: seq<AuthorityRecord>, id: Text, layer: Option<Layer>) {
    var matches := Matching(records, id);
    |matches| == 1 && (layer.Some? ==> matches[0].layer == layer.value)
  }

  predicate ResolvesToSystem(records: seq<AuthorityRecord>, id: Text) {
    Resolves(records, id, Some(Cognitive)) && Matching(records, id)[0].recordType == "governing_system"
  }

  /** `resolveRefs`. */
  predicate RefsResolve(records: seq<AuthorityRecord>, refs: Refs, layer: Option<Layer>) {
    && !refs.NotList?
    && (refs.Refs? ==> forall id | id in refs.ids :: Resolves(records, id, layer))
  }

  predicate RelationsResolve(records: seq<AuthorityRecord>, x: Relations) {
    && x.Relations? && x.complements.Refs? && x.tensions.Refs?
    && (forall id | id in x.complements.ids :: Resolves(records, id, Some(Cognitive)))
    && (forall id | id in x.tensions.ids :: Resolves(records, id, Some(Cognitive)))
    && (x.parent.NoLink?
        || (x.parent.Link? && x.parent.id != [] && Resolves(records, x.parent.id, Some(Cognitive))))
    && (x.governedBy.NoLink?
        || (x.governedBy.Link? && x.governedBy.id != [] && ResolvesToSystem(records, x.governedBy.id)))
  }

  predicate ReferencesResolve(records: seq<AuthorityRecord>, r: AuthorityRecord) {
    match r.layer
    case Evidence => true
    case Semantic =>
      && RefsResolve(records, r.frontmatter.sourceRefs, Some(Evidence))
      && RefsResolve(records, r.frontmatter.supersedes, Some(Semantic))
      && (if r.schema.SemanticV2? then RefsResolve(records, r.frontmatter.relatedClaims, Some(Semantic))
          else RefsResolve(records, r.frontmatter.counterevidenceRefs, None))
    case Cognitive =>
      && RefsResolve(records, r.frontmatter.sourceRefs, Some(Evidence))
      && RelationsResolve(records, r.frontmatter.relations)
      && !(r.recordType == "governing_module" && r.frontmatter.relations.governedBy.NoLink?)
  }

  /** `validateReferences` returns. */
  predicate ReferencesHold(records: seq<AuthorityRecord>, active: Option<Text>) {
    && (forall r | r in records :: ReferencesResolve(records, r))
    && (active.Some? ==> ResolvesToSystem(records, active.value))
  }

  /** What `readAuthority` returns: records that lint, with distinct ids and references that resolve. */
  predicate AuthorityHolds(c: Checks, records: seq<AuthorityRecord>, active: Option<Text>) {
    && records != []
    && (forall r | r in records :: Readable(c, r))
    && DistinctBy(records, RecordKey())
    && ReferencesHold(records, active)
  }

  /******* Keeping *******/

  function RoleFor(r: AuthorityRecord): string {
    if r.layer.Evidence? then "evidence"
    else if r.layer.Semantic? then "semantic"
    else if r.recordType == "governing_system" then "governing_system"
    else if r.recordType == "governing_module" then "governing_module"
    else "ordinary_framework"
  }

  function InTitleOrder(r: AuthorityRecord): AuthorityRecord { r.(sections := Sort(r.sections, TitleKey())) }

  /** `normalizedRecord`; it throws on a version that cannot be read, which every caller excludes first. */
  function NormalizeRecord(r: AuthorityRecord): (n: NormalizedRecord)
    ensures n.base.record == InTitleOrder(r)
  {
    var version := if r.frontmatter.version.Some? then r.frontmatter.version.value else "";
    var base := RecordBase(InTitleOrder(r), RoleFor(r), version);
    NormalizedRecord(base, RecordChecksum(base))
  }

  function NormalizeRecords(records: seq<AuthorityRecord>): (r: seq<NormalizedRecord>)
    ensures |r| == |records| && forall i | 0 <= i < |r| :: r[i] == NormalizeRecord(records[i])
  {
    if records == [] then [] else [NormalizeRecord(records[0])] + NormalizeRecords(records[1..])
  }

  /** The records as a generation keeps them. */
  function SortedRecords(records: seq<AuthorityRecord>): seq<NormalizedRecord> {
    Sort(NormalizeRecords(records), NormalKey())
  }

  /******* Rebuilding *******/

  /** `authorityRecordFromNormalized` returns, and then it returns `n.base.record`. */
  predicate Rebuilds(c: Checks, n: NormalizedRecord) {
    var r := n.base.record;
    && SectionsHold(r.sections) && r.id != [] && r.recordType != ""
    && c.contract(r.schema, r.frontmatter)
    && IdField(r.layer, r.frontmatter) == Some(r.id)
    && LintHolds(c, r)
    && r.frontmatter.version.Some?
    && NormalizeRecord(r) == n
  }

  function Rebuilt(records: seq<NormalizedRecord>): (r: seq<AuthorityRecord>)
    ensures |r| == |records| && forall i | 0 <= i < |r| :: r[i] == records[i].base.record
  {
    if records == [] then [] else [records[0].base.record] + Rebuilt(records[1..])
  }

  /** The verifier's own check of kept records: each is rebuilt, and the references of the rebuilt ones resolve. */
  predicate KeptRecordsHold(c: Checks, records: seq<NormalizedRecord>, active: Option<Text>) {
    && (forall n | n in records :: Rebuilds(c, n))
    && ReferencesHold(Rebuilt(records), active)
  }

  /******* References depend on nothing but contents *******/

  /** The same record, whatever order its sections are in. */
  predicate Alike(a: AuthorityRecord, b: AuthorityRecord) { a == b.(sections := a.sections) }

  ghost predicate Within(a: seq<AuthorityRecord>, b: seq<AuthorityRecord>) {
    forall r | r in a :: exists s | s in b :: Alike(r, s)
  }

  lemma {:induction false} NoneMatching(records: seq<AuthorityRecord>, id: Text)
    requires forall r | r in records :: r.id != id
    ensures Matching(records, id) == []
  {
    if records != [] { NoneMatching(records[1..], id); }
  }

  lemma {:induction false} MatchingIs(records: seq<AuthorityRecord>, id: Text)
    requires DistinctBy(records, RecordKey())
    ensures |Matching(records, id)| <= 1
    ensures forall r :: r in Matching(records, id) <==> r in records && r.id == id
  {
    if records != [] {
      MatchingIs(records[1..], id);
      assert records == [records[0]] + records[1..];
      forall i | 1 <= i < |records| ensures records[i].id != records[0].id {
        assert RecordKey()(records[0]) != RecordKey()(records[i]);
      }
      if records[0].id == id { NoneMatching(records[1..], id); }
    }
  }

  lemma ResolvesExactly(records: seq<AuthorityRecord>, id: Text, layer: Option<Layer>)
    requires DistinctBy(records, RecordKey())
    ensures Resolves(records, id, layer)
            <==> exists r | r in records :: r.id == id && (layer.Some? ==> r.layer == layer.value)
    ensures ResolvesToSystem(records, id)
            <==> exists r | r in records :: r.id == id && r.layer.Cognitive? && r.recordType == "governing_system"
  {
    MatchingIs(records, id);
    hide DistinctBy;
    var matches := Matching(records, id);
    if matches != [] { assert matches[0] in matches; }
    forall r | r in records && r.id == id ensures matches == [r] { assert r in matches; }
  }

  lemma ResolutionAgrees(a: seq<AuthorityRecord>, b: seq<AuthorityRecord>, id: Text, layer: Option<Layer>)
    requires DistinctBy(a, RecordKey()) && DistinctBy(b, RecordKey()) && Within(a, b) && Within(b, a)
    ensures Resolves(a, id, layer) <==> Resolves(b, id, layer)
    ensures ResolvesToSystem(a, id) <==> ResolvesToSystem(b, id)
  {
    hide DistinctBy, Resolves, ResolvesToSystem;
    ResolvesExactly(a, id, layer);
    ResolvesExactly(b, id, layer);
  }

  lemma RecordAgrees(a: seq<AuthorityRecord>, b: seq<AuthorityRecord>, r: AuthorityRecord, s: AuthorityRecord)
    requires forall id, layer :: Resolves(a, id, layer) <==> Resolves(b, id, layer)
    requires forall id :: ResolvesToSystem(a, id) <==> ResolvesToSystem(b, id)
    requires Alike(r, s) && ReferencesResolve(a, r)
    ensures ReferencesResolve(b, s)
  {
    hide Resolves, ResolvesToSystem;
  }

  lemma ReferencesCarryOver(a: seq<AuthorityRecord>, b: seq<AuthorityRecord>, active: Option<Text>)
    requires DistinctBy(a, RecordKey()) && DistinctBy(b, RecordKey()) && Within(a, b) && Within(b, a)
    requires ReferencesHold(a, active)
    ensures ReferencesHold(b, active)
  {
    hide DistinctBy, Resolves, ResolvesToSystem, ReferencesResolve;
    forall id, layer ensures Resolves(a, id, layer) <==> Resolves(b, id, layer) { ResolutionAgrees(a, b, id, layer); }
    forall id ensures ResolvesToSystem(a, id) <==> ResolvesToSystem(b, id) { ResolutionAgrees(a, b, id, None); }
    forall s | s in b ensures ReferencesResolve(b, s) {
      var r :| r in a && Alike(s, r);
      RecordAgrees(a, b, r, s);
    }
  }

  /******* The reader and the verifier agree *******/

  lemma FilledIgnoresOrder(c: Checks, a: seq<Section>, b: seq<Section>, title: string)
    requires multiset(a) == multiset(b)
    ensures Filled(c, a, title) <==> Filled(c, b, title)
  {
    assert forall s :: s in a <==> s in multiset(a);
    assert forall s :: s in b <==> s in multiset(b);
  }

  lemma LintIgnoresOrder(c: Checks, a: AuthorityRecord, b: AuthorityRecord)
    requires Alike(a, b) && multiset(a.sections) == multiset(b.sections)
    ensures LintHolds(c, a) <==> LintHolds(c, b)
  {
    hide Filled;
    forall title ensures Filled(c, a.sections, title) <==> Filled(c, b.sections, title) {
      FilledIgnoresOrder(c, a.sections, b.sections, title);
    }
  }

  lemma SectionsIgnoreOrder(a: seq<Section>, b: seq<Section>)
    requires multiset(a) == multiset(b)
    ensures SectionsHold(a) <==> SectionsHold(b)
  {
    assert forall s :: s in a <==> s in multiset(a);
    assert forall s :: s in b <==> s in multiset(b);
    if DistinctBy(a, TitleKey()) { DistinctIsAboutContents(a, b, TitleKey()); }
    if DistinctBy(b, TitleKey()) { DistinctIsAboutContents(b, a, TitleKey()); }
  }

  /** A record that is parsed right is readable exactly when it is rebuilt from what is kept of it. */
  lemma ReadableIsRebuilt(c: Checks, r: AuthorityRecord)
    requires r.layer == LayerOf(r.schema)
    ensures Readable(c, r) <==> Rebuilds(c, NormalizeRecord(r))
  {
    hide Filled, SectionsHold, LintHolds;
    var kept := InTitleOrder(r);
    SortSorts(r.sections, TitleKey());
    SortKeepsSorted(kept.sections, TitleKey());
    LintIgnoresOrder(c, r, kept);
    SectionsIgnoreOrder(r.sections, kept.sections);
  }

  lemma KeptAreImages(records: seq<AuthorityRecord>)
    ensures forall n | n in SortedRecords(records) :: exists r | r in records :: n == NormalizeRecord(r)
    ensures forall r | r in records :: NormalizeRecord(r) in SortedRecords(records)
  {
    hide NormalizeRecord, Sort;
    var normal := NormalizeRecords(records);
    var kept := SortedRecords(records);
    SortSorts(normal, NormalKey());
    hide SortedBy;
    assert forall n :: n in kept <==> n in multiset(kept);
    assert forall n :: n in normal <==> n in multiset(normal);
    forall r | r in records ensures NormalizeRecord(r) in kept {
      var i :| 0 <= i < |records| && records[i] == r;
      assert normal[i] in normal;
    }
    forall n | n in kept ensures exists r | r in records :: n == NormalizeRecord(r) {
      var i :| 0 <= i < |normal| && normal[i] == n;
      assert records[i] in records;
    }
  }

  lemma SortedRecordsAreDistinct(records: seq<AuthorityRecord>)
    requires DistinctBy(records, RecordKey())
    ensures DistinctBy(SortedRecords(records), NormalKey())
  {
    hide Sort;
    var normal := NormalizeRecords(records);
    forall i, j | 0 <= i < j < |normal| ensures NormalKey()(normal[i]) != NormalKey()(normal[j]) {
      assert RecordKey()(records[i]) != RecordKey()(records[j]);
    }
    SortSorts(normal, NormalKey());
    DistinctIsAboutContents(normal, Sort(normal, NormalKey()), NormalKey());
  }

  lemma RebuiltAreTheRecords(records: seq<AuthorityRecord>)
    requires DistinctBy(records, RecordKey())
    ensures var rebuilt := Rebuilt(SortedRecords(records));
            DistinctBy(rebuilt, RecordKey()) && Within(records, rebuilt) && Within(rebuilt, records)
  {
    hide SortedRecords;
    var kept := SortedRecords(records);
    var rebuilt := Rebuilt(kept);
    KeptAreImages(records);
    SortedRecordsAreDistinct(records);
    forall i, j | 0 <= i < j < |rebuilt| ensures RecordKey()(rebuilt[i]) != RecordKey()(rebuilt[j]) {
      assert NormalKey()(kept[i]) != NormalKey()(kept[j]);
    }
    forall r | r in records ensures exists s | s in rebuilt :: Alike(r, s) {
      var i :| 0 <= i < |kept| && kept[i] == NormalizeRecord(r);
      assert rebuilt[i] in rebuilt && Alike(r, rebuilt[i]);
    }
    forall s | s in rebuilt ensures exists r | r in records :: Alike(s, r) {
      var i :| 0 <= i < |rebuilt| && rebuilt[i] == s;
      assert kept[i] in kept;
      var r :| r in records && kept[i] == NormalizeRecord(r);
      assert Alike(s, r);
    }
  }

  /**
   The reader checks the records as read; the verifier checks what it rebuilds from the records as kept, sorted, and
   with their sections sorted.  Of records that are parsed right and have distinct ids, both accept the same ones.
   */
  lemma ReaderAndVerifierAgree(c: Checks, records: seq<AuthorityRecord>, active: Option<Text>)
    requires DistinctBy(records, RecordKey()) && forall r | r in records :: r.layer == LayerOf(r.schema)
    ensures AuthorityHolds(c, records, active)
            <==> records != [] && KeptRecordsHold(c, SortedRecords(records), active)
  {
    hide DistinctBy, Readable, Rebuilds, ReferencesHold, SortedRecords, Within, NormalizeRecord;
    var kept := SortedRecords(records);
    KeptAreImages(records);
    RebuiltAreTheRecords(records);
    forall r | r in records ensures Readable(c, r) <==> Rebuilds(c, NormalizeRecord(r)) { ReadableIsRebuilt(c, r); }
    if ReferencesHold(records, active) { ReferencesCarryOver(records, Rebuilt(kept), active); }
    if ReferencesHold(Rebuilt(kept), active) { ReferencesCarryOver(Rebuilt(kept), records, active); }
  }
}
