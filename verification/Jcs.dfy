/**
 The canonical serializer of `src/personal-data/canonical.ts` (RFC 8785).  `SerializeJcs` is the source's recursion;
 what it returns is the plain rendering of the canonical form of its argument.
 */
module Jcs {
  import opened Canonical
  import opened Options
  import opened Unicode
  import opened JsonStrings
  import opened JsonNumbers

  const COMMA: CodeUnit := 0x2C
  const COLON: CodeUnit := 0x3A
  const LEFT_BRACKET: CodeUnit := 0x5B
  const RIGHT_BRACKET: CodeUnit := 0x5D
  const LEFT_BRACE: CodeUnit := 0x7B
  const RIGHT_BRACE: CodeUnit := 0x7D
  const NULL_TEXT: Text := [0x6E, 0x75, 0x6C, 0x6C]
  const TRUE_TEXT: Text := [0x74, 0x72, 0x75, 0x65]
  const FALSE_TEXT: Text := [0x66, 0x61, 0x6C, 0x73, 0x65]

  /** `Unsupported` is whatever JSON has no text for: `undefined`, functions, array holes, exotic objects. */
  datatype Json =
    | Null
    | Boolean(flag: bool)
    | Num(number: Number)
    | Str(text: Text)
    | Array(items: seq<Json>)
    | Object(members: seq<Member>)
    | Unsupported

  datatype Member = Member(key: Text, value: Json)

  function KeyOf(): Member -> Text { (m: Member) => m.key }

  /** An object has each key once. */
  predicate WellFormed(v: Json) {
    match v
    case Array(items) => forall i | 0 <= i < |items| :: WellFormed(items[i])
    case Object(members) =>
      DistinctBy(members, KeyOf()) && forall i | 0 <= i < |members| :: WellFormed(members[i].value)
    case _ => true
  }

  /** What `serializeJcs` does not throw on. */
  predicate Serializable(v: Json) {
    match v
    case Num(x) => !x.NotFinite?
    case Str(t) => WellPaired(t)
    case Array(items) => forall i | 0 <= i < |items| :: Serializable(items[i])
    case Object(members) =>
      forall i | 0 <= i < |members| :: WellPaired(members[i].key) && Serializable(members[i].value)
    case Unsupported => false
    case _ => true
  }

  /** Equal up to the order of object members, with the two zeros equal. */
  predicate Same(v: Json, w: Json)
    decreases v
  {
    match v
    case Num(x) => w.Num? && SameNumber(x, w.number)
    case Array(items) =>
      w.Array? && |items| == |w.items| && forall i | 0 <= i < |items| :: Same(items[i], w.items[i])
    case Object(members) =>
      && w.Object? && |members| == |w.members|
      && forall i | 0 <= i < |members| :: MemberMatched(members[i], w.members)
    case _ => v == w
  }

  predicate MemberMatched(m: Member, others: seq<Member>)
    decreases m
  {
    exists j :: 0 <= j < |others| && m.key == others[j].key && Same(m.value, others[j].value)
  }

  /******* Canonical form and its rendering *******/

  function Canon(v: Json): Json {
    match v
    case Num(Zero(_)) => Num(Zero(false))
    case Array(items) => Array(seq(|items|, i requires 0 <= i < |items| => Canon(items[i])))
    case Object(members) => Object(Sort(CanonMembers(members), KeyOf()))
    case _ => v
  }

  function CanonMember(m: Member): (r: Member)
    ensures r.key == m.key
  {
    Member(m.key, Canon(m.value))
  }

  function CanonMembers(members: seq<Member>): (r: seq<Member>)
    ensures |r| == |members| && forall i | 0 <= i < |r| :: r[i] == CanonMember(members[i])
  {
    if members == [] then [] else [CanonMember(members[0])] + CanonMembers(members[1..])
  }

  /** `JSON.stringify`, members in the order they are in. */
  function Render(v: Json): Text
    decreases v
  {
    match v
    case Null => NULL_TEXT
    case Boolean(b) => if b then TRUE_TEXT else FALSE_TEXT
    case Num(x) => if x.NotFinite? then NULL_TEXT else NumberText(x)
    case Str(t) => StringText(t)
    case Array(items) => [LEFT_BRACKET] + RenderItems(items) + [RIGHT_BRACKET]
    case Object(members) => [LEFT_BRACE] + RenderMembers(members) + [RIGHT_BRACE]
    case Unsupported => []
  }

  function RenderItems(items: seq<Json>): Text
    decreases items
  {
    if items == [] then []
    else Render(items[0]) + if |items| == 1 then [] else [COMMA] + RenderItems(items[1..])
  }

  function RenderMember(m: Member): Text
    decreases m
  {
    StringText(m.key) + [COLON] + Render(m.value)
  }

  function RenderMembers(members: seq<Member>): Text
    decreases members
  {
    if members == [] then []
    else RenderMember(members[0]) + if |members| == 1 then [] else [COMMA] + RenderMembers(members[1..])
  }

  function Serialize(v: Json): Option<Text> {
    if Serializable(v) then Some(Render(Canon(v))) else None
  }

  /******* The source's recursion *******/

  /** `parts.join(",")`. */
  function Join(parts: seq<Text>): Text {
    if parts == [] then [] else parts[0] + if |parts| == 1 then [] else [COMMA] + Join(parts[1..])
  }

  lemma {:induction false} JoinedItems(parts: seq<Text>, items: seq<Json>)
    requires |parts| == |items| && forall i | 0 <= i < |parts| :: parts[i] == Render(items[i])
    ensures Join(parts) == RenderItems(items)
  {
    if parts != [] { JoinedItems(parts[1..], items[1..]); }
  }

  lemma {:induction false} JoinedMembers(parts: seq<Text>, members: seq<Member>)
    requires |parts| == |members| && forall i | 0 <= i < |parts| :: parts[i] == RenderMember(members[i])
    ensures Join(parts) == RenderMembers(members)
  {
    if parts != [] { JoinedMembers(parts[1..], members[1..]); }
  }

  lemma {:induction false} CanonCommutesWithInsert(m: Member, members: seq<Member>)
    ensures CanonMembers(Insert(m, members, KeyOf())) == Insert(CanonMember(m), CanonMembers(members), KeyOf())
  {
    if members != [] && !TextAtMost(m.key, members[0].key) {
      CanonCommutesWithInsert(m, members[1..]);
      assert CanonMembers(members)[1..] == CanonMembers(members[1..]);
    }
  }

  /** Sorting the entries first and canonicalizing each in turn is the same as the other way round. */
  lemma {:induction false} CanonCommutesWithSort(members: seq<Member>)
    ensures CanonMembers(Sort(members, KeyOf())) == Sort(CanonMembers(members), KeyOf())
  {
    if members != [] {
      CanonCommutesWithSort(members[1..]);
      CanonCommutesWithInsert(members[0], Sort(members[1..], KeyOf()));
      assert CanonMembers(members)[1..] == CanonMembers(members[1..]);
    }
  }

  predicate MemberSerializable(m: Member) { WellPaired(m.key) && Serializable(m.value) }

  lemma SortKeepsMembers(members: seq<Member>)
    ensures |Sort(members, KeyOf())| == |members|
    ensures forall m :: m in Sort(members, KeyOf()) <==> m in members
  {
    var sorted := Sort(members, KeyOf());
    SortSorts(members, KeyOf());
    forall m ensures m in members <==> m in sorted {
      assert m in members <==> m in multiset(members);
      assert m in sorted <==> m in multiset(sorted);
    }
  }

  lemma MembersSerializable(members: seq<Member>)
    ensures Serializable(Object(members)) <==> forall m | m in Sort(members, KeyOf()) :: MemberSerializable(m)
  {
    SortKeepsMembers(members);
    hide Sort;
    if forall m | m in members :: MemberSerializable(m) {
      forall i | 0 <= i < |members| ensures MemberSerializable(members[i]) { assert members[i] in members; }
    }
  }

  /** `serializeJcs`, with `None` for its throws. */
  method SerializeJcs(value: Json) returns (r: Option<Text>)
    ensures r == Serialize(value)
    decreases value, 1
  {
    match value
    case Null => return Some(NULL_TEXT);
    case Boolean(flag) => return Some(if flag then TRUE_TEXT else FALSE_TEXT);
    case Str(text) =>
      var ok := IsUnicodeScalarString(text);
      if !ok { return None; }
      return Some(StringText(text));
    case Num(number) =>
      if number.NotFinite? { return None; }
      return Some(NumberText(number));
    case Array(items) =>
      var parts := SerializeItems(value);
      if parts.None? { return None; }
      JoinedItems(parts.value, Canon(value).items);
      return Some([LEFT_BRACKET] + Join(parts.value) + [RIGHT_BRACKET]);
    case Object(members) =>
      var parts := SerializeMembers(value);
      MembersSerializable(members);
      if parts.None? { return None; }
      JoinedMembers(parts.value, CanonMembers(Sort(members, KeyOf())));
      CanonCommutesWithSort(members);
      return Some([LEFT_BRACE] + Join(parts.value) + [RIGHT_BRACE]);
    case Unsupported => return None;
  }

  method SerializeItems(value: Json) returns (parts: Option<seq<Text>>)
    requires value.Array?
    ensures parts.Some? <==> Serializable(value)
    ensures parts.Some? ==>
              && |parts.value| == |value.items|
              && forall i | 0 <= i < |parts.value| :: parts.value[i] == Render(Canon(value.items[i]))
    decreases value, 0
  {
    var items := value.items;
    var rendered: seq<Text> := [];
    var index := 0;
    while index < |items|
      invariant 0 <= index <= |items| && |rendered| == index
      invariant forall i | 0 <= i < index :: Serializable(items[i]) && rendered[i] == Render(Canon(items[i]))
    {
      var part := SerializeJcs(items[index]);
      if part.None? { return None; }
      rendered := rendered + [part.value];
      index := index + 1;
    }
    return Some(rendered);
  }

  method SerializeMembers(value: Json) returns (parts: Option<seq<Text>>)
    requires value.Object?
    ensures var entries := Sort(value.members, KeyOf());
            && (parts.Some? <==> forall m | m in entries :: MemberSerializable(m))
            && (parts.Some? ==>
                  && |parts.value| == |entries|
                  && forall i | 0 <= i < |entries| :: parts.value[i] == RenderMember(CanonMember(entries[i])))
    decreases value, 0
  {
    SortKeepsMembers(value.members);
    var entries := Sort(value.members, KeyOf());
    hide Sort, Canon, Render, Serializable, WellPaired, StringText;
    var rendered: seq<Text> := [];
    var index := 0;
    while index < |entries|
      invariant 0 <= index <= |entries| && |rendered| == index
      invariant forall i | 0 <= i < index ::
                  MemberSerializable(entries[i]) && rendered[i] == RenderMember(CanonMember(entries[i]))
    {
      var entry := entries[index];
      assert entry in entries && entry in value.members;
      ghost var k :| 0 <= k < |value.members| && value.members[k] == entry;
      var ok := IsUnicodeScalarString(entry.key);
      if !ok {
        assert !MemberSerializable(entry);
        return None;
      }
      var part := SerializeJcs(entry.value);
      if part.None? {
        assert !MemberSerializable(entry);
        return None;
      }
      rendered := rendered + [StringText(entry.key) + [COLON] + part.value];
      index := index + 1;
    }
    return Some(rendered);
  }
}
