/**
 What the two serializers write, as RFC 8259 reads it: a JSON text of the value it was given, no whitespace in it, its
 members in the order the serializer promises.
 */
module JsonTexts {
  import opened Options
  import opened Canonical
  import opened JsonStrings
  import opened JsonNumbers
  import opened Jcs
  import opened JcsCanonicity
  import opened CoreJson
  import opened JsonSyntax

  /******* Texts (sections 2 to 5 of RFC 8259) *******/

  function Separated(parts: seq<Text>): Text {
    if parts == [] then [] else if |parts| == 1 then parts[0] else parts[0] + Units(",") + Separated(parts[1..])
  }

  /** The text denotes the value; members in their order, whitespace nowhere. */
  ghost predicate IsTextOf(t: Text, v: Json)
    decreases v
  {
    match v
    case Null => t == Units("null")
    case Boolean(b) => t == Units(if b then "true" else "false")
    case Num(x) => IsNumberOf(t, x)
    case Str(s) => IsStringOf(t, s)
    case Array(items) =>
      exists parts: seq<Text> ::
        && t == Units("[") + Separated(parts) + Units("]")
        && |parts| == |items| && forall i | 0 <= i < |items| :: IsTextOf(parts[i], items[i])
    case Object(members) =>
      exists parts: seq<Text> ::
        && t == Units("{") + Separated(parts) + Units("}")
        && |parts| == |members| && forall i | 0 <= i < |members| :: IsMemberText(parts[i], members[i])
    case Unsupported => false
  }

  ghost predicate IsMemberText(t: Text, m: Member)
    decreases m
  {
    exists name, text :: t == name + Units(":") + text && IsStringOf(name, m.key) && IsTextOf(text, m.value)
  }

  lemma Punctuation()
    ensures Units(",") == [COMMA] && Units(":") == [COLON] && Units("[") == [LEFT_BRACKET]
    ensures Units("]") == [RIGHT_BRACKET] && Units("{") == [LEFT_BRACE] && Units("}") == [RIGHT_BRACE]
  {}

  lemma Words()
    ensures Units("null") == NULL_TEXT && Units("true") == TRUE_TEXT && Units("false") == FALSE_TEXT
  {}

  lemma {:induction false} ItemsAreSeparated(items: seq<Json>, parts: seq<Text>)
    requires |parts| == |items| && forall i | 0 <= i < |items| :: parts[i] == Render(items[i])
    ensures Separated(parts) == RenderItems(items)
  {
    hide Units, Render;
    Punctuation();
    if items != [] {
      ItemsAreSeparated(items[1..], parts[1..]);
      if |items| > 1 {
        assert parts[0] + [COMMA] + Separated(parts[1..]) == parts[0] + ([COMMA] + Separated(parts[1..]));
      }
    }
  }

  lemma {:induction false} MembersAreSeparated(members: seq<Member>, parts: seq<Text>)
    requires |parts| == |members| && forall i | 0 <= i < |members| :: parts[i] == RenderMember(members[i])
    ensures Separated(parts) == RenderMembers(members)
  {
    hide Units, RenderMember;
    Punctuation();
    if members != [] {
      MembersAreSeparated(members[1..], parts[1..]);
      if |members| > 1 {
        assert parts[0] + [COMMA] + Separated(parts[1..]) == parts[0] + ([COMMA] + Separated(parts[1..]));
      }
    }
  }

  lemma RenderedItems(items: seq<Json>) returns (parts: seq<Text>)
    ensures |parts| == |items| && forall i | 0 <= i < |items| :: parts[i] == Render(items[i])
    ensures Render(Array(items)) == Units("[") + Separated(parts) + Units("]")
  {
    parts := seq(|items|, i requires 0 <= i < |items| => Render(items[i]));
    hide Units, Separated;
    Punctuation();
    ItemsAreSeparated(items, parts);
  }

  lemma RenderedMembers(members: seq<Member>) returns (parts: seq<Text>)
    ensures |parts| == |members| && forall i | 0 <= i < |members| :: parts[i] == RenderMember(members[i])
    ensures Render(Object(members)) == Units("{") + Separated(parts) + Units("}")
  {
    parts := seq(|members|, i requires 0 <= i < |members| => RenderMember(members[i]));
    hide Units, Separated;
    Punctuation();
    MembersAreSeparated(members, parts);
  }

  lemma RenderedLeaf(v: Json)
    requires Plain(v) && !v.Array? && !v.Object?
    ensures IsTextOf(Render(v), v)
  {
    hide Units, NumberText, StringText, IsNumberOf, IsStringOf;
    Words();
    if v.Num? { NumberTextIsNumber(v.number); }
    if v.Str? { StringTextIsString(v.text); }
  }

  /** Rendering a value writes a JSON text of it. */
  lemma {:induction false} RenderIsText(v: Json)
    requires Plain(v)
    ensures IsTextOf(Render(v), v)
    decreases v, 1
  {
    hide Units, Separated, Render, RenderMember;
    match v
    case Array(items) =>
      var parts := RenderedItems(items);
      forall i | 0 <= i < |items| ensures IsTextOf(parts[i], items[i]) { RenderIsText(items[i]); }
    case Object(members) =>
      var parts := RenderedMembers(members);
      forall i | 0 <= i < |members| ensures IsMemberText(parts[i], members[i]) {
        MemberIsText(members[i]);
      }
    case _ => RenderedLeaf(v);
  }

  lemma {:induction false} MemberIsText(m: Member)
    requires Plain(m.value)
    ensures IsMemberText(RenderMember(m), m)
    decreases m, 0
  {
    hide Units, StringText, Render, IsStringOf, IsTextOf;
    Punctuation();
    StringTextIsString(m.key);
    RenderIsText(m.value);
    assert RenderMember(m) == StringText(m.key) + Units(":") + Render(m.value);
  }

  /******* What the canonical serializer writes *******/

  /** In every object each key is less than those behind it, so no key is there twice. */
  predicate Ascending(v: Json) {
    match v
    case Array(items) => forall i | 0 <= i < |items| :: Ascending(items[i])
    case Object(members) =>
      && (forall i, j | 0 <= i < j < |members| :: TextLess(members[i].key, members[j].key))
      && forall i | 0 <= i < |members| :: Ascending(members[i].value)
    case _ => true
  }

  lemma SortedStrictly(members: seq<Member>, key: Member -> Text)
    requires DistinctBy(members, key)
    ensures var sorted := Sort(members, key);
            && |sorted| == |members| && (forall m :: m in sorted <==> m in members)
            && forall i, j | 0 <= i < j < |sorted| :: TextLess(key(sorted[i]), key(sorted[j]))
  {
    var sorted := Sort(members, key);
    SortIgnoresOrder(members, members, key);
    SortSorts(members, key);
    hide Sort;
    forall m ensures m in sorted <==> m in members { assert m in multiset(sorted) <==> m in multiset(members); }
    forall i, j | 0 <= i < j < |sorted| ensures TextLess(key(sorted[i]), key(sorted[j])) {
      assert TextAtMost(key(sorted[i]), key(sorted[j])) && key(sorted[i]) != key(sorted[j]);
    }
  }

  lemma CanonMembersSorted(members: seq<Member>)
    requires DistinctBy(members, KeyOf())
    ensures var sorted := Canon(Object(members)).members;
            && |sorted| == |members| && (forall m :: m in sorted <==> m in CanonMembers(members))
            && forall i, j | 0 <= i < j < |sorted| :: TextLess(sorted[i].key, sorted[j].key)
  {
    var canon := CanonMembers(members);
    forall i, j | 0 <= i < j < |canon| ensures KeyOf()(canon[i]) != KeyOf()(canon[j]) {
      assert KeyOf()(members[i]) != KeyOf()(members[j]);
    }
    SortedStrictly(canon, KeyOf());
    hide Sort, TextLess;
    var sorted := Canon(Object(members)).members;
    forall i, j | 0 <= i < j < |sorted| ensures TextLess(sorted[i].key, sorted[j].key) {
      assert TextLess(KeyOf()(sorted[i]), KeyOf()(sorted[j]));
    }
  }

  lemma {:induction false} CanonAscends(v: Json)
    requires WellFormed(v)
    ensures Ascending(Canon(v)) && Same(v, Canon(v))
    decreases v
  {
    match v
    case Array(items) =>
      forall i | 0 <= i < |items| ensures Ascending(Canon(items[i])) && Same(items[i], Canon(items[i])) {
        CanonAscends(items[i]);
      }
    case Object(members) =>
      var sorted := Canon(v).members;
      CanonMembersSorted(members);
      forall i | 0 <= i < |members|
        ensures Ascending(CanonMembers(members)[i].value) && MemberMatched(members[i], sorted)
      {
        CanonAscends(members[i].value);
        assert CanonMembers(members)[i] in sorted;
      }
      forall i | 0 <= i < |sorted| ensures Ascending(sorted[i].value) { assert sorted[i] in CanonMembers(members); }
    case _ =>
  }

  /** What is serialized is a JSON text of the value, with the keys of every object ascending. */
  lemma SerializationIsText(v: Json)
    requires WellFormed(v) && Serialize(v).Some?
    ensures exists w :: Same(v, w) && Ascending(w) && IsTextOf(Serialize(v).value, w)
  {
    CanonIsPlain(v);
    RenderIsText(Canon(v));
    CanonAscends(v);
    hide *;
    assert Serialize(v) == Some(Render(Canon(v)));
  }

  /******* What `canonicalJson` writes *******/

  lemma {:induction false} ValueBehind(k: Text, c: CodeUnit)
    requires CoreJson.Digits(k) && IsDigit(c)
    ensures CoreJson.Digits(k + [c]) && Value(k + [c]) == Value(k) * 10 + (c as int - 0x30)
  {
    if k == [] {
      assert k + [c] == [c] && [c][1..] == [];
    } else {
      ValueBehind(k[1..], c);
      assert (k + [c])[1..] == k[1..] + [c];
      var d, p := k[0] as int - 0x30, CoreJson.Pow10(|k| - 1);
      assert d * (10 * p) == d * p * 10;
    }
  }

  lemma {:induction false} ValueIsDecimal(k: Text)
    requires k != [] && CoreJson.Digits(k) && (k[0] == 0x30 ==> |k| == 1)
    ensures Decimal(Value(k)) == k && (k[0] != 0x30 ==> Value(k) > 0)
  {
    var front, c := k[..|k| - 1], k[|k| - 1];
    assert k == front + [c];
    ValueBehind(front, c);
    if front == [] {
      assert k == [c];
    } else {
      ValueIsDecimal(front);
      assert Value(k) / 10 == Value(front) && Value(k) % 10 == c as int - 0x30;
    }
  }

  lemma {:induction false} DecimalIsItsValue(n: nat)
    ensures CoreJson.Digits(Decimal(n)) && Value(Decimal(n)) == n
    ensures Decimal(n)[0] == 0x30 ==> n == 0
  {
    if n >= 10 {
      DecimalIsItsValue(n / 10);
      ValueBehind(Decimal(n / 10), (0x30 + n % 10) as CodeUnit);
    } else {
      ValueBehind([], (0x30 + n) as CodeUnit);
      assert [] + [(0x30 + n) as CodeUnit] == Decimal(n);
    }
  }

  /** Array indices (section 6.1.7 of ECMA-262): the decimal forms of the numbers below 2^32 - 1. */
  lemma IsIndexExactly(k: Text)
    ensures IsIndex(k) <==> exists n: nat :: n < 0xFFFF_FFFF && k == Decimal(n)
    ensures forall n: nat | n < 0xFFFF_FFFF && k == Decimal(n) :: Value(k) == n
  {
    if IsIndex(k) { ValueIsDecimal(k); }
    forall n: nat | n < 0xFFFF_FFFF && k == Decimal(n) ensures IsIndex(k) && Value(k) == n {
      DecimalIsItsValue(n);
      if |k| > 10 {
        LeadingDigitBound(k);
        Pow10Grows(10, |k| - 1);
      }
    }
  }

  /** How an object enumerates keys: array indices by number, before names by code units. */
  predicate EnumeratesBefore(a: Text, b: Text) {
    if IsIndex(a) then IsIndex(b) ==> Value(a) < Value(b) else !IsIndex(b) && TextLess(a, b)
  }

  predicate Enumerated(v: Json) {
    match v
    case Array(items) => forall i | 0 <= i < |items| :: Enumerated(items[i])
    case Object(members) =>
      && (forall i, j | 0 <= i < j < |members| :: EnumeratesBefore(members[i].key, members[j].key))
      && forall i | 0 <= i < |members| :: Enumerated(members[i].value)
    case _ => true
  }

  lemma RankedBefore(a: Text, b: Text)
    requires TextLess(Rank(a), Rank(b))
    ensures EnumeratesBefore(a, b)
  {
    hide Value;
    if !IsIndex(a) && !IsIndex(b) { assert Rank(a)[1..] == a && Rank(b)[1..] == b; }
    if IsIndex(a) && IsIndex(b) { RankIsByValue(a, b); }
  }

  lemma CoreMembersSorted(members: seq<Member>)
    requires DistinctBy(members, KeyOf())
    ensures var sorted := CoreCanon(Object(members)).members;
            && |sorted| == |members| && (forall m :: m in sorted <==> m in CoreMembers(members))
            && forall i, j | 0 <= i < j < |sorted| :: EnumeratesBefore(sorted[i].key, sorted[j].key)
  {
    hide Rank, TextLess, EnumeratesBefore, Sort;
    var core := CoreMembers(members);
    forall i, j | 0 <= i < j < |core| ensures KeyOf()(core[i]) != KeyOf()(core[j]) {
      assert KeyOf()(members[i]) != KeyOf()(members[j]);
    }
    DistinctRanks(core);
    SortedStrictly(core, RankOf());
    var sorted := CoreCanon(Object(members)).members;
    forall i, j | 0 <= i < j < |sorted| ensures EnumeratesBefore(sorted[i].key, sorted[j].key) {
      assert TextLess(RankOf()(sorted[i]), RankOf()(sorted[j]));
      RankedBefore(sorted[i].key, sorted[j].key);
    }
  }

  lemma {:induction false} CoreIsEnumerated(v: Json)
    requires WellFormed(v)
    ensures Enumerated(CoreCanon(v)) && Same(v, CoreCanon(v))
    decreases v
  {
    match v
    case Array(items) =>
      forall i | 0 <= i < |items| ensures Enumerated(CoreCanon(items[i])) && Same(items[i], CoreCanon(items[i])) {
        CoreIsEnumerated(items[i]);
      }
    case Object(members) =>
      var sorted := CoreCanon(v).members;
      CoreMembersSorted(members);
      forall i | 0 <= i < |members|
        ensures Enumerated(CoreMembers(members)[i].value) && MemberMatched(members[i], sorted)
      {
        CoreIsEnumerated(members[i].value);
        assert CoreMembers(members)[i] in sorted;
      }
      forall i | 0 <= i < |sorted| ensures Enumerated(sorted[i].value) { assert sorted[i] in CoreMembers(members); }
    case _ =>
  }

  /** `canonicalJson` writes a JSON text of the value too, with the keys of every object as objects enumerate them. */
  lemma CanonicalJsonIsText(v: Json)
    requires WellFormed(v) && IsJson(v)
    ensures exists w :: Same(v, w) && Enumerated(w) && IsTextOf(CanonicalJson(v), w)
  {
    CanonicalJsonIs(v);
    RenderIsText(CoreCanon(v));
    CoreIsEnumerated(v);
    hide *;
    assert CanonicalJson(v) == Render(CoreCanon(v));
  }
}
