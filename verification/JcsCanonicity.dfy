/** Two JSON values have one canonical text exactly when they are equal up to member order. */
module JcsCanonicity {
  import opened Canonical
  import opened Options
  import opened Unicode
  import opened JsonStrings
  import opened JsonNumbers
  import opened Jcs

  /******* A rendering can be read back *******/

  /** Values whose rendering is JSON: no unsupported value and one zero. */
  predicate Plain(v: Json) {
    match v
    case Num(x) => !x.NotFinite? && x != Zero(true)
    case Array(items) => forall i | 0 <= i < |items| :: Plain(items[i])
    case Object(members) => forall i | 0 <= i < |members| :: Plain(members[i].value)
    case Unsupported => false
    case _ => true
  }

  /** The first unit of a rendering tells the kind of value. */
  predicate OpensAs(v: Json, c: CodeUnit) {
    match v
    case Null => c == 0x6E
    case Boolean(b) => c == if b then 0x74 else 0x66
    case Num(_) => IsDigit(c) || c == MINUS
    case Str(_) => c == QUOTE
    case Array(_) => c == LEFT_BRACKET
    case Object(_) => c == LEFT_BRACE
    case Unsupported => false
  }

  lemma RenderOpens(v: Json)
    requires Plain(v)
    ensures Render(v) != [] && OpensAs(v, Render(v)[0])
  {}

  /** What may follow a value inside a JSON text. */
  predicate Follows(s: Text) { s == [] || s[0] == COMMA || s[0] == RIGHT_BRACKET || s[0] == RIGHT_BRACE }

  /** The text from an array's items on. */
  function ItemsThen(items: seq<Json>, s: Text): Text { RenderItems(items) + [RIGHT_BRACKET] + s }

  function AfterItem(rest: seq<Json>, s: Text): Text {
    if rest == [] then [RIGHT_BRACKET] + s else [COMMA] + ItemsThen(rest, s)
  }

  function MembersThen(members: seq<Member>, s: Text): Text { RenderMembers(members) + [RIGHT_BRACE] + s }

  function AfterMember(rest: seq<Member>, s: Text): Text {
    if rest == [] then [RIGHT_BRACE] + s else [COMMA] + MembersThen(rest, s)
  }

  lemma ItemsUnroll(items: seq<Json>, s: Text)
    requires Plain(Array(items))
    ensures ItemsThen(items, s) != []
    ensures items == [] <==> ItemsThen(items, s)[0] == RIGHT_BRACKET
    ensures items == [] ==> ItemsThen(items, s)[1..] == s
    ensures items != [] ==> ItemsThen(items, s) == Render(items[0]) + AfterItem(items[1..], s)
  {
    if items != [] {
      RenderOpens(items[0]);
      assert ItemsThen(items, s) == Render(items[0]) + AfterItem(items[1..], s);
    }
  }

  lemma MembersUnroll(members: seq<Member>, s: Text)
    ensures members == [] ==> MembersThen(members, s) == [RIGHT_BRACE] + s
    ensures members != [] ==> MembersThen(members, s) == RenderMember(members[0]) + AfterMember(members[1..], s)
    ensures members != [] ==> RenderMember(members[0]) != [] && RenderMember(members[0])[0] == QUOTE
  {}

  /** Constructor by constructor, and the same constant for the constants. */
  predicate SameKind(v: Json, w: Json) {
    match v
    case Num(_) => w.Num?
    case Str(_) => w.Str?
    case Array(_) => w.Array?
    case Object(_) => w.Object?
    case _ => v == w
  }

  lemma FirstUnitTellsKind(v: Json, w: Json, s: Text, t: Text)
    requires Plain(v) && Plain(w)
    requires Render(v) + s == Render(w) + t
    ensures SameKind(v, w)
  {
    RenderOpens(v);
    RenderOpens(w);
    hide Plain;
    assert (Render(v) + s)[0] == Render(v)[0] && (Render(w) + t)[0] == Render(w)[0];
  }

  lemma AfterOpening(v: Json, s: Text)
    requires Plain(v)
    ensures v.Null? || v.Boolean? ==> (Render(v) + s)[if v == Boolean(false) then 5 else 4..] == s
    ensures v.Num? ==> Render(v) == NumberText(v.number)
    ensures v.Str? ==> Render(v) == StringText(v.text)
    ensures v.Array? ==> (Render(v) + s)[1..] == ItemsThen(v.items, s)
    ensures v.Object? ==> (Render(v) + s)[1..] == MembersThen(v.members, s)
  {
    hide NumberText, StringText, RenderItems, RenderMembers;
    if v.Array? { assert (Render(v) + s)[1..] == ItemsThen(v.items, s); }
    if v.Object? { assert (Render(v) + s)[1..] == MembersThen(v.members, s); }
  }

  /** A value can be read off the front of a text, whatever follows it. */
  lemma {:induction false} RenderIsDecodable(v: Json, w: Json, s: Text, t: Text)
    requires Plain(v) && Plain(w) && Follows(s) && Follows(t)
    requires Render(v) + s == Render(w) + t
    ensures v == w && s == t
    decreases v
  {
    FirstUnitTellsKind(v, w, s, t);
    AfterOpening(v, s);
    AfterOpening(w, t);
    hide Render, NumberText, StringText, ItemsThen, MembersThen;
    match v
    case Num(x) => NumberTextIsDecodable(x, w.number, s, t);
    case Str(a) => StringTextIsDecodable(a, w.text, s, t);
    case Array(items) => ItemsAreDecodable(items, w.items, s, t);
    case Object(members) => MembersAreDecodable(members, w.members, s, t);
    case Null =>
    case Boolean(_) =>
  }

  lemma {:induction false} ItemsAreDecodable(xs: seq<Json>, ys: seq<Json>, s: Text, t: Text)
    requires Plain(Array(xs)) && Plain(Array(ys))
    requires ItemsThen(xs, s) == ItemsThen(ys, t)
    ensures xs == ys && s == t
    decreases xs
  {
    ItemsUnroll(xs, s);
    ItemsUnroll(ys, t);
    if xs != [] {
      assert Plain(xs[0]) && Plain(ys[0]) && Plain(Array(xs[1..])) && Plain(Array(ys[1..]));
      hide Plain, Render, ItemsThen, AfterItem;
      AfterItemFollows(xs[1..], s);
      AfterItemFollows(ys[1..], t);
      RenderIsDecodable(xs[0], ys[0], AfterItem(xs[1..], s), AfterItem(ys[1..], t));
      AfterItemIsDecodable(xs[1..], ys[1..], s, t);
      if xs[1..] != [] { ItemsAreDecodable(xs[1..], ys[1..], s, t); }
      assert xs == [xs[0]] + xs[1..] && ys == [ys[0]] + ys[1..];
    }
  }

  lemma AfterItemFollows(rest: seq<Json>, s: Text)
    ensures Follows(AfterItem(rest, s))
  {}

  lemma AfterMemberFollows(rest: seq<Member>, s: Text)
    ensures Follows(AfterMember(rest, s))
  {}

  lemma AfterItemIsDecodable(xs: seq<Json>, ys: seq<Json>, s: Text, t: Text)
    requires AfterItem(xs, s) == AfterItem(ys, t)
    ensures xs == [] <==> ys == []
    ensures if xs == [] then s == t else ItemsThen(xs, s) == ItemsThen(ys, t)
  {
    assert AfterItem(xs, s)[1..] == if xs == [] then s else ItemsThen(xs, s);
    assert AfterItem(ys, t)[1..] == if ys == [] then t else ItemsThen(ys, t);
    assert AfterItem(xs, s)[0] == AfterItem(ys, t)[0];
  }

  lemma AfterMemberIsDecodable(xs: seq<Member>, ys: seq<Member>, s: Text, t: Text)
    requires AfterMember(xs, s) == AfterMember(ys, t)
    ensures xs == [] <==> ys == []
    ensures if xs == [] then s == t else MembersThen(xs, s) == MembersThen(ys, t)
  {
    assert AfterMember(xs, s)[1..] == if xs == [] then s else MembersThen(xs, s);
    assert AfterMember(ys, t)[1..] == if ys == [] then t else MembersThen(ys, t);
    assert AfterMember(xs, s)[0] == AfterMember(ys, t)[0];
  }

  lemma BothEmptyOrNeither(xs: seq<Member>, ys: seq<Member>, s: Text, t: Text)
    requires MembersThen(xs, s) == MembersThen(ys, t)
    ensures xs == [] <==> ys == []
    ensures xs == [] ==> s == t
  {
    MembersUnroll(xs, s);
    MembersUnroll(ys, t);
    hide RenderMember, RenderMembers, AfterMember;
    assert MembersThen(xs, s)[0] == MembersThen(ys, t)[0];
    if xs == [] && ys == [] { assert MembersThen(xs, s)[1..] == s && MembersThen(ys, t)[1..] == t; }
  }

  lemma {:induction false} MembersAreDecodable(xs: seq<Member>, ys: seq<Member>, s: Text, t: Text)
    requires Plain(Object(xs)) && Plain(Object(ys))
    requires MembersThen(xs, s) == MembersThen(ys, t)
    ensures xs == ys && s == t
    decreases xs
  {
    hide RenderMember, RenderMembers, AfterMember, MembersThen;
    BothEmptyOrNeither(xs, ys, s, t);
    if xs != [] {
      assert Plain(xs[0].value) && Plain(ys[0].value) && Plain(Object(xs[1..])) && Plain(Object(ys[1..]));
      hide Plain;
      MembersUnroll(xs, s);
      MembersUnroll(ys, t);
      AfterMemberFollows(xs[1..], s);
      AfterMemberFollows(ys[1..], t);
      MemberIsDecodable(xs[0], ys[0], AfterMember(xs[1..], s), AfterMember(ys[1..], t));
      AfterMemberIsDecodable(xs[1..], ys[1..], s, t);
      if xs[1..] != [] { MembersAreDecodable(xs[1..], ys[1..], s, t); }
      assert xs == [xs[0]] + xs[1..] && ys == [ys[0]] + ys[1..];
    }
  }

  lemma {:induction false} MemberIsDecodable(m: Member, n: Member, s: Text, t: Text)
    requires Plain(m.value) && Plain(n.value) && Follows(s) && Follows(t)
    requires RenderMember(m) + s == RenderMember(n) + t
    ensures m == n && s == t
    decreases m
  {
    hide StringText, Render, Plain, Follows;
    var a, b := [COLON] + Render(m.value) + s, [COLON] + Render(n.value) + t;
    assert RenderMember(m) + s == StringText(m.key) + a && RenderMember(n) + t == StringText(n.key) + b;
    StringTextIsDecodable(m.key, n.key, a, b);
    assert a[1..] == Render(m.value) + s && b[1..] == Render(n.value) + t;
    RenderIsDecodable(m.value, n.value, s, t);
  }

  /******* The canonical form *******/

  lemma {:induction false} CanonIsPlain(v: Json)
    requires Serializable(v)
    ensures Plain(Canon(v))
  {
    match v
    case Array(items) =>
      forall i | 0 <= i < |items| ensures Plain(Canon(items[i])) { CanonIsPlain(items[i]); }
    case Object(members) =>
      forall i | 0 <= i < |members| ensures Plain(Canon(members[i].value)) { CanonIsPlain(members[i].value); }
      CanonCommutesWithSort(members);
      SortKeepsMembers(members);
      var sorted := Sort(members, KeyOf());
      forall i | 0 <= i < |sorted| ensures Plain(CanonMembers(sorted)[i].value) { assert sorted[i] in members; }
    case _ =>
  }

  lemma OthersRemain(a: seq<Member>, b: seq<Member>, j: nat)
    requires a != [] && DistinctBy(a, KeyOf()) && forall m | m in a :: m in b
    requires j < |b| && b[j] == a[0]
    ensures forall m | m in a[1..] :: m in b[..j] + b[j + 1..]
  {
    var rest := b[..j] + b[j + 1..];
    forall i | 1 <= i < |a| ensures a[i] in rest {
      assert a[i] in b && KeyOf()(a[0]) != KeyOf()(a[i]);
      var k :| 0 <= k < |b| && b[k] == a[i];
      assert rest[if k < j then k else k - 1] == a[i];
    }
  }

  /** Pigeonhole: as many distinct keys on both sides, all of the left ones on the right, leave nothing over. */
  lemma {:induction false} SameElements(a: seq<Member>, b: seq<Member>)
    requires |a| == |b| && DistinctBy(a, KeyOf()) && forall m | m in a :: m in b
    ensures multiset(a) == multiset(b)
  {
    if a != [] {
      assert a[0] in b;
      var j :| 0 <= j < |b| && b[j] == a[0];
      OthersRemain(a, b, j);
      assert DistinctBy(a[1..], KeyOf());
      hide DistinctBy;
      SameElements(a[1..], b[..j] + b[j + 1..]);
      assert a == [a[0]] + a[1..];
      assert b == b[..j] + [b[j]] + b[j + 1..];
    }
  }

  lemma {:induction false} SameHasOneCanon(v: Json, w: Json)
    requires WellFormed(v) && WellFormed(w) && Same(v, w)
    ensures Canon(v) == Canon(w)
  {
    match v
    case Array(items) =>
      forall i | 0 <= i < |items|
        ensures Canon(items[i]) == Canon(w.items[i])
      {
        SameHasOneCanon(items[i], w.items[i]);
      }
    case Object(members) =>
      var a, b := CanonMembers(members), CanonMembers(w.members);
      forall i | 0 <= i < |members| ensures a[i] in b {
        var j :| 0 <= j < |w.members| && members[i].key == w.members[j].key
          && Same(members[i].value, w.members[j].value);
        SameHasOneCanon(members[i].value, w.members[j].value);
        assert a[i] == b[j];
      }
      assert DistinctBy(a, KeyOf());
      SameElements(a, b);
      SortIgnoresOrder(a, b, KeyOf());
    case _ =>
  }

  lemma SortedAreShared(a: seq<Member>, b: seq<Member>)
    requires Sort(a, KeyOf()) == Sort(b, KeyOf())
    ensures |a| == |b|
    ensures forall m | m in a :: m in b
  {
    SortSorts(a, KeyOf());
    SortSorts(b, KeyOf());
    hide Sort;
    forall m | m in a ensures m in b { assert m in multiset(a) && m in multiset(b); }
  }

  lemma {:induction false} OneCanonIsSame(v: Json, w: Json)
    requires Canon(v) == Canon(w)
    ensures Same(v, w)
    decreases v
  {
    hide Sort, CanonMembers;
    match v
    case Array(items) =>
      assert |Canon(w).items| == |w.items| == |items|;
      forall i | 0 <= i < |items| ensures Same(items[i], w.items[i]) {
        assert Canon(v).items[i] == Canon(items[i]) && Canon(w).items[i] == Canon(w.items[i]);
        OneCanonIsSame(items[i], w.items[i]);
      }
    case Object(members) =>
      SortedAreShared(CanonMembers(members), CanonMembers(w.members));
      assert w.Object? && |members| == |w.members|;
      forall i | 0 <= i < |members|
        ensures MemberMatched(members[i], w.members)
      {
        assert CanonMembers(members)[i] in CanonMembers(w.members);
        var j :| 0 <= j < |w.members| && CanonMembers(w.members)[j] == CanonMember(members[i]);
        OneCanonIsSame(members[i].value, w.members[j].value);
      }
    case _ =>
  }

  /** The serializer ignores member order and the sign of zero, and nothing else. */
  lemma SerializationIsCanonical(v: Json, w: Json)
    requires WellFormed(v) && WellFormed(w) && Serializable(v) && Serializable(w)
    ensures Serialize(v) == Serialize(w) <==> Same(v, w)
  {
    if Same(v, w) { SameHasOneCanon(v, w); }
    if Serialize(v) == Serialize(w) {
      CanonIsPlain(v);
      CanonIsPlain(w);
      assert Render(Canon(v)) + [] == Render(Canon(w)) + [];
      RenderIsDecodable(Canon(v), Canon(w), [], []);
      OneCanonIsSame(v, w);
    }
  }

  /** Serializing is refused for both of two equal values or for neither. */
  lemma {:induction false} SameIsSerializableAlike(v: Json, w: Json)
    requires WellFormed(v) && WellFormed(w) && Same(v, w) && Serializable(w)
    ensures Serializable(v)
    decreases v
  {
    match v
    case Array(items) =>
      forall i | 0 <= i < |items| ensures Serializable(items[i]) { SameIsSerializableAlike(items[i], w.items[i]); }
    case Object(members) =>
      forall i | 0 <= i < |members| ensures WellPaired(members[i].key) && Serializable(members[i].value) {
        var j :| 0 <= j < |w.members| && members[i].key == w.members[j].key
          && Same(members[i].value, w.members[j].value);
        SameIsSerializableAlike(members[i].value, w.members[j].value);
      }
    case _ =>
  }

  /******* parseJcsDocument *******/

  /** `JSON.parse` returns objects with distinct keys, and reads a canonical text as the value it was written from. */
  ghost predicate ReadsJson(parse: Text -> Option<Json>) {
    && (forall t :: parse(t).Some? ==> WellFormed(parse(t).value))
    && (forall v | WellFormed(v) && Serializable(v) ::
          parse(Serialize(v).value).Some? && Same(parse(Serialize(v).value).value, v))
  }

  ghost predicate WrittenFrom(v: Json, text: Text) { WellFormed(v) && Serializable(v) && Serialize(v).value == text }

  ghost function AParser(text: Text): Option<Json> {
    if exists v :: WrittenFrom(v, text) then var v :| WrittenFrom(v, text); Some(v) else None
  }

  /** What is asked of `JSON.parse` can be met, because a canonical text has one value up to member order. */
  lemma ParserExists()
    ensures ReadsJson(AParser)
  {
    forall v | WellFormed(v) && Serializable(v)
      ensures AParser(Serialize(v).value).Some? && Same(AParser(Serialize(v).value).value, v)
    {
      var text := Serialize(v).value;
      assert WrittenFrom(v, text);
      SerializationIsCanonical(AParser(text).value, v);
    }
  }

  /** `parseJcsDocument` on text that is already decoded. */
  function ParseJcsDocument(parse: Text -> Option<Json>, text: Text): Option<Json> {
    var value := parse(text);
    if value.Some? && Serialize(value.value) == Some(text) then value else None
  }

  /** A text is accepted exactly when it is the serialization of some value, and then that value is what is read. */
  lemma AcceptsExactlyCanonicalText(parse: Text -> Option<Json>, text: Text)
    requires ReadsJson(parse)
    ensures ParseJcsDocument(parse, text).Some? <==> exists v :: WellFormed(v) && Serialize(v) == Some(text)
    ensures forall v | WellFormed(v) && Serialize(v) == Some(text) ::
              ParseJcsDocument(parse, text).Some? && Same(ParseJcsDocument(parse, text).value, v)
  {
    if ParseJcsDocument(parse, text).Some? {
      var v := parse(text).value;
      assert WellFormed(v) && Serialize(v) == Some(text);
    }
    forall v | WellFormed(v) && Serialize(v) == Some(text)
      ensures ParseJcsDocument(parse, text).Some? && Same(ParseJcsDocument(parse, text).value, v)
    {
      var read := parse(text).value;
      assert Serializable(v) && parse(Serialize(v).value).Some? && Same(read, v);
      SameIsSerializableAlike(read, v);
      SerializationIsCanonical(read, v);
    }
  }
}
