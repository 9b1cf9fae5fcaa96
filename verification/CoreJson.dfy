/**
 `canonicalizeJson` and `canonicalJson` of `src/core/canonical-json.ts` on JSON values.  An object rebuilt from sorted
 entries enumerates its array-index keys first, by number (section 10.1.11.1 of ECMA-262), so the text is not always
 the one of RFC 8785; it is canonical all the same.
 */
module CoreJson {
  import opened Canonical
  import opened Options
  import opened Ordering
  import opened Unicode
  import opened JsonNumbers
  import opened Jcs
  import opened JcsCanonicity

  /******* Array-index keys *******/

  const MAX_INDEX: nat := 0xFFFF_FFFE

  function Pow10(n: nat): nat { if n == 0 then 1 else 10 * Pow10(n - 1) }

  predicate Digits(k: Text) { forall i | 0 <= i < |k| :: IsDigit(k[i]) }

  function Value(k: Text): nat
    requires Digits(k)
  {
    if k == [] then 0 else (k[0] as int - 0x30) * Pow10(|k| - 1) + Value(k[1..])
  }

  /** `"0"`, or digits without a leading zero, up to 2^32 - 2. */
  predicate IsIndex(k: Text) {
    k != [] && Digits(k) && (k[0] == 0x30 ==> |k| == 1) && |k| <= 10 && Value(k) <= MAX_INDEX
  }

  /** Indices before names; indices by length and then unit by unit. */
  function Rank(k: Text): Text { if IsIndex(k) then [0, |k| as CodeUnit] + k else [1] + k }

  function RankOf(): Member -> Text { (m: Member) => Rank(m.key) }

  lemma {:induction false} ValueBound(k: Text)
    requires Digits(k)
    ensures Value(k) < Pow10(|k|)
  {
    if k != [] {
      ValueBound(k[1..]);
      var d := k[0] as int - 0x30;
      assert d * Pow10(|k| - 1) <= 9 * Pow10(|k| - 1);
    }
  }

  lemma {:induction false} Pow10Grows(m: nat, n: nat)
    requires m <= n
    ensures 1 <= Pow10(m) <= Pow10(n)
  {
    if n > 0 && m < n { Pow10Grows(m, n - 1); } else if n > 0 { Pow10Grows(m - 1, n - 1); }
  }

  lemma FirstDigitDecides(x: nat, y: nat, a: nat, b: nat, p: nat)
    requires x < y && a < p
    ensures x * p + a < y * p + b
  {
    assert x * p + p == (x + 1) * p <= y * p;
  }

  lemma {:induction false} SameLengthByValue(a: Text, b: Text)
    requires Digits(a) && Digits(b) && |a| == |b|
    ensures TextLess(a, b) <==> Value(a) < Value(b)
  {
    if a != [] {
      ValueBound(a[1..]);
      ValueBound(b[1..]);
      var x, y := a[0] as int - 0x30, b[0] as int - 0x30;
      if x < y { FirstDigitDecides(x, y, Value(a[1..]), Value(b[1..]), Pow10(|a| - 1)); }
      if y < x { FirstDigitDecides(y, x, Value(b[1..]), Value(a[1..]), Pow10(|a| - 1)); }
      SameLengthByValue(a[1..], b[1..]);
    }
  }

  lemma LeadingDigitBound(b: Text)
    requires b != [] && Digits(b) && b[0] != 0x30
    ensures Value(b) >= Pow10(|b| - 1)
  {
    hide Pow10;
    var d, p := b[0] as int - 0x30, Pow10(|b| - 1);
    assert d >= 1;
    assert d * p >= p;
    assert Value(b) == d * p + Value(b[1..]);
  }

  lemma ShorterIsLess(a: Text, b: Text)
    requires IsIndex(a) && IsIndex(b) && |a| < |b|
    ensures Value(a) < Value(b)
  {
    hide Value, Pow10;
    ValueBound(a);
    Pow10Grows(|a|, |b| - 1);
    LeadingDigitBound(b);
  }

  lemma LessBehind(x: CodeUnit, y: CodeUnit, a: Text, b: Text)
    ensures TextLess([0, x] + a, [0, y] + b) <==> x < y || (x == y && TextLess(a, b))
  {
    var s, t := [0, x] + a, [0, y] + b;
    assert s[1..] == [x] + a && t[1..] == [y] + b;
    assert s[1..][1..] == a && t[1..][1..] == b;
  }

  /** The rank of indices is their number. */
  lemma RankIsByValue(a: Text, b: Text)
    requires IsIndex(a) && IsIndex(b)
    ensures TextLess(Rank(a), Rank(b)) <==> Value(a) < Value(b)
  {
    hide TextLess, Value, Pow10;
    LessBehind(|a| as CodeUnit, |b| as CodeUnit, a, b);
    if |a| == |b| {
      SameLengthByValue(a, b);
    } else if |a| < |b| {
      ShorterIsLess(a, b);
    } else {
      ShorterIsLess(b, a);
    }
  }

  lemma RankIsInjective(a: Text, b: Text)
    requires Rank(a) == Rank(b)
    ensures a == b
  {
    hide IsIndex;
    assert Rank(a)[0] == Rank(b)[0];
    if IsIndex(a) {
      assert Rank(a)[2..] == a && Rank(b)[2..] == b;
    } else {
      assert Rank(a)[1..] == a && Rank(b)[1..] == b;
    }
  }

  /******* The source's recursion *******/

  function Indices(members: seq<Member>): seq<Member> {
    if members == [] then [] else (if IsIndex(members[0].key) then [members[0]] else []) + Indices(members[1..])
  }

  function Names(members: seq<Member>): seq<Member> {
    if members == [] then [] else (if IsIndex(members[0].key) then [] else [members[0]]) + Names(members[1..])
  }

  /** How an object enumerates entries it was built from: array indices by number, then names as inserted. */
  function Enumerate(entries: seq<Member>): seq<Member> { Sort(Indices(entries), RankOf()) + Names(entries) }

  /** `canonicalizeJson`. */
  function CanonicalizeJson(v: Json): Json {
    match v
    case Array(items) => Array(seq(|items|, i requires 0 <= i < |items| => CanonicalizeJson(items[i])))
    case Object(members) => Object(Enumerate(Sort(CanonicalizeMembers(members), KeyOf())))
    case _ => v
  }

  function CanonicalizeMember(m: Member): (r: Member)
    ensures r.key == m.key
  {
    Member(m.key, CanonicalizeJson(m.value))
  }

  function CanonicalizeMembers(members: seq<Member>): (r: seq<Member>)
    ensures |r| == |members| && forall i | 0 <= i < |r| :: r[i] == CanonicalizeMember(members[i])
  {
    if members == [] then [] else [CanonicalizeMember(members[0])] + CanonicalizeMembers(members[1..])
  }

  /** A JSON value: no number that is not finite, and nothing JSON has no text for. */
  predicate IsJson(v: Json) {
    match v
    case Num(x) => !x.NotFinite?
    case Array(items) => forall i | 0 <= i < |items| :: IsJson(items[i])
    case Object(members) => forall i | 0 <= i < |members| :: IsJson(members[i].value)
    case Unsupported => false
    case _ => true
  }

  /** `canonicalJson`, on JSON values; unlike RFC 8785 it takes any text, surrogates without a partner included. */
  function CanonicalJson(v: Json): Text
    requires IsJson(v)
  {
    Render(CanonicalizeJson(v))
  }

  /******* Its canonical form *******/

  /** The members by rank, and one zero. */
  function CoreCanon(v: Json): Json {
    match v
    case Num(Zero(_)) => Num(Zero(false))
    case Array(items) => Array(seq(|items|, i requires 0 <= i < |items| => CoreCanon(items[i])))
    case Object(members) => Object(Sort(CoreMembers(members), RankOf()))
    case _ => v
  }

  function CoreMember(m: Member): (r: Member)
    ensures r.key == m.key
  {
    Member(m.key, CoreCanon(m.value))
  }

  function CoreMembers(members: seq<Member>): (r: seq<Member>)
    ensures |r| == |members| && forall i | 0 <= i < |r| :: r[i] == CoreMember(members[i])
  {
    if members == [] then [] else [CoreMember(members[0])] + CoreMembers(members[1..])
  }

  function OneZero(v: Json): Json {
    match v
    case Num(Zero(_)) => Num(Zero(false))
    case Array(items) => Array(seq(|items|, i requires 0 <= i < |items| => OneZero(items[i])))
    case Object(members) => Object(OneZeroMembers(members))
    case _ => v
  }

  function OneZeroMember(m: Member): (r: Member)
    ensures r.key == m.key
  {
    Member(m.key, OneZero(m.value))
  }

  function OneZeroMembers(members: seq<Member>): (r: seq<Member>)
    ensures |r| == |members| && forall i | 0 <= i < |r| :: r[i] == OneZeroMember(members[i])
  {
    if members == [] then [] else [OneZeroMember(members[0])] + OneZeroMembers(members[1..])
  }

  lemma {:induction false} RenderIgnoresZero(v: Json)
    ensures Render(OneZero(v)) == Render(v)
    decreases v
  {
    match v
    case Array(items) => ItemsIgnoreZero(items, OneZero(v).items);
    case Object(members) => MembersIgnoreZero(members);
    case _ =>
  }

  lemma {:induction false} ItemsIgnoreZero(items: seq<Json>, zeroed: seq<Json>)
    requires |zeroed| == |items| && forall i | 0 <= i < |items| :: zeroed[i] == OneZero(items[i])
    ensures RenderItems(zeroed) == RenderItems(items)
    decreases items
  {
    if items != [] {
      RenderIgnoresZero(items[0]);
      ItemsIgnoreZero(items[1..], zeroed[1..]);
    }
  }

  lemma {:induction false} MembersIgnoreZero(members: seq<Member>)
    ensures RenderMembers(OneZeroMembers(members)) == RenderMembers(members)
    decreases members
  {
    if members != [] {
      RenderIgnoresZero(members[0].value);
      MembersIgnoreZero(members[1..]);
      assert OneZeroMembers(members)[1..] == OneZeroMembers(members[1..]);
    }
  }

  lemma {:induction false} Partition(entries: seq<Member>)
    ensures multiset(Indices(entries)) + multiset(Names(entries)) == multiset(entries)
    ensures forall m | m in Indices(entries) :: IsIndex(m.key)
    ensures forall m | m in Names(entries) :: !IsIndex(m.key)
  {
    hide IsIndex;
    if entries != [] {
      Partition(entries[1..]);
      assert entries == [entries[0]] + entries[1..];
    }
  }

  lemma {:induction false} NamesStaySorted(entries: seq<Member>)
    requires SortedBy(entries, KeyOf())
    ensures SortedBy(Names(entries), KeyOf())
    ensures forall m | m in Names(entries) :: m in entries
  {
    hide IsIndex, TextAtMost;
    if entries != [] {
      NamesStaySorted(entries[1..]);
      assert entries == [entries[0]] + entries[1..];
      forall m | m in Names(entries[1..]) ensures TextAtMost(entries[0].key, m.key) {
        assert m in entries[1..];
        var i :| 0 <= i < |entries[1..]| && entries[1..][i] == m;
        assert TextAtMost(KeyOf()(entries[0]), KeyOf()(entries[i + 1]));
      }
      var rest := Names(entries[1..]);
      if !IsIndex(entries[0].key) {
        assert Names(entries) == [entries[0]] + rest;
        forall i, j | 0 <= i < j < |Names(entries)|
          ensures TextAtMost(KeyOf()(Names(entries)[i]), KeyOf()(Names(entries)[j]))
        {
          assert rest[j - 1] in rest;
          if i > 0 { assert TextAtMost(KeyOf()(rest[i - 1]), KeyOf()(rest[j - 1])); }
        }
      }
    }
  }

  lemma NameRanks(a: Text, b: Text)
    requires !IsIndex(b) && (IsIndex(a) || TextAtMost(a, b))
    ensures TextAtMost(Rank(a), Rank(b))
  {
    hide IsIndex;
    if !IsIndex(a) { assert Rank(a)[1..] == a && Rank(b)[1..] == b; }
  }

  /** Enumeration order is the order by rank. */
  lemma EnumerationIsByRank(entries: seq<Member>)
    requires SortedBy(entries, KeyOf())
    ensures SortedBy(Enumerate(entries), RankOf())
    ensures multiset(Enumerate(entries)) == multiset(entries)
  {
    hide IsIndex, Rank, TextAtMost;
    var indices, names := Sort(Indices(entries), RankOf()), Names(entries);
    Partition(entries);
    SortSorts(Indices(entries), RankOf());
    NamesStaySorted(entries);
    var all := Enumerate(entries);
    forall i, j | 0 <= i < j < |all| ensures TextAtMost(RankOf()(all[i]), RankOf()(all[j])) {
      if j < |indices| {
        assert TextAtMost(RankOf()(indices[i]), RankOf()(indices[j]));
      } else {
        assert names[j - |indices|] in names;
        if i < |indices| {
          assert indices[i] in multiset(indices);
          assert indices[i] in Indices(entries);
        } else {
          assert names[i - |indices|] in names;
          assert TextAtMost(KeyOf()(names[i - |indices|]), KeyOf()(names[j - |indices|]));
        }
        NameRanks(all[i].key, all[j].key);
      }
    }
  }

  lemma DistinctRanks(members: seq<Member>)
    requires DistinctBy(members, KeyOf())
    ensures DistinctBy(members, RankOf()) && KeyDetermines(members, RankOf())
  {
    hide Rank;
    forall i, j | 0 <= i < j < |members| ensures RankOf()(members[i]) != RankOf()(members[j]) {
      assert KeyOf()(members[i]) != KeyOf()(members[j]);
      if Rank(members[i].key) == Rank(members[j].key) { RankIsInjective(members[i].key, members[j].key); }
    }
    DistinctKeysDetermine(members, RankOf());
  }

  /** Entries sorted by key, enumerated and zeroed, are the core members sorted by rank. */
  lemma EnumeratedMembers(entries: seq<Member>, core: seq<Member>)
    requires core == OneZeroMembers(entries) && DistinctBy(core, KeyOf())
    ensures OneZeroMembers(Enumerate(Sort(entries, KeyOf()))) == Sort(core, RankOf())
  {
    hide Rank, Enumerate, DistinctBy, TextAtMost, KeyDetermines;
    var e := Enumerate(Sort(entries, KeyOf()));
    SortSorts(entries, KeyOf());
    EnumerationIsByRank(Sort(entries, KeyOf()));
    ImagesPermute(entries, e, core, OneZeroMembers(e), OneZeroMember);
    forall i, j | 0 <= i < j < |e|
      ensures TextAtMost(RankOf()(OneZeroMembers(e)[i]), RankOf()(OneZeroMembers(e)[j]))
    {
      assert TextAtMost(RankOf()(e[i]), RankOf()(e[j]));
    }
    DistinctRanks(core);
    SortSorts(core, RankOf());
    KeysDetermineContents(core, Sort(core, RankOf()), RankOf());
    SortedIsUnique(Sort(core, RankOf()), OneZeroMembers(e), RankOf());
  }

  lemma {:induction false} CanonicalizedIsCoreCanon(v: Json)
    requires WellFormed(v)
    ensures OneZero(CanonicalizeJson(v)) == CoreCanon(v)
  {
    hide Enumerate, Sort, IsIndex;
    match v
    case Array(items) =>
      forall i | 0 <= i < |items| ensures OneZero(CanonicalizeJson(items[i])) == CoreCanon(items[i]) {
        CanonicalizedIsCoreCanon(items[i]);
      }
    case Object(members) =>
      var entries, core := CanonicalizeMembers(members), CoreMembers(members);
      forall i | 0 <= i < |members| ensures OneZeroMembers(entries)[i] == core[i] {
        CanonicalizedIsCoreCanon(members[i].value);
      }
      forall i, j | 0 <= i < j < |core| ensures KeyOf()(core[i]) != KeyOf()(core[j]) {
        assert KeyOf()(members[i]) != KeyOf()(members[j]);
      }
      EnumeratedMembers(entries, core);
    case _ =>
  }

  lemma {:induction false} CoreIsPlain(v: Json)
    requires IsJson(v)
    ensures Plain(CoreCanon(v))
  {
    match v
    case Array(items) =>
      forall i | 0 <= i < |items| ensures Plain(CoreCanon(items[i])) { CoreIsPlain(items[i]); }
    case Object(members) =>
      var core := CoreMembers(members);
      forall i | 0 <= i < |members| ensures Plain(core[i].value) { CoreIsPlain(members[i].value); }
      SortSorts(core, RankOf());
      var sorted := Sort(core, RankOf());
      hide Sort;
      forall i | 0 <= i < |sorted| ensures Plain(sorted[i].value) {
        assert sorted[i] in multiset(sorted);
        assert sorted[i] in core;
      }
    case _ =>
  }

  lemma {:induction false} SameHasOneCore(v: Json, w: Json)
    requires WellFormed(v) && WellFormed(w) && Same(v, w)
    ensures CoreCanon(v) == CoreCanon(w)
  {
    hide Sort, Rank;
    match v
    case Array(items) =>
      forall i | 0 <= i < |items|
        ensures CoreCanon(items[i]) == CoreCanon(w.items[i])
      {
        SameHasOneCore(items[i], w.items[i]);
      }
    case Object(members) =>
      var a, b := CoreMembers(members), CoreMembers(w.members);
      forall i | 0 <= i < |members| ensures a[i] in b {
        var j :| 0 <= j < |w.members| && members[i].key == w.members[j].key
          && Same(members[i].value, w.members[j].value);
        SameHasOneCore(members[i].value, w.members[j].value);
        assert a[i] == b[j];
      }
      forall i, j | 0 <= i < j < |a| ensures KeyOf()(a[i]) != KeyOf()(a[j]) {
        assert KeyOf()(members[i]) != KeyOf()(members[j]);
      }
      SameElements(a, b);
      DistinctRanks(a);
      DeterminedSortIgnoresOrder(a, b, RankOf());
    case _ =>
  }

  lemma RankedAreShared(a: seq<Member>, b: seq<Member>, key: Member -> Text)
    requires Sort(a, RankOf()) == Sort(b, key)
    ensures |a| == |b|
    ensures forall m | m in a :: m in b
  {
    SortSorts(a, RankOf());
    SortSorts(b, key);
    hide Sort;
    forall m | m in a ensures m in b { assert m in multiset(a) && m in multiset(b); }
  }

  lemma {:induction false} OneCoreIsSame(v: Json, w: Json)
    requires CoreCanon(v) == CoreCanon(w)
    ensures Same(v, w)
    decreases v
  {
    hide Sort, CoreMembers, Rank;
    match v
    case Array(items) =>
      assert |CoreCanon(w).items| == |w.items| == |items|;
      forall i | 0 <= i < |items| ensures Same(items[i], w.items[i]) {
        assert CoreCanon(v).items[i] == CoreCanon(items[i]) && CoreCanon(w).items[i] == CoreCanon(w.items[i]);
        OneCoreIsSame(items[i], w.items[i]);
      }
    case Object(members) =>
      RankedAreShared(CoreMembers(members), CoreMembers(w.members), RankOf());
      forall i | 0 <= i < |members| ensures MemberMatched(members[i], w.members) {
        assert CoreMembers(members)[i] in CoreMembers(w.members);
        var j :| 0 <= j < |w.members| && CoreMembers(w.members)[j] == CoreMember(members[i]);
        OneCoreIsSame(members[i].value, w.members[j].value);
      }
    case _ =>
  }

  lemma CanonicalJsonIs(v: Json)
    requires WellFormed(v) && IsJson(v)
    ensures CanonicalJson(v) == Render(CoreCanon(v)) && Plain(CoreCanon(v))
  {
    CanonicalizedIsCoreCanon(v);
    RenderIgnoresZero(CanonicalizeJson(v));
    CoreIsPlain(v);
  }

  /** `canonicalJsonEqual` holds exactly of values that are equal up to member order and the sign of zero. */
  lemma CanonicalJsonIsCanonical(v: Json, w: Json)
    requires WellFormed(v) && WellFormed(w) && IsJson(v) && IsJson(w)
    ensures CanonicalJson(v) == CanonicalJson(w) <==> Same(v, w)
  {
    hide Render, CoreCanon, Same, Plain, CanonicalJson;
    CanonicalJsonIs(v);
    CanonicalJsonIs(w);
    if Same(v, w) { SameHasOneCore(v, w); }
    if CanonicalJson(v) == CanonicalJson(w) {
      assert Render(CoreCanon(v)) + [] == Render(CoreCanon(w)) + [];
      RenderIsDecodable(CoreCanon(v), CoreCanon(w), [], []);
      OneCoreIsSame(v, w);
    }
  }

  /******* Against RFC 8785 *******/

  /** If `b` is an array index, `a` is a smaller one. */
  predicate IndexBelow(a: Text, b: Text) { IsIndex(b) ==> IsIndex(a) && Value(a) < Value(b) }

  /** Wherever a key sorts before an array index, it is a smaller array index. */
  predicate KeysInOrder(members: seq<Member>) {
    forall i, j | 0 <= i < |members| && 0 <= j < |members| :: TextLess(members[i].key, members[j].key) ==>
      IndexBelow(members[i].key, members[j].key)
  }

  predicate IndexKeysInOrder(v: Json) {
    match v
    case Array(items) => forall i | 0 <= i < |items| :: IndexKeysInOrder(items[i])
    case Object(members) => KeysInOrder(members) && forall i | 0 <= i < |members| :: IndexKeysInOrder(members[i].value)
    case _ => true
  }

  lemma PositionOf(canon: seq<Member>, p: nat) returns (i: nat)
    requires p < |Sort(canon, KeyOf())|
    ensures i < |canon| && canon[i] == Sort(canon, KeyOf())[p]
  {
    SortSorts(canon, KeyOf());
    hide Sort;
    assert Sort(canon, KeyOf())[p] in multiset(canon);
    i :| 0 <= i < |canon| && canon[i] == Sort(canon, KeyOf())[p];
  }

  lemma InOrderIsRanked(members: seq<Member>, canon: seq<Member>)
    requires KeysInOrder(members)
    requires |canon| == |members| && forall i | 0 <= i < |members| :: canon[i].key == members[i].key
    ensures SortedBy(Sort(canon, KeyOf()), RankOf())
  {
    SortSorts(canon, KeyOf());
    hide Rank, Sort, IndexBelow, TextAtMost, KeysInOrder;
    var sorted := Sort(canon, KeyOf());
    forall p, q | 0 <= p < q < |sorted| ensures TextAtMost(RankOf()(sorted[p]), RankOf()(sorted[q])) {
      assert TextAtMost(KeyOf()(sorted[p]), KeyOf()(sorted[q]));
      var i := PositionOf(canon, p);
      var j := PositionOf(canon, q);
      InOrderRanks(members, i, j);
    }
  }

  lemma InOrderSortsAlike(members: seq<Member>, canon: seq<Member>)
    requires KeysInOrder(members) && DistinctBy(members, KeyOf())
    requires |canon| == |members| && forall i | 0 <= i < |members| :: canon[i].key == members[i].key
    ensures Sort(canon, RankOf()) == Sort(canon, KeyOf())
  {
    InOrderIsRanked(members, canon);
    SortSorts(canon, KeyOf());
    hide Rank, Sort, SortedBy, KeysInOrder, KeyDetermines;
    SortKeepsSorted(Sort(canon, KeyOf()), RankOf());
    forall i, j | 0 <= i < j < |canon| ensures KeyOf()(canon[i]) != KeyOf()(canon[j]) {
      assert KeyOf()(members[i]) != KeyOf()(members[j]);
    }
    DistinctRanks(canon);
    DeterminedSortIgnoresOrder(canon, Sort(canon, KeyOf()), RankOf());
  }

  lemma InOrderRanks(members: seq<Member>, i: nat, j: nat)
    requires KeysInOrder(members) && i < |members| && j < |members| && TextAtMost(members[i].key, members[j].key)
    ensures TextAtMost(Rank(members[i].key), Rank(members[j].key))
  {
    hide IsIndex, Rank, Value;
    if members[i].key != members[j].key {
      if IsIndex(members[j].key) {
        RankIsByValue(members[i].key, members[j].key);
      } else {
        NameRanks(members[i].key, members[j].key);
      }
    }
  }

  lemma {:induction false} InOrderIsJcs(v: Json)
    requires WellFormed(v) && IndexKeysInOrder(v)
    ensures CoreCanon(v) == Canon(v)
  {
    hide Sort, Rank, KeysInOrder;
    match v
    case Array(items) =>
      forall i | 0 <= i < |items| ensures CoreCanon(items[i]) == Canon(items[i]) { InOrderIsJcs(items[i]); }
    case Object(members) =>
      forall i | 0 <= i < |members| ensures CoreMembers(members)[i] == CanonMembers(members)[i] {
        InOrderIsJcs(members[i].value);
      }
      assert CoreMembers(members) == CanonMembers(members);
      InOrderSortsAlike(members, CanonMembers(members));
    case _ =>
  }

  lemma SortedPositions(sorted: seq<Member>, p: nat, q: nat)
    requires SortedBy(sorted, KeyOf()) && p < |sorted| && q < |sorted| && TextLess(sorted[p].key, sorted[q].key)
    ensures p < q
  {
    if q < p { assert TextAtMost(KeyOf()(sorted[q]), KeyOf()(sorted[p])); }
    TextLessTrichotomy(sorted[p].key, sorted[q].key);
  }

  lemma RankedBelow(a: Text, b: Text)
    requires TextAtMost(Rank(a), Rank(b)) && a != b
    ensures IndexBelow(a, b)
  {
    hide Value;
    if IsIndex(b) {
      if Rank(a) == Rank(b) { RankIsInjective(a, b); }
      RankIsByValue(a, b);
    }
  }

  lemma OnePosition(members: seq<Member>, i: nat, j: nat)
    requires DistinctBy(members, KeyOf()) && i < |members| && j < |members| && members[i].key == members[j].key
    ensures i == j
  {
    assert KeyOf()(members[i]) == KeyOf()(members[j]);
  }

  lemma {:induction false} JcsIsInOrder(v: Json)
    requires WellFormed(v) && CoreCanon(v) == Canon(v)
    ensures IndexKeysInOrder(v)
  {
    hide Sort, Rank, KeysInOrder;
    match v
    case Array(items) =>
      forall i | 0 <= i < |items| ensures IndexKeysInOrder(items[i]) {
        assert CoreCanon(v).items[i] == CoreCanon(items[i]) && Canon(v).items[i] == Canon(items[i]);
        JcsIsInOrder(items[i]);
      }
    case Object(members) =>
      var core, canon := CoreMembers(members), CanonMembers(members);
      RankedAreShared(core, canon, KeyOf());
      SharedOrderIsInOrder(members, core, canon);
      forall i | 0 <= i < |members| ensures IndexKeysInOrder(members[i].value) {
        assert core[i] in canon;
        var j :| 0 <= j < |members| && canon[j] == core[i];
        OnePosition(members, i, j);
        JcsIsInOrder(members[i].value);
      }
    case _ =>
  }

  lemma SharedOrderIsInOrder(members: seq<Member>, core: seq<Member>, canon: seq<Member>)
    requires |core| == |canon| == |members| && Sort(core, RankOf()) == Sort(canon, KeyOf())
    requires forall i | 0 <= i < |members| :: canon[i].key == members[i].key
    ensures KeysInOrder(members)
  {
    hide Sort, Rank, IndexBelow, TextLess;
    var sorted := Sort(canon, KeyOf());
    SortSorts(core, RankOf());
    SortSorts(canon, KeyOf());
    forall i, j | 0 <= i < |members| && 0 <= j < |members| && TextLess(members[i].key, members[j].key)
      ensures IndexBelow(members[i].key, members[j].key)
    {
      assert canon[i] in multiset(canon) && canon[j] in multiset(canon);
      assert canon[i] in multiset(sorted) && canon[j] in multiset(sorted);
      var p :| 0 <= p < |sorted| && sorted[p] == canon[i];
      var q :| 0 <= q < |sorted| && sorted[q] == canon[j];
      TextLessTrichotomy(members[i].key, members[j].key);
      SortedPositions(sorted, p, q);
      assert TextAtMost(RankOf()(sorted[p]), RankOf()(sorted[q]));
      RankedBelow(members[i].key, members[j].key);
    }
  }

  /**
   `canonicalJson` is the text of RFC 8785 exactly where that takes the value and array-index keys are in text order.
   */
  lemma AgreesWithJcsExactly(v: Json)
    requires WellFormed(v) && IsJson(v)
    ensures Serialize(v) == Some(CanonicalJson(v)) <==> Serializable(v) && IndexKeysInOrder(v)
  {
    hide Render, CoreCanon, Plain, CanonicalJson, Canon, IndexKeysInOrder;
    CanonicalJsonIs(v);
    if Serializable(v) { CanonIsPlain(v); }
    if IndexKeysInOrder(v) { InOrderIsJcs(v); }
    if Serialize(v) == Some(CanonicalJson(v)) {
      assert Render(CoreCanon(v)) + [] == Render(Canon(v)) + [];
      RenderIsDecodable(CoreCanon(v), Canon(v), [], []);
      JcsIsInOrder(v);
    }
  }

  /** `{"10":null,"9":null}` stays in this order under RFC 8785 and is turned round by `canonicalJson`. */
  lemma IndexKeysAreTurnedRound()
    ensures var v := Object([Member([0x31, 0x30], Null), Member([0x39], Null)]);
            WellFormed(v) && IsJson(v) && Serializable(v) && Serialize(v) != Some(CanonicalJson(v))
  {
    var ten, nine: Text := [0x31, 0x30], [0x39];
    var v := Object([Member(ten, Null), Member(nine, Null)]);
    assert WellFormed(v) by { assert ten != nine; }
    assert WellPaired(ten) && WellPaired(nine);
    assert Serializable(v);
    assert Value(nine) == 9 by { assert Value(nine[1..]) == 0; }
    assert Value(ten) >= 10 by { assert Value(ten) == 1 * Pow10(1) + Value(ten[1..]); }
    assert TextLess(ten, nine) && IsIndex(nine);
    assert !IndexBelow(v.members[0].key, v.members[1].key);
    assert !KeysInOrder(v.members);
    AgreesWithJcsExactly(v);
  }
}
