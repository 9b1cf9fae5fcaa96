/**
 The canonical order every checksum rests on: `compareCanonicalStrings` and `[...values].sort(by key)`.
 Text is a sequence of UTF-16 code units, which is what `<` compares in the source language.
 */
module Canonical {

  newtype CodeUnit = x: int | 0 <= x < 0x1_0000

  type Text = seq<CodeUnit>

  /** `left < right`, unit by unit; a proper prefix is less. */
  predicate TextLess(a: Text, b: Text) {
    b != [] && (a == [] || a[0] < b[0] || (a[0] == b[0] && TextLess(a[1..], b[1..])))
  }

  predicate TextAtMost(a: Text, b: Text) { a == b || TextLess(a, b) }

  lemma {:induction false} TextLessTrichotomy(a: Text, b: Text)
    ensures TextLess(a, b) || a == b || TextLess(b, a)
    ensures !(TextLess(a, b) && TextLess(b, a))
    ensures !TextLess(a, a)
  {
    if a != [] { TextLessTrichotomy(a[1..], a[1..]); }
    if a != [] && b != [] && a[0] == b[0] {
      TextLessTrichotomy(a[1..], b[1..]);
      if a[1..] == b[1..] { assert a == [a[0]] + a[1..] == b; }
    }
  }

  lemma {:induction false} TextLessTransitive(a: Text, b: Text, c: Text)
    requires TextLess(a, b) && TextLess(b, c)
    ensures TextLess(a, c)
  {
    if a != [] && a[0] == b[0] == c[0] { TextLessTransitive(a[1..], b[1..], c[1..]); }
  }

  lemma TextAtMostTransitive(a: Text, b: Text, c: Text)
    requires TextAtMost(a, b) && TextAtMost(b, c)
    ensures TextAtMost(a, c)
  {
    if a != b && b != c { TextLessTransitive(a, b, c); }
  }

  /******* Sorting by key *******/

  predicate SortedBy<T>(s: seq<T>, key: T -> Text) {
    forall i, j | 0 <= i < j < |s| :: TextAtMost(key(s[i]), key(s[j]))
  }

  predicate DistinctBy<T>(s: seq<T>, key: T -> Text) {
    forall i, j | 0 <= i < j < |s| :: key(s[i]) != key(s[j])
  }

  /** Keeps `x`, the earlier element, in front of elements with an equal key: the sort is stable. */
  function Insert<T>(x: T, s: seq<T>, key: T -> Text): seq<T> {
    if s == [] || TextAtMost(key(x), key(s[0])) then [x] + s
    else [s[0]] + Insert(x, s[1..], key)
  }

  function Sort<T>(s: seq<T>, key: T -> Text): seq<T> {
    if s == [] then [] else Insert(s[0], Sort(s[1..], key), key)
  }

  lemma {:induction false} InsertSorts<T>(x: T, s: seq<T>, key: T -> Text)
    requires SortedBy(s, key)
    ensures SortedBy(Insert(x, s, key), key)
    ensures multiset(Insert(x, s, key)) == multiset([x]) + multiset(s)
    ensures Insert(x, s, key) != []
    ensures key(Insert(x, s, key)[0]) in {key(x), if s == [] then key(x) else key(s[0])}
  {
    if s == [] {
    } else if TextAtMost(key(x), key(s[0])) {
      forall i | 0 <= i < |s| ensures TextAtMost(key(x), key(s[i])) {
        TextAtMostTransitive(key(x), key(s[0]), key(s[i]));
      }
    } else {
      TextLessTrichotomy(key(x), key(s[0]));
      InsertSorts(x, s[1..], key);
      var rest := Insert(x, s[1..], key);
      assert s == [s[0]] + s[1..];
      forall i | 0 <= i < |rest| ensures TextAtMost(key(s[0]), key(rest[i])) {
        TextAtMostTransitive(key(s[0]), key(rest[0]), key(rest[i]));
      }
    }
  }

  lemma {:induction false} SortSorts<T>(s: seq<T>, key: T -> Text)
    ensures SortedBy(Sort(s, key), key)
    ensures multiset(Sort(s, key)) == multiset(s)
    ensures |Sort(s, key)| == |s|
  {
    if s != [] {
      SortSorts(s[1..], key);
      InsertSorts(s[0], Sort(s[1..], key), key);
      assert s == [s[0]] + s[1..];
    }
    assert |multiset(Sort(s, key))| == |multiset(s)|;
  }

  lemma {:induction false} SortKeepsSorted<T>(s: seq<T>, key: T -> Text)
    requires SortedBy(s, key)
    ensures Sort(s, key) == s
  {
    if s != [] {
      SortKeepsSorted(s[1..], key);
      assert s == [s[0]] + s[1..];
      if |s| > 1 { assert TextAtMost(key(s[0]), key(s[1])); }
    }
  }

  /** Two occurrences in the multiset are two positions in the sequence. */
  lemma TwoPositions<T>(s: seq<T>, x: T, y: T)
    requires multiset{x, y} <= multiset(s)
    ensures exists i, j :: 0 <= i < |s| && 0 <= j < |s| && i != j && s[i] == x && s[j] == y
  {
    assert multiset{x, y}[x] >= 1;
    assert x in multiset(s);
    var i :| 0 <= i < |s| && s[i] == x;
    var rest := s[..i] + s[i + 1..];
    assert s == s[..i] + [s[i]] + s[i + 1..];
    assert multiset(s) == multiset(rest) + multiset{x};
    assert multiset{x, y}[y] <= multiset(s)[y];
    assert y in multiset(rest);
    var k :| 0 <= k < |rest| && rest[k] == y;
    var j := if k < i then k else k + 1;
    assert s[j] == y && j != i;
  }

  lemma DistinctIsAboutContents<T>(a: seq<T>, b: seq<T>, key: T -> Text)
    requires multiset(a) == multiset(b) && DistinctBy(a, key)
    ensures DistinctBy(b, key)
  {
    forall i, j | 0 <= i < j < |b| ensures key(b[i]) != key(b[j]) {
      assert b == b[..i] + [b[i]] + b[i + 1..j] + [b[j]] + b[j + 1..];
      assert multiset{b[i], b[j]} <= multiset(b);
      TwoPositions(a, b[i], b[j]);
      var k, l :| 0 <= k < |a| && 0 <= l < |a| && k != l && a[k] == b[i] && a[l] == b[j];
      if k < l { assert key(a[k]) != key(a[l]); } else { assert key(a[l]) != key(a[k]); }
    }
  }

  /** Elements with one key are one element. */
  ghost predicate KeyDetermines<T>(s: seq<T>, key: T -> Text) {
    forall i, j | 0 <= i < |s| && 0 <= j < |s| :: key(s[i]) == key(s[j]) ==> s[i] == s[j]
  }

  lemma DistinctKeysDetermine<T>(s: seq<T>, key: T -> Text)
    requires DistinctBy(s, key)
    ensures KeyDetermines(s, key)
  {}

  lemma LeastIsShared<T>(a: seq<T>, b: seq<T>, key: T -> Text)
    requires multiset(a) == multiset(b) && a != [] && b != []
    requires SortedBy(a, key) && SortedBy(b, key) && KeyDetermines(a, key)
    ensures a[0] == b[0]
  {
    assert a[0] in multiset(a) && b[0] in multiset(b);
    assert a[0] in multiset(b) && b[0] in multiset(a);
    var i :| 0 <= i < |b| && b[i] == a[0];
    var j :| 0 <= j < |a| && a[j] == b[0];
    assert j > 0 ==> TextAtMost(key(a[0]), key(a[j]));
    assert i > 0 ==> TextAtMost(key(b[0]), key(b[i]));
    TextLessTrichotomy(key(a[0]), key(b[0]));
    assert key(a[0]) == key(a[j]);
  }

  lemma {:induction false} SortedIsUnique<T>(a: seq<T>, b: seq<T>, key: T -> Text)
    requires multiset(a) == multiset(b)
    requires SortedBy(a, key) && SortedBy(b, key) && KeyDetermines(a, key)
    ensures a == b
  {
    if a == [] {
      assert |multiset(b)| == 0;
    } else {
      assert |multiset(b)| > 0;
      LeastIsShared(a, b, key);
      assert a == [a[0]] + a[1..] && b == [b[0]] + b[1..];
      assert multiset(a[1..]) == multiset(a) - multiset{a[0]};
      assert multiset(b[1..]) == multiset(b) - multiset{b[0]};
      SortedIsUnique(a[1..], b[1..], key);
    }
  }

  lemma KeysDetermineContents<T>(a: seq<T>, b: seq<T>, key: T -> Text)
    requires multiset(a) == multiset(b) && KeyDetermines(a, key)
    ensures KeyDetermines(b, key)
  {
    forall i, j | 0 <= i < |b| && 0 <= j < |b| && key(b[i]) == key(b[j]) ensures b[i] == b[j] {
      assert b[i] in multiset(b) && b[j] in multiset(b);
      assert b[i] in multiset(a) && b[j] in multiset(a);
      var k :| 0 <= k < |a| && a[k] == b[i];
      var l :| 0 <= l < |a| && a[l] == b[j];
    }
  }

  lemma DeterminedSortIgnoresOrder<T>(a: seq<T>, b: seq<T>, key: T -> Text)
    requires multiset(a) == multiset(b) && KeyDetermines(a, key)
    ensures Sort(a, key) == Sort(b, key)
  {
    SortSorts(a, key);
    SortSorts(b, key);
    KeysDetermineContents(a, Sort(a, key), key);
    SortedIsUnique(Sort(a, key), Sort(b, key), key);
  }

  /** With distinct keys the sorted sequence depends only on what is in it, not on the order it came in. */
  lemma SortIgnoresOrder<T>(a: seq<T>, b: seq<T>, key: T -> Text)
    requires multiset(a) == multiset(b) && DistinctBy(a, key)
    ensures Sort(a, key) == Sort(b, key)
    ensures DistinctBy(Sort(a, key), key)
  {
    DistinctKeysDetermine(a, key);
    DeterminedSortIgnoresOrder(a, b, key);
    SortSorts(a, key);
    DistinctIsAboutContents(a, Sort(a, key), key);
  }
}
