/** Sorting by a key is stable, so it forgets the order things came in exactly when a key tells its element. */
module Ordering {
  import opened Canonical

  /******* Permutations *******/

  /** Where the first element of one order is in the other, and that the rest are permutations again. */
  lemma FirstIn<T>(a: seq<T>, b: seq<T>) returns (j: nat)
    requires multiset(a) == multiset(b) && a != []
    ensures j < |b| && b[j] == a[0]
    ensures multiset(a[1..]) == multiset(b[..j] + b[j + 1..])
  {
    assert a[0] in multiset(b);
    j :| 0 <= j < |b| && b[j] == a[0];
    assert a == [a[0]] + a[1..];
    assert b == b[..j] + [b[j]] + b[j + 1..];
    assert multiset(b) == multiset(b[..j] + b[j + 1..]) + multiset{a[0]};
    assert multiset(a) == multiset(a[1..]) + multiset{a[0]};
    assert multiset(a[1..]) == multiset(a) - multiset{a[0]};
  }

  /** The pointwise images of permutations are permutations. */
  lemma {:induction false} ImagesPermute<T, U>(a: seq<T>, b: seq<T>, x: seq<U>, y: seq<U>, f: T -> U)
    requires multiset(a) == multiset(b) && |x| == |a| && |y| == |b|
    requires (forall i | 0 <= i < |a| :: x[i] == f(a[i])) && (forall i | 0 <= i < |b| :: y[i] == f(b[i]))
    ensures multiset(x) == multiset(y)
    decreases |a|
  {
    if a == [] {
      assert |multiset(b)| == 0;
    } else {
      var j := FirstIn(a, b);
      ImagesPermute(a[1..], b[..j] + b[j + 1..], x[1..], y[..j] + y[j + 1..], f);
      assert x == [x[0]] + x[1..];
      assert y == y[..j] + [y[j]] + y[j + 1..];
    }
  }

  lemma {:induction false} MatchesPermute<T, U>(a: seq<T>, b: seq<T>, x: seq<U>, y: seq<U>)
    requires multiset(a) == multiset(b) && |x| == |a| && |y| == |b|
    requires forall i, j | 0 <= i < |a| && 0 <= j < |b| && a[i] == b[j] :: x[i] == y[j]
    ensures multiset(x) == multiset(y)
    decreases |a|
  {
    if a == [] {
      assert |multiset(b)| == 0;
    } else {
      var j := FirstIn(a, b);
      var v, w := b[..j] + b[j + 1..], y[..j] + y[j + 1..];
      forall i, k | 0 <= i < |a[1..]| && 0 <= k < |v| && a[1..][i] == v[k] ensures x[1..][i] == w[k] {
        assert a[i + 1] == b[if k < j then k else k + 1];
      }
      MatchesPermute(a[1..], v, x[1..], w);
      assert x == [x[0]] + x[1..];
      assert y == y[..j] + [y[j]] + y[j + 1..];
    }
  }

  /******* The sort is stable *******/

  /** The elements with key `k`, in order. */
  function WithKey<T>(s: seq<T>, key: T -> Text, k: Text): seq<T> {
    if s == [] then []
    else (if key(s[0]) == k then [s[0]] else []) + WithKey(s[1..], key, k)
  }

  lemma {:induction false} InsertIsStable<T>(x: T, s: seq<T>, key: T -> Text, k: Text)
    ensures WithKey(Insert(x, s, key), key, k) == (if key(x) == k then [x] else []) + WithKey(s, key, k)
  {
    if s != [] && !TextAtMost(key(x), key(s[0])) {
      InsertIsStable(x, s[1..], key, k);
      var rest := Insert(x, s[1..], key);
      assert Insert(x, s, key) == [s[0]] + rest;
      assert WithKey([s[0]] + rest, key, k) == (if key(s[0]) == k then [s[0]] else []) + WithKey(rest, key, k);
      assert key(x) == k ==> key(s[0]) != k;
    } else {
      assert WithKey([x] + s, key, k) == (if key(x) == k then [x] else []) + WithKey(s, key, k);
    }
  }

  lemma {:induction false} SortIsStable<T>(s: seq<T>, key: T -> Text, k: Text)
    ensures WithKey(Sort(s, key), key, k) == WithKey(s, key, k)
  {
    if s != [] {
      SortIsStable(s[1..], key, k);
      InsertIsStable(s[0], Sort(s[1..], key), key, k);
    }
  }

  lemma {:induction false} FirstWithKey<T>(s: seq<T>, key: T -> Text, i: nat)
    requires i < |s| && forall j | 0 <= j < i :: key(s[j]) != key(s[i])
    ensures WithKey(s, key, key(s[i])) != [] && WithKey(s, key, key(s[i]))[0] == s[i]
  {
    if i > 0 { FirstWithKey(s[1..], key, i - 1); }
  }

  function FirstIndex<T>(s: seq<T>, key: T -> Text, k: Text, limit: nat): (i: nat)
    requires limit < |s| && key(s[limit]) == k
    ensures i <= limit && key(s[i]) == k && forall j | 0 <= j < i :: key(s[j]) != k
  {
    if key(s[0]) == k then 0 else 1 + FirstIndex(s[1..], key, k, limit - 1)
  }

  /** Element `m` moved to the front. */
  function ToFront<T>(s: seq<T>, m: nat): (r: seq<T>)
    requires m < |s|
    ensures |r| == |s| && r[0] == s[m]
    ensures forall k | 0 < k <= m :: r[k] == s[k - 1]
    ensures forall k | m < k < |s| :: r[k] == s[k]
  {
    [s[m]] + s[..m] + s[m + 1..]
  }

  lemma ToFrontPermutes<T>(s: seq<T>, m: nat)
    requires m < |s|
    ensures multiset(ToFront(s, m)) == multiset(s)
  {
    assert s == s[..m] + [s[m]] + s[m + 1..];
  }

  /** A different element with the key of `s[i]`, moved to the front, shows in the sorted sequence. */
  lemma MovingShows<T>(s: seq<T>, key: T -> Text, i: nat, m: nat)
    requires i < |s| && m < |s| && key(s[m]) == key(s[i]) && s[m] != s[i]
    requires forall j | 0 <= j < i :: key(s[j]) != key(s[i])
    ensures Sort(ToFront(s, m), key) != Sort(s, key)
  {
    hide ToFront;
    FirstWithKey(s, key, i);
    FirstWithKey(ToFront(s, m), key, 0);
    SortIsStable(s, key, key(s[i]));
    SortIsStable(ToFront(s, m), key, key(s[i]));
  }

  /** Every order gives the same sorted sequence exactly when elements with one key are one element. */
  lemma OrderIsForgottenExactly<T(!new)>(a: seq<T>, key: T -> Text)
    ensures (forall b | multiset(b) == multiset(a) :: Sort(b, key) == Sort(a, key)) <==> KeyDetermines(a, key)
  {
    if KeyDetermines(a, key) {
      forall b | multiset(b) == multiset(a)
        ensures Sort(b, key) == Sort(a, key)
      {
        DeterminedSortIgnoresOrder(a, b, key);
      }
    } else {
      var i, j :| 0 <= i < |a| && 0 <= j < |a| && key(a[i]) == key(a[j]) && a[i] != a[j];
      var first := FirstIndex(a, key, key(a[i]), i);
      var other := if a[first] == a[i] then j else i;
      MovingShows(a, key, first, other);
      ToFrontPermutes(a, other);
    }
  }
}
