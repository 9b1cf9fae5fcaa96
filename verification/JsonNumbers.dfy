/**
 `JSON.stringify` of a number: Number::toString of ECMA-262, section 6.1.6.1.20, which section 3.2.2.3 of
 RFC 8785 takes over.  A finite non-zero number is its sign, its shortest decimal digits and the position of
 the decimal point relative to them; which digits are the shortest for a double is not part of this model.
 */
module JsonNumbers {
  import opened Canonical

  const ZERO: CodeUnit := 0x30
  const POINT: CodeUnit := 0x2E
  const MINUS: CodeUnit := 0x2D
  const PLUS: CodeUnit := 0x2B
  const EXPONENT: CodeUnit := 0x65

  predicate IsDigit(c: CodeUnit) { 0x30 <= c <= 0x39 }

  predicate AllDigits(t: Text) { forall i | 0 <= i < |t| :: IsDigit(t[i]) }

  /** Shortest digits neither start nor end with a zero. */
  predicate ShortestDigits(t: Text) { t != [] && AllDigits(t) && t[0] != ZERO && t[|t| - 1] != ZERO }

  type Digits = t: Text | ShortestDigits(t) witness [0x31]

  /** `Finite` is 0.digits times ten to the power `point`. */
  datatype Number =
    | NotFinite
    | Zero(negativeZero: bool)
    | Finite(negative: bool, digits: Digits, point: int)

  function Zeros(n: nat): (t: Text)
    ensures |t| == n && forall i | 0 <= i < n :: t[i] == ZERO
  {
    seq(n, _ => ZERO)
  }

  function Decimal(n: nat): (t: Text)
    ensures t != [] && AllDigits(t)
  {
    if n < 10 then [(0x30 + n) as CodeUnit] else Decimal(n / 10) + [(0x30 + n % 10) as CodeUnit]
  }

  lemma {:induction false} DecimalIsInjective(m: nat, n: nat)
    requires Decimal(m) == Decimal(n)
    ensures m == n
  {
    var last := |Decimal(m)| - 1;
    assert Decimal(m)[last] == Decimal(n)[last];
    assert Decimal(m)[last] as int == 0x30 + m % 10 && Decimal(n)[last] as int == 0x30 + n % 10;
    if m >= 10 && n >= 10 {
      assert Decimal(m / 10) == Decimal(m)[..last] == Decimal(n)[..last] == Decimal(n / 10);
      DecimalIsInjective(m / 10, n / 10);
    }
  }

  predicate IsWhole(digits: Digits, point: int) { |digits| <= point <= 21 }

  predicate IsMixed(digits: Digits, point: int) { 0 < point < |digits| && point <= 21 }

  predicate IsFraction(digits: Digits, point: int) { -6 < point <= 0 }

  function Mantissa(digits: Digits): Text
  {
    if |digits| == 1 then digits else digits[..1] + [POINT] + digits[1..]
  }

  function ExponentText(point: int): Text {
    if point - 1 > 0 then [PLUS] + Decimal(point - 1) else [MINUS] + Decimal(1 - point)
  }

  function Magnitude(digits: Digits, point: int): Text
  {
    if IsWhole(digits, point) then digits + Zeros(point - |digits|)
    else if IsMixed(digits, point) then digits[..point] + [POINT] + digits[point..]
    else if IsFraction(digits, point) then [ZERO, POINT] + Zeros(-point) + digits
    else Mantissa(digits) + [EXPONENT] + ExponentText(point)
  }

  function NumberText(x: Number): Text
    requires !x.NotFinite?
  {
    if x.Zero? then [ZERO]
    else if x.negative then [MINUS] + Magnitude(x.digits, x.point)
    else Magnitude(x.digits, x.point)
  }

  /******* Reading a number back *******/

  /** Splitting at the first occurrence of a separator is unique. */
  lemma SplitIsUnique(a: Text, b: Text, c: CodeUnit, s: Text, t: Text)
    requires c !in a && c !in b
    requires a + [c] + s == b + [c] + t
    ensures a == b && s == t
  {
    var whole, other := a + [c] + s, b + [c] + t;
    assert whole[|a|] == c && other[|b|] == c;
    assert forall i | 0 <= i < |a| :: whole[i] == a[i];
    assert forall i | 0 <= i < |b| :: other[i] == b[i];
    assert |a| == |b|;
    assert whole[..|a|] == a && other[..|b|] == b;
    assert whole[|a| + 1..] == s && other[|b| + 1..] == t;
  }

  /** The four forms can be told apart: by an exponent, a leading zero, a decimal point. */
  lemma FormsAreDistinct(digits: Digits, point: int)
    ensures var t := Magnitude(digits, point);
            && t != []
            && IsDigit(t[0])
            && (EXPONENT in t <==> !IsWhole(digits, point) && !IsMixed(digits, point) && !IsFraction(digits, point))
            && (t[0] == ZERO <==> IsFraction(digits, point))
            && (POINT !in t ==> !IsMixed(digits, point) && !IsFraction(digits, point))
            && (IsWhole(digits, point) ==> POINT !in t)
            && (t[0] == ZERO ==> |t| > 1)
  {
    var t := Magnitude(digits, point);
    if IsWhole(digits, point) {
      assert t[0] == digits[0];
    } else if IsMixed(digits, point) {
      assert t[0] == digits[0] && t[point] == POINT;
    } else if IsFraction(digits, point) {
      assert t[0] == ZERO && t[1] == POINT;
    } else {
      assert t[0] == digits[0] && t[|Mantissa(digits)|] == EXPONENT;
    }
  }

  lemma WholeIsInjective(a: Digits, m: int, b: Digits, n: int)
    requires IsWhole(a, m) && IsWhole(b, n)
    requires Magnitude(a, m) == Magnitude(b, n)
    ensures a == b && m == n
  {
    var t, u := Magnitude(a, m), Magnitude(b, n);
    assert |t| == m && |u| == n;
    assert t[|a| - 1] == a[|a| - 1] && u[|b| - 1] == b[|b| - 1];
    assert forall i | |a| <= i < m :: t[i] == ZERO;
    assert forall i | |b| <= i < n :: u[i] == ZERO;
    assert |a| == |b|;
    assert t[..|a|] == a && u[..|b|] == b;
  }

  lemma MixedIsInjective(a: Digits, m: int, b: Digits, n: int)
    requires IsMixed(a, m) && IsMixed(b, n)
    requires Magnitude(a, m) == Magnitude(b, n)
    ensures a == b && m == n
  {
    SplitIsUnique(a[..m], b[..n], POINT, a[m..], b[n..]);
    assert a == a[..m] + a[m..] && b == b[..n] + b[n..];
  }

  lemma FractionIsInjective(a: Digits, m: int, b: Digits, n: int)
    requires IsFraction(a, m) && IsFraction(b, n)
    requires Magnitude(a, m) == Magnitude(b, n)
    ensures a == b && m == n
  {
    var t, u := Magnitude(a, m), Magnitude(b, n);
    assert t[2 - m] == a[0] && u[2 - n] == b[0];
    assert forall i | 2 <= i < 2 - m :: t[i] == ZERO;
    assert forall i | 2 <= i < 2 - n :: u[i] == ZERO;
    assert m == n;
    assert t[2 - m..] == a && u[2 - n..] == b;
  }

  lemma ScientificIsInjective(a: Digits, m: int, b: Digits, n: int)
    requires Mantissa(a) + [EXPONENT] + ExponentText(m) == Mantissa(b) + [EXPONENT] + ExponentText(n)
    ensures a == b && m == n
  {
    SplitIsUnique(Mantissa(a), Mantissa(b), EXPONENT, ExponentText(m), ExponentText(n));
    assert ExponentText(m)[0] == ExponentText(n)[0];
    assert ExponentText(m)[1..] == ExponentText(n)[1..];
    DecimalIsInjective(if m - 1 > 0 then m - 1 else 1 - m, if n - 1 > 0 then n - 1 else 1 - n);
    if |a| > 1 && |b| > 1 {
      SplitIsUnique(a[..1], b[..1], POINT, a[1..], b[1..]);
      assert a == a[..1] + a[1..] && b == b[..1] + b[1..];
    }
  }

  lemma MagnitudeIsInjective(a: Digits, m: int, b: Digits, n: int)
    requires Magnitude(a, m) == Magnitude(b, n)
    ensures a == b && m == n
  {
    FormsAreDistinct(a, m);
    FormsAreDistinct(b, n);
    if IsWhole(a, m) {
      WholeIsInjective(a, m, b, n);
    } else if IsMixed(a, m) {
      MixedIsInjective(a, m, b, n);
    } else if IsFraction(a, m) {
      FractionIsInjective(a, m, b, n);
    } else {
      ScientificIsInjective(a, m, b, n);
    }
  }

  /** Numbers are the same when they are equal, and the two zeros are. */
  predicate SameNumber(x: Number, y: Number) { x == y || (x.Zero? && y.Zero?) }

  lemma {:induction false} NumberTextIsInjective(x: Number, y: Number)
    requires !x.NotFinite? && !y.NotFinite?
    requires NumberText(x) == NumberText(y)
    ensures SameNumber(x, y)
  {
    if x.Finite? { FormsAreDistinct(x.digits, x.point); }
    if y.Finite? { FormsAreDistinct(y.digits, y.point); }
    if x.Finite? && y.Finite? {
      assert NumberText(x)[0] == NumberText(y)[0];
      if x.negative { assert NumberText(x)[1..] == NumberText(y)[1..]; }
      MagnitudeIsInjective(x.digits, x.point, y.digits, y.point);
    }
  }

  predicate IsNumberUnit(c: CodeUnit) { IsDigit(c) || c == POINT || c == MINUS || c == PLUS || c == EXPONENT }

  predicate AllNumberUnits(t: Text) { forall i | 0 <= i < |t| :: IsNumberUnit(t[i]) }

  lemma MagnitudeUnits(digits: Digits, point: int)
    ensures AllNumberUnits(Magnitude(digits, point))
  {
    if IsWhole(digits, point) {
      assert AllNumberUnits(digits) && AllNumberUnits(Zeros(point - |digits|));
    } else if IsMixed(digits, point) {
      assert AllNumberUnits(digits[..point]) && AllNumberUnits(digits[point..]);
    } else if IsFraction(digits, point) {
      assert AllNumberUnits([ZERO, POINT]) && AllNumberUnits(Zeros(-point)) && AllNumberUnits(digits);
    } else {
      assert AllNumberUnits(digits[..1]) && AllNumberUnits(digits[1..]);
      assert AllNumberUnits(Mantissa(digits)) && AllNumberUnits(ExponentText(point));
    }
  }

  lemma NumberUnits(x: Number)
    requires !x.NotFinite?
    ensures NumberText(x) != []
    ensures IsDigit(NumberText(x)[0]) || NumberText(x)[0] == MINUS
    ensures AllNumberUnits(NumberText(x))
  {
    if x.Finite? {
      hide Magnitude;
      FormsAreDistinct(x.digits, x.point);
      MagnitudeUnits(x.digits, x.point);
    }
  }

  /** What may follow a number in a JSON text: nothing, or a unit no number contains. */
  predicate EndsNumber(s: Text) { s == [] || !IsNumberUnit(s[0]) }

  lemma {:induction false} NumberTextIsDecodable(x: Number, y: Number, s: Text, t: Text)
    requires !x.NotFinite? && !y.NotFinite?
    requires EndsNumber(s) && EndsNumber(t)
    requires NumberText(x) + s == NumberText(y) + t
    ensures SameNumber(x, y) && s == t
  {
    NumberUnits(x);
    NumberUnits(y);
    var a, b := NumberText(x), NumberText(y);
    assert s != [] ==> (a + s)[|a|] == s[0];
    assert t != [] ==> (b + t)[|b|] == t[0];
    assert forall i | 0 <= i < |a| :: (a + s)[i] == a[i];
    assert forall i | 0 <= i < |b| :: (b + t)[i] == b[i];
    assert |a| == |b|;
    assert (a + s)[..|a|] == a && (b + t)[..|b|] == b;
    assert (a + s)[|a|..] == s && (b + t)[|b|..] == t;
    NumberTextIsInjective(x, y);
  }
}
