/**
 JSON texts as RFC 8259 defines them, read without the serializer: what a string, a number and a whole text denote.
 The canonical serializer writes such texts of its values, in the layout that RFC 8785 asks for.
 */
module JsonSyntax {
  import opened Options
  import opened Canonical
  import opened Unicode
  import opened JsonStrings
  import opened JsonNumbers

  function UnitOf(c: char): CodeUnit { (c as int % 0x10000) as CodeUnit }

  function Units(s: string): (t: Text)
    ensures |t| == |s| && forall i | 0 <= i < |t| :: t[i] == UnitOf(s[i])
  {
    seq(|s|, i requires 0 <= i < |s| => UnitOf(s[i]))
  }

  /******* Strings (section 7) *******/

  /** The value of a hexadecimal digit, in either case. */
  function HexOf(c: CodeUnit): Option<int> {
    if UnitOf('0') <= c <= UnitOf('9') then Some(c as int - '0' as int)
    else if UnitOf('a') <= c <= UnitOf('f') then Some(c as int - 'a' as int + 10)
    else if UnitOf('A') <= c <= UnitOf('F') then Some(c as int - 'A' as int + 10)
    else None
  }

  lemma HexIsSmall(c: CodeUnit)
    ensures HexOf(c).Some? ==> 0 <= HexOf(c).value < 16
  {}

  /** The unit that four hexadecimal digits name. */
  function FromHex(a: CodeUnit, b: CodeUnit, c: CodeUnit, d: CodeUnit): Option<CodeUnit> {
    HexIsSmall(a);
    HexIsSmall(b);
    HexIsSmall(c);
    HexIsSmall(d);
    if HexOf(a).None? || HexOf(b).None? || HexOf(c).None? || HexOf(d).None? then None
    else Some((HexOf(a).value * 0x1000 + HexOf(b).value * 0x100 + HexOf(c).value * 0x10 + HexOf(d).value) as CodeUnit)
  }

  function ShortEscape(c: CodeUnit): Option<CodeUnit> {
    if c == UnitOf('"') || c == UnitOf('\\') || c == UnitOf('/') then Some(c)
    else if c == UnitOf('b') then Some(0x08)
    else if c == UnitOf('f') then Some(0x0C)
    else if c == UnitOf('n') then Some(0x0A)
    else if c == UnitOf('r') then Some(0x0D)
    else if c == UnitOf('t') then Some(0x09)
    else None
  }

  function Before(c: Option<CodeUnit>, rest: Option<Text>): Option<Text> {
    if c.Some? && rest.Some? then Some([c.value] + rest.value) else None
  }

  /** What stands between the quotes of a JSON string denotes. */
  function Unescape(t: Text): Option<Text> {
    if t == [] then Some([])
    else if t[0] == UnitOf('"') || t[0] < 0x20 then None
    else if t[0] != UnitOf('\\') then Before(Some(t[0]), Unescape(t[1..]))
    else if |t| >= 6 && t[1] == UnitOf('u') then Before(FromHex(t[2], t[3], t[4], t[5]), Unescape(t[6..]))
    else if |t| >= 2 then Before(ShortEscape(t[1]), Unescape(t[2..]))
    else None
  }

  predicate IsStringOf(t: Text, s: Text) {
    |t| >= 2 && t[0] == UnitOf('"') && t[|t| - 1] == UnitOf('"') && Unescape(t[1..|t| - 1]) == Some(s)
  }

  lemma HexDigitReads(n: int)
    requires 0 <= n < 16
    ensures HexOf(HexDigit(n)) == Some(n)
  {}

  lemma HexEscapeReads(c: CodeUnit, rest: Text)
    ensures Unescape(HexEscape(c) + rest) == Before(Some(c), Unescape(rest))
  {
    var t, x := HexEscape(c) + rest, c as int;
    HexDigitReads(x / 16 / 16 / 16);
    HexDigitReads(x / 16 / 16 % 16);
    HexDigitReads(x / 16 % 16);
    HexDigitReads(x % 16);
    JsonStrings.HexValue(x);
    assert t[2] == HexDigit(x / 16 / 16 / 16) && t[3] == HexDigit(x / 16 / 16 % 16);
    assert t[4] == HexDigit(x / 16 % 16) && t[5] == HexDigit(x % 16);
    assert t[6..] == rest;
  }

  lemma EscapeUnitReads(c: CodeUnit, rest: Text)
    ensures Unescape(EscapeUnit(c) + rest) == Before(Some(c), Unescape(rest))
  {
    var e := EscapeUnit(c);
    var t := e + rest;
    assert forall i | 0 <= i < |e| :: t[i] == e[i];
    assert t[|e|..] == rest;
    if |e| == 6 {
      HexDigitReads(c as int / 16);
      HexDigitReads(c as int % 16);
    }
  }

  lemma PairReads(high: CodeUnit, low: CodeUnit, rest: Text, read: Text)
    requires IsHighSurrogate(high) && IsLowSurrogate(low) && Unescape(rest) == Some(read)
    ensures Unescape([high, low] + rest) == Some([high, low] + read)
  {
    var t, u := [high, low] + rest, [low] + rest;
    assert t[1..] == u && u[1..] == rest;
    assert Unescape(u) == Some([low] + read);
    assert [high] + ([low] + read) == [high, low] + read;
  }

  lemma FirstReads(t: Text, rest: Text, read: Text)
    requires t != [] && Unescape(rest) == Some(read)
    ensures Unescape(EscapeFirst(t) + rest) == Some(t[..Width(t)] + read)
  {
    hide Unescape, EscapeUnit, HexEscape;
    if Paired(t) {
      PairReads(t[0], t[1], rest, read);
      assert t[..2] == [t[0], t[1]];
    } else {
      assert t[..1] == [t[0]];
      if IsSurrogate(t[0]) { HexEscapeReads(t[0], rest); } else { EscapeUnitReads(t[0], rest); }
    }
  }

  lemma EscapeUnrolls(t: Text)
    ensures Unescape([]) == Some([])
    ensures Escape(t) == if t == [] then [] else EscapeFirst(t) + Escape(t[Width(t)..])
  {}

  /** An escaped text denotes the text. */
  lemma {:induction false} EscapedReads(t: Text)
    ensures Unescape(Escape(t)) == Some(t)
    decreases |t|
  {
    hide *;
    EscapeUnrolls(t);
    if t != [] {
      var rest := t[Width(t)..];
      EscapedReads(rest);
      FirstReads(t, Escape(rest), rest);
      assert t == t[..Width(t)] + rest;
    }
  }

  /** A serialized string is a JSON string of the text. */
  lemma StringTextIsString(t: Text)
    ensures IsStringOf(StringText(t), t)
  {
    EscapedReads(t);
    assert StringText(t)[1..|StringText(t)| - 1] == Escape(t);
  }

  predicate IsLowerHex(c: CodeUnit) { UnitOf('0') <= c <= UnitOf('9') || UnitOf('a') <= c <= UnitOf('f') }

  /** Section 3.2.2.2 of RFC 8785: raw where it may be, short where there is a short escape, else in lower case. */
  lemma EscapedExactly(c: CodeUnit)
    ensures EscapeUnit(c) == [c] <==> c >= 0x20 && c != UnitOf('"') && c != UnitOf('\\')
    ensures |EscapeUnit(c)| == 2 <==> c in {0x08, 0x09, 0x0A, 0x0C, 0x0D, UnitOf('"'), UnitOf('\\')}
    ensures |EscapeUnit(c)| in {1, 2, 6}
    ensures |EscapeUnit(c)| == 6 ==>
              EscapeUnit(c)[1] == UnitOf('u') && forall i | 2 <= i < 6 :: IsLowerHex(EscapeUnit(c)[i])
  {}

  lemma HexEscapeIsLower(c: CodeUnit)
    ensures forall i | 2 <= i < 6 :: IsLowerHex(HexEscape(c)[i])
  {
    var h, x := HexEscape(c), c as int;
    assert h[2] == HexDigit(x / 16 / 16 / 16) && h[3] == HexDigit(x / 16 / 16 % 16);
    assert h[4] == HexDigit(x / 16 % 16) && h[5] == HexDigit(x % 16);
  }

  /** A pair stays raw, and only a surrogate without a partner is escaped, in lower case too. */
  lemma FirstEscapedExactly(t: Text)
    requires t != []
    ensures var pair := |t| > 1 && 0xD800 <= t[0] <= 0xDBFF && 0xDC00 <= t[1] <= 0xDFFF;
            && (pair ==> EscapeFirst(t) == t[..2])
            && (!pair && !(0xD800 <= t[0] <= 0xDFFF) ==> EscapeFirst(t) == EscapeUnit(t[0]))
            && (!pair && 0xD800 <= t[0] <= 0xDFFF ==>
                  |EscapeFirst(t)| == 6 && forall i | 2 <= i < 6 :: IsLowerHex(EscapeFirst(t)[i]))
  {
    hide HexEscape, EscapeUnit, IsLowerHex;
    HexEscapeIsLower(t[0]);
    if |t| > 1 { assert t[..2] == [t[0], t[1]]; }
  }

  /******* Numbers (section 6) *******/

  /** `-`, an integer part, a fraction and an exponent with its sign; the last two may be missing. */
  datatype Numeral = Numeral(minus: bool, whole: Text, fraction: Text, exponent: Option<Power>)

  datatype Power = Power(minus: bool, digits: Text)

  predicate AreDigits(t: Text) { forall i | 0 <= i < |t| :: UnitOf('0') <= t[i] <= UnitOf('9') }

  /** No leading zero, and digits wherever there is a part. */
  predicate IsNumeral(d: Numeral) {
    && d.whole != [] && AreDigits(d.whole) && (|d.whole| > 1 ==> d.whole[0] != UnitOf('0')) && AreDigits(d.fraction)
    && (d.exponent.Some? ==> d.exponent.value.digits != [] && AreDigits(d.exponent.value.digits))
  }

  function UnsignedText(d: Numeral): Text {
    d.whole + (if d.fraction == [] then [] else Units(".") + d.fraction)
    + if d.exponent.None? then [] else Units(if d.exponent.value.minus then "e-" else "e+") + d.exponent.value.digits
  }

  function NumeralText(d: Numeral): Text { (if d.minus then Units("-") else []) + UnsignedText(d) }

  function DigitsValue(t: Text): int {
    if t == [] then 0 else DigitsValue(t[..|t| - 1]) * 10 + (t[|t| - 1] as int - '0' as int)
  }

  function Pow10(n: nat): nat { if n == 0 then 1 else 10 * Pow10(n - 1) }

  function PowerValue(p: Power): int { if p.minus then -DigitsValue(p.digits) else DigitsValue(p.digits) }

  /** The power of ten that the last digit of the numeral stands for. */
  function Scale(d: Numeral): int { (if d.exponent.None? then 0 else PowerValue(d.exponent.value)) - |d.fraction| }

  /** 0.digits times ten to the power `point`: the same digits, and zeros that the scale takes back. */
  ghost predicate HasValue(d: Numeral, digits: Text, point: int) {
    exists zeros: nat :: DigitsValue(d.whole + d.fraction) == DigitsValue(digits) * Pow10(zeros)
                         && Scale(d) == point - |digits| - zeros
  }

  /**
   The layout of ECMA-262, section 6.1.6.1.20: an exponent exactly for what lies outside 1e-6 to 1e21, after one digit
   that is no zero, and no zeros that say nothing.
   */
  predicate IsLaidOut(d: Numeral, point: int) {
    && (d.exponent.Some? <==> point > 21 || point <= -6)
    && (d.exponent.Some? ==>
          && |d.whole| == 1 && d.whole[0] != UnitOf('0')
          && d.exponent.value.digits != [] && d.exponent.value.digits[0] != UnitOf('0')
          && (d.exponent.value.minus <==> point < 1))
    && (d.fraction != [] ==> d.fraction[|d.fraction| - 1] != UnitOf('0'))
  }

  /** The text is the one JSON number that ECMA-262 writes for this value. */
  ghost predicate IsNumberOf(t: Text, x: Number) {
    match x
    case NotFinite => false
    case Zero(_) => t == Units("0")
    case Finite(negative, digits, point) =>
      exists d :: IsNumeral(d) && t == NumeralText(d) && d.minus == negative && HasValue(d, digits, point)
                  && IsLaidOut(d, point)
  }

  lemma {:induction false} ZerosBehind(t: Text, n: nat)
    ensures DigitsValue(t + Zeros(n)) == DigitsValue(t) * Pow10(n)
  {
    var u := t + Zeros(n);
    if n == 0 {
      assert u == t;
    } else {
      assert u[..|u| - 1] == t + Zeros(n - 1);
      ZerosBehind(t, n - 1);
    }
  }

  lemma {:induction false} ZerosInFront(n: nat, t: Text)
    ensures DigitsValue(Zeros(n) + t) == DigitsValue(t)
  {
    var u := Zeros(n) + t;
    if t != [] {
      assert u[..|u| - 1] == Zeros(n) + t[..|t| - 1];
      ZerosInFront(n, t[..|t| - 1]);
    } else if n > 0 {
      assert u[..|u| - 1] == Zeros(n - 1) + t;
      ZerosInFront(n - 1, t);
    }
  }

  lemma {:induction false} DecimalReads(n: nat)
    ensures DigitsValue(Decimal(n)) == n && AreDigits(Decimal(n))
    ensures n > 0 ==> Decimal(n)[0] != UnitOf('0')
  {
    if n >= 10 {
      DecimalReads(n / 10);
      assert Decimal(n)[..|Decimal(n)| - 1] == Decimal(n / 10);
    }
  }

  function NumeralOf(negative: bool, digits: Digits, point: int): Numeral {
    if IsWhole(digits, point) then Numeral(negative, digits + Zeros(point - |digits|), [], None)
    else if IsMixed(digits, point) then Numeral(negative, digits[..point], digits[point..], None)
    else if IsFraction(digits, point) then Numeral(negative, [ZERO], Zeros(-point) + digits, None)
    else
      var power := if point > 1 then Power(false, Decimal(point - 1)) else Power(true, Decimal(1 - point));
      Numeral(negative, digits[..1], digits[1..], Some(power))
  }

  lemma NumeralIsLaidOut(negative: bool, digits: Digits, point: int)
    ensures var d := NumeralOf(negative, digits, point); IsNumeral(d) && IsLaidOut(d, point)
  {
    if point != 1 { DecimalReads(if point > 1 then point - 1 else 1 - point); }
  }

  lemma SignTexts()
    ensures Units("-") == [MINUS] && Units(".") == [POINT]
    ensures Units("e-") == [EXPONENT] + [MINUS] && Units("e+") == [EXPONENT] + [PLUS]
  {}

  lemma Regrouped(a: Text, b: CodeUnit, c: CodeUnit, d: Text)
    ensures a + ([b] + [c]) + d == a + [b] + ([c] + d)
  {}

  lemma MantissaParts(digits: Digits)
    ensures Mantissa(digits) == digits[..1] + if digits[1..] == [] then [] else [POINT] + digits[1..]
  {
    assert digits != [];
    if |digits| == 1 {
      assert digits[..1] + [] == digits;
    } else {
      assert digits[1..] != [];
      assert digits[..1] + [POINT] + digits[1..] == digits[..1] + ([POINT] + digits[1..]);
    }
  }

  lemma ScientificHasMagnitude(negative: bool, digits: Digits, point: int)
    requires !IsWhole(digits, point) && !IsMixed(digits, point) && !IsFraction(digits, point)
    ensures UnsignedText(NumeralOf(negative, digits, point)) == Magnitude(digits, point)
  {
    hide Decimal, Units, Mantissa, ShortestDigits, Zeros;
    SignTexts();
    MantissaParts(digits);
    var d, a := NumeralOf(negative, digits, point), Mantissa(digits);
    var c := if point > 1 then PLUS else MINUS;
    var power := d.exponent.value.digits;
    assert UnsignedText(d) == a + ([EXPONENT] + [c]) + power;
    Regrouped(a, EXPONENT, c, power);
    assert ExponentText(point) == [c] + power;
  }

  lemma NumeralHasMagnitude(negative: bool, digits: Digits, point: int)
    ensures UnsignedText(NumeralOf(negative, digits, point)) == Magnitude(digits, point)
  {
    if IsWhole(digits, point) || IsMixed(digits, point) || IsFraction(digits, point) {
      hide Units;
      SignTexts();
    } else {
      ScientificHasMagnitude(negative, digits, point);
    }
  }

  lemma NumeralHasText(negative: bool, digits: Digits, point: int)
    ensures NumeralText(NumeralOf(negative, digits, point)) == NumberText(Finite(negative, digits, point))
  {
    hide Magnitude, UnsignedText;
    SignTexts();
    NumeralHasMagnitude(negative, digits, point);
  }

  lemma NumeralHasValue(negative: bool, digits: Digits, point: int)
    ensures HasValue(NumeralOf(negative, digits, point), digits, point)
  {
    var d := NumeralOf(negative, digits, point);
    var zeros := if IsWhole(digits, point) then point - |digits| else 0;
    if IsWhole(digits, point) {
      assert d.whole + d.fraction == digits + Zeros(zeros);
      ZerosBehind(digits, zeros);
    } else if IsFraction(digits, point) {
      assert d.whole + d.fraction == Zeros(1 - point) + digits;
      ZerosInFront(1 - point, digits);
    } else {
      assert d.whole + d.fraction == digits;
      if point != 1 { DecimalReads(if point > 1 then point - 1 else 1 - point); }
    }
    assert DigitsValue(d.whole + d.fraction) == DigitsValue(digits) * Pow10(zeros)
           && Scale(d) == point - |digits| - zeros;
  }

  /** A serialized number is the JSON number of its value, laid out as ECMA-262 asks. */
  lemma NumberTextIsNumber(x: Number)
    requires !x.NotFinite?
    ensures IsNumberOf(NumberText(x), x)
  {
    if x.Finite? {
      var d := NumeralOf(x.negative, x.digits, x.point);
      NumeralIsLaidOut(x.negative, x.digits, x.point);
      NumeralHasText(x.negative, x.digits, x.point);
      NumeralHasValue(x.negative, x.digits, x.point);
      hide *;
      assert IsNumeral(d);
    }
  }
}
