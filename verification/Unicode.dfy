/**
 UTF-16 text and its scalars: `assertUnicodeScalarString` of `src/personal-data/canonical.ts`.
 */
module Unicode {
  import opened Canonical

  predicate IsHighSurrogate(c: CodeUnit) { 0xD800 <= c <= 0xDBFF }

  predicate IsLowSurrogate(c: CodeUnit) { 0xDC00 <= c <= 0xDFFF }

  /** A Unicode scalar value: any code point that is not a surrogate. */
  newtype Scalar = x: int | 0 <= x <= 0x10FFFF && !(0xD800 <= x <= 0xDFFF)

  function EncodeScalar(x: Scalar): (t: Text)
    ensures t != []
  {
    if x < 0x10000 then [x as CodeUnit]
    else
      var offset := x as int - 0x10000;
      [(0xD800 + offset / 0x400) as CodeUnit, (0xDC00 + offset % 0x400) as CodeUnit]
  }

  /** The UTF-16 form of a sequence of scalars. */
  function Utf16(s: seq<Scalar>): Text {
    if s == [] then [] else EncodeScalar(s[0]) + Utf16(s[1..])
  }

  /** Every high surrogate is followed by a low one, and every low one follows a high one. */
  predicate WellPaired(t: Text) {
    if t == [] then true
    else if IsHighSurrogate(t[0]) then |t| > 1 && IsLowSurrogate(t[1]) && WellPaired(t[2..])
    else !IsLowSurrogate(t[0]) && WellPaired(t[1..])
  }

  function Scalars(t: Text): seq<Scalar>
    requires WellPaired(t)
  {
    if t == [] then []
    else if IsHighSurrogate(t[0]) then
      [(0x10000 + (t[0] as int - 0xD800) * 0x400 + (t[1] as int - 0xDC00)) as Scalar] + Scalars(t[2..])
    else [t[0] as int as Scalar] + Scalars(t[1..])
  }

  lemma {:induction false} ScalarsEncodeBack(t: Text)
    requires WellPaired(t)
    ensures Utf16(Scalars(t)) == t
  {
    if t == [] {
    } else if IsHighSurrogate(t[0]) {
      ScalarsEncodeBack(t[2..]);
      var high, low := t[0] as int - 0xD800, t[1] as int - 0xDC00;
      assert (high * 0x400 + low) / 0x400 == high && (high * 0x400 + low) % 0x400 == low;
      assert Scalars(t)[1..] == Scalars(t[2..]);
      assert t == [t[0], t[1]] + t[2..];
    } else {
      ScalarsEncodeBack(t[1..]);
      assert Scalars(t)[1..] == Scalars(t[1..]);
      assert t == [t[0]] + t[1..];
    }
  }

  lemma {:induction false} EncodingIsWellPaired(s: seq<Scalar>)
    ensures WellPaired(Utf16(s))
  {
    if s != [] {
      EncodingIsWellPaired(s[1..]);
      var first := EncodeScalar(s[0]);
      assert Utf16(s)[|first|..] == Utf16(s[1..]);
    }
  }

  /** The check accepts exactly the texts that are the UTF-16 form of some scalars. */
  lemma WellPairedExactlyWhenUnicode(t: Text)
    ensures WellPaired(t) <==> exists s: seq<Scalar> :: Utf16(s) == t
  {
    if WellPaired(t) { ScalarsEncodeBack(t); }
    forall s: seq<Scalar> | Utf16(s) == t ensures WellPaired(t) { EncodingIsWellPaired(s); }
  }

  /** `assertUnicodeScalarString`, with `false` for its throw. */
  method IsUnicodeScalarString(value: Text) returns (ok: bool)
    ensures ok <==> WellPaired(value)
  {
    var index := 0;
    while index < |value|
      invariant 0 <= index <= |value|
      invariant WellPaired(value) <==> WellPaired(value[index..])
    {
      var code := value[index];
      if IsHighSurrogate(code) {
        if index + 1 == |value| || !IsLowSurrogate(value[index + 1]) { return false; }
        assert value[index..][2..] == value[index + 2..];
        index := index + 1;
      } else if IsLowSurrogate(code) {
        return false;
      } else {
        assert value[index..][1..] == value[index + 1..];
      }
      index := index + 1;
    }
    return true;
  }
}
