/**
 `JSON.stringify` of a string: two-character escapes, `\u00xx` escapes in lower case, surrogate pairs and other units
 raw, and surrogates without a partner as `\udxxx` (section 25.5.2.3 of ECMA-262).
 */
module JsonStrings {
  import opened Canonical
  import opened Unicode

  const QUOTE: CodeUnit := 0x22
  const BACKSLASH: CodeUnit := 0x5C

  function HexDigit(n: int): (c: CodeUnit)
    requires 0 <= n < 16
    ensures n < 10 ==> c as int == 0x30 + n
    ensures n >= 10 ==> c as int == 0x61 + n - 10
  {
    if n < 10 then (0x30 + n) as CodeUnit else (0x61 + n - 10) as CodeUnit
  }

  function EscapeUnit(c: CodeUnit): (t: Text)
    ensures t != []
  {
    if c == 0x08 then [BACKSLASH, 0x62]
    else if c == 0x09 then [BACKSLASH, 0x74]
    else if c == 0x0A then [BACKSLASH, 0x6E]
    else if c == 0x0C then [BACKSLASH, 0x66]
    else if c == 0x0D then [BACKSLASH, 0x72]
    else if c == QUOTE || c == BACKSLASH then [BACKSLASH, c]
    else if c < 0x20 then [BACKSLASH, 0x75, 0x30, 0x30, HexDigit(c as int / 16), HexDigit(c as int % 16)]
    else [c]
  }

  /** A surrogate pair comes first. */
  predicate Paired(t: Text) { |t| > 1 && IsHighSurrogate(t[0]) && IsLowSurrogate(t[1]) }

  predicate IsSurrogate(c: CodeUnit) { IsHighSurrogate(c) || IsLowSurrogate(c) }

  function Width(t: Text): nat
    requires t != []
    ensures 1 <= Width(t) <= |t|
  {
    if Paired(t) then 2 else 1
  }

  function HexEscape(c: CodeUnit): (t: Text)
    ensures |t| == 6
  {
    var x := c as int;
    [BACKSLASH, 0x75, HexDigit(x / 16 / 16 / 16), HexDigit(x / 16 / 16 % 16), HexDigit(x / 16 % 16), HexDigit(x % 16)]
  }

  /** The escape of the first code point, or of a surrogate without a partner. */
  function EscapeFirst(t: Text): (r: Text)
    requires t != []
    ensures r != []
  {
    if Paired(t) then [t[0], t[1]] else if IsSurrogate(t[0]) then HexEscape(t[0]) else EscapeUnit(t[0])
  }

  function Escape(t: Text): Text {
    if t == [] then [] else EscapeFirst(t) + Escape(t[Width(t)..])
  }

  function StringText(t: Text): Text { [QUOTE] + Escape(t) + [QUOTE] }

  /** The escape of a unit can be told from what follows it. */
  lemma UnitIsDecodable(c: CodeUnit, d: CodeUnit, s: Text, t: Text)
    requires EscapeUnit(c) + s == EscapeUnit(d) + t
    ensures c == d && s == t
  {
    var whole := EscapeUnit(c) + s;
    assert whole[0] == EscapeUnit(c)[0] == EscapeUnit(d)[0];
    if |EscapeUnit(c)| > 1 {
      assert whole[1] == EscapeUnit(c)[1] == EscapeUnit(d)[1];
    }
    if |EscapeUnit(c)| == 6 {
      assert whole[4] == EscapeUnit(c)[4] == EscapeUnit(d)[4];
      assert whole[5] == EscapeUnit(c)[5] == EscapeUnit(d)[5];
      assert c as int == c as int / 16 * 16 + c as int % 16;
    }
    assert whole[|EscapeUnit(c)|..] == s && whole[|EscapeUnit(d)|..] == t;
  }

  lemma HexIsDecodable(c: CodeUnit, d: CodeUnit, s: Text, t: Text)
    requires HexEscape(c) + s == HexEscape(d) + t
    ensures c == d && s == t
  {
    var whole := HexEscape(c) + s;
    forall k | 0 <= k < 6 ensures HexEscape(c)[k] == HexEscape(d)[k] {
      assert whole[k] == HexEscape(c)[k] && whole[k] == HexEscape(d)[k];
    }
    assert HexEscape(c)[2] == HexEscape(d)[2] && HexEscape(c)[3] == HexEscape(d)[3];
    assert HexEscape(c)[4] == HexEscape(d)[4] && HexEscape(c)[5] == HexEscape(d)[5];
    HexValue(c as int);
    HexValue(d as int);
    assert whole[6..] == s && whole[6..] == t;
  }

  lemma HexValue(c: int)
    ensures c == c / 16 / 16 / 16 * 0x1000 + c / 16 / 16 % 16 * 0x100 + c / 16 % 16 * 16 + c % 16
  {
    var high := c / 16;
    assert c == high * 16 + c % 16;
    assert high == high / 16 * 16 + high % 16;
    assert high / 16 == high / 16 / 16 * 16 + high / 16 % 16;
  }

  /** The three kinds of escape begin differently. */
  lemma FirstTellsKind(a: Text, b: Text, s: Text, t: Text)
    requires a != [] && b != [] && EscapeFirst(a) + s == EscapeFirst(b) + t
    ensures Paired(a) == Paired(b) && IsSurrogate(a[0]) == IsSurrogate(b[0])
  {
    var whole := EscapeFirst(a) + s;
    assert whole[0] == EscapeFirst(a)[0] == EscapeFirst(b)[0];
    if |EscapeFirst(a)| > 1 && |EscapeFirst(b)| > 1 { assert whole[1] == EscapeFirst(a)[1] == EscapeFirst(b)[1]; }
    if |EscapeFirst(a)| > 2 && |EscapeFirst(b)| > 2 { assert whole[2] == EscapeFirst(a)[2] == EscapeFirst(b)[2]; }
  }

  /** The escape of the first code point can be told from what follows it. */
  lemma FirstIsDecodable(a: Text, b: Text, s: Text, t: Text)
    requires a != [] && b != [] && EscapeFirst(a) + s == EscapeFirst(b) + t
    ensures Width(a) == Width(b) && a[..Width(a)] == b[..Width(b)] && s == t
  {
    FirstTellsKind(a, b, s, t);
    hide EscapeUnit, HexEscape;
    if Paired(a) {
      var whole := EscapeFirst(a) + s;
      assert whole[0] == a[0] == b[0] && whole[1] == a[1] == b[1];
      assert whole[2..] == s && whole[2..] == t;
      assert a[..2] == [a[0], a[1]] && b[..2] == [b[0], b[1]];
    } else {
      if IsSurrogate(a[0]) { HexIsDecodable(a[0], b[0], s, t); } else { UnitIsDecodable(a[0], b[0], s, t); }
      assert a[..1] == [a[0]] && b[..1] == [b[0]];
    }
  }

  /** Text up to and including the closing quote, and what follows it. */
  function Quoted(t: Text, rest: Text): Text { Escape(t) + [QUOTE] + rest }

  lemma QuotedUnrolls(t: Text, rest: Text)
    ensures t == [] ==> Quoted(t, rest) == [QUOTE] + rest
    ensures t != [] ==> Quoted(t, rest) == EscapeFirst(t) + Quoted(t[Width(t)..], rest)
    ensures Quoted(t, rest) != [] && (Quoted(t, rest)[0] == QUOTE <==> t == [])
  {}

  /** A closing quote can be told from an escaped one, so the text before it can be read back. */
  lemma {:induction false} EscapeIsDecodable(a: Text, b: Text, s: Text, t: Text)
    requires Quoted(a, s) == Quoted(b, t)
    ensures a == b && s == t
    decreases |a|
  {
    QuotedUnrolls(a, s);
    QuotedUnrolls(b, t);
    hide Quoted, EscapeFirst;
    if a == [] {
      assert Quoted(a, s)[1..] == s && Quoted(b, t)[1..] == t;
    } else {
      FirstIsDecodable(a, b, Quoted(a[Width(a)..], s), Quoted(b[Width(b)..], t));
      EscapeIsDecodable(a[Width(a)..], b[Width(b)..], s, t);
      assert a == a[..Width(a)] + a[Width(a)..] && b == b[..Width(b)] + b[Width(b)..];
    }
  }

  lemma StringTextIsDecodable(a: Text, b: Text, s: Text, t: Text)
    requires StringText(a) + s == StringText(b) + t
    ensures a == b && s == t
  {
    assert (StringText(a) + s)[1..] == Quoted(a, s);
    assert (StringText(b) + t)[1..] == Quoted(b, t);
    EscapeIsDecodable(a, b, s, t);
  }
}
