/**
 Text payloads of `canonicalizeProjectionPayload` (`src/personal-data/canonical.ts`): one line ending, normal form C,
 one final line feed.  Unicode normalization is a parameter with the properties the pipeline leans on.
 */
module PayloadText {
  import opened Canonical
  import opened Options
  import opened Unicode

  const LF: CodeUnit := 0x0A
  const CR: CodeUnit := 0x0D
  const BOM: CodeUnit := 0xFEFF

  /** `replaceAll("\r\n", "\n")`. */
  function ReplaceCrLf(t: Text): Text {
    if t == [] then []
    else if |t| > 1 && t[0] == CR && t[1] == LF then [LF] + ReplaceCrLf(t[2..])
    else [t[0]] + ReplaceCrLf(t[1..])
  }

  /** `replaceAll("\r", "\n")`. */
  function ReplaceCr(t: Text): Text {
    if t == [] then [] else [if t[0] == CR then LF else t[0]] + ReplaceCr(t[1..])
  }

  function LfOnly(t: Text): Text { ReplaceCr(ReplaceCrLf(t)) }

  /** `replace(/\n+$/u, "")`. */
  function StripTrailingLf(t: Text): Text {
    if t != [] && t[|t| - 1] == LF then StripTrailingLf(t[..|t| - 1]) else t
  }

  predicate StartsWithBom(t: Text) { t != [] && t[0] == BOM }

  /**
   What is used of normal form C: idempotent, a line feed is a boundary, and it invents neither CR nor a leading BOM.
   */
  ghost predicate Normalizes(nfc: Text -> Text) {
    && (forall t :: nfc(nfc(t)) == nfc(t))
    && (forall t :: nfc(t + [LF]) == nfc(t) + [LF])
    && (forall t :: CR !in t ==> CR !in nfc(t))
    && (forall t :: StartsWithBom(nfc(t)) ==> StartsWithBom(t))
  }

  /** What is asked of normalization can be met, for one by text that is all in normal form. */
  lemma IdentityNormalizes()
    ensures Normalizes(t => t)
  {}

  /** The `text/markdown` branch of `canonicalizeProjectionPayload`, with `None` for its throws. */
  function CanonicalText(nfc: Text -> Text, value: Text): Option<Text> {
    if StartsWithBom(value) then None
    else
      var normalized := StripTrailingLf(nfc(LfOnly(value)));
      if WellPaired(normalized) then Some(normalized + [LF]) else None
  }

  /** Payload text in canonical form, said without the pipeline. */
  predicate IsCanonicalText(nfc: Text -> Text, t: Text) {
    && t != [] && t[|t| - 1] == LF
    && (|t| > 1 ==> t[|t| - 2] != LF)
    && CR !in t
    && nfc(t) == t
    && WellPaired(t)
    && !StartsWithBom(t)
  }

  /******* The stages *******/

  lemma {:induction false} ReplaceCrIsCrFree(t: Text)
    ensures CR !in ReplaceCr(t)
    ensures CR !in t ==> ReplaceCr(t) == t
    ensures |ReplaceCr(t)| == |t| && (StartsWithBom(ReplaceCr(t)) <==> StartsWithBom(t))
  {
    if t != [] {
      ReplaceCrIsCrFree(t[1..]);
      assert t == [t[0]] + t[1..];
    }
  }

  lemma {:induction false} ReplaceCrLfKeepsCrFree(t: Text)
    ensures CR !in t ==> ReplaceCrLf(t) == t
    ensures StartsWithBom(ReplaceCrLf(t)) <==> StartsWithBom(t)
  {
    if t != [] {
      ReplaceCrLfKeepsCrFree(t[1..]);
      assert t == [t[0]] + t[1..];
    }
  }

  lemma LfOnlyLines(t: Text)
    ensures CR !in LfOnly(t)
    ensures CR !in t ==> LfOnly(t) == t
    ensures StartsWithBom(LfOnly(t)) <==> StartsWithBom(t)
  {
    ReplaceCrLfKeepsCrFree(t);
    ReplaceCrIsCrFree(ReplaceCrLf(t));
  }

  /** No line ending is cut in two between the texts. */
  predicate SplitsNoEnding(a: Text, b: Text) { a == [] || b == [] || a[|a| - 1] != CR || b[0] != LF }

  lemma {:induction false} ReplaceCrLfSplits(a: Text, b: Text)
    requires SplitsNoEnding(a, b)
    ensures ReplaceCrLf(a + b) == ReplaceCrLf(a) + ReplaceCrLf(b)
    decreases |a|
  {
    if a == [] {
      assert a + b == b;
    } else if |a| > 1 && a[0] == CR && a[1] == LF {
      ReplaceCrLfSplits(a[2..], b);
      assert (a + b)[2..] == a[2..] + b;
    } else {
      ReplaceCrLfSplits(a[1..], b);
      assert (a + b)[1..] == a[1..] + b;
    }
  }

  lemma {:induction false} ReplaceCrSplits(a: Text, b: Text)
    ensures ReplaceCr(a + b) == ReplaceCr(a) + ReplaceCr(b)
  {
    if a == [] {
      assert a + b == b;
    } else {
      ReplaceCrSplits(a[1..], b);
      assert (a + b)[1..] == a[1..] + b;
    }
  }

  /** Each of the three line endings becomes one line feed, every other unit stays, wherever they stand. */
  lemma LineEndingsBecomeLf(a: Text, b: Text, c: CodeUnit)
    ensures SplitsNoEnding(a, b) ==> LfOnly(a + b) == LfOnly(a) + LfOnly(b)
    ensures LfOnly([CR, LF]) == [LF]
    ensures LfOnly([c]) == if c == CR then [LF] else [c]
  {
    if SplitsNoEnding(a, b) {
      ReplaceCrLfSplits(a, b);
      ReplaceCrSplits(ReplaceCrLf(a), ReplaceCrLf(b));
    }
    assert [CR, LF][2..] == [] && [c][1..] == [] && [LF][1..] == [];
    assert ReplaceCrLf([CR, LF]) == [LF] && ReplaceCrLf([c]) == [c];
    assert ReplaceCr([LF]) == [LF];
  }

  lemma {:induction false} Stripped(t: Text)
    ensures var s := StripTrailingLf(t);
            && s <= t
            && (s == [] || s[|s| - 1] != LF)
  {
    if t != [] && t[|t| - 1] == LF { Stripped(t[..|t| - 1]); }
  }

  lemma {:induction false} StrippedIsNormal(nfc: Text -> Text, t: Text)
    requires Normalizes(nfc) && nfc(t) == t
    ensures nfc(StripTrailingLf(t)) == StripTrailingLf(t)
  {
    if t != [] && t[|t| - 1] == LF {
      var front := t[..|t| - 1];
      assert t == front + [LF];
      assert nfc(front) == nfc(t)[..|t| - 1];
      StrippedIsNormal(nfc, front);
    }
  }

  lemma {:induction false} FinalLfIsWellPaired(t: Text)
    ensures WellPaired(t + [LF]) <==> WellPaired(t)
  {
    if t == [] {
    } else if IsHighSurrogate(t[0]) && |t| > 1 {
      FinalLfIsWellPaired(t[2..]);
      assert (t + [LF])[2..] == t[2..] + [LF];
    } else {
      FinalLfIsWellPaired(t[1..]);
      assert (t + [LF])[1..] == t[1..] + [LF];
    }
  }

  /******* Main results *******/

  lemma CanonicalTextIsCanonical(nfc: Text -> Text, value: Text)
    requires Normalizes(nfc) && CanonicalText(nfc, value).Some?
    ensures IsCanonicalText(nfc, CanonicalText(nfc, value).value)
  {
    var lines := LfOnly(value);
    var normal := nfc(lines);
    var s := StripTrailingLf(normal);
    LfOnlyLines(value);
    Stripped(normal);
    StrippedIsNormal(nfc, normal);
    FinalLfIsWellPaired(s);
    assert CR !in normal;
    assert forall i | 0 <= i < |s| :: s[i] == normal[i];
  }

  lemma CanonicalTextIsFixed(nfc: Text -> Text, t: Text)
    requires IsCanonicalText(nfc, t)
    ensures CanonicalText(nfc, t) == Some(t)
  {
    LfOnlyLines(t);
    var s := t[..|t| - 1];
    assert t == s + [LF];
    assert StripTrailingLf(s) == s;
    FinalLfIsWellPaired(s);
  }

  /**
   A payload is accepted as it stands exactly when it has the canonical form, and everything the pipeline
   produces has it: canonicalizing twice is canonicalizing once.
   */
  lemma CanonicalizationIsIdempotent(nfc: Text -> Text, value: Text)
    requires Normalizes(nfc)
    ensures CanonicalText(nfc, value) == Some(value) <==> IsCanonicalText(nfc, value)
    ensures CanonicalText(nfc, value).Some? ==>
              CanonicalText(nfc, CanonicalText(nfc, value).value) == CanonicalText(nfc, value)
  {
    if CanonicalText(nfc, value).Some? {
      CanonicalTextIsCanonical(nfc, value);
      CanonicalTextIsFixed(nfc, CanonicalText(nfc, value).value);
    }
    if IsCanonicalText(nfc, value) { CanonicalTextIsFixed(nfc, value); }
  }

  lemma {:induction false} OnlyLfIsStripped(t: Text)
    ensures var s := StripTrailingLf(t); s <= t && forall i | |s| <= i < |t| :: t[i] == LF
  {
    if t != [] && t[|t| - 1] == LF {
      OnlyLfIsStripped(t[..|t| - 1]);
      assert forall i | 0 <= i < |t| - 1 :: t[..|t| - 1][i] == t[i];
    }
  }

  lemma NoLongerThan(a: Text, b: Text, t: Text)
    requires a <= t && b <= t && (a == [] || a[|a| - 1] != LF) && forall i | |b| <= i < |t| :: t[i] == LF
    ensures |a| <= |b|
  {
    if a != [] { assert a[|a| - 1] == t[|a| - 1]; }
  }

  /** The payload is the normalized text, its trailing line feeds made one. */
  lemma PayloadExactly(nfc: Text -> Text, value: Text, payload: Text)
    ensures CanonicalText(nfc, value) == Some(payload) <==>
              && (value == [] || value[0] != 0xFEFF)
              && exists body: Text ::
                   && payload == body + [0x0A] && WellPaired(body)
                   && (body == [] || body[|body| - 1] != 0x0A)
                   && body <= nfc(LfOnly(value))
                   && forall i | |body| <= i < |nfc(LfOnly(value))| :: nfc(LfOnly(value))[i] == 0x0A
  {
    var normal := nfc(LfOnly(value));
    var s := StripTrailingLf(normal);
    OnlyLfIsStripped(normal);
    Stripped(normal);
    forall body: Text | && (body == [] || body[|body| - 1] != LF) && body <= normal
                        && forall i | |body| <= i < |normal| :: normal[i] == LF
      ensures body == s
    {
      NoLongerThan(s, body, normal);
      NoLongerThan(body, s, normal);
    }
  }

  /** Which of the three line endings a text uses, and how many it ends with, does not show in its payload. */
  lemma LineEndingsDoNotMatter(nfc: Text -> Text, a: Text, b: Text)
    requires Normalizes(nfc)
    requires LfOnly(a) == LfOnly(b) || LfOnly(a) == LfOnly(b) + [LF]
    ensures CanonicalText(nfc, a) == CanonicalText(nfc, b)
  {
    LfOnlyLines(a);
    LfOnlyLines(b);
    if LfOnly(a) == LfOnly(b) + [LF] {
      assert nfc(LfOnly(a)) == nfc(LfOnly(b)) + [LF];
      assert nfc(LfOnly(a))[..|nfc(LfOnly(a))| - 1] == nfc(LfOnly(b));
    }
  }
}
