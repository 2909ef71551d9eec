/** `sanitizeInput` (src/utils/textProcessing.js; the same chain is written out
    again inside both component files): seven `replace` calls applied in order
    to the plain-text payload. */
module Sanitizer {
  import opened JsStrings

  /** The class `[\u0000-\u001F\u007F-\u009F]`: C0 and C1 control units,
      TAB, LF and CR among them. */
  predicate IsControl(c: CodeUnit)
  {
    c <= 0x1F || (0x7F <= c <= 0x9F)
  }

  predicate IsNotControl(c: CodeUnit) { !IsControl(c) }

  predicate IsNotZeroWidth(c: CodeUnit) { c != ZERO_WIDTH_SPACE }

  function SingleQuoteImage(c: CodeUnit): CodeUnit
  {
    if c == LEFT_SINGLE_QUOTE || c == RIGHT_SINGLE_QUOTE then APOSTROPHE else c
  }

  function DoubleQuoteImage(c: CodeUnit): CodeUnit
  {
    if c == LEFT_DOUBLE_QUOTE || c == RIGHT_DOUBLE_QUOTE then DOUBLE_QUOTE else c
  }

  predicate IsSmartQuote(c: CodeUnit)
  {
    c == LEFT_SINGLE_QUOTE || c == RIGHT_SINGLE_QUOTE
    || c == LEFT_DOUBLE_QUOTE || c == RIGHT_DOUBLE_QUOTE
  }

  /** Step 1, `.replace(/[\u0000-\u001F\u007F-\u009F]/g, "")`. */
  function DropControls(s: Text): Text { Filter(s, IsNotControl) }

  /** Step 2, `.replace(/\u200B/g, "")` (the program writes the zero-width
      space literally between the slashes). */
  function DropZeroWidth(s: Text): Text { Filter(s, IsNotZeroWidth) }

  /** Steps 3 and 4, `.replace(/[‘’]/g, "'")` then
      `.replace(/[“”]/g, '"')`. */
  function StraightenQuotes(s: Text): Text
  {
    MapUnits(MapUnits(s, SingleQuoteImage), DoubleQuoteImage)
  }

  // ---------------------------------------------------------------------
  // Step 5, `.replace(/\s+$/gm, "")`.

  /** `s[i..q]` is a match of `\s+$` under the `m` flag: one or more
      whitespace units, then the end of the input or a line terminator. */
  ghost predicate TrailingSpaceAt(s: Text, i: int, q: int)
  {
    && 0 <= i < q <= |s|
    && (forall k :: i <= k < q ==> IsJsSpace(s[k]))
    && (q == |s| || IsLineTerminator(s[q]))
  }

  /** The last position strictly between i and j that holds a line terminator. */
  function LastBreakBetween(s: Text, i: nat, j: nat): (r: Option<nat>)
    requires i < j <= |s|
    ensures r.Some? ==> i < r.value < j && IsLineTerminator(s[r.value])
    ensures forall k :: (if r.Some? then r.value else i) < k < j ==> !IsLineTerminator(s[k])
    decreases j
  {
    if j - 1 == i then None
    else if IsLineTerminator(s[j - 1]) then Some(j - 1)
    else LastBreakBetween(s, i, j - 1)
  }

  /** Where the match of `\s+$` (flag m) that starts at i ends, if one does:
      the greedy `\s+` takes the whole run and gives units back until `$`
      holds. The result is the longest match, as the engine finds it. */
  function TrailingSpaceMatch(s: Text, i: nat): (r: Option<nat>)
    requires i < |s|
    ensures r.Some? ==> TrailingSpaceAt(s, i, r.value)
    ensures r.Some? ==> forall q :: TrailingSpaceAt(s, i, q) ==> q <= r.value
    ensures r.None? ==> forall q :: !TrailingSpaceAt(s, i, q)
  {
    var j := SpaceRunEnd(s, i);
    if j == i then None
    else if j == |s| then Some(j)
    else LastBreakBetween(s, i, j)
  }

  /** The global replace: at each position try a match; delete it and go on
      after it, or keep the unit and go on with the next one. */
  function StripLineEndsFrom(s: Text, i: nat): Text
    requires i <= |s|
    decreases |s| - i
  {
    if i == |s| then []
    else match TrailingSpaceMatch(s, i)
      case Some(k) => StripLineEndsFrom(s, k)
      case None => [s[i]] + StripLineEndsFrom(s, i + 1)
  }

  function StripLineEnds(s: Text): Text { StripLineEndsFrom(s, 0) }

  /** Step 6, `.replace(/\t/g, "  ")`. */
  function ExpandTabs(s: Text): Text
  {
    if s == [] then [] else (if s[0] == TAB then [SPACE, SPACE] else [s[0]]) + ExpandTabs(s[1..])
  }

  /** Step 7, `.replace(/\r\n/g, "\n")`. */
  function NormalizeCrlf(s: Text): Text
  {
    if |s| >= 2 && s[0] == CR && s[1] == LF then [LF] + NormalizeCrlf(s[2..])
    else if s == [] then []
    else [s[0]] + NormalizeCrlf(s[1..])
  }

  /** `sanitizeInput(text)`. */
  function Sanitize(s: Text): Text
  {
    NormalizeCrlf(ExpandTabs(StripLineEnds(StraightenQuotes(DropZeroWidth(DropControls(s))))))
  }

  // ---------------------------------------------------------------------
  // Step 5 against its declarative reading.

  /** The units of s[i..] at which no match of `\s+$` starts, in order. */
  ghost function Unmatched(s: Text, i: nat): Text
    requires i <= |s|
    decreases |s| - i
  {
    if i == |s| then []
    else (if exists q :: TrailingSpaceAt(s, i, q) then [] else [s[i]]) + Unmatched(s, i + 1)
  }

  /** Inside a match, a match starts at every position. */
  lemma {:induction false} UnmatchedSkipsMatch(s: Text, i: nat, k: nat)
    requires TrailingSpaceAt(s, i, k)
    ensures Unmatched(s, i) == Unmatched(s, k)
    decreases k - i
  {
    assert TrailingSpaceAt(s, i, k);
    if i + 1 < k {
      assert TrailingSpaceAt(s, i + 1, k);
      UnmatchedSkipsMatch(s, i + 1, k);
    }
  }

  /** The scanner deletes exactly the units at which a match of `\s+$` starts:
      its global replace with "" is the filter of those positions. */
  lemma {:induction false} StripLineEndsDeletesMatchStarts(s: Text, i: nat)
    requires i <= |s|
    ensures StripLineEndsFrom(s, i) == Unmatched(s, i)
    decreases |s| - i
  {
    if i < |s| {
      match TrailingSpaceMatch(s, i)
      case Some(k) =>
        StripLineEndsDeletesMatchStarts(s, k);
        UnmatchedSkipsMatch(s, i, k);
      case None =>
        StripLineEndsDeletesMatchStarts(s, i + 1);
    }
  }

  /** What step 5 leaves: nothing at the end is whitespace, and no line
      terminator follows a whitespace unit. */
  ghost predicate LineEndsStripped(t: Text)
  {
    && (t == [] || !IsJsSpace(t[|t| - 1]))
    && forall q :: 0 < q < |t| && IsLineTerminator(t[q]) ==> !IsJsSpace(t[q - 1])
  }

  lemma {:induction false} StripLineEndsShape(s: Text, i: nat)
    requires i <= |s|
    ensures LineEndsStripped(StripLineEndsFrom(s, i))
    decreases |s| - i
  {
    if i < |s| {
      match TrailingSpaceMatch(s, i)
      case Some(k) =>
        StripLineEndsShape(s, k);
      case None =>
        StripLineEndsShape(s, i + 1);
        var rest := StripLineEndsFrom(s, i + 1);
        if IsJsSpace(s[i]) {
          // No match at i: the run does not reach the end and its next unit
          // is no line terminator, so no match starts at i + 1 either.
          assert !TrailingSpaceAt(s, i, i + 1);
          assert i + 1 < |s| && !IsLineTerminator(s[i + 1]);
          assert forall q :: TrailingSpaceAt(s, i + 1, q) ==> TrailingSpaceAt(s, i, q);
          assert TrailingSpaceMatch(s, i + 1).None?;
          assert rest[0] == s[i + 1];
        }
        var t := [s[i]] + rest;
        forall q | 0 < q < |t| && IsLineTerminator(t[q])
          ensures !IsJsSpace(t[q - 1])
        {
          if q > 1 { assert t[q] == rest[q - 1] && t[q - 1] == rest[q - 2]; }
        }
    }
  }

  lemma {:induction false} MatchEndsAfterSpace(s: Text, i: nat, q: nat)
    requires TrailingSpaceAt(s, i, q)
    ensures IsJsSpace(s[q - 1]) && (q == |s| || IsLineTerminator(s[q]))
  {
  }

  /** On a text step 5 has already processed, step 5 finds no match. */
  lemma {:induction false} StripLineEndsFixes(t: Text, i: nat)
    requires LineEndsStripped(t)
    requires i <= |t|
    ensures StripLineEndsFrom(t, i) == t[i..]
    decreases |t| - i
  {
    if i < |t| {
      if TrailingSpaceMatch(t, i).Some? {
        MatchEndsAfterSpace(t, i, TrailingSpaceMatch(t, i).value);
        assert false;
      }
      StripLineEndsFixes(t, i + 1);
      assert t[i..] == [t[i]] + t[i + 1..];
    }
  }

  lemma {:induction false} StripLineEndsSubsequence(s: Text, i: nat)
    requires i <= |s|
    ensures IsSubsequence(StripLineEndsFrom(s, i), s[i..])
    decreases |s| - i
  {
    if i == |s| {
    } else {
      match TrailingSpaceMatch(s, i)
      case Some(k) =>
        StripLineEndsSubsequence(s, k);
        SubsequenceOfSuffix(StripLineEndsFrom(s, k), s, i, k);
      case None =>
        StripLineEndsSubsequence(s, i + 1);
        assert s[i..] == [s[i]] + s[i + 1..];
        SubsequenceCons(s[i], StripLineEndsFrom(s, i + 1), s[i + 1..]);
    }
  }

  lemma {:induction false} ExpandTabsNoOp(s: Text)
    requires TAB !in s
    ensures ExpandTabs(s) == s
  {
    if s != [] {
      ExpandTabsNoOp(s[1..]);
    }
  }

  lemma {:induction false} NormalizeCrlfNoOp(s: Text)
    requires CR !in s
    ensures NormalizeCrlf(s) == s
  {
    if s != [] {
      NormalizeCrlfNoOp(s[1..]);
    }
  }

  // ---------------------------------------------------------------------
  // Properties of the whole chain.

  /** The text steps 1 to 4 hand to step 5. */
  function Unquoted(s: Text): Text
  {
    StraightenQuotes(DropZeroWidth(DropControls(s)))
  }

  /** After steps 1 to 4 no control unit, no U+200B and no smart quote is left. */
  lemma {:induction false} UnquotedClean(s: Text)
    ensures forall c :: c in Unquoted(s) ==> !IsControl(c) && c != ZERO_WIDTH_SPACE && !IsSmartQuote(c)
  {
    var d := DropZeroWidth(DropControls(s));
    var m := MapUnits(d, SingleQuoteImage);
    FilterMembers(s, IsNotControl);
    FilterMembers(DropControls(s), IsNotZeroWidth);
    forall c | c in Unquoted(s)
      ensures !IsControl(c) && c != ZERO_WIDTH_SPACE && !IsSmartQuote(c)
    {
      var k :| 0 <= k < |Unquoted(s)| && Unquoted(s)[k] == c;
      assert c == DoubleQuoteImage(m[k]) && m[k] == SingleQuoteImage(d[k]);
      assert d[k] in d;
    }
  }

  /** Steps 6 and 7 never fire: step 1 has already deleted every TAB and CR
      (and every LF), so the chain ends with step 5. */
  lemma {:induction false} TabAndCrlfStepsAreNoOps(s: Text)
    ensures Sanitize(s) == StripLineEnds(Unquoted(s))
  {
    var u := Unquoted(s);
    UnquotedClean(s);
    StripLineEndsSubsequence(u, 0);
    assert u[0..] == u;
    SubsequenceMembers(StripLineEnds(u), u);
    assert IsControl(TAB) && IsControl(CR);
    ExpandTabsNoOp(StripLineEnds(u));
    NormalizeCrlfNoOp(StripLineEnds(u));
  }

  /** The output holds no control unit (no TAB, CR or LF in particular), no
      U+200B, no smart quote, and does not end with whitespace. */
  lemma {:induction false} SanitizeClean(s: Text)
    ensures forall c :: c in Sanitize(s) ==> !IsControl(c) && c != ZERO_WIDTH_SPACE && !IsSmartQuote(c)
    ensures LF !in Sanitize(s) && TAB !in Sanitize(s) && CR !in Sanitize(s)
    ensures Sanitize(s) == [] || !IsJsSpace(Sanitize(s)[|Sanitize(s)| - 1])
  {
    var u := Unquoted(s);
    TabAndCrlfStepsAreNoOps(s);
    UnquotedClean(s);
    StripLineEndsSubsequence(u, 0);
    assert u[0..] == u;
    SubsequenceMembers(StripLineEnds(u), u);
    StripLineEndsShape(u, 0);
  }

  /** The output is the input with its smart quotes straightened and some
      units deleted, the rest in their original order; so it is never longer. */
  lemma {:induction false} SanitizeDeletesOnly(s: Text)
    ensures IsSubsequence(Sanitize(s), StraightenQuotes(s))
    ensures |Sanitize(s)| <= |s|
  {
    var d := DropZeroWidth(DropControls(s));
    FilterSubsequence(s, IsNotControl);
    FilterSubsequence(DropControls(s), IsNotZeroWidth);
    SubsequenceTrans(d, DropControls(s), s);
    SubsequenceMap(d, s, SingleQuoteImage);
    SubsequenceMap(MapUnits(d, SingleQuoteImage), MapUnits(s, SingleQuoteImage), DoubleQuoteImage);
    TabAndCrlfStepsAreNoOps(s);
    StripLineEndsSubsequence(Unquoted(s), 0);
    assert Unquoted(s)[0..] == Unquoted(s);
    SubsequenceTrans(Sanitize(s), Unquoted(s), StraightenQuotes(s));
    SubsequenceLength(Sanitize(s), StraightenQuotes(s));
  }

  /** Steps 1 to 4 leave a text without control units, U+200B and smart quotes unchanged. */
  lemma {:induction false} UnquotedNoOp(t: Text)
    requires forall c :: c in t ==> !IsControl(c) && c != ZERO_WIDTH_SPACE && !IsSmartQuote(c)
    ensures Unquoted(t) == t
  {
    FilterNoOp(t, IsNotControl);
    FilterNoOp(t, IsNotZeroWidth);
    assert forall k :: 0 <= k < |t| ==> t[k] in t;
    MapNoOp(t, SingleQuoteImage);
    MapNoOp(t, DoubleQuoteImage);
  }

  /** `sanitizeInput` is idempotent. */
  lemma {:induction false} SanitizeIdempotent(s: Text)
    ensures Sanitize(Sanitize(s)) == Sanitize(s)
  {
    var t := Sanitize(s);
    SanitizeClean(s);
    UnquotedNoOp(t);
    TabAndCrlfStepsAreNoOps(s);
    TabAndCrlfStepsAreNoOps(t);
    StripLineEndsShape(Unquoted(s), 0);
    StripLineEndsFixes(t, 0);
    assert t[0..] == t;
  }
}
