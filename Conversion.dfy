/** The WhatsApp markup converter `convertToWhatsApp` of
    src/utils/conversionUtils.js (copied verbatim into both component files). */
module Conversion {
  import opened JsStrings

  const PLACEHOLDER: Text := Units("No content to format.")

  const CHECK_MARK: CodeUnit := 0x2705
  const CROSS_MARK: CodeUnit := 0x274C
  const WARNING_SIGN: CodeUnit := 0x26A0
  const VARIATION_SELECTOR_16: CodeUnit := 0xFE0F

  // ---------------------------------------------------------------------
  // Splitting at status lines: `split(/(?<=\n|^)(?=✅|❌|⚠️)/gm)`

  /** The lookahead `(?=✅|❌|⚠️)` at q; ⚠️ is two code units. */
  predicate StartsWithMarker(s: Text, q: nat)
  {
    q < |s|
    && (s[q] == CHECK_MARK || s[q] == CROSS_MARK
        || (s[q] == WARNING_SIGN && q + 1 < |s| && s[q + 1] == VARIATION_SELECTOR_16))
  }

  /** `^` under the m flag (which also covers the `\n` alternative of the
      lookbehind): the start of the text or just after a line terminator. */
  predicate AtLineStart(s: Text, q: nat)
    requires q <= |s|
  {
    q == 0 || IsLineTerminator(s[q - 1])
  }

  /** A position where `split` cuts the text: the empty pattern matches there
      and it is not position 0.  `split` never cuts where the current section
      starts, and every section starts at 0 or at the previous cut. */
  predicate IsCut(s: Text, q: nat)
  {
    0 < q < |s| && AtLineStart(s, q) && StartsWithMarker(s, q)
  }

  /** The splitting loop with the current section starting at p and the
      pattern tried at q.  After a cut at q the loop retries q, which fails
      to cut because q is then the section start; that step is folded into
      the recursive call at q + 1. */
  function SplitFrom(s: Text, p: nat, q: nat): (r: seq<Text>)
    requires p < q <= |s|
    ensures |r| >= 1
    ensures forall k, c :: 0 <= k < |r| && c in r[k] ==> c in s
    decreases |s| - q
  {
    if q == |s| then [s[p..]]
    else if AtLineStart(s, q) && StartsWithMarker(s, q) then [s[p..q]] + SplitFrom(s, q, q + 1)
    else SplitFrom(s, p, q + 1)
  }

  function Split(s: Text): (r: seq<Text>)
    ensures |r| >= 1
    ensures forall k, c :: 0 <= k < |r| && c in r[k] ==> c in s
  {
    if s == [] then [s] else SplitFrom(s, 0, 1)
  }

  /** The text with one line feed inserted before every cut. */
  function InsertBreaksFrom(s: Text, q: nat): Text
    requires q <= |s|
    decreases |s| - q
  {
    if q == |s| then []
    else (if IsCut(s, q) then [LF] else []) + [s[q]] + InsertBreaksFrom(s, q + 1)
  }

  function InsertBreaks(s: Text): Text { InsertBreaksFrom(s, 0) }

  lemma {:induction false} SplitFromConcat(s: Text, p: nat, q: nat)
    requires p < q <= |s|
    ensures Concat(SplitFrom(s, p, q)) == s[p..]
    decreases |s| - q
  {
    if q < |s| {
      if AtLineStart(s, q) && StartsWithMarker(s, q) {
        SplitFromConcat(s, q, q + 1);
        assert s[p..] == s[p..q] + s[q..];
      } else {
        SplitFromConcat(s, p, q + 1);
      }
    }
  }

  /** The sections put back together without separator are the input. */
  lemma {:induction false} SplitConcat(s: Text)
    ensures Concat(Split(s)) == s
  {
    if s != [] {
      SplitFromConcat(s, 0, 1);
    }
  }

  lemma {:induction false} SplitFromJoin(s: Text, p: nat, q: nat)
    requires p < q <= |s|
    ensures Join(SplitFrom(s, p, q), [LF]) == s[p..q] + InsertBreaksFrom(s, q)
    decreases |s| - q, 1
  {
    if q == |s| {
      assert InsertBreaksFrom(s, q) == [];
      assert s[p..q] + [] == s[p..];
    } else if AtLineStart(s, q) && StartsWithMarker(s, q) {
      SplitFromJoinAtCut(s, p, q);
    } else {
      SplitFromJoinPastCut(s, p, q);
    }
  }

  lemma {:induction false} SplitFromJoinAtCut(s: Text, p: nat, q: nat)
    requires p < q < |s| && AtLineStart(s, q) && StartsWithMarker(s, q)
    ensures Join(SplitFrom(s, p, q), [LF]) == s[p..q] + InsertBreaksFrom(s, q)
    decreases |s| - q, 0
  {
    var head := s[p..q];
    var rest := SplitFrom(s, q, q + 1);
    var tail := InsertBreaksFrom(s, q + 1);
    assert SplitFrom(s, p, q) == [head] + rest;
    JoinCons(head, rest, [LF]);
    SplitFromJoin(s, q, q + 1);
    assert s[q..q + 1] == [s[q]];
    assert IsCut(s, q);
    assert InsertBreaksFrom(s, q) == [LF] + [s[q]] + tail;
    Regroup3(head, [LF], [s[q]], tail);
  }

  lemma {:induction false} SplitFromJoinPastCut(s: Text, p: nat, q: nat)
    requires p < q < |s| && !(AtLineStart(s, q) && StartsWithMarker(s, q))
    ensures Join(SplitFrom(s, p, q), [LF]) == s[p..q] + InsertBreaksFrom(s, q)
    decreases |s| - q, 0
  {
    var tail := InsertBreaksFrom(s, q + 1);
    assert SplitFrom(s, p, q) == SplitFrom(s, p, q + 1);
    SplitFromJoin(s, p, q + 1);
    assert s[p..q + 1] == s[p..q] + [s[q]];
    assert !IsCut(s, q);
    assert InsertBreaksFrom(s, q) == [s[q]] + tail;
    Regroup2(s[p..q], [s[q]], tail);
  }

  // Proof helpers: sequence regrouping steps used above; they state nothing
  // about the program.

  lemma {:induction false} JoinCons(x: Text, rest: seq<Text>, sep: Text)
    requires rest != []
    ensures Join([x] + rest, sep) == x + sep + Join(rest, sep)
  {
    assert ([x] + rest)[0] == x && ([x] + rest)[1..] == rest;
  }

  lemma {:induction false} Regroup2(a: Text, b: Text, c: Text)
    ensures (a + b) + c == a + (b + c)
  {
  }

  lemma {:induction false} Regroup3(a: Text, b: Text, c: Text, d: Text)
    ensures a + b + (c + d) == a + (b + c + d)
  {
  }

  /** Re-joining the sections with "\n" yields the input with one extra line
      feed before every status marker that starts a line other than the
      first. */
  lemma {:induction false} SplitJoin(s: Text)
    ensures Join(Split(s), [LF]) == InsertBreaks(s)
  {
    if s != [] {
      SplitFromJoin(s, 0, 1);
      assert s[0..1] == [s[0]];
    }
  }

  lemma {:induction false} SplitFromWithoutCuts(s: Text, p: nat, q: nat)
    requires p < q <= |s|
    requires forall k :: q <= k < |s| ==> !IsCut(s, k)
    ensures SplitFrom(s, p, q) == [s[p..]]
    decreases |s| - q
  {
    if q < |s| {
      assert !IsCut(s, q);
      SplitFromWithoutCuts(s, p, q + 1);
    }
  }

  /** A text without a cut is a single section. */
  lemma {:induction false} SplitWithoutCuts(s: Text)
    requires forall k :: 0 <= k < |s| ==> !IsCut(s, k)
    ensures Split(s) == [s]
  {
    if s != [] {
      SplitFromWithoutCuts(s, 0, 1);
    }
  }

  lemma {:induction false} InsertBreaksWithoutCuts(s: Text, q: nat)
    requires q <= |s|
    requires forall k :: q <= k < |s| ==> !IsCut(s, k)
    ensures InsertBreaksFrom(s, q) == s[q..]
    decreases |s| - q
  {
    if q < |s| {
      assert !IsCut(s, q);
      InsertBreaksWithoutCuts(s, q + 1);
    }
  }

  // ---------------------------------------------------------------------
  // Bold: `replace(/\*\*(.*?)\*\*/g, "*$1*")`

  /** There is a line terminator in s[m..e]. */
  ghost predicate LineBreakBetween(s: Text, m: int, e: int)
  {
    exists k :: m <= k < e && 0 <= k < |s| && IsLineTerminator(s[k])
  }

  predicate DoubleStarAt(s: Text, k: nat)
  {
    k + 1 < |s| && s[k] == STAR && s[k + 1] == STAR
  }

  /** The lazy `(.*?)\*\*` tried from m: the first "**" at or after m that no
      line terminator precedes. */
  function CloseBold(s: Text, m: nat): (r: Option<nat>)
    requires m <= |s|
    ensures r.Some? ==> m <= r.value && r.value + 1 < |s|
    decreases |s| - m
  {
    if DoubleStarAt(s, m) then Some(m)
    else if m < |s| && !IsLineTerminator(s[m]) then CloseBold(s, m + 1)
    else None
  }

  /** CloseBold finds the nearest "**" on the same line, and fails only when
      every later "**" lies beyond a line terminator. */
  lemma {:induction false} CloseBoldSpec(s: Text, m: nat)
    requires m <= |s|
    ensures var r := CloseBold(s, m);
      && (r.Some? ==>
            && DoubleStarAt(s, r.value) && !LineBreakBetween(s, m, r.value)
            && forall k :: m <= k < r.value ==> !DoubleStarAt(s, k))
      && (r.None? ==> forall e :: m <= e && DoubleStarAt(s, e) ==> LineBreakBetween(s, m, e))
    decreases |s| - m
  {
    if !DoubleStarAt(s, m) && m < |s| && !IsLineTerminator(s[m]) {
      CloseBoldSpec(s, m + 1);
    }
  }

  /** `\*\*(.*?)\*\*` matches at the start of s. */
  predicate BoldOpens(s: Text)
  {
    DoubleStarAt(s, 0) && CloseBold(s, 2).Some?
  }

  /** The global bold replace on s, scanning from its start. */
  function Bold(s: Text): Text
    decreases |s|
  {
    if s == [] then []
    else if BoldOpens(s) then
      var m := CloseBold(s, 2).value;
      [STAR] + s[2..m] + [STAR] + Bold(s[m + 2..])
    else [s[0]] + Bold(s[1..])
  }

  // ---------------------------------------------------------------------
  // Italic: `replace(/(?<!\*)\*((?!\*).+?)(?<!\*)\*/g, "_$1_")`

  /** `(?<!\*)\*` at k: a "*" that does not follow a "*". */
  predicate LoneStarAt(s: Text, k: nat)
  {
    1 <= k < |s| && s[k] == STAR && s[k - 1] != STAR
  }

  /** The lazy `.+?(?<!\*)\*` after the first unit of the group, tried from
      m: the first "*" at or after m not preceded by "*", with no line
      terminator before it. */
  function CloseItalic(s: Text, m: nat): (r: Option<nat>)
    requires 1 <= m <= |s|
    ensures r.Some? ==> m <= r.value < |s|
    decreases |s| - m
  {
    if LoneStarAt(s, m) then Some(m)
    else if m < |s| && !IsLineTerminator(s[m]) then CloseItalic(s, m + 1)
    else None
  }

  /** CloseItalic finds the nearest lone closing "*" on the same line, and
      fails only when every later one lies beyond a line terminator. */
  lemma {:induction false} CloseItalicSpec(s: Text, m: nat)
    requires 1 <= m <= |s|
    ensures var r := CloseItalic(s, m);
      && (r.Some? ==>
            && LoneStarAt(s, r.value) && !LineBreakBetween(s, m, r.value)
            && forall k :: m <= k < r.value ==> !LoneStarAt(s, k))
      && (r.None? ==> forall e :: m <= e && LoneStarAt(s, e) ==> LineBreakBetween(s, m, e))
    decreases |s| - m
  {
    if !LoneStarAt(s, m) && m < |s| && !IsLineTerminator(s[m]) {
      CloseItalicSpec(s, m + 1);
    }
  }

  /** `(?<!\*)\*(?!\*).` at the start of s, afterStar telling whether the
      unit before s in the text being scanned is "*". */
  predicate ItalicOpens(afterStar: bool, s: Text)
  {
    1 < |s| && !afterStar && s[0] == STAR && s[1] != STAR && !IsLineTerminator(s[1])
  }

  /** The global italic replace on the rest s of the text; the lookbehinds
      read the original text, so afterStar is whether the unit just before s
      is "*". */
  function ItalicAfter(afterStar: bool, s: Text): Text
    decreases |s|
  {
    if s == [] then []
    else if ItalicOpens(afterStar, s) && CloseItalic(s, 2).Some? then
      var m := CloseItalic(s, 2).value;
      [UNDERSCORE] + s[1..m] + [UNDERSCORE] + ItalicAfter(s[m] == STAR, s[m + 1..])
    else [s[0]] + ItalicAfter(s[0] == STAR, s[1..])
  }

  function Italic(s: Text): Text { ItalicAfter(false, s) }

  // ---------------------------------------------------------------------
  // Bullets: `replace(/^\* /gm, "• ")`

  predicate BulletAt(s: Text, i: nat)
  {
    i + 1 < |s| && AtLineStart(s, i) && s[i] == STAR && s[i + 1] == SPACE
  }

  function BulletFrom(s: Text, i: nat): Text
    requires i <= |s|
    decreases |s| - i
  {
    if i == |s| then []
    else if BulletAt(s, i) then [BULLET, SPACE] + BulletFrom(s, i + 2)
    else [s[i]] + BulletFrom(s, i + 1)
  }

  function Bullets(s: Text): Text { BulletFrom(s, 0) }

  /** The unit the bullet rewrite puts at position k of s. */
  function BulletImage(s: Text, k: nat): CodeUnit
    requires k < |s|
  {
    if BulletAt(s, k) then BULLET else s[k]
  }

  lemma {:induction false} BulletFromPointwise(s: Text, i: nat)
    requires i <= |s|
    ensures |BulletFrom(s, i)| == |s| - i
    ensures forall k :: i <= k < |s| ==> BulletFrom(s, i)[k - i] == BulletImage(s, k)
    decreases |s| - i
  {
    if i < |s| {
      var r := BulletFrom(s, i);
      if BulletAt(s, i) {
        BulletFromPointwise(s, i + 2);
        var rest := BulletFrom(s, i + 2);
        assert r == [BULLET, SPACE] + rest;
        assert !BulletAt(s, i + 1);
        forall k | i <= k < |s|
          ensures r[k - i] == BulletImage(s, k)
        {
          if k >= i + 2 {
            assert r[k - i] == rest[k - (i + 2)];
          }
        }
      } else {
        BulletFromPointwise(s, i + 1);
        var rest := BulletFrom(s, i + 1);
        assert r == [s[i]] + rest;
        forall k | i <= k < |s|
          ensures r[k - i] == BulletImage(s, k)
        {
          if k > i {
            assert r[k - i] == rest[k - (i + 1)];
          }
        }
      }
    }
  }

  /** The bullet rewrite replaces the "*" of every line starting with "* "
      by "•" and changes nothing else. */
  lemma {:induction false} BulletsPointwise(s: Text)
    ensures |Bullets(s)| == |s|
    ensures forall k :: 0 <= k < |s| ==> Bullets(s)[k] == BulletImage(s, k)
  {
    BulletFromPointwise(s, 0);
    forall k | 0 <= k < |s|
      ensures Bullets(s)[k] == BulletImage(s, k)
    {
      assert Bullets(s)[k - 0] == BulletImage(s, k);
    }
  }

  // ---------------------------------------------------------------------
  // The whole conversion

  /** The per-section chain of rewrites (conversionUtils.js lines 7-10). */
  function Rewrite(section: Text): Text
  {
    Bullets(Italic(Bold(section)))
  }

  /** `convertToWhatsApp(text)`, None standing for null or undefined. */
  function ConvertToWhatsApp(text: Option<Text>): (r: Text)
    ensures text.None? || Trim(text.value) == [] ==> r == PLACEHOLDER
    ensures text.Some? && Trim(text.value) != [] ==>
      r == [] || (!IsJsSpace(r[0]) && !IsJsSpace(r[|r| - 1]))
  {
    if text.None? || Trim(text.value) == [] then PLACEHOLDER
    else
      var parts := Split(text.value);
      Trim(Join(seq(|parts|, k requires 0 <= k < |parts| => Rewrite(parts[k])), [LF]))
  }

  // ---------------------------------------------------------------------
  // Texts the rewrites leave alone

  lemma {:induction false} BoldNoOp(s: Text)
    requires forall k :: 0 <= k < |s| ==> !DoubleStarAt(s, k)
    ensures Bold(s) == s
    decreases |s|
  {
    if s != [] {
      assert forall k :: 0 <= k < |s| - 1 ==> DoubleStarAt(s[1..], k) == DoubleStarAt(s, k + 1);
      BoldNoOp(s[1..]);
    }
  }

  lemma {:induction false} ItalicWithoutStars(afterStar: bool, s: Text)
    requires STAR !in s
    ensures ItalicAfter(afterStar, s) == s
    decreases |s|
  {
    if s != [] {
      ItalicWithoutStars(false, s[1..]);
    }
  }

  /** A section without "*" comes out of the three rewrites unchanged. */
  lemma {:induction false} RewriteWithoutStars(s: Text)
    requires STAR !in s
    ensures Rewrite(s) == s
  {
    assert forall k :: 0 <= k < |s| ==> s[k] != STAR;
    BoldNoOp(s);
    ItalicWithoutStars(false, s);
    BulletsPointwise(s);
  }

  /** For a non-blank input without "*" the conversion only inserts the status
      line breaks and trims. */
  lemma {:induction false} ConvertWithoutStars(s: Text)
    requires STAR !in s && Trim(s) != []
    ensures ConvertToWhatsApp(Some(s)) == Trim(InsertBreaks(s))
  {
    var parts := Split(s);
    var rewritten := seq(|parts|, k requires 0 <= k < |parts| => Rewrite(parts[k]));
    forall k | 0 <= k < |parts|
      ensures rewritten[k] == parts[k]
    {
      RewriteWithoutStars(parts[k]);
    }
    assert rewritten == parts;
    SplitJoin(s);
  }

  // ---------------------------------------------------------------------
  // Only asterisks are touched

  predicate IsStarImage(c: CodeUnit)
  {
    c == STAR || c == UNDERSCORE || c == BULLET
  }

  predicate IsNotStarImage(c: CodeUnit) { !IsStarImage(c) }

  /** t is s with each "*" either deleted or replaced by "*", "_" or "•",
      and every other unit kept, in order. */
  predicate StarEdit(s: Text, t: Text)
    decreases |s|
  {
    if s == [] then t == []
    else if s[0] == STAR then
      StarEdit(s[1..], t) || (t != [] && IsStarImage(t[0]) && StarEdit(s[1..], t[1..]))
    else t != [] && t[0] == s[0] && StarEdit(s[1..], t[1..])
  }

  lemma {:induction false} StarEditRefl(s: Text)
    ensures StarEdit(s, s)
    decreases |s|
  {
    if s != [] {
      StarEditRefl(s[1..]);
    }
  }

  lemma {:induction false} StarEditConcat(a: Text, b: Text, c: Text, d: Text)
    requires StarEdit(a, b) && StarEdit(c, d)
    ensures StarEdit(a + c, b + d)
    decreases |a|
  {
    if a == [] {
      assert a + c == c && b + d == d;
    } else {
      assert (a + c)[0] == a[0] && (a + c)[1..] == a[1..] + c;
      if a[0] == STAR && StarEdit(a[1..], b) {
        StarEditConcat(a[1..], b, c, d);
      } else {
        assert (b + d)[0] == b[0] && (b + d)[1..] == b[1..] + d;
        StarEditConcat(a[1..], b[1..], c, d);
      }
    }
  }

  lemma {:induction false} StarEditTrans(a: Text, b: Text, c: Text)
    requires StarEdit(a, b) && StarEdit(b, c)
    ensures StarEdit(a, c)
    decreases |a|
  {
    if a != [] {
      if a[0] == STAR && StarEdit(a[1..], b) {
        StarEditTrans(a[1..], b, c);
      } else if b[0] == STAR && StarEdit(b[1..], c) {
        StarEditTrans(a[1..], b[1..], c);
      } else {
        StarEditTrans(a[1..], b[1..], c[1..]);
      }
    }
  }

  /** What a star edit keeps: every unit that is not a possible image of "*"
      survives in order, and nothing is added. */
  lemma {:induction false} StarEditKeeps(s: Text, t: Text)
    requires StarEdit(s, t)
    ensures Filter(t, IsNotStarImage) == Filter(s, IsNotStarImage)
    ensures |t| <= |s|
    decreases |s|
  {
    if s != [] {
      if s[0] == STAR && StarEdit(s[1..], t) {
        StarEditKeeps(s[1..], t);
      } else {
        StarEditKeeps(s[1..], t[1..]);
      }
    }
  }

  lemma {:induction false} StarEditJoin(ps: seq<Text>, qs: seq<Text>, sep: Text)
    requires |ps| == |qs|
    requires forall k :: 0 <= k < |ps| ==> StarEdit(ps[k], qs[k])
    ensures StarEdit(Join(ps, sep), Join(qs, sep))
  {
    if |ps| > 1 {
      StarEditJoin(ps[1..], qs[1..], sep);
      StarEditRefl(sep);
      StarEditConcat(ps[0], qs[0], sep, sep);
      StarEditConcat(ps[0] + sep, qs[0] + sep, Join(ps[1..], sep), Join(qs[1..], sep));
    }
  }

  lemma {:induction false} BoldEdits(s: Text)
    ensures StarEdit(s, Bold(s))
    decreases |s|
  {
    if s != [] {
      if BoldOpens(s) {
        var m := CloseBold(s, 2).value;
        CloseBoldSpec(s, 2);
        var inner := s[2..m];
        BoldEdits(s[m + 2..]);
        assert StarEdit([STAR, STAR], [STAR]);
        StarEditRefl(inner);
        StarEditConcat([STAR, STAR], [STAR], inner, inner);
        StarEditConcat([STAR, STAR] + inner, [STAR] + inner, [STAR, STAR], [STAR]);
        StarEditConcat([STAR, STAR] + inner + [STAR, STAR], [STAR] + inner + [STAR], s[m + 2..], Bold(s[m + 2..]));
        assert s == [STAR, STAR] + inner + [STAR, STAR] + s[m + 2..];
      } else {
        BoldEdits(s[1..]);
        StarEditRefl([s[0]]);
        StarEditConcat([s[0]], [s[0]], s[1..], Bold(s[1..]));
        assert s == [s[0]] + s[1..];
      }
    }
  }

  lemma {:induction false} ItalicEdits(afterStar: bool, s: Text)
    ensures StarEdit(s, ItalicAfter(afterStar, s))
    decreases |s|
  {
    if s != [] {
      if ItalicOpens(afterStar, s) && CloseItalic(s, 2).Some? {
        var m := CloseItalic(s, 2).value;
        CloseItalicSpec(s, 2);
        var inner := s[1..m];
        ItalicEdits(s[m] == STAR, s[m + 1..]);
        assert StarEdit([STAR], [UNDERSCORE]);
        StarEditRefl(inner);
        StarEditConcat([STAR], [UNDERSCORE], inner, inner);
        StarEditConcat([STAR] + inner, [UNDERSCORE] + inner, [STAR], [UNDERSCORE]);
        StarEditConcat([STAR] + inner + [STAR], [UNDERSCORE] + inner + [UNDERSCORE],
                       s[m + 1..], ItalicAfter(s[m] == STAR, s[m + 1..]));
        assert s == [STAR] + inner + [STAR] + s[m + 1..];
      } else {
        ItalicEdits(s[0] == STAR, s[1..]);
        StarEditRefl([s[0]]);
        StarEditConcat([s[0]], [s[0]], s[1..], ItalicAfter(s[0] == STAR, s[1..]));
        assert s == [s[0]] + s[1..];
      }
    }
  }

  lemma {:induction false} BulletFromEdits(s: Text, i: nat)
    requires i <= |s|
    ensures StarEdit(s[i..], BulletFrom(s, i))
    decreases |s| - i
  {
    if i < |s| {
      if BulletAt(s, i) {
        BulletFromEdits(s, i + 2);
        assert StarEdit([STAR, SPACE], [BULLET, SPACE]);
        StarEditConcat([STAR, SPACE], [BULLET, SPACE], s[i + 2..], BulletFrom(s, i + 2));
        assert s[i..] == [STAR, SPACE] + s[i + 2..];
      } else {
        BulletFromEdits(s, i + 1);
        StarEditRefl([s[i]]);
        StarEditConcat([s[i]], [s[i]], s[i + 1..], BulletFrom(s, i + 1));
        assert s[i..] == [s[i]] + s[i + 1..];
      }
    }
  }

  /** Each rewrite only edits asterisks, and so does their chain. */
  lemma {:induction false} RewriteEdits(s: Text)
    ensures StarEdit(s, Rewrite(s))
  {
    BoldEdits(s);
    var b := Bold(s);
    ItalicEdits(false, b);
    var t := Italic(b);
    assert t[0..] == t;
    BulletFromEdits(t, 0);
    StarEditTrans(s, b, t);
    StarEditTrans(s, t, Rewrite(s));
  }

  /** Apart from the line feeds inserted before status lines and the final
      trim, the conversion deletes asterisks or turns them into "*", "_" or
      "•", and changes nothing else. */
  lemma {:induction false} ConvertEditsOnlyStars(s: Text)
    requires Trim(s) != []
    ensures exists u :: StarEdit(InsertBreaks(s), u) && ConvertToWhatsApp(Some(s)) == Trim(u)
  {
    var parts := Split(s);
    var rewritten := seq(|parts|, k requires 0 <= k < |parts| => Rewrite(parts[k]));
    forall k | 0 <= k < |parts|
      ensures StarEdit(parts[k], rewritten[k])
    {
      RewriteEdits(parts[k]);
    }
    StarEditJoin(parts, rewritten, [LF]);
    SplitJoin(s);
    var u := Join(rewritten, [LF]);
    assert StarEdit(InsertBreaks(s), u) && ConvertToWhatsApp(Some(s)) == Trim(u);
  }

  // ---------------------------------------------------------------------
  // Two worked cases

  /** A text without line terminators has no cut and is one section. */
  lemma {:induction false} SingleLine(s: Text)
    requires forall k :: 0 <= k < |s| ==> !IsLineTerminator(s[k])
    ensures Split(s) == [s]
  {
    assert forall k :: 0 <= k < |s| ==> !IsCut(s, k);
    SplitWithoutCuts(s);
  }

  /** The bold rewrite turns "**w**" into "*w*", which the italic rewrite
      then turns into "_w_": the converter never emits WhatsApp bold. */
  lemma {:induction false} BoldBecomesItalic(w: Text)
    requires w != [] && STAR !in w
    requires forall k :: 0 <= k < |w| ==> !IsLineTerminator(w[k])
    ensures ConvertToWhatsApp(Some([STAR, STAR] + w + [STAR, STAR])) == [UNDERSCORE] + w + [UNDERSCORE]
  {
    var s := [STAR, STAR] + w + [STAR, STAR];
    var b := [STAR] + w + [STAR];
    var t := [UNDERSCORE] + w + [UNDERSCORE];
    assert !IsJsSpace(s[0]);
    assert forall k :: 0 <= k < |s| ==> !IsLineTerminator(s[k]);
    SingleLine(s);
    BoldStep(w);
    ItalicStep(w);
    BulletsPointwise(t);
    assert Bullets(t) == t;
    assert Rewrite(s) == t;
    var parts := Split(s);
    assert seq(|parts|, k requires 0 <= k < |parts| => Rewrite(parts[k])) == [t];
    assert Join([t], [LF]) == t;
    TrimNoOp(t);
  }

  /** The lazy match closes at the first "**" when nothing before it is a
      "*" or a line terminator. */
  lemma {:induction false} CloseBoldAt(s: Text, m: nat, j: nat)
    requires m <= j && DoubleStarAt(s, j)
    requires forall k :: m <= k < j ==> s[k] != STAR && !IsLineTerminator(s[k])
    ensures CloseBold(s, m) == Some(j)
    decreases j - m
  {
    if m < j {
      CloseBoldAt(s, m + 1, j);
    }
  }

  lemma {:induction false} CloseItalicAt(s: Text, m: nat, j: nat)
    requires 1 <= m <= j && LoneStarAt(s, j)
    requires forall k :: m <= k < j ==> s[k] != STAR && !IsLineTerminator(s[k])
    ensures CloseItalic(s, m) == Some(j)
    decreases j - m
  {
    if m < j {
      CloseItalicAt(s, m + 1, j);
    }
  }

  lemma {:induction false} BoldStep(w: Text)
    requires STAR !in w
    requires forall k :: 0 <= k < |w| ==> !IsLineTerminator(w[k])
    ensures Bold([STAR, STAR] + w + [STAR, STAR]) == [STAR] + w + [STAR]
  {
    var s := [STAR, STAR] + w + [STAR, STAR];
    var n := |w|;
    assert forall k :: 2 <= k < n + 2 ==> s[k] == w[k - 2];
    CloseBoldAt(s, 2, n + 2);
    assert s[2..n + 2] == w && s[n + 4..] == [];
  }

  lemma {:induction false} ItalicStep(w: Text)
    requires w != [] && STAR !in w
    requires forall k :: 0 <= k < |w| ==> !IsLineTerminator(w[k])
    ensures Italic([STAR] + w + [STAR]) == [UNDERSCORE] + w + [UNDERSCORE]
  {
    var b := [STAR] + w + [STAR];
    var n := |w|;
    assert forall k :: 1 <= k < n + 1 ==> b[k] == w[k - 1];
    assert ItalicOpens(false, b);
    CloseItalicAt(b, 2, n + 1);
    assert b[1..n + 1] == w && b[n + 2..] == [];
    assert Italic(b) == [UNDERSCORE] + w + [UNDERSCORE] + ItalicAfter(b[n + 1] == STAR, []);
  }

  /** A single line "* rest" with no further "*" becomes "• rest", with its
      trailing whitespace trimmed. */
  lemma {:induction false} BulletLine(rest: Text)
    requires STAR !in rest
    requires forall k :: 0 <= k < |rest| ==> !IsLineTerminator(rest[k])
    ensures ConvertToWhatsApp(Some([STAR, SPACE] + rest)) == TrimEnd([BULLET, SPACE] + rest)
  {
    var s := [STAR, SPACE] + rest;
    var t := [BULLET, SPACE] + rest;
    assert !IsJsSpace(s[0]);
    assert forall k :: 0 <= k < |s| ==> !IsLineTerminator(s[k]);
    SingleLine(s);
    BulletLineSteps(rest);
    assert Join([t], [LF]) == t;
    TrimIsTrimEnd(t);
  }

  lemma {:induction false} BulletLineSteps(rest: Text)
    requires STAR !in rest
    ensures Rewrite([STAR, SPACE] + rest) == [BULLET, SPACE] + rest
  {
    var s := [STAR, SPACE] + rest;
    assert forall k :: 0 <= k < |s| ==> !DoubleStarAt(s, k);
    BoldNoOp(s);
    ItalicStarSpace(rest);
    BulletsStarSpace(rest);
  }

  /** The italic rewrite finds no closing "*" in "* rest". */
  lemma {:induction false} ItalicStarSpace(rest: Text)
    requires STAR !in rest
    ensures Italic([STAR, SPACE] + rest) == [STAR, SPACE] + rest
  {
    var s := [STAR, SPACE] + rest;
    assert forall k :: 1 <= k < |s| ==> s[k] != STAR;
    CloseItalicSpec(s, 2);
    assert CloseItalic(s, 2).None?;
    assert s[1..] == [SPACE] + rest;
    ItalicWithoutStars(true, s[1..]);
  }

  /** The bullet rewrite changes the leading "*" of "* rest" and nothing else. */
  lemma {:induction false} BulletsStarSpace(rest: Text)
    requires STAR !in rest
    ensures Bullets([STAR, SPACE] + rest) == [BULLET, SPACE] + rest
  {
    var s := [STAR, SPACE] + rest;
    assert BulletAt(s, 0);
    BulletFromPointwise(s, 2);
    var t := BulletFrom(s, 2);
    forall k | 0 <= k < |rest|
      ensures t[k] == rest[k]
    {
      assert s[k + 2] == rest[k];
      assert t[k + 2 - 2] == BulletImage(s, k + 2);
    }
    assert t == rest;
  }


  // ---------------------------------------------------------------------
  // Bold and italic never reach across a line terminator

  lemma {:induction false} CloseBoldPrefix(a: Text, c: CodeUnit, b: Text, m: nat)
    requires IsLineTerminator(c) && m <= |a|
    ensures CloseBold(a + [c] + b, m) == CloseBold(a, m)
    decreases |a| - m
  {
    if m < |a| {
      CloseBoldPrefix(a, c, b, m + 1);
    }
  }

  /** The bold rewrite of two lines is the bold rewrite of each line. */
  lemma {:induction false} BoldAcrossBreak(a: Text, c: CodeUnit, b: Text)
    requires IsLineTerminator(c)
    ensures Bold(a + [c] + b) == Bold(a) + [c] + Bold(b)
    decreases |a|
  {
    var s := a + [c] + b;
    if a == [] {
      assert s == [c] + b && s[1..] == b;
    } else {
      if |a| >= 2 {
        CloseBoldPrefix(a, c, b, 2);
      }
      if BoldOpens(a) {
        var m := CloseBold(a, 2).value;
        var head := [STAR] + a[2..m] + [STAR];
        assert s[2..m] == a[2..m];
        assert s[m + 2..] == a[m + 2..] + [c] + b;
        assert Bold(s) == head + Bold(a[m + 2..] + [c] + b);
        assert Bold(a) == head + Bold(a[m + 2..]);
        BoldAcrossBreak(a[m + 2..], c, b);
        Regroup(head, Bold(a[m + 2..]), c, Bold(b));
      } else {
        assert s[1..] == a[1..] + [c] + b;
        assert Bold(s) == [a[0]] + Bold(a[1..] + [c] + b);
        BoldAcrossBreak(a[1..], c, b);
        Regroup([a[0]], Bold(a[1..]), c, Bold(b));
      }
    }
  }

  lemma {:induction false} CloseItalicPrefix(a: Text, c: CodeUnit, b: Text, m: nat)
    requires IsLineTerminator(c) && 1 <= m <= |a|
    ensures CloseItalic(a + [c] + b, m) == CloseItalic(a, m)
    decreases |a| - m
  {
    if m < |a| {
      CloseItalicPrefix(a, c, b, m + 1);
    }
  }

  /** Proof helper: sequence regrouping; states nothing about the program. */
  lemma {:induction false} Regroup(h: Text, x: Text, c: CodeUnit, y: Text)
    ensures h + (x + [c] + y) == (h + x) + [c] + y
  {
  }

  lemma {:induction false} ItalicAfterBreak(afterStar: bool, c: CodeUnit, b: Text)
    requires IsLineTerminator(c)
    ensures ItalicAfter(afterStar, [c] + b) == [c] + Italic(b)
  {
    assert ([c] + b)[1..] == b;
  }

  lemma {:induction false} ItalicMatchBeforeBreak(afterStar: bool, a: Text, c: CodeUnit, b: Text)
    requires IsLineTerminator(c)
    requires ItalicOpens(afterStar, a) && CloseItalic(a, 2).Some?
    ensures var m := CloseItalic(a, 2).value;
      ItalicAfter(afterStar, a + [c] + b)
      == [UNDERSCORE] + a[1..m] + [UNDERSCORE] + ItalicAfter(a[m] == STAR, a[m + 1..] + [c] + b)
  {
    var s := a + [c] + b;
    var m := CloseItalic(a, 2).value;
    CloseItalicPrefix(a, c, b, 2);
    assert ItalicOpens(afterStar, s);
    assert s[1..m] == a[1..m] && s[m] == a[m];
    assert s[m + 1..] == a[m + 1..] + [c] + b;
  }

  lemma {:induction false} ItalicSkipBeforeBreak(afterStar: bool, a: Text, c: CodeUnit, b: Text)
    requires IsLineTerminator(c) && a != []
    requires !(ItalicOpens(afterStar, a) && CloseItalic(a, 2).Some?)
    ensures ItalicAfter(afterStar, a + [c] + b) == [a[0]] + ItalicAfter(a[0] == STAR, a[1..] + [c] + b)
  {
    var s := a + [c] + b;
    if |a| >= 2 {
      CloseItalicPrefix(a, c, b, 2);
    }
    assert !(ItalicOpens(afterStar, s) && CloseItalic(s, 2).Some?);
    assert s[0] == a[0] && s[1..] == a[1..] + [c] + b;
  }

  /** The italic rewrite of two lines is the italic rewrite of each line:
      the lookbehind at the start of the second line sees the line
      terminator, as at the start of a text. */
  lemma {:induction false} ItalicAcrossBreak(afterStar: bool, a: Text, c: CodeUnit, b: Text)
    requires IsLineTerminator(c)
    ensures ItalicAfter(afterStar, a + [c] + b) == ItalicAfter(afterStar, a) + [c] + Italic(b)
    decreases |a|, 1
  {
    if a == [] {
      assert a + [c] + b == [c] + b;
      ItalicAfterBreak(afterStar, c, b);
    } else if ItalicOpens(afterStar, a) && CloseItalic(a, 2).Some? {
      ItalicMatchAcrossBreak(afterStar, a, c, b);
    } else {
      ItalicSkipAcrossBreak(afterStar, a, c, b);
    }
  }

  lemma {:induction false} ItalicMatchAcrossBreak(afterStar: bool, a: Text, c: CodeUnit, b: Text)
    requires IsLineTerminator(c)
    requires ItalicOpens(afterStar, a) && CloseItalic(a, 2).Some?
    ensures ItalicAfter(afterStar, a + [c] + b) == ItalicAfter(afterStar, a) + [c] + Italic(b)
    decreases |a|, 0
  {
    var m := CloseItalic(a, 2).value;
    var head := [UNDERSCORE] + a[1..m] + [UNDERSCORE];
    var after := a[m] == STAR;
    var x := ItalicAfter(after, a[m + 1..]);
    assert ItalicAfter(afterStar, a) == head + x;
    ItalicMatchBeforeBreak(afterStar, a, c, b);
    ItalicAcrossBreak(after, a[m + 1..], c, b);
    Regroup(head, x, c, Italic(b));
  }

  lemma {:induction false} ItalicSkipAcrossBreak(afterStar: bool, a: Text, c: CodeUnit, b: Text)
    requires IsLineTerminator(c) && a != []
    requires !(ItalicOpens(afterStar, a) && CloseItalic(a, 2).Some?)
    ensures ItalicAfter(afterStar, a + [c] + b) == ItalicAfter(afterStar, a) + [c] + Italic(b)
    decreases |a|, 0
  {
    var after := a[0] == STAR;
    var x := ItalicAfter(after, a[1..]);
    assert ItalicAfter(afterStar, a) == [a[0]] + x;
    ItalicSkipBeforeBreak(afterStar, a, c, b);
    ItalicAcrossBreak(after, a[1..], c, b);
    Regroup([a[0]], x, c, Italic(b));
  }
}
