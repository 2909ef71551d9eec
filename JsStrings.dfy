/** Strings as the formatter's JavaScript sees them: sequences of UTF-16 code
    units (none of its regular expressions carries the `u` flag), with the
    character classes `\s` and `.`, `String.prototype.trim`, `join`, `includes`
    and the small facts about them that the rest of the model uses. */
module JsStrings {

  /** One UTF-16 code unit. */
  newtype CodeUnit = x: int | 0 <= x < 0x1_0000

  /** A JavaScript string value. */
  type Text = seq<CodeUnit>

  datatype Option<T> = None | Some(value: T)

  const TAB: CodeUnit := 0x09
  const LF: CodeUnit := 0x0A
  const CR: CodeUnit := 0x0D
  const SPACE: CodeUnit := 0x20
  const DOUBLE_QUOTE: CodeUnit := 0x22
  const APOSTROPHE: CodeUnit := 0x27
  const STAR: CodeUnit := 0x2A
  const UNDERSCORE: CodeUnit := 0x5F
  const NBSP: CodeUnit := 0xA0
  const MIDDLE_DOT: CodeUnit := 0xB7
  const ZERO_WIDTH_SPACE: CodeUnit := 0x200B
  const LEFT_SINGLE_QUOTE: CodeUnit := 0x2018
  const RIGHT_SINGLE_QUOTE: CodeUnit := 0x2019
  const LEFT_DOUBLE_QUOTE: CodeUnit := 0x201C
  const RIGHT_DOUBLE_QUOTE: CodeUnit := 0x201D
  const BULLET: CodeUnit := 0x2022

  /** The code units of a string literal whose characters all lie in the Basic
      Multilingual Plane (every literal of the model does). */
  function Units(s: string): (r: Text)
    ensures |r| == |s|
  {
    seq(|s|, i requires 0 <= i < |s| => (s[i] as int % 0x1_0000) as CodeUnit)
  }

  /** ECMAScript LineTerminator: what `.` does not match and what `^`/`$`
      see as a line boundary under the `m` flag. */
  predicate IsLineTerminator(c: CodeUnit)
  {
    c == LF || c == CR || c == 0x2028 || c == 0x2029
  }

  /** ECMAScript WhiteSpace plus LineTerminator: the class `\s`, and exactly
      what `trim` removes. WhiteSpace is TAB, VT, FF, ZWNBSP and the Unicode
      category Zs. U+200B is not in it. */
  predicate IsJsSpace(c: CodeUnit)
  {
    || c == TAB || c == 0x0B || c == 0x0C || c == 0xFEFF
    || c == SPACE || c == NBSP || c == 0x1680 || (0x2000 <= c <= 0x200A)
    || c == 0x202F || c == 0x205F || c == 0x3000
    || IsLineTerminator(c)
  }

  predicate IsNotSpace(c: CodeUnit) { !IsJsSpace(c) }

  /** No two whitespace units stand next to each other. */
  ghost predicate NoSpaceRuns(t: Text)
  {
    forall k :: 0 <= k < |t| - 1 ==> !(IsJsSpace(t[k]) && IsJsSpace(t[k + 1]))
  }

  /** One past the maximal run of whitespace that starts at i. */
  function SpaceRunEnd(s: Text, i: nat): (j: nat)
    requires i <= |s|
    ensures i <= j <= |s|
    ensures forall k :: i <= k < j ==> IsJsSpace(s[k])
    ensures j == |s| || !IsJsSpace(s[j])
    decreases |s| - i
  {
    if i < |s| && IsJsSpace(s[i]) then SpaceRunEnd(s, i + 1) else i
  }

  /** `s[a..a+|r|] == r` for some a: r is a contiguous piece of s. */
  ghost predicate IsSlice(r: Text, s: Text)
  {
    exists a :: SliceAt(r, s, a)
  }

  ghost predicate SliceAt(r: Text, s: Text, a: int)
  {
    0 <= a <= |s| - |r| && r == s[a..a + |r|]
  }

  function TrimStart(s: Text): (r: Text)
    ensures |r| <= |s| && r == s[|s| - |r|..]
    ensures forall k :: 0 <= k < |s| - |r| ==> IsJsSpace(s[k])
    ensures r == [] || !IsJsSpace(r[0])
  {
    s[SpaceRunEnd(s, 0)..]
  }

  function TrimEnd(s: Text): (r: Text)
    ensures |r| <= |s| && r == s[..|r|]
    ensures forall k :: |r| <= k < |s| ==> IsJsSpace(s[k])
    ensures r == [] || !IsJsSpace(r[|r| - 1])
  {
    if s != [] && IsJsSpace(s[|s| - 1]) then TrimEnd(s[..|s| - 1]) else s
  }

  /** Where the trimmed text starts. */
  function TrimOffset(s: Text): nat
  {
    |s| - |TrimStart(s)|
  }

  /** `String.prototype.trim`: the slice of s left once the leading and the
      trailing whitespace are removed. */
  function Trim(s: Text): (r: Text)
    ensures r == [] || (!IsJsSpace(r[0]) && !IsJsSpace(r[|r| - 1]))
    ensures TrimOffset(s) + |r| <= |s| && r == s[TrimOffset(s)..TrimOffset(s) + |r|]
    ensures forall k :: 0 <= k < TrimOffset(s) ==> IsJsSpace(s[k])
    ensures forall k :: TrimOffset(s) + |r| <= k < |s| ==> IsJsSpace(s[k])
  {
    TrimEnd(TrimStart(s))
  }

  lemma {:induction false} TrimSlice(s: Text)
    ensures IsSlice(Trim(s), s)
  {
    assert SliceAt(Trim(s), s, TrimOffset(s));
  }

  lemma {:induction false} TrimMembers(s: Text)
    ensures forall c :: c in Trim(s) ==> c in s
  {
    var r, a := Trim(s), TrimOffset(s);
    forall c | c in r
      ensures c in s
    {
      var k :| 0 <= k < |r| && r[k] == c;
      assert s[a + k] == c;
    }
  }

  /** The trim is empty exactly when the whole text is whitespace. */
  lemma {:induction false} TrimBlank(s: Text)
    ensures Trim(s) == [] <==> forall k :: 0 <= k < |s| ==> IsJsSpace(s[k])
  {
    var r, a := Trim(s), TrimOffset(s);
    if r == [] {
      forall k | 0 <= k < |s|
        ensures IsJsSpace(s[k])
      {
        if k >= a {
          assert a + |r| <= k;
        }
      }
    } else {
      assert s[a] == r[0];
    }
  }

  /** A text that neither starts nor ends with whitespace is its own trim. */
  lemma {:induction false} TrimNoOp(s: Text)
    requires s == [] || (!IsJsSpace(s[0]) && !IsJsSpace(s[|s| - 1]))
    ensures Trim(s) == s
  {
  }

  /** When the text starts with something other than whitespace, trimming only
      touches the end. */
  lemma {:induction false} TrimIsTrimEnd(s: Text)
    requires s != [] && !IsJsSpace(s[0])
    ensures Trim(s) == TrimEnd(s)
  {
  }

  /** `parts.join(sep)`. */
  function Join(parts: seq<Text>, sep: Text): Text
  {
    if |parts| == 0 then []
    else if |parts| == 1 then parts[0]
    else parts[0] + sep + Join(parts[1..], sep)
  }

  /** The parts one after another, without separator. */
  function Concat(parts: seq<Text>): Text
  {
    if parts == [] then [] else parts[0] + Concat(parts[1..])
  }

  lemma {:induction false} ConcatAppend(parts: seq<Text>, last: Text)
    ensures Concat(parts + [last]) == Concat(parts) + last
  {
    if parts != [] {
      assert (parts + [last])[1..] == parts[1..] + [last];
      ConcatAppend(parts[1..], last);
    }
  }

  /** Joining never introduces a unit that neither the parts nor the separator hold. */
  lemma {:induction false} JoinLacks(parts: seq<Text>, sep: Text, c: CodeUnit)
    requires c !in sep
    requires forall k :: 0 <= k < |parts| ==> c !in parts[k]
    ensures c !in Join(parts, sep)
  {
    if |parts| > 1 {
      JoinLacks(parts[1..], sep, c);
    }
  }

  /** Number of occurrences of c in s. */
  function Count(s: Text, c: CodeUnit): nat
  {
    if s == [] then 0 else (if s[0] == c then 1 else 0) + Count(s[1..], c)
  }

  lemma {:induction false} CountConcat(a: Text, b: Text, c: CodeUnit)
    ensures Count(a + b, c) == Count(a, c) + Count(b, c)
  {
    if a == [] {
      assert a + b == b;
    } else {
      assert (a + b)[0] == a[0] && (a + b)[1..] == a[1..] + b;
      CountConcat(a[1..], b, c);
    }
  }

  lemma {:induction false} CountAbsent(s: Text, c: CodeUnit)
    requires c !in s
    ensures Count(s, c) == 0
  {
    if s != [] {
      CountAbsent(s[1..], c);
    }
  }

  /** A contiguous piece holds no more occurrences than the whole. */
  lemma {:induction false} CountSlice(r: Text, s: Text, c: CodeUnit)
    requires IsSlice(r, s)
    ensures Count(r, c) <= Count(s, c)
  {
    var a :| SliceAt(r, s, a);
    assert s == s[..a] + r + s[a + |r|..];
    CountConcat(s[..a] + r, s[a + |r|..], c);
    CountConcat(s[..a], r, c);
  }

  function Sum(xs: seq<nat>): nat
  {
    if xs == [] then 0 else xs[0] + Sum(xs[1..])
  }

  lemma {:induction false} SumMonotone(xs: seq<nat>, ys: seq<nat>)
    requires |xs| == |ys|
    requires forall k :: 0 <= k < |xs| ==> xs[k] <= ys[k]
    ensures Sum(xs) <= Sum(ys)
  {
    if xs != [] {
      SumMonotone(xs[1..], ys[1..]);
    }
  }

  /** A separator free of c adds no occurrence of c: the count of a join is
      the sum of the counts of its parts. */
  lemma {:induction false} CountJoin(parts: seq<Text>, sep: Text, c: CodeUnit)
    requires c !in sep
    ensures Count(Join(parts, sep), c)
         == Sum(seq(|parts|, k requires 0 <= k < |parts| => Count(parts[k], c)))
  {
    var counts := seq(|parts|, k requires 0 <= k < |parts| => Count(parts[k], c));
    if |parts| == 1 {
      assert Sum(counts) == counts[0] + Sum(counts[1..]);
    } else if |parts| > 1 {
      var rest := seq(|parts| - 1, k requires 0 <= k < |parts| - 1 => Count(parts[1..][k], c));
      assert counts[1..] == rest;
      CountJoin(parts[1..], sep, c);
      CountConcat(parts[0] + sep, Join(parts[1..], sep), c);
      CountConcat(parts[0], sep, c);
      CountAbsent(sep, c);
    }
  }

  /** `s.startsWith(p, i)`: p occurs in s at index i. */
  predicate OccursAt(s: Text, i: nat, p: Text)
  {
    i + |p| <= |s| && s[i..i + |p|] == p
  }

  /** `s.includes(p)`. */
  predicate Includes(s: Text, p: Text)
    decreases |s|
  {
    OccursAt(s, 0, p) || (s != [] && Includes(s[1..], p))
  }

  /** `includes` finds p exactly when p occurs at some index. */
  lemma {:induction false} IncludesAt(s: Text, p: Text)
    ensures Includes(s, p) <==> exists i :: 0 <= i <= |s| && OccursAt(s, i, p)
  {
    if Includes(s, p) && !OccursAt(s, 0, p) {
      IncludesAt(s[1..], p);
      var i :| 0 <= i <= |s| - 1 && OccursAt(s[1..], i, p);
      assert s[1..][i..i + |p|] == s[i + 1..i + 1 + |p|];
      assert OccursAt(s, i + 1, p);
    }
    if (exists i :: 0 <= i <= |s| && OccursAt(s, i, p)) && !OccursAt(s, 0, p) {
      var i :| 0 <= i <= |s| && OccursAt(s, i, p);
      assert i > 0;
      assert s[1..][i - 1..i - 1 + |p|] == s[i..i + |p|];
      assert OccursAt(s[1..], i - 1, p);
      IncludesAt(s[1..], p);
    }
  }

  /** t is s with some units deleted, the rest kept in order. */
  predicate IsSubsequence(t: Text, s: Text)
    decreases |s|
  {
    if t == [] then true
    else if s == [] then false
    else (t[0] == s[0] && IsSubsequence(t[1..], s[1..])) || IsSubsequence(t, s[1..])
  }

  lemma {:induction false} SubsequenceLength(t: Text, s: Text)
    requires IsSubsequence(t, s)
    ensures |t| <= |s|
  {
    if t != [] {
      if t[0] == s[0] && IsSubsequence(t[1..], s[1..]) {
        SubsequenceLength(t[1..], s[1..]);
      } else {
        SubsequenceLength(t, s[1..]);
      }
    }
  }

  lemma {:induction false} SubsequenceRefl(s: Text)
    ensures IsSubsequence(s, s)
  {
    if s != [] {
      SubsequenceRefl(s[1..]);
    }
  }

  lemma {:induction false} SubsequenceTrans(u: Text, t: Text, s: Text)
    requires IsSubsequence(u, t) && IsSubsequence(t, s)
    ensures IsSubsequence(u, s)
    decreases |s|
  {
    if u != [] {
      if t[0] == s[0] && IsSubsequence(t[1..], s[1..]) {
        if u[0] == t[0] && IsSubsequence(u[1..], t[1..]) {
          SubsequenceTrans(u[1..], t[1..], s[1..]);
        } else {
          SubsequenceTrans(u, t[1..], s[1..]);
        }
      } else {
        SubsequenceTrans(u, t, s[1..]);
      }
    }
  }

  /** Keeping a unit in front of both sides keeps the relation. */
  lemma {:induction false} SubsequenceCons(c: CodeUnit, t: Text, s: Text)
    requires IsSubsequence(t, s)
    ensures IsSubsequence([c] + t, [c] + s)
  {
    assert ([c] + t)[1..] == t;
    assert ([c] + s)[1..] == s;
  }

  /** Dropping a unit from the front of the longer side keeps the relation. */
  lemma {:induction false} SubsequenceSkip(c: CodeUnit, t: Text, s: Text)
    requires IsSubsequence(t, s)
    ensures IsSubsequence(t, [c] + s)
  {
    assert ([c] + s)[1..] == s;
  }

  /** What `.replace(/[class]/g, "")` leaves: the units outside the class, in order. */
  function Filter(s: Text, keep: CodeUnit -> bool): Text
  {
    if s == [] then []
    else if keep(s[0]) then [s[0]] + Filter(s[1..], keep)
    else Filter(s[1..], keep)
  }

  /** What survives the filter is the units of s that pass the test. */
  lemma {:induction false} FilterMembers(s: Text, keep: CodeUnit -> bool)
    ensures forall c :: c in Filter(s, keep) ==> c in s && keep(c)
  {
    if s != [] {
      FilterMembers(s[1..], keep);
    }
  }

  /** The filter keeps the order of what it keeps. */
  lemma {:induction false} FilterSubsequence(s: Text, keep: CodeUnit -> bool)
    ensures IsSubsequence(Filter(s, keep), s)
  {
    if s != [] {
      var rest := Filter(s[1..], keep);
      FilterSubsequence(s[1..], keep);
      if keep(s[0]) {
        SubsequenceCons(s[0], rest, s[1..]);
      } else {
        SubsequenceSkip(s[0], rest, s[1..]);
      }
      assert s == [s[0]] + s[1..];
    }
  }

  lemma {:induction false} FilterNoOp(s: Text, keep: CodeUnit -> bool)
    requires forall c :: c in s ==> keep(c)
    ensures Filter(s, keep) == s
  {
    if s != [] {
      FilterNoOp(s[1..], keep);
    }
  }

  /** What `.replace(/[class]/g, "x")` does with a one-unit replacement. */
  function MapUnits(s: Text, f: CodeUnit -> CodeUnit): (r: Text)
    ensures |r| == |s|
    ensures forall k :: 0 <= k < |s| ==> r[k] == f(s[k])
  {
    seq(|s|, k requires 0 <= k < |s| => f(s[k]))
  }

  /** Mapping both sides keeps the subsequence relation. */
  lemma {:induction false} SubsequenceMap(t: Text, s: Text, f: CodeUnit -> CodeUnit)
    requires IsSubsequence(t, s)
    ensures IsSubsequence(MapUnits(t, f), MapUnits(s, f))
    decreases |s|
  {
    if t != [] {
      var mt, ms := MapUnits(t, f), MapUnits(s, f);
      assert mt[1..] == MapUnits(t[1..], f);
      assert ms[1..] == MapUnits(s[1..], f);
      if t[0] == s[0] && IsSubsequence(t[1..], s[1..]) {
        SubsequenceMap(t[1..], s[1..], f);
      } else {
        SubsequenceMap(t, s[1..], f);
      }
    }
  }

  /** Every unit of a subsequence is a unit of the whole. */
  lemma {:induction false} SubsequenceMembers(t: Text, s: Text)
    requires IsSubsequence(t, s)
    ensures forall c :: c in t ==> c in s
    decreases |s|
  {
    if t != [] {
      if t[0] == s[0] && IsSubsequence(t[1..], s[1..]) {
        SubsequenceMembers(t[1..], s[1..]);
        assert forall c :: c in t ==> c == t[0] || c in t[1..];
      } else {
        SubsequenceMembers(t, s[1..]);
      }
    }
  }

  /** A subsequence of a suffix of s is a subsequence of every longer suffix. */
  lemma {:induction false} SubsequenceOfSuffix(t: Text, s: Text, i: nat, k: nat)
    requires i <= k <= |s|
    requires IsSubsequence(t, s[k..])
    ensures IsSubsequence(t, s[i..])
    decreases k - i
  {
    if i < k {
      SubsequenceOfSuffix(t, s, i + 1, k);
      assert s[i..] == [s[i]] + s[i + 1..];
      SubsequenceSkip(s[i], t, s[i + 1..]);
    }
  }

  /** Mapping with a function that fixes every unit present changes nothing. */
  lemma {:induction false} MapNoOp(s: Text, f: CodeUnit -> CodeUnit)
    requires forall k :: 0 <= k < |s| ==> f(s[k]) == s[k]
    ensures MapUnits(s, f) == s
  {
  }

  lemma {:induction false} FilterConcat(a: Text, b: Text, keep: CodeUnit -> bool)
    ensures Filter(a + b, keep) == Filter(a, keep) + Filter(b, keep)
  {
    if a == [] {
      assert a + b == b;
    } else {
      assert (a + b)[0] == a[0] && (a + b)[1..] == a[1..] + b;
      FilterConcat(a[1..], b, keep);
    }
  }

  lemma {:induction false} FilterNone(s: Text, keep: CodeUnit -> bool)
    requires forall k :: 0 <= k < |s| ==> !keep(s[k])
    ensures Filter(s, keep) == []
  {
    if s != [] {
      FilterNone(s[1..], keep);
    }
  }

  /** Trimming removes whitespace only: the other units are those of the input. */
  lemma {:induction false} TrimKeepsVisible(s: Text)
    ensures Filter(Trim(s), IsNotSpace) == Filter(s, IsNotSpace)
  {
    var a := TrimOffset(s);
    var r := Trim(s);
    FilterOutsideSlice(s, a, a + |r|, IsNotSpace);
  }

  /** When nothing outside s[a..b] passes the test, filtering the slice is
      filtering the whole. */
  lemma {:induction false} FilterOutsideSlice(s: Text, a: nat, b: nat, keep: CodeUnit -> bool)
    requires a <= b <= |s|
    requires forall k :: 0 <= k < a ==> !keep(s[k])
    requires forall k :: b <= k < |s| ==> !keep(s[k])
    ensures Filter(s[a..b], keep) == Filter(s, keep)
  {
    var pre, mid, post := s[..a], s[a..b], s[b..];
    assert forall k :: 0 <= k < |pre| ==> !keep(pre[k]);
    assert forall k :: 0 <= k < |post| ==> !keep(post[k]);
    FilterNone(pre, keep);
    FilterNone(post, keep);
    assert s == (pre + mid) + post;
    FilterConcat(pre + mid, post, keep);
    FilterConcat(pre, mid, keep);
  }

  /** Trimming keeps the absence of whitespace runs. */
  lemma {:induction false} TrimKeepsNoSpaceRuns(s: Text)
    requires NoSpaceRuns(s)
    ensures NoSpaceRuns(Trim(s))
  {
    var a := TrimOffset(s);
    NoSpaceRunsSlice(s, a, a + |Trim(s)|);
  }

  /** A slice of a text without whitespace runs has none either. */
  lemma {:induction false} NoSpaceRunsSlice(s: Text, a: nat, b: nat)
    requires a <= b <= |s| && NoSpaceRuns(s)
    ensures NoSpaceRuns(s[a..b])
  {
    var r := s[a..b];
    forall k | 0 <= k < |r| - 1
      ensures !(IsJsSpace(r[k]) && IsJsSpace(r[k + 1]))
    {
      assert r[k] == s[a + k] && r[k + 1] == s[a + k + 1];
    }
  }

  /** `Concat` commutes with a filter. */
  lemma {:induction false} FilterConcatAll(parts: seq<Text>, keep: CodeUnit -> bool)
    ensures Filter(Concat(parts), keep)
         == Concat(seq(|parts|, k requires 0 <= k < |parts| => Filter(parts[k], keep)))
  {
    if parts != [] {
      FilterConcat(parts[0], Concat(parts[1..]), keep);
      FilterConcatAll(parts[1..], keep);
      var all := seq(|parts|, k requires 0 <= k < |parts| => Filter(parts[k], keep));
      assert all[1..] == seq(|parts| - 1, k requires 0 <= k < |parts| - 1 => Filter(parts[1..][k], keep));
    }
  }

  /** `Concat` counts: the occurrences of a concatenation are the sum over the parts. */
  lemma {:induction false} CountConcatAll(parts: seq<Text>, c: CodeUnit)
    ensures Count(Concat(parts), c)
         == Sum(seq(|parts|, k requires 0 <= k < |parts| => Count(parts[k], c)))
  {
    if parts != [] {
      CountConcat(parts[0], Concat(parts[1..]), c);
      CountConcatAll(parts[1..], c);
      var all := seq(|parts|, k requires 0 <= k < |parts| => Count(parts[k], c));
      assert all[1..] == seq(|parts| - 1, k requires 0 <= k < |parts| - 1 => Count(parts[1..][k], c));
    }
  }

  /** A unit that passes the test survives the filter. */
  lemma {:induction false} FilterKeeps(s: Text, keep: CodeUnit -> bool, k: nat)
    requires k < |s| && keep(s[k])
    ensures s[k] in Filter(s, keep)
  {
    if k > 0 {
      FilterKeeps(s[1..], keep, k - 1);
    }
  }
}
