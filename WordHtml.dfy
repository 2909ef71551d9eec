/** The recursive Word-HTML flattener `processWordHtml` of
    src/utils/textProcessing.js and its copy without skip-list in
    src/WhatsAppListFormatter.js. */
module WordHtml {
  import opened JsStrings
  import opened Dom

  /** Elements whose whole subtree the shared utility drops. */
  const SKIPPED_TAGS: set<string> := {"STYLE", "META", "SCRIPT", "LINK"}

  function NbspToSpace(c: CodeUnit): CodeUnit { if c == NBSP then SPACE else c }
  function MiddleDotToBullet(c: CodeUnit): CodeUnit { if c == MIDDLE_DOT then BULLET else c }

  /** `replace(/\s+/g, " ")` from position i on. */
  function CollapseSpaceFrom(s: Text, i: nat): (r: Text)
    requires i <= |s|
    ensures NoSpaceRuns(r)
    ensures r != [] ==> i < |s| && (IsJsSpace(r[0]) ==> IsJsSpace(s[i]))
    decreases |s| - i
  {
    if i == |s| then []
    else if IsJsSpace(s[i]) then [SPACE] + CollapseSpaceFrom(s, SpaceRunEnd(s, i))
    else [s[i]] + CollapseSpaceFrom(s, i + 1)
  }

  function CollapseSpace(s: Text): Text { CollapseSpaceFrom(s, 0) }

  /** The only whitespace left is the space that stands for a run; every
      other unit comes from the input. */
  lemma {:induction false} CollapseSpaceMembers(s: Text, i: nat)
    requires i <= |s|
    ensures forall c :: c in CollapseSpaceFrom(s, i) ==> c == SPACE || (c in s[i..] && !IsJsSpace(c))
    decreases |s| - i
  {
    if i < |s| {
      var j := if IsJsSpace(s[i]) then SpaceRunEnd(s, i) else i + 1;
      CollapseSpaceMembers(s, j);
      forall c | c in s[j..]
        ensures c in s[i..]
      {
        var k :| j <= k < |s| && s[k] == c;
        assert s[i..][k - i] == c;
      }
    }
  }

  /** Collapsing whitespace runs keeps every other unit, in order. */
  lemma {:induction false} CollapseKeepsVisible(s: Text, i: nat)
    requires i <= |s|
    ensures Filter(CollapseSpaceFrom(s, i), IsNotSpace) == Filter(s[i..], IsNotSpace)
    decreases |s| - i
  {
    if i < |s| {
      if IsJsSpace(s[i]) {
        var j := SpaceRunEnd(s, i);
        CollapseKeepsVisible(s, j);
        CollapseRunStep(s, i, j);
      } else {
        CollapseKeepsVisible(s, i + 1);
        CollapseUnitStep(s, i);
      }
    }
  }

  lemma {:induction false} CollapseRunStep(s: Text, i: nat, j: nat)
    requires i < |s| && IsJsSpace(s[i]) && j == SpaceRunEnd(s, i)
    requires Filter(CollapseSpaceFrom(s, j), IsNotSpace) == Filter(s[j..], IsNotSpace)
    ensures Filter(CollapseSpaceFrom(s, i), IsNotSpace) == Filter(s[i..], IsNotSpace)
  {
    assert CollapseSpaceFrom(s, i) == [SPACE] + CollapseSpaceFrom(s, j);
    assert s[i..] == s[i..j] + s[j..];
    VisibleAfterRun(CollapseSpaceFrom(s, j), s[i..j], s[j..]);
  }

  lemma {:induction false} CollapseUnitStep(s: Text, i: nat)
    requires i < |s| && !IsJsSpace(s[i])
    requires Filter(CollapseSpaceFrom(s, i + 1), IsNotSpace) == Filter(s[i + 1..], IsNotSpace)
    ensures Filter(CollapseSpaceFrom(s, i), IsNotSpace) == Filter(s[i..], IsNotSpace)
  {
    assert CollapseSpaceFrom(s, i) == [s[i]] + CollapseSpaceFrom(s, i + 1);
    assert s[i..] == [s[i]] + s[i + 1..];
    VisibleAfterUnit(s[i], CollapseSpaceFrom(s, i + 1), s[i + 1..]);
  }

  /** A space in place of a whitespace run changes no visible unit. */
  lemma {:induction false} VisibleAfterRun(rest: Text, run: Text, tail: Text)
    requires forall k :: 0 <= k < |run| ==> IsJsSpace(run[k])
    requires Filter(rest, IsNotSpace) == Filter(tail, IsNotSpace)
    ensures Filter([SPACE] + rest, IsNotSpace) == Filter(run + tail, IsNotSpace)
  {
    FilterConcat([SPACE], rest, IsNotSpace);
    FilterNone([SPACE], IsNotSpace);
    FilterConcat(run, tail, IsNotSpace);
    FilterNone(run, IsNotSpace);
  }

  lemma {:induction false} VisibleAfterUnit(c: CodeUnit, rest: Text, tail: Text)
    requires Filter(rest, IsNotSpace) == Filter(tail, IsNotSpace)
    ensures Filter([c] + rest, IsNotSpace) == Filter([c] + tail, IsNotSpace)
  {
    FilterConcat([c], rest, IsNotSpace);
    FilterConcat([c], tail, IsNotSpace);
  }

  /** What a text node contributes (textProcessing.js lines 18-22). */
  function CleanText(data: Text): Text
  {
    Trim(CollapseSpace(MapUnits(MapUnits(data, NbspToSpace), MiddleDotToBullet)))
  }

  /** A text node contributes a trimmed text whose only whitespace is single
      ASCII spaces, free of U+00A0 and U+00B7, that keeps every other unit of
      the node's text (with U+00B7 read as U+2022) in order. */
  lemma {:induction false} CleanTextShape(data: Text)
    ensures var r := CleanText(data);
      && (r == [] || (!IsJsSpace(r[0]) && !IsJsSpace(r[|r| - 1])))
      && NoSpaceRuns(r)
      && (forall c :: c in r && IsJsSpace(c) ==> c == SPACE)
      && NBSP !in r && MIDDLE_DOT !in r
      && Filter(r, IsNotSpace)
         == Filter(MapUnits(MapUnits(data, NbspToSpace), MiddleDotToBullet), IsNotSpace)
  {
    var u := MapUnits(MapUnits(data, NbspToSpace), MiddleDotToBullet);
    var collapsed := CollapseSpace(u);
    CleanTextMembers(data);
    TrimKeepsNoSpaceRuns(collapsed);
    CollapseKeepsVisible(u, 0);
    assert u[0..] == u;
    TrimKeepsVisible(collapsed);
  }

  /** The units a text node contributes: no U+00A0, no U+00B7, and no
      whitespace other than the ASCII space. */
  lemma {:induction false} CleanTextMembers(data: Text)
    ensures forall c :: c in CleanText(data) ==> c != NBSP && c != MIDDLE_DOT && (IsJsSpace(c) ==> c == SPACE)
  {
    var u := MapUnits(MapUnits(data, NbspToSpace), MiddleDotToBullet);
    var collapsed := CollapseSpace(u);
    assert NBSP !in u && MIDDLE_DOT !in u;
    CollapseSpaceMembers(u, 0);
    assert u[0..] == u;
    TrimMembers(collapsed);
  }


  /** `processWordHtml` on a present node, with skip the set of tags whose
      subtree is dropped: SKIPPED_TAGS in the shared utility, none in the
      live component's copy. */
  function Flatten(skip: set<string>, n: Node): Text
    decreases n
  {
    match n
    case TextNode(d) => CleanText(d)
    case Element(tag, ch) =>
      if tag in skip then []
      else
        (if IsBlockTag(tag) then [LF] else [])
        + Trim(Join(seq(|ch|, i requires 0 <= i < |ch| => Flatten(skip, ch[i])), [SPACE]))
    case OtherNode => []
  }

  /** The recursive procedure as written, with the loop that pushes one part
      per child node into `textParts` before the parts are joined. */
  method FlattenNode(skip: set<string>, n: Node) returns (r: Text)
    ensures r == Flatten(skip, n)
    decreases n
  {
    match n {
      case TextNode(d) =>
        r := CleanText(d);
      case OtherNode =>
        r := [];
      case Element(tag, ch) =>
        if tag in skip {
          r := [];
        } else {
          var result: Text := if IsBlockTag(tag) then [LF] else [];
          var textParts: seq<Text> := [];
          var i := 0;
          while i < |ch|
            invariant 0 <= i <= |ch|
            invariant textParts == seq(i, k requires 0 <= k < i => Flatten(skip, ch[k]))
          {
            assert ch[i] in ch;
            var part := FlattenNode(skip, ch[i]);
            textParts := textParts + [part];
            i := i + 1;
          }
          r := result + Trim(Join(textParts, [SPACE]));
        }
    }
  }

  /** src/utils/textProcessing.js: `processWordHtml(node)`. */
  function ProcessWordHtml(node: Option<Node>): Text
  {
    if node.None? then [] else Flatten(SKIPPED_TAGS, node.value)
  }

  /** src/WhatsAppListFormatter.js: the component's own `processWordHtml`,
      which has no skip-list. */
  function ProcessWordHtmlUnfiltered(node: Option<Node>): Text
  {
    if node.None? then [] else Flatten({}, node.value)
  }

  /** The three ways the shared utility yields the empty text. */
  lemma {:induction false} EmptyCases(tag: string, ch: seq<Node>)
    ensures ProcessWordHtml(None) == []
    ensures ProcessWordHtml(Some(OtherNode)) == []
    ensures tag in SKIPPED_TAGS ==> ProcessWordHtml(Some(Element(tag, ch))) == []
  {
  }

  /** U+00A0 and U+00B7 never reach the output. */
  lemma {:induction false} FlattenLacks(skip: set<string>, n: Node)
    ensures NBSP !in Flatten(skip, n) && MIDDLE_DOT !in Flatten(skip, n)
    decreases n
  {
    match n
    case TextNode(d) => CleanTextMembers(d);
    case Element(tag, ch) =>
      if tag !in skip {
        var parts := seq(|ch|, i requires 0 <= i < |ch| => Flatten(skip, ch[i]));
        forall i | 0 <= i < |ch|
          ensures NBSP !in parts[i] && MIDDLE_DOT !in parts[i]
        {
          FlattenLacks(skip, ch[i]);
        }
        JoinLacks(parts, [SPACE], NBSP);
        JoinLacks(parts, [SPACE], MIDDLE_DOT);
        TrimMembers(Join(parts, [SPACE]));
      }
    case OtherNode =>
  }

  /** An element that is not skipped yields "\n" and a trimmed text when it is
      a block element, and a trimmed text otherwise. */
  lemma {:induction false} ElementShape(skip: set<string>, tag: string, ch: seq<Node>)
    requires tag !in skip
    ensures var r := Flatten(skip, Element(tag, ch));
      if IsBlockTag(tag) then
        r != [] && r[0] == LF && (|r| == 1 || (!IsJsSpace(r[1]) && !IsJsSpace(r[|r| - 1])))
      else
        r == [] || (!IsJsSpace(r[0]) && !IsJsSpace(r[|r| - 1]))
  {
    var parts := seq(|ch|, i requires 0 <= i < |ch| => Flatten(skip, ch[i]));
    var t := Trim(Join(parts, [SPACE]));
    var r := Flatten(skip, Element(tag, ch));
    if IsBlockTag(tag) {
      assert r == [LF] + t;
      if t != [] {
        assert r[1] == t[0] && r[|r| - 1] == t[|t| - 1];
      }
    } else {
      assert r == t;
    }
  }

  /** Block elements outside skipped subtrees. */
  function Blocks(skip: set<string>, n: Node): nat
    decreases n
  {
    match n
    case Element(tag, ch) =>
      if tag in skip then 0
      else (if IsBlockTag(tag) then 1 else 0) + Sum(seq(|ch|, i requires 0 <= i < |ch| => Blocks(skip, ch[i])))
    case _ => 0
  }

  /** Every line feed of the output was put there by a block element. */
  lemma {:induction false} FlattenNewlines(skip: set<string>, n: Node)
    ensures Count(Flatten(skip, n), LF) <= Blocks(skip, n)
    decreases n, 1
  {
    match n
    case TextNode(d) =>
      CleanTextShape(d);
      CountAbsent(CleanText(d), LF);
    case Element(tag, ch) =>
      if tag !in skip {
        ElementNewlines(skip, tag, ch);
      }
    case OtherNode =>
  }

  lemma {:induction false} ElementNewlines(skip: set<string>, tag: string, ch: seq<Node>)
    requires tag !in skip
    ensures Count(Flatten(skip, Element(tag, ch)), LF) <= Blocks(skip, Element(tag, ch))
    decreases Element(tag, ch), 0
  {
    var parts := seq(|ch|, i requires 0 <= i < |ch| => Flatten(skip, ch[i]));
    var counts := seq(|ch|, i requires 0 <= i < |ch| => Count(parts[i], LF));
    var blocks := seq(|ch|, i requires 0 <= i < |ch| => Blocks(skip, ch[i]));
    forall i | 0 <= i < |ch|
      ensures counts[i] <= blocks[i]
    {
      FlattenNewlines(skip, ch[i]);
    }
    SumMonotone(counts, blocks);
    CountJoin(parts, [SPACE], LF);
    var joined := Join(parts, [SPACE]);
    TrimSlice(joined);
    CountSlice(Trim(joined), joined, LF);
    var head: Text := if IsBlockTag(tag) then [LF] else [];
    CountConcat(head, Trim(joined), LF);
    assert Flatten(skip, Element(tag, ch)) == head + Trim(joined);
    assert Blocks(skip, Element(tag, ch)) == |head| + Sum(blocks);
  }

  /** On a tree with no skipped tag the two copies agree. */
  lemma {:induction false} FlattenIgnoresAbsentTags(skip: set<string>, n: Node)
    requires NoTagIn(skip, n)
    ensures Flatten(skip, n) == Flatten({}, n)
    decreases n
  {
    match n
    case TextNode(_) =>
    case Element(tag, ch) =>
      forall i | 0 <= i < |ch|
        ensures Flatten(skip, ch[i]) == Flatten({}, ch[i])
      {
        FlattenIgnoresAbsentTags(skip, ch[i]);
      }
      assert seq(|ch|, i requires 0 <= i < |ch| => Flatten(skip, ch[i]))
          == seq(|ch|, i requires 0 <= i < |ch| => Flatten({}, ch[i]));
    case OtherNode =>
  }

  lemma {:induction false} VariantsAgree(n: Node)
    requires NoTagIn(SKIPPED_TAGS, n)
    ensures ProcessWordHtml(Some(n)) == ProcessWordHtmlUnfiltered(Some(n))
  {
    FlattenIgnoresAbsentTags(SKIPPED_TAGS, n);
  }

  /** A non-block element holding one text node yields that node's text. */
  lemma {:induction false} LoneTextChild(skip: set<string>, tag: string, data: Text)
    requires tag !in skip && !IsBlockTag(tag)
    ensures Flatten(skip, Element(tag, [TextNode(data)])) == CleanText(data)
  {
    var parts := seq(1, i requires 0 <= i < 1 => Flatten(skip, [TextNode(data)][i]));
    assert parts == [CleanText(data)];
    CleanTextRejoined(data);
  }

  lemma {:induction false} CleanTextRejoined(data: Text)
    ensures Trim(Join([CleanText(data)], [SPACE])) == CleanText(data)
  {
    var t := CleanText(data);
    assert Join([t], [SPACE]) == t;
    CleanTextShape(data);
    TrimNoOp(t);
  }

  /** The component's copy flattens a STYLE or SCRIPT element like any other
      non-block element, so the text of a style sheet or script reaches the
      output where the shared utility drops it. */
  lemma {:induction false} UnfilteredKeepsStyleText(tag: string, data: Text, k: nat)
    requires tag == "STYLE" || tag == "SCRIPT"
    requires k < |data| && !IsJsSpace(data[k])
    ensures ProcessWordHtmlUnfiltered(Some(Element(tag, [TextNode(data)]))) == CleanText(data) != []
    ensures ProcessWordHtml(Some(Element(tag, [TextNode(data)]))) == []
  {
    assert tag in SKIPPED_TAGS && !IsBlockTag(tag);
    LoneTextChild({}, tag, data);
    CleanTextVisible(data, k);
  }

  /** A text node with a visible unit contributes a non-empty text. */
  lemma {:induction false} CleanTextVisible(data: Text, k: nat)
    requires k < |data| && !IsJsSpace(data[k])
    ensures CleanText(data) != []
  {
    var u := MapUnits(MapUnits(data, NbspToSpace), MiddleDotToBullet);
    assert !IsJsSpace(u[k]);
    FilterKeeps(u, IsNotSpace, k);
    CleanTextShape(data);
  }
}
