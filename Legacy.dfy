/** WhatsAppListFormatter.js at the repository root: the older component.  Its
    `processWordHtml` keeps text nodes raw, turns list items and bulleted
    paragraphs into `* ` lines from their `textContent`, concatenates the
    results of other elements without separator and ends every P, DIV, LI
    and BR with a line feed.  Its paste handler parses the HTML string as it
    is (no comment or style stripping); its ledger is the truncating one and
    it has no clear button. */
module Legacy {
  import opened JsStrings
  import opened Dom
  import opened History
  import opened Paste
  import Sanitizer
  import Conversion

  const LIST_PREFIX: Text := [STAR, SPACE]

  /** `.replace(/^[•\s]+/, '')`: drop the leading run of bullets and
      whitespace (there is no `m` flag, so only at the very start). */
  function StripBulletPrefix(s: Text): (r: Text)
    ensures |r| <= |s| && r == s[|s| - |r|..]
    ensures forall k :: 0 <= k < |s| - |r| ==> s[k] == BULLET || IsJsSpace(s[k])
    ensures r == [] || (r[0] != BULLET && !IsJsSpace(r[0]))
  {
    if s != [] && (s[0] == BULLET || IsJsSpace(s[0])) then StripBulletPrefix(s[1..]) else s
  }

  /** `node.tagName === 'P' && node.innerHTML.includes('•')`, with the markup
      test taken over the element's text. */
  predicate IsBulletedParagraph(tag: string, ch: seq<Node>)
  {
    tag == "P" && BULLET in TextContent(Element(tag, ch))
  }

  /** `processWordHtml(node)` of the older component, on a present node. */
  function LegacyFlatten(n: Node): Text
    decreases n
  {
    match n
    case TextNode(d) => d
    case Element(tag, ch) =>
      (if IsBulletedParagraph(tag, ch) then LIST_PREFIX + StripBulletPrefix(TextContent(n))
       else if tag == "LI" then LIST_PREFIX + TextContent(n)
       else Concat(seq(|ch|, i requires 0 <= i < |ch| => LegacyFlatten(ch[i]))))
      + (if IsBlockTag(tag) then [LF] else [])
    case OtherNode => []
  }

  /** `processWordHtml(node)`; `null` yields the empty text. */
  function LegacyProcessWordHtml(node: Option<Node>): Text
  {
    if node.None? then [] else LegacyFlatten(node.value)
  }

  /** The procedure as written: the `result +=` loop over `childNodes`. */
  method ProcessNode(n: Node) returns (r: Text)
    ensures r == LegacyFlatten(n)
    decreases n
  {
    match n {
      case TextNode(d) =>
        r := d;
      case OtherNode =>
        r := [];
      case Element(tag, ch) =>
        if tag == "P" && BULLET in TextContent(n) {
          r := LIST_PREFIX + StripBulletPrefix(TextContent(n));
        } else if tag == "LI" {
          r := LIST_PREFIX + TextContent(n);
        } else {
          r := [];
          var i := 0;
          while i < |ch|
            invariant 0 <= i <= |ch|
            invariant r == Concat(seq(i, k requires 0 <= k < i => LegacyFlatten(ch[k])))
          {
            assert ch[i] in ch;
            var part := ProcessNode(ch[i]);
            var done := seq(i, k requires 0 <= k < i => LegacyFlatten(ch[k]));
            assert seq(i + 1, k requires 0 <= k < i + 1 => LegacyFlatten(ch[k])) == done + [part];
            ConcatAppend(done, part);
            r := r + part;
            i := i + 1;
          }
          assert seq(|ch|, k requires 0 <= k < |ch| => LegacyFlatten(ch[k]))
              == seq(i, k requires 0 <= k < i => LegacyFlatten(ch[k]));
        }
        if tag == "P" || tag == "DIV" || tag == "LI" || tag == "BR" {
          r := r + [LF];
        }
    }
  }

  // ---------------------------------------------------------------------
  // Properties of the flattening

  /** A text node contributes its raw text: no whitespace or bullet
      normalisation happens here. */
  lemma {:induction false} TextNodeRaw(d: Text)
    ensures LegacyProcessWordHtml(Some(TextNode(d))) == d
    ensures LegacyProcessWordHtml(None) == []
  {
  }

  /** A list item's line comes from its text alone: how that text is split
      over child nodes makes no difference, since the children are not
      visited. */
  lemma {:induction false} ListItemIgnoresStructure(a: seq<Node>, b: seq<Node>)
    requires TextContent(Element("LI", a)) == TextContent(Element("LI", b))
    ensures LegacyFlatten(Element("LI", a)) == LIST_PREFIX + TextContent(Element("LI", a)) + [LF]
    ensures LegacyFlatten(Element("LI", a)) == LegacyFlatten(Element("LI", b))
  {
  }

  /** A bulleted paragraph becomes `* `, then its text without the leading
      bullets and whitespace (which are all that is cut), then a line feed. */
  lemma {:induction false} BulletedParagraphLine(ch: seq<Node>)
    requires BULLET in TextContent(Element("P", ch))
    ensures var t := TextContent(Element("P", ch));
      var r := LegacyFlatten(Element("P", ch));
      var body := r[2..|r| - 1];
      && |r| >= 3 && r[..2] == LIST_PREFIX && r[|r| - 1] == LF
      && body == t[|t| - |body|..]
      && (forall k :: 0 <= k < |t| - |body| ==> t[k] == BULLET || IsJsSpace(t[k]))
      && (body == [] || (body[0] != BULLET && !IsJsSpace(body[0])))
  {
    var t := TextContent(Element("P", ch));
    var u := StripBulletPrefix(t);
    var r := LegacyFlatten(Element("P", ch));
    assert r == LIST_PREFIX + u + [LF];
    assert r[2..|r| - 1] == u;
  }

  predicate IsNotLineFeed(c: CodeUnit) { c != LF }

  /** No list item and no bulleted paragraph anywhere in the tree. */
  predicate NoListMarkup(n: Node)
    decreases n
  {
    match n
    case Element(tag, ch) =>
      tag != "LI" && !IsBulletedParagraph(tag, ch)
      && forall i :: 0 <= i < |ch| ==> NoListMarkup(ch[i])
    case _ => true
  }

  /** Without list markup the flattening only adds line feeds: apart from
      them it is the tree's text, every text node raw and in document order. */
  lemma {:induction false} LegacyKeepsText(n: Node)
    requires NoListMarkup(n)
    ensures Filter(LegacyFlatten(n), IsNotLineFeed) == Filter(TextContent(n), IsNotLineFeed)
    decreases n
  {
    match n
    case TextNode(d) =>
    case OtherNode =>
    case Element(tag, ch) =>
      var parts := seq(|ch|, i requires 0 <= i < |ch| => LegacyFlatten(ch[i]));
      var texts := seq(|ch|, i requires 0 <= i < |ch| => TextContent(ch[i]));
      var brk: Text := if IsBlockTag(tag) then [LF] else [];
      assert LegacyFlatten(n) == Concat(parts) + brk;
      FilterConcat(Concat(parts), brk, IsNotLineFeed);
      assert Filter(brk, IsNotLineFeed) == [] by {
        if brk != [] {
          assert brk[1..] == [];
        }
      }
      FilterConcatAll(parts, IsNotLineFeed);
      FilterConcatAll(texts, IsNotLineFeed);
      forall i | 0 <= i < |ch|
        ensures Filter(parts[i], IsNotLineFeed) == Filter(texts[i], IsNotLineFeed)
      {
        assert ch[i] in ch;
        LegacyKeepsText(ch[i]);
      }
      assert seq(|ch|, k requires 0 <= k < |ch| => Filter(parts[k], IsNotLineFeed))
          == seq(|ch|, k requires 0 <= k < |ch| => Filter(texts[k], IsNotLineFeed));
  }

  /** Every P, DIV, LI and BR element ends in a line feed; a DIV, a BR or a
      P without a bullet yields its children's results concatenated and one
      line feed; any other element yields exactly its children's results,
      concatenated. */
  lemma {:induction false} LegacyElementEnds(tag: string, ch: seq<Node>)
    ensures var r := LegacyFlatten(Element(tag, ch));
      IsBlockTag(tag) ==> r != [] && r[|r| - 1] == LF
    ensures var r := LegacyFlatten(Element(tag, ch));
      IsBlockTag(tag) && tag != "LI" && !IsBulletedParagraph(tag, ch) ==>
        r == Concat(seq(|ch|, i requires 0 <= i < |ch| => LegacyFlatten(ch[i]))) + [LF]
    ensures var r := LegacyFlatten(Element(tag, ch));
      !IsBlockTag(tag) ==> r == Concat(seq(|ch|, i requires 0 <= i < |ch| => LegacyFlatten(ch[i])))
  {
  }

  // ---------------------------------------------------------------------
  // handlePaste

  /** The HTML branch: the browser parses the payload as it is into a `div`
      (`parse` yields the div's child nodes), then flatten, collapse, trim. */
  function LegacyFromHtml(parse: Text -> seq<Node>, html: Text): Text
  {
    CollapseAndTrim(LegacyProcessWordHtml(Some(Element("DIV", parse(html)))))
  }

  function LegacyPaste(clip: Option<ClipboardData>, parse: Text -> seq<Node>): PasteResult
  {
    PasteOutcome(clip, html => LegacyFromHtml(parse, html))
  }

  /** The text the HTML branch stores holds no three line feeds in a row and
      no leading or trailing whitespace, although every block ended in one. */
  lemma {:induction false} LegacyPasteHtmlClean(html: Text, plain: Text, parse: Text -> seq<Node>)
    requires |plain| <= MAX_CHARS && IsWordHtml(html)
    ensures var r := LegacyPaste(Some(ClipboardData(html, plain)), parse);
      r.Pasted? && NoTripleLf(r.text)
      && (r.text == [] || (!IsJsSpace(r.text[0]) && !IsJsSpace(r.text[|r.text| - 1])))
  {
    PasteBranches(html, plain, h => LegacyFromHtml(parse, h));
    CollapseAndTrimClean(LegacyProcessWordHtml(Some(Element("DIV", parse(html)))));
  }

  // ---------------------------------------------------------------------
  // The component state

  class LegacyFormatter {
    var input: Text
    var convertedText: Text
    var error: Option<Text>
    const history: Ledger

    predicate Valid()
      reads this, history
    {
      history.Valid()
    }

    constructor ()
      ensures input == [] && convertedText == [] && error == None
      ensures history.entries == [] && history.currentIndex == -1
      ensures fresh(history) && Valid()
    {
      input := [];
      convertedText := [];
      error := None;
      history := new Ledger(-1);
    }

    /** The textarea's `onChange={(e) => setInput(e.target.value)}`. */
    method OnChange(value: Text)
      modifies this
      ensures input == value
      ensures convertedText == old(convertedText) && error == old(error)
      ensures history.entries == old(history.entries)
      ensures history.currentIndex == old(history.currentIndex)
    {
      input := value;
    }

    /** The debounced `setConvertedText(convertToWhatsApp(text))` once its
        timer fires. */
    method FireConversion()
      modifies this
      ensures convertedText == Conversion.ConvertToWhatsApp(Some(input))
      ensures input == old(input) && error == old(error)
    {
      convertedText := Conversion.ConvertToWhatsApp(Some(input));
    }

    method HandleUndo()
      requires Valid()
      modifies this, history
      ensures history.entries == old(history.entries)
      ensures history.currentIndex == UndoIndex(old(history.currentIndex))
      ensures input == if old(history.currentIndex) > 0 then history.entries[history.currentIndex] else old(input)
      ensures convertedText == old(convertedText) && error == old(error)
      ensures Valid()
    {
      var restored := history.HandleUndo();
      if restored.Some? {
        input := restored.value;
      }
    }

    method HandleRedo()
      requires Valid()
      modifies this, history
      ensures history.entries == old(history.entries)
      ensures history.currentIndex == RedoIndex(|history.entries|, old(history.currentIndex))
      ensures input == if old(history.currentIndex) < |history.entries| - 1 then history.entries[history.currentIndex] else old(input)
      ensures convertedText == old(convertedText) && error == old(error)
      ensures Valid()
    {
      var restored := history.HandleRedo();
      if restored.Some? {
        input := restored.value;
      }
    }

    /** `handlePaste`: as in the live component, but the HTML is parsed
        without stripping and flattened the older way. */
    method HandlePaste(clip: Option<ClipboardData>, parse: Text -> seq<Node>)
      requires Valid()
      modifies this, history
      ensures var o := LegacyPaste(clip, parse);
        o.Failed? ==>
          && error == Some(o.message)
          && input == old(input)
          && history.entries == old(history.entries)
          && history.currentIndex == old(history.currentIndex)
      ensures var o := LegacyPaste(clip, parse);
        o.Pasted? ==>
          && error == None
          && input == o.text
          && history.entries == Truncated(old(history.entries), old(history.currentIndex), o.text)
          && history.currentIndex == |history.entries| - 1
      ensures convertedText == old(convertedText) && Valid()
    {
      error := None;
      if clip.None? {
        error := Some(ACCESS_DENIED);
        return;
      }
      var html, plain := clip.value.html, clip.value.plain;
      if |plain| > MAX_CHARS {
        error := Some(TOO_LONG);
        return;
      }
      var processedText: Text;
      if html != [] && Includes(html, HTML_END_TAG) {
        var temp := Element("DIV", parse(html));
        var flat := ProcessNode(temp);
        processedText := CollapseAndTrim(flat);
      } else {
        processedText := Sanitizer.Sanitize(plain);
      }
      input := processedText;
      history.AddTruncated(processedText);
    }
  }
}
