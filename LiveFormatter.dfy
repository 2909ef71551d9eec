/** src/WhatsAppListFormatter.js: the component the application renders.  It
    keeps its own copies of `sanitizeInput`, `processWordHtml` (without a
    skip-list) and `convertToWhatsApp`, the truncating ledger, and a paste
    handler that strips comments and `<style>` blocks from the HTML string
    before the browser parses it. */
module LiveFormatter {
  import opened JsStrings
  import opened Dom
  import opened History
  import opened Paste
  import Sanitizer
  import WordHtml
  import Conversion

  // ---------------------------------------------------------------------
  // The two string replacements applied to the HTML payload

  const COMMENT_OPEN: Text := Units("<!--")
  const COMMENT_CLOSE: Text := Units("-->")
  const STYLE_OPEN: Text := Units("<style")
  const STYLE_CLOSE: Text := Units("</style>")
  const TAG_END: Text := Units(">")

  /** A text unit matches a pattern unit under the `i` flag (no `u` flag):
      equal, or the upper-case form of an ASCII lower-case letter. */
  predicate SameIgnoringCase(c: CodeUnit, p: CodeUnit)
  {
    c == p || (0x61 <= p <= 0x7A && c == p - 0x20)
  }

  predicate OccursAtIgnoringCase(s: Text, i: nat, p: Text)
  {
    i + |p| <= |s| && forall k :: 0 <= k < |p| ==> SameIgnoringCase(s[i + k], p[k])
  }

  predicate MatchesAt(s: Text, i: nat, p: Text, ignoreCase: bool)
  {
    if ignoreCase then OccursAtIgnoringCase(s, i, p) else OccursAt(s, i, p)
  }

  /** The first index from i on where p matches: what a lazy `[\s\S]*?`
      followed by p settles on (None when p never matches again). */
  function FindFrom(s: Text, i: nat, p: Text, ignoreCase: bool): (r: Option<nat>)
    requires i <= |s|
    ensures r.Some? ==> i <= r.value && MatchesAt(s, r.value, p, ignoreCase)
    ensures r.Some? ==> forall k :: i <= k < r.value ==> !MatchesAt(s, k, p, ignoreCase)
    decreases |s| - i
  {
    if MatchesAt(s, i, p, ignoreCase) then Some(i)
    else if i == |s| then None
    else FindFrom(s, i + 1, p, ignoreCase)
  }

  /** `.replace(/<!--[\s\S]*?-->/g, '')` from index i on. */
  function StripCommentsFrom(s: Text, i: nat): Text
    requires i <= |s|
    decreases |s| - i
  {
    if i == |s| then []
    else if OccursAt(s, i, COMMENT_OPEN) && FindFrom(s, i + 4, COMMENT_CLOSE, false).Some? then
      StripCommentsFrom(s, FindFrom(s, i + 4, COMMENT_CLOSE, false).value + 3)
    else [s[i]] + StripCommentsFrom(s, i + 1)
  }

  function StripComments(s: Text): Text { StripCommentsFrom(s, 0) }

  /** Where the `<style[^>]*>[\s\S]*?<\/style>` match that starts at i ends,
      if one does: the first `>` after `<style`, then the first
      `</style>` in any letter case after it. */
  function StyleBlockEnd(s: Text, i: nat): (r: Option<nat>)
    requires i <= |s|
    ensures r.Some? ==> i < r.value <= |s|
  {
    if !OccursAtIgnoringCase(s, i, STYLE_OPEN) then None
    else
      var gt := FindFrom(s, i + 6, TAG_END, false);
      if gt.None? then None
      else
        var close := FindFrom(s, gt.value + 1, STYLE_CLOSE, true);
        if close.None? then None else Some(close.value + 8)
  }

  /** `.replace(/<style[^>]*>[\s\S]*?<\/style>/gi, '')` from index i on. */
  function StripStylesFrom(s: Text, i: nat): Text
    requires i <= |s|
    decreases |s| - i
  {
    if i == |s| then []
    else if StyleBlockEnd(s, i).Some? then StripStylesFrom(s, StyleBlockEnd(s, i).value)
    else [s[i]] + StripStylesFrom(s, i + 1)
  }

  function StripStyles(s: Text): Text { StripStylesFrom(s, 0) }

  lemma {:induction false} StripCommentsFromNoOp(s: Text, i: nat)
    requires i <= |s|
    requires forall k :: 0 <= k <= |s| ==> !OccursAt(s, k, COMMENT_OPEN)
    ensures StripCommentsFrom(s, i) == s[i..]
    decreases |s| - i
  {
    if i < |s| {
      StripCommentsFromNoOp(s, i + 1);
      assert s[i..] == [s[i]] + s[i + 1..];
    }
  }

  /** An HTML string without `<!--` passes the first replacement unchanged. */
  lemma {:induction false} StripCommentsNoOp(s: Text)
    requires !Includes(s, COMMENT_OPEN)
    ensures StripComments(s) == s
  {
    IncludesAt(s, COMMENT_OPEN);
    StripCommentsFromNoOp(s, 0);
  }

  lemma {:induction false} StripStylesFromNoOp(s: Text, i: nat)
    requires i <= |s|
    requires forall k :: 0 <= k <= |s| ==> !OccursAtIgnoringCase(s, k, STYLE_OPEN)
    ensures StripStylesFrom(s, i) == s[i..]
    decreases |s| - i
  {
    if i < |s| {
      StripStylesFromNoOp(s, i + 1);
      assert s[i..] == [s[i]] + s[i + 1..];
    }
  }

  /** An HTML string without `<style`, in any letter case, passes the second
      replacement unchanged. */
  lemma {:induction false} StripStylesNoOp(s: Text)
    requires forall k :: 0 <= k <= |s| ==> !OccursAtIgnoringCase(s, k, STYLE_OPEN)
    ensures StripStyles(s) == s
  {
    StripStylesFromNoOp(s, 0);
  }

  lemma {:induction false} StripCommentsFromDeletes(s: Text, i: nat)
    requires i <= |s|
    ensures IsSubsequence(StripCommentsFrom(s, i), s[i..])
    decreases |s| - i
  {
    if i == |s| {
    } else if OccursAt(s, i, COMMENT_OPEN) && FindFrom(s, i + 4, COMMENT_CLOSE, false).Some? {
      var j := FindFrom(s, i + 4, COMMENT_CLOSE, false).value + 3;
      StripCommentsFromDeletes(s, j);
      SubsequenceOfSuffix(StripCommentsFrom(s, j), s, i, j);
    } else {
      StripCommentsFromDeletes(s, i + 1);
      assert s[i..] == [s[i]] + s[i + 1..];
      SubsequenceCons(s[i], StripCommentsFrom(s, i + 1), s[i + 1..]);
    }
  }

  lemma {:induction false} StripStylesFromDeletes(s: Text, i: nat)
    requires i <= |s|
    ensures IsSubsequence(StripStylesFrom(s, i), s[i..])
    decreases |s| - i
  {
    if i == |s| {
    } else if StyleBlockEnd(s, i).Some? {
      var j := StyleBlockEnd(s, i).value;
      StripStylesFromDeletes(s, j);
      SubsequenceOfSuffix(StripStylesFrom(s, j), s, i, j);
    } else {
      StripStylesFromDeletes(s, i + 1);
      assert s[i..] == [s[i]] + s[i + 1..];
      SubsequenceCons(s[i], StripStylesFrom(s, i + 1), s[i + 1..]);
    }
  }

  /** Both replacements only delete: what reaches the parser is the payload
      with some pieces cut out, the rest in order. */
  lemma {:induction false} StripDeletesOnly(s: Text)
    ensures IsSubsequence(StripStyles(StripComments(s)), s)
  {
    StripCommentsFromDeletes(s, 0);
    StripStylesFromDeletes(StripComments(s), 0);
    assert s[0..] == s;
    assert StripComments(s)[0..] == StripComments(s);
    SubsequenceTrans(StripStyles(StripComments(s)), StripComments(s), s);
  }

  // ---------------------------------------------------------------------
  // handlePaste

  /** The HTML branch: strip, let the browser parse the rest into a `div`
      (`parse` yields the div's child nodes), flatten, collapse, trim. */
  function FromHtml(parse: Text -> seq<Node>, html: Text): Text
  {
    var temp := Element("DIV", parse(StripStyles(StripComments(html))));
    CollapseAndTrim(WordHtml.ProcessWordHtmlUnfiltered(Some(temp)))
  }

  function LivePaste(clip: Option<ClipboardData>, parse: Text -> seq<Node>): PasteResult
  {
    PasteOutcome(clip, html => FromHtml(parse, html))
  }

  /** The text the HTML branch stores holds no three line feeds in a row and
      no leading or trailing whitespace. */
  lemma {:induction false} LivePasteHtmlClean(html: Text, plain: Text, parse: Text -> seq<Node>)
    requires |plain| <= MAX_CHARS && IsWordHtml(html)
    ensures var r := LivePaste(Some(ClipboardData(html, plain)), parse);
      r.Pasted? && NoTripleLf(r.text)
      && (r.text == [] || (!IsJsSpace(r.text[0]) && !IsJsSpace(r.text[|r.text| - 1])))
  {
    PasteBranches(html, plain, h => FromHtml(parse, h));
    var temp := Element("DIV", parse(StripStyles(StripComments(html))));
    CollapseAndTrimClean(WordHtml.ProcessWordHtmlUnfiltered(Some(temp)));
  }

  // ---------------------------------------------------------------------
  // The component state

  class Formatter {
    var input: Text
    var convertedText: Text
    /** `status.error`. */
    var error: Option<Text>
    /** `history` with `currentIndex`. */
    const history: Ledger

    predicate Valid()
      reads this, history
    {
      history.Valid()
    }

    constructor ()
      ensures input == [] && convertedText == [] && error == None
      ensures history.entries == [] && history.currentIndex == -1
      ensures fresh(history) && Valid()
    {
      input := [];
      convertedText := [];
      error := None;
      history := new Ledger(-1);
    }

    /** `onChange={(e) => setInput(e.target.value)}`: typing stores the value
        as it is and never touches the ledger. */
    method OnChange(value: Text)
      modifies this
      ensures input == value
      ensures convertedText == old(convertedText) && error == old(error)
      ensures history.entries == old(history.entries)
      ensures history.currentIndex == old(history.currentIndex)
    {
      input := value;
    }

    /** The debounced `setConvertedText(convertToWhatsApp(text))` once its
        timer fires. */
    method FireConversion()
      modifies this
      ensures convertedText == Conversion.ConvertToWhatsApp(Some(input))
      ensures input == old(input) && error == old(error)
    {
      convertedText := Conversion.ConvertToWhatsApp(Some(input));
    }

    method HandleUndo()
      requires Valid()
      modifies this, history
      ensures history.entries == old(history.entries)
      ensures history.currentIndex == UndoIndex(old(history.currentIndex))
      ensures input == if old(history.currentIndex) > 0 then history.entries[history.currentIndex] else old(input)
      ensures convertedText == old(convertedText) && error == old(error)
      ensures Valid()
    {
      var restored := history.HandleUndo();
      if restored.Some? {
        input := restored.value;
      }
    }

    method HandleRedo()
      requires Valid()
      modifies this, history
      ensures history.entries == old(history.entries)
      ensures history.currentIndex == RedoIndex(|history.entries|, old(history.currentIndex))
      ensures input == if old(history.currentIndex) < |history.entries| - 1 then history.entries[history.currentIndex] else old(input)
      ensures convertedText == old(convertedText) && error == old(error)
      ensures Valid()
    {
      var restored := history.HandleRedo();
      if restored.Some? {
        input := restored.value;
      }
    }

    method HandleClear()
      modifies this, history
      ensures input == [] && convertedText == []
      ensures history.entries == [] && history.currentIndex == -1
      ensures error == old(error) && Valid()
    {
      input := [];
      convertedText := [];
      history.Clear();
    }

    /** `handlePaste`: the error is reset first; a missing clipboard or an
        oversized plain text ends in an error before the input or the ledger
        changes; otherwise the processed text becomes the input and is
        recorded. */
    method HandlePaste(clip: Option<ClipboardData>, parse: Text -> seq<Node>)
      requires Valid()
      modifies this, history
      ensures var o := LivePaste(clip, parse);
        o.Failed? ==>
          && error == Some(o.message)
          && input == old(input)
          && history.entries == old(history.entries)
          && history.currentIndex == old(history.currentIndex)
      ensures var o := LivePaste(clip, parse);
        o.Pasted? ==>
          && error == None
          && input == o.text
          && history.entries == Truncated(old(history.entries), old(history.currentIndex), o.text)
          && history.currentIndex == |history.entries| - 1
      ensures convertedText == old(convertedText) && Valid()
    {
      error := None;
      if clip.None? {
        error := Some(ACCESS_DENIED);
        return;
      }
      var html, plain := clip.value.html, clip.value.plain;
      if |plain| > MAX_CHARS {
        error := Some(TOO_LONG);
        return;
      }
      var processedText: Text;
      if html != [] && Includes(html, HTML_END_TAG) {
        var cleanHtml := StripStyles(StripComments(html));
        var temp := Element("DIV", parse(cleanHtml));
        var flat := WordHtml.FlattenNode({}, temp);
        processedText := CollapseAndTrim(flat);
      } else {
        processedText := Sanitizer.Sanitize(plain);
      }
      input := processedText;
      history.AddTruncated(processedText);
    }
  }
}
