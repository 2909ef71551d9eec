/** The decision part of `handlePaste`, as both older components write it
    (src/WhatsAppListFormatter.js and WhatsAppListFormatter.js): the
    clipboard and size checks, the choice between the Word-HTML and the
    plain-text branch, and the `\n{3,}` collapse applied to the HTML result.
    What the HTML branch does with the markup differs between the two and is
    passed in as `fromHtml`. */
module Paste {
  import opened JsStrings
  import Sanitizer

  const MAX_CHARS: nat := 10000

  /** The two payloads of `e.clipboardData`: `getData('text/html')` and
      `getData('text/plain')`. */
  datatype ClipboardData = ClipboardData(html: Text, plain: Text)

  /** What a paste ends in: the processed text handed to `setInput` and
      `addToHistory`, or the message of the error caught and shown. */
  datatype PasteResult = Pasted(text: Text) | Failed(message: Text)

  const ACCESS_DENIED: Text := Units("Clipboard access denied")
  const TOO_LONG: Text := Units("Text exceeds maximum limit of 10000 characters")
  const HTML_END_TAG: Text := Units("</html>")

  /** `htmlContent && htmlContent.includes('</html>')`. */
  predicate IsWordHtml(html: Text)
  {
    html != [] && Includes(html, HTML_END_TAG)
  }

  /** `handlePaste` from `e.clipboardData` (None when the event has none) to
      the text it stores or the error it reports. */
  function PasteOutcome(clip: Option<ClipboardData>, fromHtml: Text -> Text): (r: PasteResult)
    ensures clip.None? ==> r == Failed(ACCESS_DENIED)
    ensures clip.Some? && |clip.value.plain| > MAX_CHARS ==> r == Failed(TOO_LONG)
    ensures r.Failed? ==> clip.None? || |clip.value.plain| > MAX_CHARS
  {
    if clip.None? then Failed(ACCESS_DENIED)
    else if |clip.value.plain| > MAX_CHARS then Failed(TOO_LONG)
    else if IsWordHtml(clip.value.html) then Pasted(fromHtml(clip.value.html))
    else Pasted(Sanitizer.Sanitize(clip.value.plain))
  }

  /** Once the checks pass, the HTML branch is taken exactly when the HTML
      payload is non-empty and holds `</html>`; the plain-text payload is
      sanitised otherwise.  The size test looks at the plain text even when
      the HTML branch is taken. */
  lemma {:induction false} PasteBranches(html: Text, plain: Text, fromHtml: Text -> Text)
    requires |plain| <= MAX_CHARS
    ensures IsWordHtml(html) ==> PasteOutcome(Some(ClipboardData(html, plain)), fromHtml) == Pasted(fromHtml(html))
    ensures !IsWordHtml(html) ==> PasteOutcome(Some(ClipboardData(html, plain)), fromHtml) == Pasted(Sanitizer.Sanitize(plain))
  {
  }

  /** A pasted plain text is stored without line breaks, tabs or control
      units, and without trailing whitespace. */
  lemma {:induction false} PastedPlainClean(html: Text, plain: Text, fromHtml: Text -> Text)
    requires |plain| <= MAX_CHARS && !IsWordHtml(html)
    ensures var r := PasteOutcome(Some(ClipboardData(html, plain)), fromHtml);
      r.Pasted? && LF !in r.text && TAB !in r.text
      && (r.text == [] || !IsJsSpace(r.text[|r.text| - 1]))
  {
    Sanitizer.SanitizeClean(plain);
  }

  // ---------------------------------------------------------------------
  // `.replace(/\n{3,}/g, '\n\n')`

  /** Three line feeds in a row start at k. */
  predicate TripleLfAt(t: Text, k: nat)
  {
    k + 2 < |t| && t[k] == LF && t[k + 1] == LF && t[k + 2] == LF
  }

  ghost predicate NoTripleLf(t: Text)
  {
    forall k: nat :: !TripleLfAt(t, k)
  }

  /** One past the run of line feeds that starts at i. */
  function LfRunEnd(s: Text, i: nat): (j: nat)
    requires i <= |s|
    ensures i <= j <= |s|
    ensures forall k :: i <= k < j ==> s[k] == LF
    ensures j == |s| || s[j] != LF
    decreases |s| - i
  {
    if i < |s| && s[i] == LF then LfRunEnd(s, i + 1) else i
  }

  /** The replacement from index i on: a run of three or more line feeds
      becomes two, a shorter run and every other unit are copied. */
  function CollapseNewlinesFrom(s: Text, i: nat): (r: Text)
    requires i <= |s|
    ensures r != [] ==> i < |s| && (r[0] == LF ==> s[i] == LF)
    decreases |s| - i
  {
    if i == |s| then []
    else if s[i] != LF then [s[i]] + CollapseNewlinesFrom(s, i + 1)
    else
      var j := LfRunEnd(s, i);
      (if j - i >= 3 then [LF, LF] else s[i..j]) + CollapseNewlinesFrom(s, j)
  }

  function CollapseNewlines(s: Text): Text { CollapseNewlinesFrom(s, 0) }

  lemma {:induction false} NoTripleCons(c: CodeUnit, b: Text)
    requires c != LF && NoTripleLf(b)
    ensures NoTripleLf([c] + b)
  {
    var t := [c] + b;
    forall k: nat ensures !TripleLfAt(t, k)
    {
      if k > 0 && k + 2 < |t| {
        assert t[k] == b[k - 1] && t[k + 1] == b[k] && t[k + 2] == b[k + 1];
        assert !TripleLfAt(b, k - 1);
      }
    }
  }

  /** At most two line feeds followed by a text that does not start with one. */
  lemma {:induction false} NoTripleAfterShortRun(a: Text, b: Text)
    requires |a| <= 2 && NoTripleLf(b) && (b == [] || b[0] != LF)
    ensures NoTripleLf(a + b)
  {
    var t := a + b;
    forall k: nat ensures !TripleLfAt(t, k)
    {
      if k + 2 < |t| {
        if k >= |a| {
          var m := k - |a|;
          assert t[k] == b[m] && t[k + 1] == b[m + 1] && t[k + 2] == b[m + 2];
          assert !TripleLfAt(b, m);
        } else {
          assert t[|a|] == b[0];
        }
      }
    }
  }

  /** No three line feeds in a row survive the replacement. */
  lemma {:induction false} CollapseNewlinesFromNoTriple(s: Text, i: nat)
    requires i <= |s|
    ensures NoTripleLf(CollapseNewlinesFrom(s, i))
    decreases |s| - i
  {
    if i == |s| {
    } else if s[i] != LF {
      CollapseNewlinesFromNoTriple(s, i + 1);
      NoTripleCons(s[i], CollapseNewlinesFrom(s, i + 1));
    } else {
      var j := LfRunEnd(s, i);
      var rest := CollapseNewlinesFrom(s, j);
      CollapseNewlinesFromNoTriple(s, j);
      if j - i >= 3 {
        NoTripleAfterShortRun([LF, LF], rest);
      } else {
        NoTripleAfterShortRun(s[i..j], rest);
      }
    }
  }

  lemma {:induction false} CollapseNewlinesNoTriple(s: Text)
    ensures NoTripleLf(CollapseNewlines(s))
  {
    CollapseNewlinesFromNoTriple(s, 0);
  }

  /** A text without three line feeds in a row is left as it is. */
  lemma {:induction false} CollapseNewlinesFromNoOp(s: Text, i: nat)
    requires i <= |s| && NoTripleLf(s)
    ensures CollapseNewlinesFrom(s, i) == s[i..]
    decreases |s| - i
  {
    if i == |s| {
    } else if s[i] != LF {
      CollapseNewlinesFromNoOp(s, i + 1);
      assert s[i..] == [s[i]] + s[i + 1..];
    } else {
      var j := LfRunEnd(s, i);
      assert !TripleLfAt(s, i);
      CollapseNewlinesFromNoOp(s, j);
      assert s[i..] == s[i..j] + s[j..];
    }
  }

  /** The collapse is idempotent, and the identity on the texts it can produce. */
  lemma {:induction false} CollapseNewlinesIdempotent(s: Text)
    ensures NoTripleLf(s) ==> CollapseNewlines(s) == s
    ensures CollapseNewlines(CollapseNewlines(s)) == CollapseNewlines(s)
  {
    if NoTripleLf(s) {
      CollapseNewlinesFromNoOp(s, 0);
    }
    CollapseNewlinesNoTriple(s);
    CollapseNewlinesFromNoOp(CollapseNewlines(s), 0);
  }

  /** `trim` cuts a slice, which cannot create three line feeds in a row. */
  lemma {:induction false} TrimKeepsNoTriple(s: Text)
    requires NoTripleLf(s)
    ensures NoTripleLf(Trim(s))
  {
    var a := TrimOffset(s);
    var r := Trim(s);
    forall k: nat ensures !TripleLfAt(r, k)
    {
      if k + 2 < |r| {
        assert r[k] == s[a + k] && r[k + 1] == s[a + k + 1] && r[k + 2] == s[a + k + 2];
        assert !TripleLfAt(s, a + k);
      }
    }
  }

  /** The HTML branch's `.replace(/\n{3,}/g, '\n\n').trim()`. */
  function CollapseAndTrim(s: Text): Text
  {
    Trim(CollapseNewlines(s))
  }

  /** Its result holds no three line feeds in a row and no leading or
      trailing whitespace. */
  lemma {:induction false} CollapseAndTrimClean(s: Text)
    ensures var r := CollapseAndTrim(s);
      NoTripleLf(r) && (r == [] || (!IsJsSpace(r[0]) && !IsJsSpace(r[|r| - 1])))
  {
    CollapseNewlinesNoTriple(s);
    TrimKeepsNoTriple(CollapseNewlines(s));
  }
}
