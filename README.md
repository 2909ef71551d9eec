# WhatsApp text formatter, modelled in Dafny

The formatter is a React tool. It takes text pasted from Word or typed by
hand and rewrites it into WhatsApp's markup: `*bold*`, `_italic_`, and `•`
bullets. It also keeps an undo ledger of past inputs. The repository holds
the same pipeline in several near-duplicate copies. This project models
every copy separately, because they differ in small ways, and proves what
each one promises.

Modules (one file each):

- `JsStrings`: text as JavaScript sees it, a sequence of UTF-16 code units.
  None of the regular expressions carries the `u` flag. The module defines
  `\s` (ECMAScript WhiteSpace plus LineTerminator), `trim`, `join` and
  `includes`.
- `Sanitizer`: `sanitizeInput`. This is the seven-step replace chain.
  Trailing whitespace at each line end (`\s+$` with the `m` flag) is removed
  by a scanner proved against a declarative description of the regex match.
- `Dom`: the parsed node tree. A node is a text node, an element with an
  upper-case tag and child nodes, or any other node. `textContent` is the
  concatenation of descendant text.
- `WordHtml`: the recursive `processWordHtml`. One version has the skip-list
  (src/utils/textProcessing.js). The live component's copy has none
  (src/WhatsAppListFormatter.js). The method `FlattenNode` is the procedure
  as written, with its `textParts` loop. It is proved equal to the function
  `Flatten`.
- `Conversion`: `convertToWhatsApp`. It splits at status-marker line starts,
  applies the bold, italic and bullet rewrites, joins with `\n` and trims.
  Each regex is a scanner. Lemmas tie each scanner to what the match means.
- `History`: the ledger class `Ledger` (`history` with `currentIndex`). It
  has two append policies:
  - the deduplicating `addToHistory` of src/utils/historyUtils.js;
  - the truncating inline `addToHistory` of the two older components.

  The module also holds `handleUndo`, `handleRedo`, and the buttons'
  `disabled` tests.
- `Paste`: the decision part of `handlePaste`, shared by both older
  components. It holds the clipboard check, the size limit, the HTML test,
  and the `\n{3,}` collapse with trim.
- `LiveFormatter`: src/WhatsAppListFormatter.js, the component the
  application renders. It strips comments and `<style>` blocks from the HTML
  string. The class `Formatter` holds the component state.
- `Legacy`: WhatsAppListFormatter.js at the repository root. It is the older
  component with the `* ` list-prefix flattener (method `ProcessNode`, with
  its `result +=` loop) and no clear button.
- `Refactored`: src/components/WhatsAppListFormatter.js. This component
  sanitises on every keystroke and records history from a `useEffect`. It
  starts with index 0.

Browser HTML parsing is a parameter. `parse: Text -> seq<Node>` gives the
children of the temporary `div` whose `innerHTML` receives the string. The
debounce timer is modelled as `FireConversion`, the moment the timer fires.

Where the code and its own comments or documentation disagree, the model
follows the code:

- `sanitizeInput` deletes every unit in U+0000–U+001F first. A tab, a CR and
  a line feed are therefore gone before the tab and CRLF steps run, so those
  steps never change anything (`Sanitizer.TabAndCrlfStepsAreNoOps`). The
  output is a single line: `"hi’s  \nbye"` becomes `"hi'sbye"`, not
  `"hi's\nbye"`.
- The bold rewrite produces `*w*`, and the italic rewrite that follows
  matches it again. So `**w**` ends as `_w_`, not `*w*`
  (`Conversion.BoldBecomesItalic`).
- The refactored component starts its index at 0 on an empty ledger. Its
  record guard (`currentIndex === history.length - 1`) is therefore false,
  and typing records nothing until the first clear or paste
  (`Refactored.Formatter.OnChange`). A paste calls `addToHistory` without
  the guard; on the empty ledger that sets the index to 0, the tail, and
  typing is recorded from then on (the paste handler is not part of this
  model; see "Left out").
- Joining the sections with `\n` puts an extra line feed before every
  status line that is not the first line (`Conversion.SplitJoin`,
  `Conversion.ConvertWithoutStars`).

## Model

| member | source | states |
|---|---|---|
| `JsStrings.Trim` | src/utils/textProcessing.js:22 | `trim` gives a slice of the input that neither starts nor ends with whitespace, and everything cut on either side is whitespace |
| `JsStrings.TrimBlank` | src/utils/conversionUtils.js:2 | the trim is empty exactly when every unit of the text is whitespace (the `!text?.trim()` test) |
| `JsStrings.TrimKeepsVisible` | src/utils/conversionUtils.js:13 | trimming removes only whitespace: the non-whitespace units are those of the input, in order |
| `Sanitizer.LastBreakBetween` | src/utils/textProcessing.js:7 | finds the last line terminator between two positions, and there is none after it |
| `Sanitizer.TrailingSpaceMatch` | src/utils/textProcessing.js:7 | the scanner finds the longest match of `\s+$` (flag m) that starts at a position, and reports none exactly when none starts there |
| `Sanitizer.UnmatchedSkipsMatch` | src/utils/textProcessing.js:7 | inside a `\s+$` match another match starts at every later position of it |
| `Sanitizer.StripLineEndsDeletesMatchStarts` | src/utils/textProcessing.js:7 | the global replace deletes exactly the units at which a match of `\s+$` starts |
| `Sanitizer.StripLineEndsShape` | src/utils/textProcessing.js:7 | after step 5 the text does not end in whitespace and no line terminator follows whitespace |
| `Sanitizer.MatchEndsAfterSpace` | src/utils/textProcessing.js:7 | a match ends on whitespace, at the end of the text or before a line terminator |
| `Sanitizer.StripLineEndsFixes` | src/utils/textProcessing.js:7 | step 5 changes nothing on a text it has already processed |
| `Sanitizer.StripLineEndsSubsequence` | src/utils/textProcessing.js:7 | step 5 only deletes units and keeps the order of the rest |
| `Sanitizer.ExpandTabsNoOp` | src/utils/textProcessing.js:8 | the tab rewrite leaves a text without tabs unchanged |
| `Sanitizer.NormalizeCrlfNoOp` | src/utils/textProcessing.js:9 | the CRLF rewrite leaves a text without CR unchanged |
| `Sanitizer.UnquotedClean` | src/utils/textProcessing.js:3-6 | after steps 1 to 4 no control unit, no U+200B and no smart quote is left |
| `Sanitizer.TabAndCrlfStepsAreNoOps` | src/utils/textProcessing.js:3-9 | `sanitizeInput` equals its first five steps alone: the tab and CRLF steps never fire |
| `Sanitizer.SanitizeClean` | src/utils/textProcessing.js:2-9 | the output holds no C0 or C1 control unit (so no LF, CR or TAB), no U+200B, no smart quote, and does not end in whitespace |
| `Sanitizer.SanitizeDeletesOnly` | src/utils/textProcessing.js:2-9 | the output is a subsequence of the input with its smart quotes straightened, and is never longer than the input |
| `Sanitizer.UnquotedNoOp` | src/utils/textProcessing.js:3-6 | steps 1 to 4 leave a clean text unchanged |
| `Sanitizer.SanitizeIdempotent` | src/utils/textProcessing.js:2-9 | sanitising a sanitised text changes nothing |
| `WordHtml.CollapseSpaceFrom` | src/utils/textProcessing.js:21 | `replace(/\s+/g, " ")` leaves no two whitespace units side by side, and starts with whitespace only where the input does |
| `WordHtml.CollapseSpaceMembers` | src/utils/textProcessing.js:21 | the only whitespace left is the space standing for a run; every other unit comes from the input |
| `WordHtml.CollapseKeepsVisible` | src/utils/textProcessing.js:21 | collapsing whitespace keeps every non-whitespace unit, in order |
| `WordHtml.CleanTextShape` | src/utils/textProcessing.js:18-22 | a text node contributes a trimmed text without whitespace runs, U+00A0 or U+00B7, whose visible units are the node's (U+00B7 read as `•`) in order |
| `WordHtml.CleanTextMembers` | src/utils/textProcessing.js:18-22 | a text node contributes no U+00A0, no U+00B7 and no whitespace other than the ASCII space |
| `WordHtml.FlattenNode` | src/utils/textProcessing.js:12-56 | the recursive procedure with its `textParts.push` loop computes the flattening function `Flatten` |
| `WordHtml.EmptyCases` | src/utils/textProcessing.js:13-34 | null, a node that is neither text nor element, and a STYLE, META, SCRIPT or LINK element all yield `""` |
| `WordHtml.FlattenLacks` | src/utils/textProcessing.js:18-22 | U+00A0 and U+00B7 never reach the output of any tree |
| `WordHtml.ElementShape` | src/utils/textProcessing.js:38-52 | a P, DIV, LI or BR element yields `"\n"` followed by a trimmed text; any other element yields a trimmed text |
| `WordHtml.FlattenNewlines` | src/utils/textProcessing.js:38-52 | the output has no more line feeds than the tree has block elements outside skipped subtrees |
| `WordHtml.ElementNewlines` | src/utils/textProcessing.js:38-52 | the same bound for one element, given the bound for its children |
| `WordHtml.FlattenIgnoresAbsentTags` | src/utils/textProcessing.js:27-34 | on a tree without a skipped tag the skip-list makes no difference |
| `WordHtml.VariantsAgree` | src/WhatsAppListFormatter.js:159-186 | the live component's copy and the shared utility agree on every tree without STYLE, META, SCRIPT or LINK |
| `WordHtml.LoneTextChild` | src/utils/textProcessing.js:47-52 | a non-block element with one text child yields that child's cleaned text |
| `WordHtml.CleanTextRejoined` | src/utils/textProcessing.js:52 | joining and trimming one cleaned text gives it back |
| `WordHtml.UnfilteredKeepsStyleText` | src/WhatsAppListFormatter.js:170-182 | the live copy flattens a STYLE or SCRIPT element like any other element, where the shared utility drops it |
| `WordHtml.CleanTextVisible` | src/utils/textProcessing.js:18-22 | a text node with a visible unit contributes a non-empty text |
| `Conversion.SplitFrom` | src/utils/conversionUtils.js:5 | the split yields at least one section, made only of input units |
| `Conversion.Split` | src/utils/conversionUtils.js:5 | the status-marker split yields at least one section, made only of input units |
| `Conversion.SplitConcat` | src/utils/conversionUtils.js:5 | the sections concatenated without separator are the input |
| `Conversion.SplitFromJoin` | src/utils/conversionUtils.js:5-12 | the split sections re-joined with `"\n"` are the input with a line feed inserted at every cut |
| `Conversion.SplitJoin` | src/utils/conversionUtils.js:5-12 | re-joining the sections with `"\n"` inserts exactly one line feed before each status marker at a non-initial line start |
| `Conversion.SplitWithoutCuts` | src/utils/conversionUtils.js:5 | a text without a status line start is one section |
| `Conversion.InsertBreaksWithoutCuts` | src/utils/conversionUtils.js:5-12 | without a cut no line feed is inserted |
| `Conversion.CloseBold` | src/utils/conversionUtils.js:8 | the lazy `(.*?)\*\*` closes at a `**` that lies inside the text |
| `Conversion.CloseBoldSpec` | src/utils/conversionUtils.js:8 | the lazy match closes at the nearest `**`, with no line terminator before it, and fails only when no such `**` exists |
| `Conversion.CloseItalic` | src/utils/conversionUtils.js:9 | the lazy closing `(?<!\*)\*` lies inside the text |
| `Conversion.CloseItalicSpec` | src/utils/conversionUtils.js:9 | the italic match closes at the nearest lone `*` on the same line, and fails only when there is none |
| `Conversion.BulletsPointwise` | src/utils/conversionUtils.js:10 | the bullet rewrite keeps the length and replaces exactly the `*` of every line that starts with `* ` |
| `Conversion.ConvertToWhatsApp` | src/utils/conversionUtils.js:1-14 | a missing or blank input yields `"No content to format."`; any other output is trimmed at both ends |
| `Conversion.BoldNoOp` | src/utils/conversionUtils.js:8 | a text without `**` passes the bold rewrite unchanged |
| `Conversion.ItalicWithoutStars` | src/utils/conversionUtils.js:9 | a text without `*` passes the italic rewrite unchanged |
| `Conversion.RewriteWithoutStars` | src/utils/conversionUtils.js:7-10 | a section without `*` passes all three rewrites unchanged |
| `Conversion.ConvertWithoutStars` | src/utils/conversionUtils.js:4-13 | for a non-blank input without `*` the output is the trim of the input with a line feed before every non-initial status line |
| `Conversion.StarEditRefl` | src/utils/conversionUtils.js:8-10 | the identity is a star edit |
| `Conversion.StarEditConcat` | src/utils/conversionUtils.js:8-10 | star edits of two pieces give a star edit of the concatenation |
| `Conversion.StarEditTrans` | src/utils/conversionUtils.js:8-10 | two star edits in a row are one star edit |
| `Conversion.StarEditKeeps` | src/utils/conversionUtils.js:8-10 | a star edit keeps every unit that is not `*`, `_` or `•`, in order, and never lengthens the text |
| `Conversion.StarEditJoin` | src/utils/conversionUtils.js:12 | star edits of the sections give a star edit of their join |
| `Conversion.BoldEdits` | src/utils/conversionUtils.js:8 | the bold rewrite only deletes or rewrites asterisks |
| `Conversion.ItalicEdits` | src/utils/conversionUtils.js:9 | the italic rewrite only turns asterisks into `_` |
| `Conversion.BulletFromEdits` | src/utils/conversionUtils.js:10 | the bullet rewrite only turns asterisks into `•` |
| `Conversion.RewriteEdits` | src/utils/conversionUtils.js:7-10 | the chain of three rewrites only edits asterisks |
| `Conversion.ConvertEditsOnlyStars` | src/utils/conversionUtils.js:4-13 | apart from the inserted line feeds and the final trim, the conversion only deletes asterisks or turns them into `*`, `_` or `•` |
| `Conversion.SingleLine` | src/utils/conversionUtils.js:5 | a text without line terminators is never split |
| `Conversion.BoldBecomesItalic` | src/utils/conversionUtils.js:8-9 | `**w**` becomes `_w_`, because the italic step matches the bold step's output again |
| `Conversion.CloseBoldAt` | src/utils/conversionUtils.js:8 | the bold match closes at the first `**` when nothing before it is `*` or a line terminator |
| `Conversion.CloseItalicAt` | src/utils/conversionUtils.js:9 | the italic match closes at the first lone `*` under the same condition |
| `Conversion.BoldStep` | src/utils/conversionUtils.js:8 | the bold rewrite turns `**w**` into `*w*` |
| `Conversion.ItalicStep` | src/utils/conversionUtils.js:9 | the italic rewrite turns `*w*` into `_w_` |
| `Conversion.BulletLine` | src/utils/conversionUtils.js:10-13 | a single line `* rest` without further `*` becomes `• rest` with its trailing whitespace trimmed |
| `Conversion.BulletLineSteps` | src/utils/conversionUtils.js:8-10 | the three rewrites turn `* rest` into `• rest` |
| `Conversion.ItalicStarSpace` | src/utils/conversionUtils.js:9 | the italic rewrite finds no closing `*` in `* rest` and leaves it unchanged |
| `Conversion.BulletsStarSpace` | src/utils/conversionUtils.js:10 | the bullet rewrite turns the leading `*` of `* rest` into `•` and changes nothing else |
| `Conversion.CloseBoldPrefix` | src/utils/conversionUtils.js:8 | the closing search for bold ends before a line terminator |
| `Conversion.BoldAcrossBreak` | src/utils/conversionUtils.js:8 | the bold rewrite of two lines is the bold rewrite of each line: it never spans a line terminator |
| `Conversion.CloseItalicPrefix` | src/utils/conversionUtils.js:9 | the closing search for italic ends before a line terminator |
| `Conversion.ItalicAfterBreak` | src/utils/conversionUtils.js:9 | after a line terminator the lookbehind sees no `*` |
| `Conversion.ItalicAcrossBreak` | src/utils/conversionUtils.js:9 | the italic rewrite of two lines is the italic rewrite of each line: it never spans a line terminator |
| `History.Appended` | src/utils/historyUtils.js:8-32 | the new ledger is never empty and ends with the text |
| `History.AppendedIndex` | src/utils/historyUtils.js:10-29 | the index moves to the last entry unless the text repeats the last entry, when it is not touched |
| `History.AppendedBounded` | src/utils/historyUtils.js:24-26 | with a bound of at least 1, a ledger within the bound stays within it |
| `History.AppendedRepeat` | src/utils/historyUtils.js:16-18 | the ledger is unchanged exactly when the text equals the last entry |
| `History.AppendedKeepsOrder` | src/utils/historyUtils.js:21-26 | the entries before the new one are the old ones in order, with at most the oldest gone; nothing after the current index is cut |
| `History.AppendedNoRepeats` | src/utils/historyUtils.js:16-26 | "no two consecutive entries are equal" is preserved |
| `History.SliceEnd` | src/WhatsAppListFormatter.js:191 | the end of `slice(0, end)`: clamped to the length, counted from the back when negative |
| `History.Truncated` | src/WhatsAppListFormatter.js:191 | the truncating append gives 1 to 50 entries, the last being the text |
| `History.TruncatedAfterClear` | src/WhatsAppListFormatter.js:191 | from index -1 the ledger restarts as the text alone |
| `History.TruncatedDropsForward` | src/WhatsAppListFormatter.js:191 | the entries after the current index are discarded: the result is the old entries ending at the index, then the text |
| `History.TruncatedAppendsRepeats` | WhatsAppListFormatter.js:67 | there is no dedupe: below the bound the text is appended after the current entry even when it equals it |
| `History.DisabledIffNoMove` | src/components/WhatsAppListFormatter.js:215-225 | undo is disabled exactly when index ≤ 0, and redo exactly when index ≥ length − 1, which is when the handler would do nothing |
| `History.UndoRedoInverse` | src/utils/historyUtils.js:35-61 | redo after undo restores the index, and so does undo after redo |
| `History.Ledger.constructor` | src/WhatsAppListFormatter.js:139-140 | an empty ledger with the component's initial index |
| `History.Ledger.AddDeduplicated` | src/utils/historyUtils.js:1-33 | the shared `addToHistory` leaves the ledger and index that `Appended` and `AppendedIndex` describe |
| `History.Ledger.AddTruncated` | src/WhatsAppListFormatter.js:189-195 | the inline `addToHistory` leaves the ledger `Truncated` describes, with the index at its last entry |
| `History.Ledger.HandleUndo` | src/utils/historyUtils.js:35-47 | while index > 0 it steps back and restores the entry there; otherwise nothing changes; the entries never change |
| `History.Ledger.HandleRedo` | src/utils/historyUtils.js:49-61 | while index < length − 1 it steps forward and restores the entry there; otherwise nothing changes; the entries never change |
| `History.Ledger.Clear` | src/WhatsAppListFormatter.js:214-215 | the ledger is empty with index -1 |
| `Paste.PasteOutcome` | src/WhatsAppListFormatter.js:223-232 | no clipboard data fails with "Clipboard access denied", a plain text over 10000 units fails with the limit message, and nothing else fails |
| `Paste.PasteBranches` | src/WhatsAppListFormatter.js:235-248 | the HTML branch is taken exactly when the HTML is non-empty and holds `</html>`; otherwise the plain text is sanitised |
| `Paste.PastedPlainClean` | src/WhatsAppListFormatter.js:247 | a pasted plain text is stored without LF or TAB and without trailing whitespace |
| `Paste.LfRunEnd` | src/WhatsAppListFormatter.js:244 | one past the maximal run of line feeds at a position |
| `Paste.CollapseNewlinesFrom` | src/WhatsAppListFormatter.js:244 | the collapse from a position starts with a line feed only where the input does |
| `Paste.CollapseNewlinesFromNoTriple` | src/WhatsAppListFormatter.js:244 | `replace(/\n{3,}/g, '\n\n')` leaves no three line feeds in a row |
| `Paste.CollapseNewlinesNoTriple` | src/WhatsAppListFormatter.js:244 | no three line feeds in a row survive the collapse |
| `Paste.CollapseNewlinesFromNoOp` | src/WhatsAppListFormatter.js:244 | a text without three line feeds in a row passes unchanged |
| `Paste.CollapseNewlinesIdempotent` | src/WhatsAppListFormatter.js:244 | the collapse is idempotent and the identity on the texts it produces |
| `Paste.TrimKeepsNoTriple` | src/WhatsAppListFormatter.js:245 | trimming cannot create three line feeds in a row |
| `Paste.CollapseAndTrimClean` | src/WhatsAppListFormatter.js:243-245 | the collapsed and trimmed text holds no three line feeds in a row and no leading or trailing whitespace |
| `LiveFormatter.FindFrom` | src/WhatsAppListFormatter.js:237-238 | a lazy `[\s\S]*?` stops at the first match of what follows it |
| `LiveFormatter.StyleBlockEnd` | src/WhatsAppListFormatter.js:238 | a `<style…>…</style>` match that starts at a position ends after it |
| `LiveFormatter.StripCommentsNoOp` | src/WhatsAppListFormatter.js:237 | HTML without `<!--` passes the comment strip unchanged |
| `LiveFormatter.StripStylesNoOp` | src/WhatsAppListFormatter.js:238 | HTML without `<style`, in any letter case, passes the style strip unchanged |
| `LiveFormatter.StripCommentsFromDeletes` | src/WhatsAppListFormatter.js:237 | the comment strip only deletes |
| `LiveFormatter.StripStylesFromDeletes` | src/WhatsAppListFormatter.js:238 | the style strip only deletes |
| `LiveFormatter.StripDeletesOnly` | src/WhatsAppListFormatter.js:236-238 | what reaches the parser is a subsequence of the payload |
| `LiveFormatter.LivePasteHtmlClean` | src/WhatsAppListFormatter.js:235-245 | once the checks pass, HTML paste stores a text with no three line feeds in a row and no leading or trailing whitespace |
| `LiveFormatter.Formatter.constructor` | src/WhatsAppListFormatter.js:137-146 | empty input and output, no error, empty ledger with index -1 |
| `LiveFormatter.Formatter.OnChange` | src/WhatsAppListFormatter.js:357 | typing stores the value as it is and never touches the ledger |
| `LiveFormatter.Formatter.FireConversion` | src/WhatsAppListFormatter.js:280-290 | the output becomes `convertToWhatsApp` of the input |
| `LiveFormatter.Formatter.HandleUndo` | src/WhatsAppListFormatter.js:197-202 | the index moves as `handleUndo` allows, and the input becomes the entry at the new index |
| `LiveFormatter.Formatter.HandleRedo` | src/WhatsAppListFormatter.js:204-209 | the index moves as `handleRedo` allows, and the input becomes the entry at the new index |
| `LiveFormatter.Formatter.HandleClear` | src/WhatsAppListFormatter.js:211-216 | input `""`, output `""`, empty ledger with index -1 |
| `LiveFormatter.Formatter.HandlePaste` | src/WhatsAppListFormatter.js:218-263 | a failed check sets the error and changes neither input nor ledger; otherwise the error is cleared and the processed text becomes the input and is recorded by the truncating append |
| `Legacy.StripBulletPrefix` | WhatsAppListFormatter.js:44 | `replace(/^[•\s]+/, '')` cuts the leading run of bullets and whitespace and nothing else |
| `Legacy.ProcessNode` | WhatsAppListFormatter.js:32-63 | the procedure with its `result +=` loop computes the flattening function `LegacyFlatten` |
| `Legacy.TextNodeRaw` | WhatsAppListFormatter.js:33-37 | a text node contributes its raw text, and null yields `""` |
| `Legacy.ListItemIgnoresStructure` | WhatsAppListFormatter.js:45-57 | an LI yields `"* "`, its textContent and `"\n"`; its children are not visited |
| `Legacy.BulletedParagraphLine` | WhatsAppListFormatter.js:43-57 | a bulleted P yields `"* "`, its text without the leading bullets and whitespace, then `"\n"` |
| `Legacy.LegacyKeepsText` | WhatsAppListFormatter.js:32-63 | without list items or bulleted paragraphs the flattening keeps the text and only adds line feeds |
| `Legacy.LegacyElementEnds` | WhatsAppListFormatter.js:43-57 | P, DIV, LI and BR end in a line feed; a DIV, a BR or a P without a bullet is exactly its children's results concatenated plus one line feed; any other element is its children's results concatenated |
| `Legacy.LegacyPasteHtmlClean` | WhatsAppListFormatter.js:104-110 | HTML paste stores a text with no three line feeds in a row and no leading or trailing whitespace |
| `Legacy.LegacyFormatter.constructor` | WhatsAppListFormatter.js:10-19 | empty input and output, no error, empty ledger with index -1 |
| `Legacy.LegacyFormatter.OnChange` | WhatsAppListFormatter.js:208 | typing stores the value and never touches the ledger |
| `Legacy.LegacyFormatter.FireConversion` | WhatsAppListFormatter.js:131-144 | the output becomes `convertToWhatsApp` of the input |
| `Legacy.LegacyFormatter.HandleUndo` | WhatsAppListFormatter.js:73-78 | the index moves as `handleUndo` allows, and the input becomes the entry at the new index |
| `Legacy.LegacyFormatter.HandleRedo` | WhatsAppListFormatter.js:80-85 | the index moves as `handleRedo` allows, and the input becomes the entry at the new index |
| `Legacy.LegacyFormatter.HandlePaste` | WhatsAppListFormatter.js:87-129 | a failed check sets the error and changes neither input nor ledger; otherwise the older flattening of the unstripped HTML, or the sanitised plain text, becomes the input and is recorded by the truncating append |
| `Refactored.Formatter.constructor` | src/components/WhatsAppListFormatter.js:143-146 | an empty ledger with index 0, which is not the tail, so the record guard is false |
| `Refactored.Formatter.SetInput` | src/components/WhatsAppListFormatter.js:189-193 | a changed, non-blank input at the tail is recorded by the deduplicating append; otherwise the ledger is unchanged |
| `Refactored.Formatter.OnChange` | src/components/WhatsAppListFormatter.js:257 | the stored input is `sanitizeInput(value)`, never holds LF or TAB, and from the initial state nothing is recorded |
| `Refactored.Formatter.HandleUndo` | src/components/WhatsAppListFormatter.js:174-176 | the index steps back as `handleUndo` allows, and the entries never change: the restored entry is not at the tail |
| `Refactored.Formatter.HandleRedo` | src/components/WhatsAppListFormatter.js:178-193 | the index steps forward as `handleRedo` allows, and the entries never change: the re-record at the tail repeats the last entry and is a no-op |
| `Refactored.Formatter.HandleClear` | src/components/WhatsAppListFormatter.js:154-159 | input `""`, output `""`, empty ledger with index -1, which is the tail, so the next non-blank edit is recorded |
| `Refactored.Formatter.FireConversion` | src/components/WhatsAppListFormatter.js:182-187 | the output becomes `convertToWhatsApp` of the input |
| `Refactored.FirstEditAfterClear` | src/components/WhatsAppListFormatter.js:154-193 | after a clear the first recorded edit makes the ledger `[text]` with index 0 |

## Left out

- src/utils/clipboardUtils.js is not part of this model. It holds the
  refactored component's `handlePaste` and `handleCopy`: clipboard events,
  `navigator.clipboard.writeText` and a timer. Its size check and branch rule
  repeat the live component's `handlePaste`, which is modelled. Because
  that handler is left out, the refactored component's model lacks its one
  unguarded `addToHistory` call: in the program a paste also starts
  recording on the initial ledger (index 0 of `[text]` is the tail), which
  the model reaches only through `Refactored.Formatter.HandleClear`.
- Browser HTML parsing (`innerHTML`, `document.createElement`) is a
  parameter `parse`. The model relies on no property of it.
- Legacy.IsBulletedParagraph: `innerHTML.includes('•')` tests the markup,
  but the model tests the element's descendant text. A `•` that appears
  only inside an attribute or inside an HTML comment (a comment child is an
  `OtherNode` without text in the model, yet `innerHTML` includes it) is not
  seen.
- The lodash `debounce` (300 ms) and timers: only the firing is modelled
  (`FireConversion`), not the delay or the coalescing of calls.
- The `status` fields `isProcessing`, `copied` and `charCount`. They are
  display flags with no effect on the text or on the ledger. Only `error`
  is kept, in the two older components.
- The generic error message of the `catch` block. The code it protects
  throws only the two modelled errors.
- `console.error`, React rendering, JSX, the CSS strings, src/App.js and
  the lint configuration.
- React's state batching and stale closures. Each handler is modelled as
  running on the current state, and `setHistory` updaters run at once.
  The refactored `useEffect` runs exactly when `input` changes.
- Non-BMP string literals: `Units` maps each literal character to one code
  unit. Every literal of the model lies in the Basic Multilingual Plane.
