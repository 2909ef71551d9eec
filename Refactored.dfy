/** src/components/WhatsAppListFormatter.js: the refactored component.  It
    builds on the shared utilities (`sanitizeInput`, `convertToWhatsApp`,
    the deduplicating `addToHistory`, `handleUndo`, `handleRedo`) and records
    history from a `useEffect` on the input: whenever the input changes to a
    non-blank value while the index is at the last entry. */
module Refactored {
  import opened JsStrings
  import opened History
  import Sanitizer
  import Conversion

  class Formatter {
    var input: Text
    var convertedText: Text
    /** `history` with `currentIndex`. */
    const ledger: Ledger

    predicate Valid()
      reads this, ledger
    {
      ledger.Valid()
    }

    /** The state the component starts in: an empty ledger with index 0. */
    predicate Initial()
      reads ledger
    {
      ledger.entries == [] && ledger.currentIndex == 0
    }

    /** `useState("")` twice, `useState([])` and `useState(0)`.  The index
        is not at the tail (0 is not `0 - 1`), so no edit is recorded yet. */
    constructor ()
      ensures input == [] && convertedText == []
      ensures Initial() && !ledger.AtTail()
      ensures fresh(ledger) && Valid()
    {
      input := [];
      convertedText := [];
      ledger := new Ledger(0);
    }

    /** `setInput(next)`, followed by the `useEffect` on `input` when the value
        changed: `input.trim() !== "" && currentIndex === history.length - 1`
        triggers `addHistoryEntry(input)`. */
    method SetInput(next: Text)
      requires Valid()
      modifies this, ledger
      ensures input == next && convertedText == old(convertedText) && Valid()
      ensures var records := next != old(input) && Trim(next) != [] && old(ledger.AtTail());
        records ==>
          && ledger.entries == Appended(old(ledger.entries), next, MAX_HISTORY_LENGTH)
          && ledger.currentIndex == AppendedIndex(old(ledger.entries), old(ledger.currentIndex), next, MAX_HISTORY_LENGTH)
      ensures var records := next != old(input) && Trim(next) != [] && old(ledger.AtTail());
        !records ==>
          && ledger.entries == old(ledger.entries)
          && ledger.currentIndex == old(ledger.currentIndex)
    {
      var changed := next != input;
      input := next;
      if changed && Trim(input) != [] && ledger.currentIndex == |ledger.entries| - 1 {
        ledger.AddDeduplicated(input, MAX_HISTORY_LENGTH);
      }
    }

    /** `onChange={(e) => setInput(sanitizeInput(e.target.value))}`: what is
        stored never holds a line feed or a tab.  Typing alone never records
        from the initial state; only a clear or a paste (whose unguarded
        `addToHistory` is not part of this model) moves the index to the
        tail. */
    method OnChange(value: Text)
      requires Valid()
      modifies this, ledger
      ensures input == Sanitizer.Sanitize(value)
      ensures LF !in input && TAB !in input
      ensures convertedText == old(convertedText) && Valid()
      ensures var records := input != old(input) && Trim(input) != [] && old(ledger.AtTail());
        records ==>
          && ledger.entries == Appended(old(ledger.entries), input, MAX_HISTORY_LENGTH)
          && ledger.currentIndex == AppendedIndex(old(ledger.entries), old(ledger.currentIndex), input, MAX_HISTORY_LENGTH)
      ensures var records := input != old(input) && Trim(input) != [] && old(ledger.AtTail());
        !records ==>
          && ledger.entries == old(ledger.entries)
          && ledger.currentIndex == old(ledger.currentIndex)
      ensures old(Initial()) ==> Initial()
    {
      Sanitizer.SanitizeClean(value);
      SetInput(Sanitizer.Sanitize(value));
    }

    /** `handleUndoClick`: the restored entry lies before the tail, so the
        effect it triggers never records. */
    method HandleUndo()
      requires Valid()
      modifies this, ledger
      ensures ledger.entries == old(ledger.entries)
      ensures ledger.currentIndex == UndoIndex(old(ledger.currentIndex))
      ensures input == if old(ledger.currentIndex) > 0 then ledger.entries[ledger.currentIndex] else old(input)
      ensures convertedText == old(convertedText) && Valid()
      ensures old(Initial()) ==> Initial()
    {
      var restored := ledger.HandleUndo();
      if restored.Some? {
        assert !ledger.AtTail();
        SetInput(restored.value);
      }
    }

    /** `handleRedoClick`: when redo reaches the last entry, the effect
        re-records that entry, and the duplicate check of `addToHistory` makes
        it a no-op; so redo never changes the ledger's entries. */
    method HandleRedo()
      requires Valid()
      modifies this, ledger
      ensures ledger.entries == old(ledger.entries)
      ensures ledger.currentIndex == RedoIndex(|ledger.entries|, old(ledger.currentIndex))
      ensures input == if old(ledger.currentIndex) < |ledger.entries| - 1 then ledger.entries[ledger.currentIndex] else old(input)
      ensures convertedText == old(convertedText) && Valid()
      ensures old(Initial()) ==> Initial()
    {
      var restored := ledger.HandleRedo();
      if restored.Some? {
        var e := ledger.entries;
        assert ledger.AtTail() ==> restored.value == e[|e| - 1];
        SetInput(restored.value);
        assert ledger.entries == e;
      }
    }

    /** `handleClear`: everything empty and the index at -1, which is the
        tail of the empty ledger, so the next non-blank edit is recorded
        (as the ledger's first entry). */
    method HandleClear()
      modifies this, ledger
      ensures input == [] && convertedText == []
      ensures ledger.entries == [] && ledger.currentIndex == -1
      ensures ledger.AtTail() && Valid()
    {
      input := [];
      convertedText := [];
      ledger.Clear();
    }

    /** The debounced `setConvertedText(convertToWhatsApp(text))` once its
        timer fires. */
    method FireConversion()
      modifies this
      ensures convertedText == Conversion.ConvertToWhatsApp(Some(input))
      ensures input == old(input)
    {
      convertedText := Conversion.ConvertToWhatsApp(Some(input));
    }
  }

  /** After a clear, a non-blank edit starts a fresh ledger holding it alone. */
  lemma {:induction false} FirstEditAfterClear(text: Text)
    ensures Appended([], text, MAX_HISTORY_LENGTH) == [text]
    ensures AppendedIndex([], -1, text, MAX_HISTORY_LENGTH) == 0
  {
  }
}
