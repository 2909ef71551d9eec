/** The undo ledger: an array of past inputs and the index of the entry the
    input field currently shows.  Two append policies exist in the
    repository: the exported `addToHistory` of src/utils/historyUtils.js
    (skip a repeat of the last entry, append, evict the oldest), used by the
    refactored component, and the inline `addToHistory` of both older
    components (cut everything after the current index, append, keep the
    last 50).  Undo and redo are the same code everywhere. */
module History {
  import opened JsStrings

  // ---------------------------------------------------------------------
  // src/utils/historyUtils.js, addToHistory

  /** Entry k repeats entry k - 1. */
  predicate Repeats(h: seq<Text>, k: int)
  {
    0 < k < |h| && h[k - 1] == h[k]
  }

  /** No two consecutive entries are equal. */
  predicate NoRepeats(h: seq<Text>)
  {
    forall k :: 0 < k < |h| ==> !Repeats(h, k)
  }

  /** The array the `setHistory` updater of `addToHistory` returns. */
  function Appended(prev: seq<Text>, text: Text, max: nat): (r: seq<Text>)
    ensures |r| >= 1 && r[|r| - 1] == text
  {
    if prev == [] then [text]
    else if prev[|prev| - 1] == text then prev
    else if |prev| + 1 > max then (prev + [text])[1..]
    else prev + [text]
  }

  /** The index `addToHistory` leaves behind: 0 for a first entry, untouched
      for a repeat, the last entry otherwise. */
  function AppendedIndex(prev: seq<Text>, index: int, text: Text, max: nat): (i: int)
    ensures prev == [] || prev[|prev| - 1] != text ==> i == |Appended(prev, text, max)| - 1
    ensures prev != [] && prev[|prev| - 1] == text ==> i == index
  {
    if prev == [] then 0
    else if prev[|prev| - 1] == text then index
    else |Appended(prev, text, max)| - 1
  }

  /** A ledger that fits the bound still fits it after an append. */
  lemma {:induction false} AppendedBounded(prev: seq<Text>, text: Text, max: nat)
    requires 1 <= max && |prev| <= max
    ensures |Appended(prev, text, max)| <= max
  {
  }

  /** A repeat of the last entry changes nothing; any other text is appended. */
  lemma {:induction false} AppendedRepeat(prev: seq<Text>, text: Text, max: nat)
    ensures Appended(prev, text, max) == prev <==> prev != [] && prev[|prev| - 1] == text
  {
    var r := Appended(prev, text, max);
    if prev != [] && prev[|prev| - 1] != text && |prev| + 1 > max {
      assert r == prev[1..] + [text];
    }
  }

  /** The entries before the newest one are the old entries, with at most
      the oldest of them gone; in particular nothing after the current index
      is ever cut, whatever that index is. */
  lemma {:induction false} AppendedKeepsOrder(prev: seq<Text>, text: Text, max: nat)
    ensures var r := Appended(prev, text, max);
      r == prev
      || (|prev| - (|r| - 1) <= 1 && r[..|r| - 1] == prev[|prev| - (|r| - 1)..])
  {
    var r := Appended(prev, text, max);
    if prev != [] && prev[|prev| - 1] != text {
      if |prev| + 1 > max {
        assert r == prev[1..] + [text];
        assert r[..|r| - 1] == prev[1..];
      } else {
        assert r[..|r| - 1] == prev;
      }
    }
  }

  /** "No two consecutive entries are equal" survives `addToHistory`. */
  lemma {:induction false} AppendedNoRepeats(prev: seq<Text>, text: Text, max: nat)
    requires NoRepeats(prev)
    ensures NoRepeats(Appended(prev, text, max))
  {
    var r := Appended(prev, text, max);
    if prev != [] && prev[|prev| - 1] != text {
      var n := prev + [text];
      forall k | 0 < k < |n|
        ensures n[k - 1] != n[k]
      {
        if k < |prev| {
          assert !Repeats(prev, k);
        }
      }
      if |prev| + 1 > max {
        forall k | 0 < k < |r|
          ensures !Repeats(r, k)
        {
          assert r[k - 1] == n[k] && r[k] == n[k + 1];
        }
      }
    }
  }

  // ---------------------------------------------------------------------
  // src/WhatsAppListFormatter.js and WhatsAppListFormatter.js, addToHistory

  const MAX_HISTORY_LENGTH: nat := 50

  /** Where `array.slice(0, end)` stops on an array of length len: a negative
      end counts from the back. */
  function SliceEnd(len: nat, end: int): (e: nat)
    ensures e <= len
    ensures 0 <= end ==> e == if end < len then end else len
    ensures end < 0 ==> e == if len + end < 0 then 0 else len + end
  {
    if end < 0 then (if len + end < 0 then 0 else len + end)
    else if end > len then len
    else end
  }

  /** `[...prev.slice(0, currentIndex + 1), text].slice(-MAX_HISTORY_LENGTH)`. */
  function Truncated(prev: seq<Text>, index: int, text: Text): (r: seq<Text>)
    ensures 1 <= |r| <= MAX_HISTORY_LENGTH && r[|r| - 1] == text
  {
    var kept := prev[..SliceEnd(|prev|, index + 1)] + [text];
    if |kept| > MAX_HISTORY_LENGTH then kept[|kept| - MAX_HISTORY_LENGTH..] else kept
  }

  /** From the cleared state (index -1) the ledger restarts with the text alone. */
  lemma {:induction false} TruncatedAfterClear(prev: seq<Text>, text: Text)
    ensures Truncated(prev, -1, text) == [text]
  {
    assert prev[..0] + [text] == [text];
  }

  /** From an index inside the ledger, the entries after it are discarded: the
      new ledger is the run of old entries that ends at the index, followed
      by the text. */
  lemma {:induction false} TruncatedDropsForward(prev: seq<Text>, index: int, text: Text)
    requires 0 <= index < |prev|
    ensures var r := Truncated(prev, index, text);
      |r| <= index + 2 && r == prev[index + 2 - |r|..index + 1] + [text]
  {
    var kept := prev[..index + 1] + [text];
    var r := Truncated(prev, index, text);
    if |kept| > MAX_HISTORY_LENGTH {
      assert r == kept[|kept| - MAX_HISTORY_LENGTH..];
      assert r[..|r| - 1] == prev[index + 2 - |r|..index + 1];
    } else {
      assert r == kept;
    }
  }

  /** There is no duplicate check: while the bound is not reached, the text is
      appended after the current entry even when it equals that entry. */
  lemma {:induction false} TruncatedAppendsRepeats(prev: seq<Text>, index: int, text: Text)
    requires 0 <= index < |prev| && index + 2 <= MAX_HISTORY_LENGTH
    ensures Truncated(prev, index, text) == prev[..index + 1] + [text]
    ensures |Truncated(prev, index, text)| == index + 2
  {
  }

  // ---------------------------------------------------------------------
  // handleUndo and handleRedo, with the `disabled` tests of their buttons

  /** The index after `handleUndo`. */
  function UndoIndex(index: int): int
  {
    if index > 0 then index - 1 else index
  }

  /** The index after `handleRedo` on a ledger of the given length. */
  function RedoIndex(len: nat, index: int): int
  {
    if index < len - 1 then index + 1 else index
  }

  /** `disabled={currentIndex <= 0}` on the undo button. */
  predicate UndoDisabled(index: int)
  {
    index <= 0
  }

  /** `disabled={currentIndex >= history.length - 1}` on the redo button. */
  predicate RedoDisabled(len: nat, index: int)
  {
    index >= len - 1
  }

  /** A button is disabled exactly when its handler would do nothing. */
  lemma {:induction false} DisabledIffNoMove(len: nat, index: int)
    ensures UndoDisabled(index) <==> UndoIndex(index) == index
    ensures RedoDisabled(len, index) <==> RedoIndex(len, index) == index
  {
  }

  /** Redo undoes an undo, and undo undoes a redo. */
  lemma {:induction false} UndoRedoInverse(len: nat, index: int)
    ensures 0 < index < len ==> RedoIndex(len, UndoIndex(index)) == index
    ensures 0 <= index < len - 1 ==> UndoIndex(RedoIndex(len, index)) == index
  {
  }

  // ---------------------------------------------------------------------
  // The ledger as component state

  /** `history` and `currentIndex`: the two `useState` fields every
      component keeps for the ledger. */
  class Ledger {
    var entries: seq<Text>
    var currentIndex: int

    /** The index points at an entry, or is -1 (cleared), or is 0 on an empty
        ledger (the refactored component's initial state). */
    predicate Valid()
      reads this
    {
      -1 <= currentIndex && (currentIndex < |entries| || currentIndex == 0)
    }

    /** The index points at the last entry: the refactored component's
        condition for recording an edit. */
    predicate AtTail()
      reads this
    {
      currentIndex == |entries| - 1
    }

    /** `useState([])` with `useState(initialIndex)`: -1 in the older
        components, 0 in the refactored one. */
    constructor (initialIndex: int)
      requires initialIndex == -1 || initialIndex == 0
      ensures entries == [] && currentIndex == initialIndex
      ensures Valid()
    {
      entries := [];
      currentIndex := initialIndex;
    }

    /** src/utils/historyUtils.js `addToHistory(text, ..., max)`. */
    method AddDeduplicated(text: Text, max: nat)
      requires Valid()
      modifies this
      ensures entries == Appended(old(entries), text, max)
      ensures currentIndex == AppendedIndex(old(entries), old(currentIndex), text, max)
      ensures Valid()
    {
      if |entries| == 0 {
        currentIndex := 0;
        entries := [text];
        return;
      }
      if entries[|entries| - 1] == text {
        return;
      }
      var newHistory := entries + [text];
      if |newHistory| > max {
        newHistory := newHistory[1..];
      }
      currentIndex := |newHistory| - 1;
      entries := newHistory;
    }

    /** The older components' inline `addToHistory(text)`. */
    method AddTruncated(text: Text)
      requires Valid()
      modifies this
      ensures entries == Truncated(old(entries), old(currentIndex), text)
      ensures currentIndex == |entries| - 1
      ensures Valid() && AtTail()
    {
      var newHistory := entries[..SliceEnd(|entries|, currentIndex + 1)] + [text];
      if |newHistory| > MAX_HISTORY_LENGTH {
        newHistory := newHistory[|newHistory| - MAX_HISTORY_LENGTH..];
      }
      currentIndex := |newHistory| - 1;
      entries := newHistory;
    }

    /** `handleUndo`: step back and hand the entry there to `setInput`;
        `None` when the guard `currentIndex > 0` fails. */
    method HandleUndo() returns (restored: Option<Text>)
      requires Valid()
      modifies this
      ensures entries == old(entries) && Valid()
      ensures currentIndex == UndoIndex(old(currentIndex))
      ensures restored == if old(currentIndex) > 0 then Some(entries[currentIndex]) else None
    {
      restored := None;
      if currentIndex > 0 {
        currentIndex := currentIndex - 1;
        restored := Some(entries[currentIndex]);
      }
    }

    /** `handleRedo`: step forward and hand the entry there to `setInput`;
        `None` when the guard `currentIndex < history.length - 1` fails. */
    method HandleRedo() returns (restored: Option<Text>)
      requires Valid()
      modifies this
      ensures entries == old(entries) && Valid()
      ensures currentIndex == RedoIndex(|entries|, old(currentIndex))
      ensures restored == if old(currentIndex) < |entries| - 1 then Some(entries[currentIndex]) else None
    {
      restored := None;
      if currentIndex < |entries| - 1 {
        currentIndex := currentIndex + 1;
        restored := Some(entries[currentIndex]);
      }
    }

    /** `setHistory([])` and `setCurrentIndex(-1)` of `handleClear`. */
    method Clear()
      modifies this
      ensures entries == [] && currentIndex == -1
      ensures Valid() && AtTail()
    {
      entries := [];
      currentIndex := -1;
    }
  }
}
