// The delete reducer (src/Actions/typingDelete.ts): clear the slot under the
// cursor, or the whole word up to the cursor, and step the cursor back.

module TypingDelete {
  import opened Types
  import opened JsText
  import opened Session

  /** First slot of the word that ends at `c`: just after the last space at or
      before `c`, or 0. */
  function WordStart(chars: string, c: int): (lo: int)
    requires 0 <= c < |chars|
    ensures 0 <= lo <= c + 1
    ensures lo == 0 || chars[lo - 1] == ' '
    ensures forall i :: lo <= i <= c ==> chars[i] != ' '
  {
    var j := LastIndexOf(chars, ' ', c);
    if j == -1 then 0 else j + 1
  }

  /** Delete does something only in a started session with a committed slot. */
  predicate Acts(s: State)
  {
    s.phase == Started && s.currIndex != -1
  }

  /** The state after a delete: the slots of the cleared range (the cursor's
      slot, or the word ending at it) are reset, their Correct marks leave
      `correctChar`, their Incorrect marks leave `errorChar` under 'once' only,
      and the cursor moves to just before the range. */
  function Deleted(s: State, deleteWord: bool): (r: State)
    requires Shaped(s)
    ensures Shaped(r)
    ensures r.chars == s.chars && r.length == s.length && r.options == s.options
    ensures r.phase == s.phase && r.startTime == s.startTime && r.endTime == s.endTime
    ensures r.keystrokes == s.keystrokes
    ensures !Acts(s) ==> r == s
    ensures s.options.countErrors == Everytime ==> r.errorChar == s.errorChar
    ensures r.correctChar <= s.correctChar && r.errorChar <= s.errorChar
  {
    if !Acts(s) then s
    else ClearRange(s, if deleteWord then WordStart(s.chars, s.currIndex) else s.currIndex)
  }

  /** Clearing the slots from `lo` up to the cursor. */
  function ClearRange(s: State, lo: int): State
    requires Shaped(s) && Acts(s) && 0 <= lo <= s.currIndex + 1
  {
    var c := s.currIndex;
    var gone := s.charsState[lo..c + 1];
    s.(currIndex := lo - 1,
       currChar := CharShown(s.chars, lo - 1),
       charsState := Cleared(s.charsState, lo, c + 1),
       correctChar := s.correctChar - Count(gone, Correct),
       errorChar := if s.options.countErrors == Once then s.errorChar - Count(gone, Incorrect)
                    else s.errorChar)
  }

  /** The marks and tallies after clearing the slots from `lo` up to the
      cursor. */
  predicate ClearsTo(s: State, lo: int, charsState: seq<CharState>, correctChar: int, errorChar: int)
    requires Shaped(s) && 0 <= lo <= s.currIndex + 1
  {
    var gone := s.charsState[lo..s.currIndex + 1];
    charsState == Cleared(s.charsState, lo, s.currIndex + 1)
    && correctChar == s.correctChar - Count(gone, Correct)
    && errorChar == if s.options.countErrors == Once then s.errorChar - Count(gone, Incorrect)
                    else s.errorChar
  }

  /** The reducer as the source writes it. */
  method Delete(s: State, deleteWord: bool) returns (r: State)
    requires Shaped(s)
    ensures r == Deleted(s, deleteWord)
  {
    if s.phase != Started || s.currIndex == -1 {
      return s;
    }
    var currIndex := s.currIndex;
    var newCharsState, correctChar, errorChar;
    DeletedByRange(s, deleteWord);
    if deleteWord {
      var newIndex := LastIndexOf(s.chars, ' ', currIndex);
      newIndex := if newIndex == -1 then 0 else newIndex + 1;
      newCharsState, correctChar, errorChar := ClearDown(s, newIndex);
      TalliedClears(s, newIndex, newCharsState, correctChar, errorChar);
      currIndex := newIndex;
    } else {
      newCharsState, correctChar, errorChar := ClearOne(s);
    }
    if currIndex != -1 {
      currIndex := currIndex - 1;
    }
    var currChar := if currIndex >= 0 then CharAt(s.chars, currIndex) else Blank;
    r := s.(currIndex := currIndex, currChar := currChar, charsState := newCharsState,
            correctChar := correctChar, errorChar := errorChar);
  }

  /** An acting delete is a clear of the range its mode selects. */
  lemma DeletedByRange(s: State, deleteWord: bool)
    requires Shaped(s) && Acts(s)
    ensures Deleted(s, deleteWord)
            == ClearRange(s, if deleteWord then WordStart(s.chars, s.currIndex) else s.currIndex)
  {
  }

  /** The source's single-slot branch. */
  method ClearOne(s: State) returns (newCharsState: seq<CharState>, correctChar: int, errorChar: int)
    requires Shaped(s) && Acts(s)
    ensures ClearsTo(s, s.currIndex, newCharsState, correctChar, errorChar)
  {
    var cs, c := s.charsState, s.currIndex;
    assert cs[c..c + 1] == [cs[c]] && cs[c..c + 1][1..] == [];
    newCharsState, correctChar, errorChar :=
      ClearSlot(cs, c, s.correctChar, s.errorChar, s.options.countErrors);
    assert newCharsState == Cleared(cs, c, c + 1) by {
      ClearedNone(cs, c + 1);
      ClearedStep(cs, c, c + 1);
    }
  }

  /** The block the source repeats for each cleared slot: take the slot's mark
      out of the tallies (an Incorrect one under 'once' only) and reset it. */
  method ClearSlot(cs: seq<CharState>, i: int, correct: int, error: int, mode: CountErrors)
    returns (newCharsState: seq<CharState>, correctChar: int, errorChar: int)
    requires 0 <= i < |cs|
    ensures newCharsState == cs[i := Incomplete]
    ensures correctChar == correct - (if cs[i] == Correct then 1 else 0)
    ensures errorChar == error - (if cs[i] == Incorrect && mode == Once then 1 else 0)
  {
    newCharsState, correctChar, errorChar := cs, correct, error;
    if newCharsState[i] == Correct {
      correctChar := correctChar - 1;
    } else if newCharsState[i] == Incorrect {
      if mode == Once {
        errorChar := errorChar - 1;
      }
    }
    newCharsState := newCharsState[i := Incomplete];
  }

  /** The source's clearing loop `for (i = currIndex; i >= lo; i--)`. */
  method ClearDown(s: State, lo: int) returns (newCharsState: seq<CharState>, correctChar: int, errorChar: int)
    requires Shaped(s) && Acts(s) && 0 <= lo <= s.currIndex + 1
    ensures Tallied(s, lo, newCharsState, correctChar, errorChar)
  {
    var cs, c, mode := s.charsState, s.currIndex, s.options.countErrors;
    newCharsState, correctChar, errorChar := cs, s.correctChar, s.errorChar;
    var i := c;
    ClearedNone(cs, c + 1);
    while i >= lo
      invariant lo - 1 <= i <= c
      invariant newCharsState == Cleared(cs, i + 1, c + 1)
      invariant correctChar == s.correctChar - Tally(cs, i + 1, c + 1, Correct)
      invariant errorChar == if mode == Once then s.errorChar - Tally(cs, i + 1, c + 1, Incorrect)
                             else s.errorChar
    {
      ClearedStep(cs, i, c + 1);
      newCharsState, correctChar, errorChar := ClearSlot(newCharsState, i, correctChar, errorChar, mode);
      i := i - 1;
    }
  }

  /** `ClearsTo` with the tallies counted by index. */
  ghost predicate Tallied(s: State, lo: int, charsState: seq<CharState>, correctChar: int, errorChar: int)
    requires Shaped(s) && 0 <= lo <= s.currIndex + 1
  {
    var c := s.currIndex;
    charsState == Cleared(s.charsState, lo, c + 1)
    && correctChar == s.correctChar - Tally(s.charsState, lo, c + 1, Correct)
    && errorChar == if s.options.countErrors == Once then s.errorChar - Tally(s.charsState, lo, c + 1, Incorrect)
                    else s.errorChar
  }

  lemma TalliedClears(s: State, lo: int, charsState: seq<CharState>, correctChar: int, errorChar: int)
    requires Shaped(s) && 0 <= lo <= s.currIndex + 1
    requires Tallied(s, lo, charsState, correctChar, errorChar)
    ensures ClearsTo(s, lo, charsState, correctChar, errorChar)
  {
    TallyCount(s.charsState, lo, s.currIndex + 1, Correct);
    TallyCount(s.charsState, lo, s.currIndex + 1, Incorrect);
  }

  /** The number of slots in `[i, hi)` marked `m`, counted by index. */
  ghost function Tally(cs: seq<CharState>, i: int, hi: int, m: CharState): int
    requires 0 <= i <= hi <= |cs|
    decreases hi - i
  {
    if i == hi then 0 else (if cs[i] == m then 1 else 0) + Tally(cs, i + 1, hi, m)
  }

  lemma {:induction false} TallyCount(cs: seq<CharState>, i: int, hi: int, m: CharState)
    requires 0 <= i <= hi <= |cs|
    ensures Tally(cs, i, hi, m) == Count(cs[i..hi], m)
    decreases hi - i
  {
    if i == hi {
      assert cs[i..hi] == [];
    } else {
      CountFront(cs, i, hi, m);
      TallyCount(cs, i + 1, hi, m);
    }
  }

  /** A single delete resets the cursor's slot, takes its mark out of the
      tallies (an Incorrect one under 'once' only) and steps back one slot. */
  lemma DeleteSingle(s: State)
    requires Shaped(s) && Acts(s)
    ensures var c := s.currIndex;
      var r := Deleted(s, false);
      r.charsState == s.charsState[c := Incomplete]
      && r.currIndex == c - 1
      && r.correctChar == s.correctChar - (if s.charsState[c] == Correct then 1 else 0)
      && r.errorChar == s.errorChar
           - (if s.charsState[c] == Incorrect && s.options.countErrors == Once then 1 else 0)
  {
    var c := s.currIndex;
    assert s.charsState[c..c + 1] == [s.charsState[c]];
  }

  /** A whole-word delete resets every slot after the last space at or before
      the cursor up to the cursor, and leaves the cursor on that space (or at
      -1 when there is none). */
  lemma DeleteWord(s: State)
    requires Shaped(s) && Acts(s)
    ensures var c := s.currIndex;
      var r := Deleted(s, true);
      -1 <= r.currIndex <= c
      && (r.currIndex == -1 || s.chars[r.currIndex] == ' ')
      && (forall i :: r.currIndex < i <= c ==> s.chars[i] != ' ')
      && (forall i :: 0 <= i < |s.charsState| ==>
            r.charsState[i] == if r.currIndex < i <= c then Incomplete else s.charsState[i])
      && r.correctChar == s.correctChar - Count(s.charsState[r.currIndex + 1..c + 1], Correct)
      && r.errorChar == s.errorChar
           - (if s.options.countErrors == Once then Count(s.charsState[r.currIndex + 1..c + 1], Incorrect) else 0)
  {
  }

  /** A whole-word delete with the cursor on a space changes neither the marks,
      the counters nor the cursor. */
  lemma DeleteWordOnSpace(s: State)
    requires Shaped(s) && Acts(s) && s.chars[s.currIndex] == ' '
    ensures var r := Deleted(s, true);
      r.charsState == s.charsState && r.currIndex == s.currIndex
      && r.correctChar == s.correctChar && r.errorChar == s.errorChar
  {
    var c := s.currIndex;
    assert s.charsState[c + 1..c + 1] == [];
    assert Cleared(s.charsState, c + 1, c + 1) == s.charsState;
  }

  /** Every delete keeps the session invariant. */
  lemma DeletePreservesValid(s: State, deleteWord: bool)
    requires Valid(s)
    ensures Valid(Deleted(s, deleteWord))
  {
    if Acts(s) {
      var c := s.currIndex;
      var lo := if deleteWord then WordStart(s.chars, c) else c;
      DeletedByRange(s, deleteWord);
      ClearRangeValid(s, lo);
    }
  }

  /** Clearing any range that ends at the cursor keeps the invariant. */
  lemma ClearRangeValid(s: State, lo: int)
    requires Valid(s) && Acts(s) && 0 <= lo <= s.currIndex + 1
    ensures Valid(ClearRange(s, lo))
  {
    CountCleared(s.charsState, lo, s.currIndex + 1, Correct);
    CountCleared(s.charsState, lo, s.currIndex + 1, Incorrect);
    ClearedValid(s, lo);
  }

  lemma ClearedValid(s: State, lo: int)
    requires Valid(s) && Acts(s) && 0 <= lo <= s.currIndex + 1
    requires Count(Cleared(s.charsState, lo, s.currIndex + 1), Correct)
             == Count(s.charsState, Correct) - Count(s.charsState[lo..s.currIndex + 1], Correct)
    requires Count(Cleared(s.charsState, lo, s.currIndex + 1), Incorrect)
             == Count(s.charsState, Incorrect) - Count(s.charsState[lo..s.currIndex + 1], Incorrect)
    ensures Valid(ClearRange(s, lo))
  {
  }
}
