// The insert reducer (src/Actions/typingInsert.ts): word skip on space,
// marking a match or a mismatch, pause-on-error, the two error-count modes
// and the completion check.

module TypingInsert {
  import opened Types
  import opened JsText
  import opened Session

  /** The word-skip condition: a space typed where the text does not expect one,
      with skipping enabled. */
  predicate IsWordSkip(s: State, letter: Option<char>)
    requires Shaped(s) && s.phase != Ended
  {
    letter == Some(' ') && s.chars[s.currIndex + 1] != ' ' && s.options.skipCurrentWordOnSpace
  }

  /** Where a word skip puts the cursor: the first space at or after the cursor,
      or the last slot when no space follows. */
  function SkipTarget(s: State): int
    requires Shaped(s)
  {
    var j := IndexOf(s.chars, ' ', s.currIndex);
    if j == -1 then s.length - 1 else j
  }

  /** The first insert of a session starts it and records the start time. */
  function Begin(s: State, now: int): State
  {
    if s.phase == NotStarted then s.(phase := Started, startTime := Some(now)) else s
  }

  /** A wrong letter for slot `currIndex + 1`. */
  function Mistype(s: State): State
    requires Shaped(s) && s.phase != Ended
  {
    var k := s.currIndex + 1;
    var wasWrong := s.charsState[k] == Incorrect;
    s.(charsState := if wasWrong then s.charsState else s.charsState[k := Incorrect],
       errorChar := if wasWrong && s.options.countErrors == Once then s.errorChar else s.errorChar + 1,
       currIndex := if s.options.pauseOnError then s.currIndex else k,
       keystrokes := s.keystrokes + 1)
  }

  /** The right letter for slot `currIndex + 1`; a paused error on that slot is
      retracted under 'once'. */
  function Hit(s: State): State
    requires Shaped(s) && s.phase != Ended
  {
    var k := s.currIndex + 1;
    var retract := s.charsState[k] == Incorrect && s.options.pauseOnError && s.options.countErrors == Once;
    s.(charsState := s.charsState[k := Correct],
       correctChar := s.correctChar + 1,
       errorChar := if retract then s.errorChar - 1 else s.errorChar,
       currIndex := k,
       keystrokes := s.keystrokes + 1)
  }

  /** The cursor and mark change of one insert, before the completion check. */
  function Advance(s: State, letter: Option<char>): State
    requires Shaped(s) && s.phase != Ended
  {
    if IsWordSkip(s, letter) then s.(currIndex := SkipTarget(s))
    else match letter
      case None => s.(currIndex := s.currIndex + 1)
      case Some(l) => if s.chars[s.currIndex + 1] != l then Mistype(s) else Hit(s)
  }

  /** The completion check: reaching the last slot ends the session. */
  function Complete(s: State, now: int): State
  {
    var ended := s.currIndex >= s.length - 1;
    s.(phase := if ended then Ended else s.phase,
       endTime := if ended then Some(now) else s.endTime,
       currChar := CharShown(s.chars, s.currIndex))
  }

  /** The state after inserting `letter` (None for a skipped slot) at time `now`:
      the shape is kept, and at most the slot after the cursor changes. */
  function Inserted(s: State, letter: Option<char>, now: int): (r: State)
    requires Shaped(s)
    ensures Shaped(r)
    ensures r.chars == s.chars && r.length == s.length && r.options == s.options
    ensures forall i :: 0 <= i < |s.charsState| && i != s.currIndex + 1 ==>
              r.charsState[i] == s.charsState[i]
    ensures s.phase == Ended ==> r == s
  {
    if s.phase == Ended then s
    else Complete(Advance(Begin(s, now), letter), now)
  }

  /** The reducer as the source writes it: copy the marks, reassign the locals
      branch by branch, rebuild the record. */
  method Insert(s: State, letter: Option<char>, now: int) returns (r: State)
    requires Shaped(s)
    ensures r == Inserted(s, letter, now)
  {
    var phase, newStartTime, newEndTime := s.phase, s.startTime, s.endTime;
    if phase == Ended {
      return s;
    }
    if phase == NotStarted {
      phase := Started;
      newStartTime := Some(now);
    }
    var newCharsState, currIndex, correctChar, errorChar, keystrokes := Keystroke(s, letter);
    AdvanceAfterBegin(s, letter, now);
    if currIndex >= s.length - 1 {
      newEndTime := Some(now);
      phase := Ended;
    }
    var currChar := if currIndex >= 0 then CharAt(s.chars, currIndex) else Blank;
    r := s.(charsState := newCharsState, errorChar := errorChar, correctChar := correctChar,
            currIndex := currIndex, currChar := currChar, keystrokes := keystrokes,
            phase := phase, startTime := newStartTime, endTime := newEndTime);
  }

  /** Starting the session first changes nothing in what the step does. */
  lemma AdvanceAfterBegin(s: State, letter: Option<char>, now: int)
    requires Shaped(s) && s.phase != Ended
    ensures var b := Begin(s, now);
      Advance(b, letter) == Advance(s, letter).(phase := b.phase, startTime := b.startTime)
  {
  }

  /** The source's branch on the letter: word skip, null, mismatch or match,
      each reassigning the cursor, the marks and the tallies. */
  method Keystroke(s: State, letter: Option<char>)
    returns (newCharsState: seq<CharState>, currIndex: int, correctChar: int, errorChar: int, keystrokes: int)
    requires Shaped(s) && s.phase != Ended
    ensures var a := Advance(s, letter);
      newCharsState == a.charsState && currIndex == a.currIndex && correctChar == a.correctChar
      && errorChar == a.errorChar && keystrokes == a.keystrokes
  {
    newCharsState, currIndex, correctChar, errorChar, keystrokes :=
      s.charsState, s.currIndex, s.correctChar, s.errorChar, s.keystrokes;
    if letter == Some(' ') && s.chars[currIndex + 1] != ' ' && s.options.skipCurrentWordOnSpace {
      var newIndex := IndexOf(s.chars, ' ', currIndex);
      currIndex := if newIndex == -1 then s.length - 1 else newIndex;
    } else if letter.Some? {
      if s.chars[currIndex + 1] != letter.value {
        if newCharsState[currIndex + 1] == Incorrect {
          if s.options.countErrors == Everytime {
            errorChar := errorChar + 1;
          }
        } else {
          newCharsState := newCharsState[currIndex + 1 := Incorrect];
          errorChar := errorChar + 1;
        }
        if !s.options.pauseOnError {
          currIndex := currIndex + 1;
        }
        keystrokes := keystrokes + 1;
      } else {
        if newCharsState[currIndex + 1] == Incorrect && s.options.pauseOnError && s.options.countErrors == Once {
          errorChar := errorChar - 1;
        }
        newCharsState := newCharsState[currIndex + 1 := Correct];
        correctChar := correctChar + 1;
        currIndex := currIndex + 1;
        keystrokes := keystrokes + 1;
      }
    } else {
      currIndex := currIndex + 1;
    }
  }

  /** A running session is Started after any insert (its start time set now if
      it had not started); it ends exactly when the cursor reaches the last
      slot, recording the end time; `currChar` follows the cursor. */
  lemma InsertPhaseAndTimes(s: State, letter: Option<char>, now: int)
    requires Shaped(s) && s.phase != Ended
    ensures var r := Inserted(s, letter, now);
      r.startTime == (if s.phase == NotStarted then Some(now) else s.startTime)
      && (r.phase == Ended <==> r.currIndex >= s.length - 1)
      && (r.phase != Ended ==> r.phase == Started && r.endTime == s.endTime)
      && (r.phase == Ended ==> r.endTime == Some(now))
      && r.currChar == CharShown(s.chars, r.currIndex)
  {
  }

  /** A word skip jumps to the first space at or after max(currIndex, 0), or to
      the last slot, and leaves marks, counters and keystrokes alone. */
  lemma InsertWordSkip(s: State, now: int)
    requires Shaped(s) && s.phase != Ended
    requires s.chars[s.currIndex + 1] != ' ' && s.options.skipCurrentWordOnSpace
    ensures var r := Inserted(s, Some(' '), now);
      SearchStart(s.currIndex) <= r.currIndex < s.length
      && (r.currIndex == s.length - 1 || s.chars[r.currIndex] == ' ')
      && (forall i :: SearchStart(s.currIndex) <= i < r.currIndex ==> s.chars[i] != ' ')
      && r.charsState == s.charsState && r.correctChar == s.correctChar
      && r.errorChar == s.errorChar && r.keystrokes == s.keystrokes
  {
  }

  /** Skipping from a space stays on that space: the search starts at the
      cursor itself. */
  lemma WordSkipFromSpaceStays(s: State, now: int)
    requires Shaped(s) && s.phase != Ended
    requires 0 <= s.currIndex && s.chars[s.currIndex] == ' '
    requires s.chars[s.currIndex + 1] != ' ' && s.options.skipCurrentWordOnSpace
    ensures Inserted(s, Some(' '), now).currIndex == s.currIndex
  {
  }

  /** The expected letter marks its slot Correct and advances; a paused error on
      that slot is retracted only under pause-on-error with 'once'. */
  lemma InsertMatch(s: State, now: int)
    requires Shaped(s) && s.phase != Ended
    ensures var k := s.currIndex + 1;
      var r := Inserted(s, Some(s.chars[k]), now);
      r.charsState == s.charsState[k := Correct]
      && r.correctChar == s.correctChar + 1
      && r.keystrokes == s.keystrokes + 1
      && r.currIndex == k
      && r.errorChar == s.errorChar
           - (if s.charsState[k] == Incorrect && s.options.pauseOnError && s.options.countErrors == Once then 1 else 0)
  {
  }

  /** A wrong letter (that is not a word skip) marks its slot Incorrect and
      counts an error, except a repeat on an Incorrect slot under 'once'; the
      cursor advances unless pause-on-error is set. */
  lemma InsertMismatch(s: State, l: char, now: int)
    requires Shaped(s) && s.phase != Ended
    requires l != s.chars[s.currIndex + 1]
    requires !(l == ' ' && s.options.skipCurrentWordOnSpace)
    ensures var k := s.currIndex + 1;
      var r := Inserted(s, Some(l), now);
      r.charsState == s.charsState[k := Incorrect]
      && r.correctChar == s.correctChar
      && r.keystrokes == s.keystrokes + 1
      && r.currIndex == (if s.options.pauseOnError then s.currIndex else k)
      && r.errorChar == s.errorChar
           + (if s.charsState[k] == Incorrect && s.options.countErrors == Once then 0 else 1)
  {
  }

  /** A null letter passes over one slot and touches nothing else. */
  lemma InsertNull(s: State, now: int)
    requires Shaped(s) && s.phase != Ended
    ensures var r := Inserted(s, None, now);
      r.currIndex == s.currIndex + 1
      && r.charsState == s.charsState && r.correctChar == s.correctChar
      && r.errorChar == s.errorChar && r.keystrokes == s.keystrokes
  {
  }

  /** What a running session satisfies between the step and the completion
      check: Valid, except that the cursor may already sit on the last slot. */
  predicate Stepped(a: State)
  {
    |a.chars| >= 1 && |a.charsState| == |a.chars| == a.length
    && -1 <= a.currIndex < a.length
    && a.phase == Started && a.startTime.Some?
    && a.correctChar == Count(a.charsState, Correct)
    && (a.options.countErrors == Once ==> a.errorChar == Count(a.charsState, Incorrect))
    && (a.options.countErrors == Everytime ==> a.errorChar >= Count(a.charsState, Incorrect))
    && a.correctChar + a.errorChar <= a.keystrokes
    && (forall i :: a.currIndex < i < |a.charsState| ==>
          a.charsState[i] != Correct && (a.options.pauseOnError || a.charsState[i] == Incomplete))
  }

  lemma CompleteValid(a: State, now: int)
    requires Stepped(a)
    ensures Valid(Complete(a, now))
  {
  }

  lemma AdvanceStepped(b: State, letter: Option<char>)
    requires Valid(b) && b.phase == Started
    ensures Stepped(Advance(b, letter))
  {
    var k := b.currIndex + 1;
    if IsWordSkip(b, letter) {
      assert Advance(b, letter) == b.(currIndex := SkipTarget(b));
    } else if letter.Some? {
      if b.chars[k] != letter.value {
        MistypeStepped(b);
      } else {
        HitStepped(b);
      }
    }
  }

  lemma MistypeStepped(b: State)
    requires Valid(b) && b.phase == Started
    ensures Stepped(Mistype(b))
  {
    var k := b.currIndex + 1;
    assert b.charsState[k] != Correct;
    if b.charsState[k] != Incorrect {
      CountUpdate(b.charsState, k, Incorrect, Correct);
      CountUpdate(b.charsState, k, Incorrect, Incorrect);
    }
  }

  lemma HitStepped(b: State)
    requires Valid(b) && b.phase == Started
    ensures Stepped(Hit(b))
  {
    var k := b.currIndex + 1;
    assert b.charsState[k] != Correct;
    CountUpdate(b.charsState, k, Correct, Correct);
    CountUpdate(b.charsState, k, Correct, Incorrect);
  }

  /** Every insert keeps the session invariant. */
  lemma InsertPreservesValid(s: State, letter: Option<char>, now: int)
    requires Valid(s)
    ensures Valid(Inserted(s, letter, now))
  {
    if s.phase != Ended {
      var b := Begin(s, now);
      assert Valid(b);
      AdvanceStepped(b, letter);
      CompleteValid(Advance(b, letter), now);
    }
  }
}
