// Properties that relate several transitions: delete undoing an insert, and
// whole typing runs over a text.

module Properties {
  import opened Types
  import opened JsText
  import opened Session
  import opened TypingInsert
  import opened TypingDelete
  import Hook

  /** Under 'once' without pause-on-error, a single delete right after an insert
      that neither skipped a word nor ended the session restores the marks, the
      cursor, `currChar` and both counters; the keystroke stays counted. */
  lemma DeleteUndoesInsert(s: State, letter: Option<char>, now: int)
    requires Valid(s) && s.phase != Ended
    requires s.options.countErrors == Once && !s.options.pauseOnError
    requires !IsWordSkip(s, letter)
    requires Inserted(s, letter, now).phase != Ended
    ensures var d := Deleted(Inserted(s, letter, now), false);
      d.charsState == s.charsState && d.currIndex == s.currIndex && d.currChar == s.currChar
      && d.correctChar == s.correctChar && d.errorChar == s.errorChar
      && d.keystrokes == s.keystrokes + (if letter.Some? then 1 else 0)
  {
    var k := s.currIndex + 1;
    assert s.charsState[k] == Incomplete;
    var r := Inserted(s, letter, now);
    InsertPhaseAndTimes(s, letter, now);
    match letter {
      case None => InsertNull(s, now);
      case Some(l) =>
        if l == s.chars[k] {
          InsertMatch(s, now);
        } else {
          InsertMismatch(s, l, now);
        }
    }
    assert r.currIndex == k && r.phase == Started;
    DeleteSingle(r);
    assert r.charsState[k := Incomplete] == s.charsState;
  }

  /** Under 'everytime' the same delete leaves a mistyped letter's error
      counted. */
  lemma DeleteKeepsEverytimeError(s: State, l: char, now: int)
    requires Valid(s) && s.phase != Ended
    requires s.options.countErrors == Everytime && !s.options.pauseOnError
    requires l != s.chars[s.currIndex + 1] && !(l == ' ' && s.options.skipCurrentWordOnSpace)
    requires Inserted(s, Some(l), now).phase != Ended
    ensures var d := Deleted(Inserted(s, Some(l), now), false);
      d.charsState == s.charsState && d.currIndex == s.currIndex
      && d.correctChar == s.correctChar && d.errorChar == s.errorChar + 1
  {
    var k := s.currIndex + 1;
    assert s.charsState[k] == Incomplete;
    var r := Inserted(s, Some(l), now);
    InsertPhaseAndTimes(s, Some(l), now);
    InsertMismatch(s, l, now);
    DeleteSingle(r);
    assert r.charsState[k := Incomplete] == s.charsState;
  }

  /** Inserting each letter of `letters` in turn, the i-th one at clock
      reading `nows[i]`. */
  function Run(s: State, letters: seq<char>, nows: seq<int>): (r: State)
    requires Shaped(s) && |nows| == |letters|
    ensures Shaped(r)
    decreases |letters|
  {
    if letters == [] then s else Run(Inserted(s, Some(letters[0]), nows[0]), letters[1..], nows[1..])
  }

  /** After the first `k` letters of a run, each one marked `m`. */
  predicate Typed(s: State, text: string, k: int, m: CharState, t0: int)
  {
    0 <= k < |text| && s.chars == text && s.length == |text| && |s.charsState| == |text|
    && (forall i :: 0 <= i < |text| ==> s.charsState[i] == if i < k then m else Incomplete)
    && s.currIndex == k - 1 && s.keystrokes == k
    && s.correctChar == (if m == Correct then k else 0)
    && s.errorChar == (if m == Incorrect then k else 0)
    && s.phase == (if k == 0 then NotStarted else Started)
    && (k > 0 ==> s.startTime == Some(t0))
  }

  /** `letters` hits every slot of `text` (m = Correct), or misses every slot
      without triggering a word skip or a pause (m = Incorrect). */
  predicate Fits(text: string, letters: seq<char>, o: Options, m: CharState)
  {
    |letters| == |text|
    && (m == Correct ==> forall i :: 0 <= i < |text| ==> letters[i] == text[i])
    && (m == Incorrect ==>
          !o.pauseOnError
          && forall i :: 0 <= i < |text| ==>
               letters[i] != text[i] && !(letters[i] == ' ' && o.skipCurrentWordOnSpace))
  }

  /** How a run that marked every slot `m` ends. */
  predicate Finished(r: State, text: string, m: CharState, t0: int, t1: int)
  {
    |r.charsState| == |text|
    && (forall i :: 0 <= i < |text| ==> r.charsState[i] == m)
    && r.correctChar == (if m == Correct then |text| else 0)
    && r.errorChar == (if m == Incorrect then |text| else 0)
    && r.currIndex == |text| - 1 && r.currChar == CharShown(text, |text| - 1)
    && r.phase == Ended && r.startTime == Some(t0) && r.endTime == Some(t1)
    && r.keystrokes == |text|
  }

  lemma {:induction false} RunFrom(s: State, text: string, letters: seq<char>, nows: seq<int>, k: int, m: CharState)
    requires |nows| == |text| && 0 <= k < |text| && Typed(s, text, k, m, nows[0])
    requires m != Incomplete && Fits(text, letters, s.options, m)
    ensures Shaped(s) && Finished(Run(s, letters[k..], nows[k..]), text, m, nows[0], nows[|text| - 1])
    decreases |text| - k
  {
    var r := Inserted(s, Some(letters[k]), nows[k]);
    assert letters[k..][0] == letters[k] && letters[k..][1..] == letters[k + 1..];
    assert nows[k..][0] == nows[k] && nows[k..][1..] == nows[k + 1..];
    assert Run(s, letters[k..], nows[k..]) == Run(r, letters[k + 1..], nows[k + 1..]);
    RunStep(s, text, letters, nows, k, m);
    if k + 1 == |text| {
      assert letters[k + 1..] == [];
    } else {
      RunFrom(r, text, letters, nows, k + 1, m);
    }
  }

  /** One letter of such a run: the next slot is marked `m`, and the last one
      finishes the run. */
  lemma RunStep(s: State, text: string, letters: seq<char>, nows: seq<int>, k: int, m: CharState)
    requires |nows| == |text| && 0 <= k < |text| && Typed(s, text, k, m, nows[0])
    requires m != Incomplete && Fits(text, letters, s.options, m)
    ensures var r := Inserted(s, Some(letters[k]), nows[k]);
      r.options == s.options
      && (k + 1 == |text| ==> Finished(r, text, m, nows[0], nows[k]))
      && (k + 1 < |text| ==> Typed(r, text, k + 1, m, nows[0]))
  {
    InsertPhaseAndTimes(s, Some(letters[k]), nows[k]);
    if m == Correct {
      InsertMatch(s, nows[k]);
    } else {
      InsertMismatch(s, letters[k], nows[k]);
    }
  }

  /** Typing the whole text correctly from a fresh session marks every slot
      Correct, counts |text| correct letters and no error, ends the session on
      the last slot, and records the first and last keystrokes' times, so the
      duration is the time between them. */
  lemma TypeWholeText(text: string, options: PartialOptions, nows: seq<int>, later: int)
    requires |text| >= 1 && |nows| == |text|
    ensures var r := Run(Hook.InitialState(text, options), text, nows);
      Finished(r, text, Correct, nows[0], nows[|text| - 1])
      && (nows[0] != 0 && nows[|text| - 1] != 0 ==> Hook.Duration(r, later) == nows[|text| - 1] - nows[0])
  {
    var s0 := Hook.InitialState(text, options);
    assert text[0..] == text && nows[0..] == nows;
    RunFrom(s0, text, text, nows, 0, Correct);
  }

  /** Missing every slot (no pause, no word skip) marks every slot Incorrect,
      counts |text| errors in either counting mode and no correct letter, ends
      the session on the last slot, and records the first and last keystrokes'
      times. */
  lemma TypeAllWrong(text: string, letters: seq<char>, options: PartialOptions, nows: seq<int>, later: int)
    requires |text| >= 1 && |nows| == |text|
    requires Fits(text, letters, Hook.InitialState(text, options).options, Incorrect)
    ensures var r := Run(Hook.InitialState(text, options), letters, nows);
      Finished(r, text, Incorrect, nows[0], nows[|text| - 1])
      && (nows[0] != 0 && nows[|text| - 1] != 0 ==> Hook.Duration(r, later) == nows[|text| - 1] - nows[0])
  {
    var s0 := Hook.InitialState(text, options);
    assert letters[0..] == letters && nows[0..] == nows;
    RunFrom(s0, text, letters, nows, 0, Incorrect);
  }
}
