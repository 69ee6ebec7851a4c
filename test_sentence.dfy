// The behaviours the repository's hook tests exercise, on their sentence,
// stated for the reducers as the code defines them.

module TestSentence {
  import opened Types
  import opened JsText
  import opened Session
  import opened TypingInsert
  import opened TypingDelete
  import opened Hook
  import Reset
  import End
  import Properties

  const Sentence: string := "The quick brown fox jumps over the lazy dog"

  /** The letters of the sentence the examples below look at. */
  lemma SentenceFacts()
    ensures |Sentence| == 43
    ensures Sentence[0] == 'T' && Sentence[1] == 'h' && Sentence[2] == 'e' && Sentence[3] == ' '
    ensures Sentence[4] == 'q' && Sentence[42] == 'g'
  {
  }

  const NoOptions := PartialOptions(None, None, None)

  function Fresh(options: PartialOptions): (s: State)
    ensures Valid(s)
  {
    InitialValid(Sentence, options);
    InitialState(Sentence, options)
  }

  /** Typing the sentence correctly: every slot Correct, 43 correct, no error,
      cursor 42 on 'g', and both times set. */
  lemma TypedCorrectly(nows: seq<int>)
    requires |nows| == 43
    ensures var r := Properties.Run(Fresh(NoOptions), Sentence, nows);
      r.correctChar == 43 && r.errorChar == 0 && r.currIndex == 42
      && r.currChar == Char('g') && r.phase == Ended
      && r.startTime.Some? && r.endTime.Some?
      && forall i :: 0 <= i < 43 ==> r.charsState[i] == Correct
  {
    SentenceFacts();
    TypedCorrectlyOn(Sentence, nows);
  }

  lemma TypedCorrectlyOn(t: string, nows: seq<int>)
    requires |t| == 43 && t[42] == 'g' && |nows| == 43
    ensures var r := Properties.Run(InitialState(t, NoOptions), t, nows);
      r.correctChar == 43 && r.errorChar == 0 && r.currIndex == 42
      && r.currChar == Char('g') && r.phase == Ended
      && r.startTime.Some? && r.endTime.Some?
      && forall i :: 0 <= i < 43 ==> r.charsState[i] == Correct
  {
    Properties.TypeWholeText(t, NoOptions, nows, 0);
  }

  /** A wrong key for every slot of `t`: '#', or '%' where `t` has '#'. */
  function Miss(t: string): (letters: seq<char>)
    ensures |letters| == |t|
    ensures forall i :: 0 <= i < |t| ==> letters[i] != t[i] && letters[i] != ' '
  {
    seq(|t|, i requires 0 <= i < |t| => if t[i] == '#' then '%' else '#')
  }

  /** Missing every letter: no correct letter, 43 errors, every slot
      Incorrect, and both times set. */
  lemma TypedAllWrong(nows: seq<int>)
    requires |nows| == 43
    ensures var r := Properties.Run(Fresh(NoOptions), Miss(Sentence), nows);
      r.correctChar == 0 && r.errorChar == 43 && r.currIndex == 42
      && r.currChar == Char('g') && r.phase == Ended
      && r.startTime.Some? && r.endTime.Some?
      && forall i :: 0 <= i < 43 ==> r.charsState[i] == Incorrect
  {
    SentenceFacts();
    TypedAllWrongOn(Sentence, nows);
  }

  lemma TypedAllWrongOn(t: string, nows: seq<int>)
    requires |t| == 43 && t[42] == 'g' && |nows| == 43
    ensures var r := Properties.Run(InitialState(t, NoOptions), Miss(t), nows);
      r.correctChar == 0 && r.errorChar == 43 && r.currIndex == 42
      && r.currChar == Char('g') && r.phase == Ended
      && r.startTime.Some? && r.endTime.Some?
      && forall i :: 0 <= i < 43 ==> r.charsState[i] == Incorrect
  {
    Properties.TypeAllWrong(t, Miss(t), NoOptions, nows, 0);
  }

  /** A space at the start skips "The" to the space at index 3; 'q' then marks
      slot 4 Correct. */
  lemma SkipThenType(now: int)
    ensures var s1 := Inserted(Fresh(NoOptions), Some(' '), now);
      var s2 := Inserted(s1, Some('q'), now);
      s1.currIndex == 3 && s1.correctChar == 0 && s1.keystrokes == 0
      && s2.currIndex == 4 && s2.charsState[4] == Correct && s2.correctChar == 1
      && s2.errorChar == 0 && s2.currChar == Char('q') && s2.phase == Started
      && s2.endTime == None
      && forall i :: 0 <= i < 43 && i != 4 ==> s2.charsState[i] == Incomplete
  {
    SentenceFacts();
    SkipThenTypeOn(Sentence, now);
  }

  lemma SkipThenTypeOn(t: string, now: int)
    requires |t| == 43 && t[0] != ' ' && t[1] != ' ' && t[2] != ' ' && t[3] == ' ' && t[4] == 'q'
    ensures var s1 := Inserted(InitialState(t, NoOptions), Some(' '), now);
      var s2 := Inserted(s1, Some('q'), now);
      s1.currIndex == 3 && s1.correctChar == 0 && s1.keystrokes == 0
      && s2.currIndex == 4 && s2.charsState[4] == Correct && s2.correctChar == 1
      && s2.errorChar == 0 && s2.currChar == Char('q') && s2.phase == Started
      && s2.endTime == None
      && forall i :: 0 <= i < 43 && i != 4 ==> s2.charsState[i] == Incomplete
  {
    var s0 := InitialState(t, NoOptions);
    assert FindFrom(t, ' ', 3) == 3;
    assert FindFrom(t, ' ', 0) == 3;
    InsertWordSkip(s0, now);
    var s1 := Inserted(s0, Some(' '), now);
    InsertPhaseAndTimes(s1, Some('q'), now);
    InsertMatch(s1, now);
  }

  /** Without word skip the same keys are two mistakes on slots 0 and 1. */
  lemma NoSkipThenType(now: int)
    ensures var s0 := Fresh(PartialOptions(Some(false), None, None));
      var s2 := Inserted(Inserted(s0, Some(' '), now), Some('q'), now);
      s2.charsState[0] == Incorrect && s2.charsState[1] == Incorrect
      && s2.correctChar == 0 && s2.errorChar == 2 && s2.currIndex == 1
      && s2.currChar == Char('h') && s2.phase == Started
  {
    SentenceFacts();
    NoSkipThenTypeOn(Sentence, now);
  }

  lemma NoSkipThenTypeOn(t: string, now: int)
    requires |t| == 43 && t[0] == 'T' && t[1] == 'h'
    ensures var s0 := InitialState(t, PartialOptions(Some(false), None, None));
      var s2 := Inserted(Inserted(s0, Some(' '), now), Some('q'), now);
      s2.charsState[0] == Incorrect && s2.charsState[1] == Incorrect
      && s2.correctChar == 0 && s2.errorChar == 2 && s2.currIndex == 1
      && s2.currChar == Char('h') && s2.phase == Started
  {
    var s0 := InitialState(t, PartialOptions(Some(false), None, None));
    InitialValid(t, PartialOptions(Some(false), None, None));
    InsertMismatch(s0, ' ', now);
    InsertPhaseAndTimes(s0, Some(' '), now);
    var s1 := Inserted(s0, Some(' '), now);
    InsertMismatch(s1, 'q', now);
    InsertPhaseAndTimes(s1, Some('q'), now);
  }

  /** With pause-on-error a wrong first letter is marked and counted but the
      cursor stays at -1. */
  lemma PauseOnError(now: int)
    ensures var r := Inserted(Fresh(PartialOptions(None, Some(true), None)), Some('q'), now);
      r.charsState[0] == Incorrect && r.errorChar == 1 && r.correctChar == 0
      && r.currIndex == -1 && r.currChar == Blank && r.phase == Started
  {
    var s0 := Fresh(PartialOptions(None, Some(true), None));
    InsertMismatch(s0, 'q', now);
    InsertPhaseAndTimes(s0, Some('q'), now);
  }

  /** With pause-on-error and 'once', correcting the paused slot retracts its
      error. */
  lemma PausedErrorRetracted(now: int)
    ensures var s0 := Fresh(PartialOptions(None, Some(true), Some(Once)));
      var r := Inserted(Inserted(s0, Some('X'), now), Some('T'), now);
      r.errorChar == 0 && r.correctChar == 1 && r.currIndex == 0 && r.charsState[0] == Correct
  {
    var s0 := Fresh(PartialOptions(None, Some(true), Some(Once)));
    InsertMismatch(s0, 'X', now);
    InsertPhaseAndTimes(s0, Some('X'), now);
    var s1 := Inserted(s0, Some('X'), now);
    InsertMatch(s1, now);
  }

  /** A wrong letter deleted again: the marks are clear and the cursor back at
      -1, but under the default 'everytime' the error stays counted. */
  lemma MistypeThenDelete(now: int)
    ensures var r := Deleted(Inserted(Fresh(NoOptions), Some('Q'), now), false);
      (forall i :: 0 <= i < 43 ==> r.charsState[i] == Incomplete)
      && r.correctChar == 0 && r.errorChar == 1 && r.currIndex == -1
      && r.currChar == Blank && r.phase == Started
  {
    var s0 := Fresh(NoOptions);
    InsertMismatch(s0, 'Q', now);
    InsertPhaseAndTimes(s0, Some('Q'), now);
    DeleteSingle(Inserted(s0, Some('Q'), now));
  }

  /** "T", "H", "W" then a whole-word delete: every mark is cleared and the
      cursor is back at -1; the two mistakes stay counted under 'everytime'. */
  lemma TypeThreeThenDeleteWord(nows: seq<int>)
    requires |nows| == 3
    ensures var s3 := Properties.Run(Fresh(NoOptions), "THW", nows);
      var r := Deleted(s3, true);
      (forall i :: 0 <= i < 43 ==> r.charsState[i] == Incomplete)
      && r.correctChar == 0 && r.errorChar == 2 && r.currIndex == -1
      && r.currChar == Blank && r.phase == Started
  {
    SentenceFacts();
    TypeThreeOn(Sentence, nows);
    DeleteWordOn(Sentence, Properties.Run(Fresh(NoOptions), "THW", nows));
  }

  /** The first three keys "THW" on a text starting "The". */
  lemma TypeThreeOn(t: string, nows: seq<int>)
    requires |t| == 43 && t[0] == 'T' && t[1] == 'h' && t[2] == 'e' && |nows| == 3
    ensures var s3 := Properties.Run(InitialState(t, NoOptions), "THW", nows);
      Shaped(s3) && s3.chars == t && s3.phase == Started && s3.currIndex == 2
      && s3.correctChar == 1 && s3.errorChar == 2 && s3.options.countErrors == Everytime
      && forall i :: 0 <= i < 43 ==>
           s3.charsState[i] == if i == 0 then Correct else if i < 3 then Incorrect else Incomplete
  {
    var s0 := InitialState(t, NoOptions);
    InitialValid(t, NoOptions);
    InsertMatch(s0, nows[0]);
    InsertPhaseAndTimes(s0, Some('T'), nows[0]);
    var s1 := Inserted(s0, Some('T'), nows[0]);
    InsertMismatch(s1, 'H', nows[1]);
    InsertPhaseAndTimes(s1, Some('H'), nows[1]);
    var s2 := Inserted(s1, Some('H'), nows[1]);
    InsertMismatch(s2, 'W', nows[2]);
    InsertPhaseAndTimes(s2, Some('W'), nows[2]);
    var s3 := Inserted(s2, Some('W'), nows[2]);
    assert "THW"[1..] == "HW" && "HW"[1..] == "W" && "W"[1..] == "";
    assert nows[1..][0] == nows[1] && nows[1..][1..][0] == nows[2] && nows[1..][1..][1..] == [];
    assert Properties.Run(s0, "THW", nows) == s3;
  }

  /** A whole-word delete from slot 2 of a text whose first three letters hold
      no space clears everything typed. */
  lemma DeleteWordOn(t: string, s3: State)
    requires |t| == 43 && t[0] != ' ' && t[1] != ' ' && t[2] != ' '
    requires Shaped(s3) && s3.chars == t && s3.phase == Started && s3.currIndex == 2
    requires s3.correctChar == 1 && s3.errorChar == 2 && s3.options.countErrors == Everytime
    requires forall i :: 0 <= i < 43 ==>
               s3.charsState[i] == if i == 0 then Correct else if i < 3 then Incorrect else Incomplete
    ensures var r := Deleted(s3, true);
      (forall i :: 0 <= i < 43 ==> r.charsState[i] == Incomplete)
      && r.correctChar == 0 && r.errorChar == 2 && r.currIndex == -1
      && r.currChar == Blank && r.phase == Started
  {
    var gone := s3.charsState[0..3];
    assert gone == [Correct, Incorrect, Incorrect];
    assert Count(gone, Correct) == 1 by {
      assert gone[1..] == [Incorrect, Incorrect] && gone[1..][1..] == [Incorrect];
      assert gone[1..][1..][1..] == [];
      assert Count(gone[1..][1..], Correct) == 0;
    }
    DeleteWord(s3);
  }

  /** Reset after typing 'T' gives the initial state back (keystrokes aside). */
  lemma ResetAfterT(now: int)
    ensures Reset.Reset(Inserted(Fresh(NoOptions), Some('T'), now)).(keystrokes := 0)
         == Fresh(NoOptions)
  {
    ResetAfterInsertIsInitial(Sentence, NoOptions, Some('T'), now);
  }

  /** Ending after typing 'T' sets the phase to Ended. */
  lemma EndAfterT(t0: int, t1: int)
    ensures End.End(Inserted(Fresh(NoOptions), Some('T'), t0), t1).phase == Ended
  {
  }
}
