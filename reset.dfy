// The reset reducer (src/Actions/reset.ts).

module Reset {
  import opened Types
  import opened Session

  /** The state after a reset: no marks, cursor -1, zero counters, not started,
      no times; the text, the options and `keystrokes` (which the reducer does
      not list) are kept. */
  function Reset(s: State): (r: State)
    ensures r.chars == s.chars && r.length == s.length && r.options == s.options
    ensures r.keystrokes == s.keystrokes
    ensures |r.charsState| == |s.chars|
    ensures forall i :: 0 <= i < |r.charsState| ==> r.charsState[i] == Incomplete
    ensures r.currIndex == -1 && r.currChar == Blank
    ensures r.correctChar == 0 && r.errorChar == 0
    ensures r.phase == NotStarted && r.startTime == None && r.endTime == None
  {
    s.(startTime := None, endTime := None, charsState := Fill(|s.chars|, Incomplete),
       currIndex := -1, currChar := Blank, correctChar := 0, errorChar := 0,
       phase := NotStarted)
  }

  lemma ResetIdempotent(s: State)
    ensures Reset(Reset(s)) == Reset(s)
  {
  }

  /** The result does not depend on progress: two states with the same text,
      length, options and keystrokes reset to the same state. */
  lemma ResetForgetsProgress(s: State, t: State)
    requires s.chars == t.chars && s.length == t.length && s.options == t.options
    requires s.keystrokes == t.keystrokes
    ensures Reset(s) == Reset(t)
  {
  }

  /** A reset session satisfies the invariant whenever its text is non-empty
      and described by `length`. */
  lemma ResetValid(s: State)
    requires |s.chars| >= 1 && s.length == |s.chars| && s.keystrokes >= 0
    ensures Valid(Reset(s))
  {
    CountFill(|s.chars|, Incomplete, Correct);
    CountFill(|s.chars|, Incomplete, Incorrect);
  }
}
