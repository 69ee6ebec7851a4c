// The hook (src/index.ts): the reducer's dispatch, the initial state, the
// duration query and the actions the hook hands out, with the one state slot
// the hook owns modelled as a class field.

module Hook {
  import opened Types
  import opened Session
  import TypingInsert
  import TypingDelete
  import SetCurrentIndex
  import Reset
  import End

  /** The reducer: every action tag goes to its handler; the text-change action
      replaces the state; any other tag leaves it unchanged. */
  function Reduce(s: State, action: Action, now: int): (r: State)
    requires action.InsertCmd? || action.DeleteCmd? ==> Shaped(s)
    ensures action.ReplaceCmd? ==> r == action.payload
    ensures action.UnknownCmd? ==> r == s
  {
    match action
    case SeekCmd(index) => SetCurrentIndex.Seek(s, index)
    case ResetCmd => Reset.Reset(s)
    case EndCmd => End.End(s, now)
    case InsertCmd(letter) => TypingInsert.Inserted(s, letter, now)
    case DeleteCmd(deleteWord) => TypingDelete.Deleted(s, deleteWord)
    case ReplaceCmd(payload) => payload
    case UnknownCmd(_) => s
  }

  /** An option the caller gave, or its default. */
  function Or<T>(o: Option<T>, default: T): (v: T)
    ensures o.Some? ==> v == o.value
    ensures o.None? ==> v == default
  {
    match o
    case Some(v) => v
    case None => default
  }

  /** The state the hook starts from: all marks Incomplete, cursor -1, not
      started, no times; each option the caller gives overrides its default
      (skip on space, no pause, count every error). */
  function InitialState(text: string, options: PartialOptions): (r: State)
    ensures r.chars == text && r.length == |text| && |r.charsState| == |text|
    ensures forall i :: 0 <= i < |text| ==> r.charsState[i] == Incomplete
    ensures r.currIndex == -1 && r.currChar == Blank && r.phase == NotStarted
    ensures r.correctChar == 0 && r.errorChar == 0 && r.keystrokes == 0
    ensures r.startTime == None && r.endTime == None
    ensures r.options.skipCurrentWordOnSpace == (options.skipCurrentWordOnSpace != Some(false))
    ensures r.options.pauseOnError == (options.pauseOnError == Some(true))
    ensures r.options.countErrors == Once <==> options.countErrors == Some(Once)
  {
    State(
      chars := text,
      charsState := Fill(|text|, Incomplete),
      length := |text|,
      currIndex := -1,
      currChar := Blank,
      correctChar := 0,
      errorChar := 0,
      keystrokes := 0,
      phase := NotStarted,
      startTime := None,
      endTime := None,
      options := Options(
        Or(options.skipCurrentWordOnSpace, true),
        Or(options.pauseOnError, false),
        Or(options.countErrors, Everytime)))
  }

  /** JavaScript truthiness of a time: null and 0 are falsy. */
  predicate Truthy(t: Option<int>)
  {
    t.Some? && t.value != 0
  }

  /** `getDuration` read at time `now`. */
  function Duration(s: State, now: int): (d: int)
    ensures s.phase == NotStarted ==> d == 0
    ensures s.phase == Started ==> d == if Truthy(s.startTime) then now - s.startTime.value else 0
    ensures s.phase == Ended && Truthy(s.startTime) && Truthy(s.endTime) ==> d == s.endTime.value - s.startTime.value
    ensures s.phase == Ended && !(Truthy(s.startTime) && Truthy(s.endTime)) ==> d == 0
  {
    match s.phase
    case NotStarted => 0
    case Started => if Truthy(s.startTime) then now - s.startTime.value else 0
    case Ended =>
      if Truthy(s.startTime) && Truthy(s.endTime) then s.endTime.value - s.startTime.value else 0
  }

  /** `insertTyping`'s payload: null for a missing or empty letter, otherwise
      its first character. */
  function InsertPayload(letter: Option<string>): (p: Option<char>)
    ensures p.None? <==> letter.None? || letter.value == ""
    ensures p.Some? ==> letter.Some? && p.value == letter.value[0]
  {
    match letter
    case None => None
    case Some(t) => if t == "" then None else Some(t[0])
  }

  /** `deleteTyping`'s payload: whole-word only when asked for explicitly. */
  function DeletePayload(deleteWord: Option<bool>): (w: bool)
    ensures w <==> deleteWord == Some(true)
  {
    match deleteWord
    case None => false
    case Some(b) => b || false
  }

  /** `setCurrIndex`'s gate: an index from -1 to length-1, in an ended session. */
  predicate SeekGate(s: State, num: int)
  {
    !(num < -1 || num >= s.length || s.phase != Ended)
  }

  /** The phase as the source numbers it. */
  function Rank(p: Phase): int
  {
    match p
    case NotStarted => 0
    case Started => 1
    case Ended => 2
  }

  /** A fresh session over a non-empty text satisfies the invariant. */
  lemma InitialValid(text: string, options: PartialOptions)
    requires |text| >= 1
    ensures Valid(InitialState(text, options))
  {
    CountFill(|text|, Incomplete, Correct);
    CountFill(|text|, Incomplete, Incorrect);
  }

  /** Every action the hook can dispatch keeps the invariant: seeks only in an
      ended session, replacements only by a valid state. */
  lemma ReducePreservesValid(s: State, action: Action, now: int)
    requires Valid(s)
    requires action.SeekCmd? ==> s.phase == Ended
    requires action.ReplaceCmd? ==> Valid(action.payload)
    ensures Valid(Reduce(s, action, now))
  {
    match action
    case SeekCmd(index) => SetCurrentIndex.SeekPreservesValid(s, index);
    case ResetCmd => Reset.ResetValid(s);
    case EndCmd => End.EndPreservesValid(s, now);
    case InsertCmd(letter) => TypingInsert.InsertPreservesValid(s, letter, now);
    case DeleteCmd(deleteWord) => TypingDelete.DeletePreservesValid(s, deleteWord);
    case ReplaceCmd(_) =>
    case UnknownCmd(_) =>
  }

  /** The phase never moves backward except by a reset or a replacement. */
  lemma PhaseMonotonic(s: State, action: Action, now: int)
    requires Shaped(s)
    requires !action.ResetCmd? && !action.ReplaceCmd?
    ensures Rank(Reduce(s, action, now).phase) >= Rank(s.phase)
  {
    if action.InsertCmd? && s.phase != Ended {
      TypingInsert.InsertPhaseAndTimes(s, action.letter, now);
    }
  }

  /** The gate lets 0 through, but the reducer treats the payload 0 as falsy,
      so `setCurrIndex(0)` reports success and changes nothing. */
  lemma GateAcceptsZeroUnheeded(s: State)
    requires s.phase == Ended && s.length >= 1
    ensures SeekGate(s, 0) && Reduce(s, SeekCmd(0), 0) == s
  {
  }

  /** Reset after the first insert gives back the initial state, apart from
      `keystrokes`, which reset keeps. */
  lemma ResetAfterInsertIsInitial(text: string, options: PartialOptions, letter: Option<char>, now: int)
    requires |text| >= 1
    ensures var s0 := InitialState(text, options);
      var r := Reset.Reset(TypingInsert.Inserted(s0, letter, now));
      r.(keystrokes := 0) == s0
  {
    var s0 := InitialState(text, options);
    assert Fill(|text|, Incomplete) == s0.charsState;
  }

  /** A session started at `t0`: while it runs the duration is the time since
      `t0`; once ended at `t1` it is `t1 - t0`. A zero time reads as absent. */
  lemma DurationOfSession(s: State, letter: Option<char>, t0: int, now: int, t1: int)
    requires Shaped(s) && s.phase == NotStarted && t0 != 0 && t1 != 0
    ensures var r := TypingInsert.Inserted(s, letter, t0);
      Duration(r, now) == (if r.phase == Ended then 0 else now - t0)
      && Duration(End.End(r, t1), now) == t1 - t0
  {
    TypingInsert.InsertPhaseAndTimes(s, letter, t0);
  }

  /** The hook: one state slot, updated by dispatching actions. */
  class TypingGame {
    var states: State

    ghost predicate Valid()
      reads this
    {
      Session.Valid(states)
    }

    constructor(text: string, options: PartialOptions)
      requires |text| >= 1
      ensures Valid() && states == InitialState(text, options)
    {
      states := InitialState(text, options);
      InitialValid(text, options);
    }

    /** `dispatch`: apply the reducer to the slot. */
    method Dispatch(action: Action, now: int)
      requires action.InsertCmd? || action.DeleteCmd? ==> Shaped(states)
      modifies this
      ensures states == Reduce(old(states), action, now)
    {
      match action
      case InsertCmd(letter) =>
        states := TypingInsert.Insert(states, letter, now);
      case DeleteCmd(deleteWord) =>
        states := TypingDelete.Delete(states, deleteWord);
      case _ =>
        states := Reduce(states, action, now);
    }

    method ResetTyping()
      requires Valid()
      modifies this
      ensures Valid() && states == Reset.Reset(old(states))
    {
      ReducePreservesValid(states, ResetCmd, 0);
      Dispatch(ResetCmd, 0);
    }

    method EndTyping(now: int)
      requires Valid()
      modifies this
      ensures Valid() && states == End.End(old(states), now)
    {
      ReducePreservesValid(states, EndCmd, now);
      Dispatch(EndCmd, now);
    }

    method InsertTyping(letter: Option<string>, now: int)
      requires Valid()
      modifies this
      ensures Valid() && states == TypingInsert.Inserted(old(states), InsertPayload(letter), now)
    {
      var payload := InsertPayload(letter);
      ReducePreservesValid(states, InsertCmd(payload), now);
      Dispatch(InsertCmd(payload), now);
    }

    method DeleteTyping(deleteWord: Option<bool>)
      requires Valid()
      modifies this
      ensures Valid() && states == TypingDelete.Deleted(old(states), DeletePayload(deleteWord))
    {
      var payload := DeletePayload(deleteWord);
      ReducePreservesValid(states, DeleteCmd(payload), 0);
      Dispatch(DeleteCmd(payload), 0);
    }

    /** `setCurrIndex`: refuse (returning false) outside the gate, otherwise
      dispatch the seek and report true. */
    method SetCurrIndex(num: int) returns (ok: bool)
      requires Valid()
      modifies this
      ensures Valid()
      ensures ok == SeekGate(old(states), num)
      ensures states == if ok then SetCurrentIndex.Seek(old(states), num) else old(states)
    {
      if num < -1 || num >= states.length || states.phase != Ended {
        return false;
      }
      ReducePreservesValid(states, SeekCmd(num), 0);
      Dispatch(SeekCmd(num), 0);
      return true;
    }

    /** `getDuration`: the elapsed time of a running session, the length of an
        ended one, 0 before the start or when a time is missing or 0. */
    function GetDuration(now: int): (d: int)
      reads this
      ensures states.phase == Started && Truthy(states.startTime) ==> d == now - states.startTime.value
      ensures (states.phase == Ended && Truthy(states.startTime) && Truthy(states.endTime))
                ==> d == states.endTime.value - states.startTime.value
      ensures (!(states.phase == Started && Truthy(states.startTime))
               && !(states.phase == Ended && Truthy(states.startTime) && Truthy(states.endTime)))
                ==> d == 0
    {
      Duration(states, now)
    }
  }
}
