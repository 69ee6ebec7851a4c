// The seek reducer (src/Actions/setCurrentIndex.ts): move the cursor only.

module SetCurrentIndex {
  import opened Types
  import opened JsText
  import opened Session

  /** The reducer's guard `payload && payload >= -1 && payload < length`: the
      payload 0 is falsy in JavaScript, so it is refused. */
  predicate Accepts(s: State, payload: int)
  {
    payload != 0 && -1 <= payload < s.length
  }

  /** The state after seeking to `payload`: on an accepted payload the cursor
      and `currChar` (the raw `chars[payload]`) change and nothing else does;
      any other payload leaves the state as it was. */
  function Seek(s: State, payload: int): (r: State)
    ensures r.currIndex == if Accepts(s, payload) then payload else s.currIndex
    ensures r.currChar == if Accepts(s, payload) then CharAt(s.chars, payload) else s.currChar
    ensures r.(currIndex := s.currIndex, currChar := s.currChar) == s
  {
    if Accepts(s, payload) then s.(currIndex := payload, currChar := CharAt(s.chars, payload))
    else s
  }

  /** Seeking to -1 stores `undefined` in `currChar`, not the empty string the
      insert and delete reducers store at -1. */
  lemma SeekMinusOneUndefined(s: State)
    requires s.length >= 0
    ensures Seek(s, -1).currIndex == -1 && Seek(s, -1).currChar == Undefined
  {
  }

  /** Seeking again to the same place changes nothing. */
  lemma SeekIdempotent(s: State, payload: int)
    ensures Seek(Seek(s, payload), payload) == Seek(s, payload)
  {
  }

  /** A seek in an ended session (the only kind the hook allows) keeps the
      session invariant. */
  lemma SeekPreservesValid(s: State, payload: int)
    requires Valid(s) && s.phase == Ended
    ensures Valid(Seek(s, payload))
  {
  }
}
