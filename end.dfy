// The end reducer (src/Actions/end.ts).

module End {
  import opened Types
  import opened Session

  /** The state after ending at time `now`: phase Ended from any phase, end time
      `now` (overwriting an earlier one), everything else unchanged. */
  function End(s: State, now: int): (r: State)
    ensures r.phase == Ended && r.endTime == Some(now)
    ensures r.(phase := s.phase, endTime := s.endTime) == s
  {
    s.(phase := Ended, endTime := Some(now))
  }

  /** Ending twice is ending once at the later time. */
  lemma EndIdempotent(s: State, t1: int, t2: int)
    ensures End(End(s, t1), t2) == End(s, t2)
  {
  }

  lemma EndPreservesValid(s: State, now: int)
    requires Valid(s)
    ensures Valid(End(s, now))
  {
  }
}
