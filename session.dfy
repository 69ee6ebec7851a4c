// The invariants a typing session keeps, and the counting facts the
// transitions need to preserve them.

module Session {
  import opened Types
  import opened JsText

  /** Number of slots of `cs` holding the mark `m`. */
  function Count(cs: seq<CharState>, m: CharState): (n: nat)
    ensures n <= |cs|
  {
    if cs == [] then 0 else (if cs[0] == m then 1 else 0) + Count(cs[1..], m)
  }

  /** `new Array(n).fill(v)`. */
  function Fill(n: nat, v: CharState): (r: seq<CharState>)
    ensures |r| == n
    ensures forall i :: 0 <= i < n ==> r[i] == v
  {
    seq(n, _ => v)
  }

  /** `cs` with the slots of `[lo, hi)` reset to Incomplete. */
  function Cleared(cs: seq<CharState>, lo: int, hi: int): (r: seq<CharState>)
    requires 0 <= lo <= hi <= |cs|
    ensures |r| == |cs|
    ensures forall i :: 0 <= i < |cs| ==> r[i] == if lo <= i < hi then Incomplete else cs[i]
  {
    seq(|cs|, k requires 0 <= k < |cs| => if lo <= k < hi then Incomplete else cs[k])
  }

  /** Clearing one more slot just below a cleared range. */
  lemma ClearedStep(cs: seq<CharState>, i: int, hi: int)
    requires 0 <= i < hi <= |cs|
    ensures Cleared(cs, i + 1, hi)[i := Incomplete] == Cleared(cs, i, hi)
  {
    var a, b := Cleared(cs, i + 1, hi)[i := Incomplete], Cleared(cs, i, hi);
    assert forall k :: 0 <= k < |cs| ==> a[k] == b[k];
  }

  /** Clearing an empty range changes nothing. */
  lemma ClearedNone(cs: seq<CharState>, hi: int)
    requires 0 <= hi <= |cs|
    ensures Cleared(cs, hi, hi) == cs
  {
    assert forall k :: 0 <= k < |cs| ==> Cleared(cs, hi, hi)[k] == cs[k];
  }

  /** The shape every reducer relies on: a non-empty text, one mark per
      character, `length` in agreement, and a cursor that leaves room for the
      next slot until the session ends. */
  predicate Shaped(s: State)
  {
    |s.chars| >= 1 && |s.charsState| == |s.chars| == s.length
    && -1 <= s.currIndex < s.length
    && (s.phase != Ended ==> s.currIndex <= s.length - 2)
  }

  /** While the session runs, no slot after the cursor is Correct, and without
      pause-on-error every such slot is still Incomplete. */
  predicate AheadClear(s: State)
    requires Shaped(s)
  {
    s.phase != Ended ==>
      forall i :: s.currIndex < i < |s.charsState| ==>
        s.charsState[i] != Correct && (s.options.pauseOnError || s.charsState[i] == Incomplete)
  }

  /** `currChar` is the character under the cursor, except after a review seek
      to -1, which stores `undefined`. */
  predicate CurrCharAgrees(s: State)
  {
    s.currChar == CharShown(s.chars, s.currIndex)
    || (s.phase == Ended && s.currIndex == -1 && s.currChar == Undefined)
  }

  /** The session invariant: the counters are the running tallies of the marks
      (exactly under 'once', a lower bound under 'everytime'), every counted
      mark came with a keystroke, and a started (ended) session has a start
      (end) time. */
  predicate Valid(s: State)
  {
    Shaped(s)
    && s.correctChar == Count(s.charsState, Correct)
    && (s.options.countErrors == Once ==> s.errorChar == Count(s.charsState, Incorrect))
    && (s.options.countErrors == Everytime ==> s.errorChar >= Count(s.charsState, Incorrect))
    && s.correctChar + s.errorChar <= s.keystrokes
    && AheadClear(s)
    && CurrCharAgrees(s)
    && (s.phase == Started ==> s.startTime.Some?)
    && (s.phase == Ended ==> s.endTime.Some?)
  }

  lemma {:induction false} CountAppend(a: seq<CharState>, b: seq<CharState>, m: CharState)
    ensures Count(a + b, m) == Count(a, m) + Count(b, m)
  {
    if a == [] {
      assert a + b == b;
    } else {
      assert (a + b)[1..] == a[1..] + b;
      CountAppend(a[1..], b, m);
    }
  }

  /** The tally of a slice is its first slot's mark plus the rest's tally. */
  lemma CountFront(cs: seq<CharState>, i: int, j: int, m: CharState)
    requires 0 <= i < j <= |cs|
    ensures Count(cs[i..j], m) == (if cs[i] == m then 1 else 0) + Count(cs[i + 1..j], m)
  {
    assert cs[i..j][1..] == cs[i + 1..j];
  }

  /** Writing `v` into slot `i` moves the tally of `m` by at most one. */
  lemma CountUpdate(cs: seq<CharState>, i: int, v: CharState, m: CharState)
    requires 0 <= i < |cs|
    ensures Count(cs[i := v], m)
         == Count(cs, m) - (if cs[i] == m then 1 else 0) + (if v == m then 1 else 0)
  {
    assert cs == cs[..i] + [cs[i]] + cs[i+1..];
    assert cs[i := v] == cs[..i] + [v] + cs[i+1..];
    CountAppend(cs[..i] + [cs[i]], cs[i+1..], m);
    CountAppend(cs[..i], [cs[i]], m);
    CountAppend(cs[..i] + [v], cs[i+1..], m);
    CountAppend(cs[..i], [v], m);
  }

  lemma {:induction false} CountFill(n: nat, v: CharState, m: CharState)
    ensures Count(Fill(n, v), m) == if v == m then n else 0
  {
    if n > 0 {
      assert Fill(n, v)[1..] == Fill(n - 1, v);
      CountFill(n - 1, v, m);
    }
  }

  /** Clearing a range takes exactly that range's marks out of the tally. */
  lemma CountCleared(cs: seq<CharState>, lo: int, hi: int, m: CharState)
    requires 0 <= lo <= hi <= |cs|
    requires m != Incomplete
    ensures Count(Cleared(cs, lo, hi), m) == Count(cs, m) - Count(cs[lo..hi], m)
  {
    assert cs == cs[..lo] + cs[lo..hi] + cs[hi..];
    assert Cleared(cs, lo, hi) == cs[..lo] + Fill(hi - lo, Incomplete) + cs[hi..];
    CountAppend(cs[..lo] + cs[lo..hi], cs[hi..], m);
    CountAppend(cs[..lo], cs[lo..hi], m);
    CountAppend(cs[..lo] + Fill(hi - lo, Incomplete), cs[hi..], m);
    CountAppend(cs[..lo], Fill(hi - lo, Incomplete), m);
    CountFill(hi - lo, Incomplete, m);
  }
}
