// The JavaScript string operations the reducers rely on, with the argument
// clamping that the language applies.

module JsText {
  import opened Types

  /** `t[i]`: the character at `i`, or `undefined` outside the string. */
  function CharAt(t: string, i: int): (r: CurrChar)
    ensures r.Char? <==> 0 <= i < |t|
    ensures r.Char? ==> r.c == t[i]
    ensures !r.Char? ==> r == Undefined
  {
    if 0 <= i < |t| then Char(t[i]) else Undefined
  }

  /** `i >= 0 ? t[i] : ''`: the `currChar` the insert and delete reducers store. */
  function CharShown(t: string, i: int): (r: CurrChar)
    ensures i < 0 ==> r == Blank
    ensures 0 <= i < |t| ==> r == Char(t[i])
  {
    if i >= 0 then CharAt(t, i) else Blank
  }

  /** The start position `indexOf` uses: a negative position counts as 0. */
  function SearchStart(from: int): nat
  {
    if from < 0 then 0 else from
  }

  /** `t.indexOf(c, from)`: the first index at or after `SearchStart(from)`
      holding `c`, or -1 when there is none. */
  function IndexOf(t: string, c: char, from: int): (r: int)
    ensures -1 <= r < |t|
    ensures r == -1 <==> forall i :: SearchStart(from) <= i < |t| ==> t[i] != c
    ensures r != -1 ==> SearchStart(from) <= r && t[r] == c
    ensures forall i :: SearchStart(from) <= i < r ==> t[i] != c
  {
    FindFrom(t, c, SearchStart(from))
  }

  function FindFrom(t: string, c: char, i: nat): (r: int)
    ensures -1 <= r < |t|
    ensures r == -1 <==> forall k :: i <= k < |t| ==> t[k] != c
    ensures r != -1 ==> i <= r && t[r] == c
    ensures forall k :: i <= k < r ==> t[k] != c
    decreases |t| - i
  {
    if i >= |t| then -1
    else if t[i] == c then i
    else FindFrom(t, c, i + 1)
  }

  /** The last position `lastIndexOf` may report: `from` clamped to the string. */
  function BackStart(t: string, from: int): int
  {
    if from < 0 then 0 else if from >= |t| then |t| - 1 else from
  }

  /** `t.lastIndexOf(c, from)`: the last index at or before `BackStart(t, from)`
      holding `c`, or -1 when there is none. */
  function LastIndexOf(t: string, c: char, from: int): (r: int)
    ensures -1 <= r < |t|
    ensures r <= BackStart(t, from)
    ensures r == -1 <==> forall i :: 0 <= i <= BackStart(t, from) && i < |t| ==> t[i] != c
    ensures r != -1 ==> t[r] == c
    ensures forall i :: r < i <= BackStart(t, from) && 0 <= i < |t| ==> t[i] != c
  {
    FindBack(t, c, if |t| == 0 then -1 else BackStart(t, from))
  }

  function FindBack(t: string, c: char, i: int): (r: int)
    requires -1 <= i < |t|
    ensures -1 <= r <= i
    ensures r == -1 <==> forall k :: 0 <= k <= i ==> t[k] != c
    ensures r != -1 ==> t[r] == c
    ensures forall k :: r < k <= i ==> t[k] != c
    decreases i + 1
  {
    if i < 0 then -1
    else if t[i] == c then i
    else FindBack(t, c, i - 1)
  }
}
