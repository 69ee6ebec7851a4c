# Typing-session reducer of react-typing-game-hook, in Dafny

`useTypingGame(text, options)` keeps one typing session: the text, one mark per
character (0 incomplete, 1 correct, 2 incorrect), a cursor `currIndex` on the
last committed character (-1 before the first), the character under it
(`currChar`), the running counters `correctChar`, `errorChar` and
`keystrokes`, a phase (0 not started, 1 started, 2 ended), start and end
times, and three options: skip the current word on space, pause on error, and
count errors every time or once per slot. Every change goes through one
reducer, which dispatches to five actions: insert a letter, delete a letter
or a word, seek the cursor, reset and end.

The model follows the source file by file:

- `types.dfy` holds the state record, phases, marks, options, the optional
  values and the reducer's actions. The action that replaces the state after
  the text changes is `ReplaceCmd`, and tags the reducer does not know are
  `UnknownCmd`.
- `js_text.dfy` holds the JavaScript string operations the reducers use:
  `t[i]`, with `undefined` outside the string, and `indexOf`,
  `lastIndexOf` with their clamping of the start position.
- `session.dfy` holds the tally of marks and the range clear. It also holds
  `Shaped`, the shape every reducer relies on, and `Valid`, the session
  invariant: the counters tally the marks; while the session runs no slot
  ahead of the cursor is Correct, and without pause-on-error every such slot
  is still Incomplete; `currChar` is the character under the cursor, except
  after a seek to -1 in an ended session, which stores `undefined`; a
  running session has a start time and an ended one has an end time (an
  ended session need not have a start time, since a session can be ended
  before it starts).
- `typing_insert.dfy` and `typing_delete.dfy` model the two reducers that
  work step by step. Each has a specification function (`Inserted`,
  `Deleted`) and a method written as the source writes it (`Insert`,
  `Delete`, with the downward clearing loop). Each method is proved equal to
  its function, and the function's properties are proved as lemmas.
- `set_current_index.dfy`, `reset.dfy` and `end.dfy` model the three
  reducers that build a record in one step, as functions.
- `hook.dfy` models the reducer's dispatch, the initial state, `getDuration`
  and the payload normalisation of the hook's actions. It also holds the hook
  itself as a class `TypingGame`, whose one field `states` is updated by
  `Dispatch`.
- `properties.dfy` relates several transitions: a delete undoing an insert,
  and whole typing runs over a text.
- `test_sentence.dfy` states what the repository's hook tests check, on their
  sentence "The quick brown fox jumps over the lazy dog".

The clock is a parameter `now` of the insert and end transitions and of the
duration query. Times are `Option<int>`, with `None` for `null`.

Where the repository's tests and its code disagree, the model follows the
code:

- Under the default `countErrors: 'everytime'`, delete never lowers
  `errorChar` (src/Actions/typingDelete.ts:29-33 and 40-44). The tests "should
  update after deleting a character/word" expect 0 afterwards. The model gives
  1 and 2: `TestSentence.MistypeThenDelete`,
  `TestSentence.TypeThreeThenDeleteWord`.
- Under 'once', delete takes the deleted Incorrect marks out of `errorChar`.
  So after a wrong letter, a delete restores both counters only under 'once'
  (`Properties.DeleteUndoesInsert`, `Properties.DeleteKeepsEverytimeError`).
- Reset keeps `keystrokes` (src/Actions/reset.ts lists every other progress
  field). So "can reset" holds only up to `keystrokes`.
- `setCurrIndex(0)` passes the hook's gate and returns true. The reducer then
  treats the payload 0 as falsy and changes nothing
  (`Hook.GateAcceptsZeroUnheeded`).
- A seek to -1 stores `undefined` in `currChar` (`chars[-1]`), not the `''`
  the other reducers store there.
- End overwrites an earlier end time and ends a session that never started.
- Insert sets the start time on the first action of a session, whether it is
  a letter, a null letter or a word skip. It counts a keystroke only for a
  letter that is not a word skip.

## Model

| member | source | states |
|---|---|---|
| JsText.CharAt | src/Actions/setCurrentIndex.ts:16 | `chars[i]` is the character at `i` exactly when `i` is inside the text, and `undefined` otherwise |
| JsText.CharShown | src/Actions/typingInsert.ts:80 | the stored `currChar` is `''` for a negative cursor and the character under the cursor otherwise |
| JsText.IndexOf | src/Actions/typingInsert.ts:41 | -1 exactly when no `c` occurs at or after the start (a negative start counts as 0); otherwise the first such position |
| JsText.LastIndexOf | src/Actions/typingDelete.ts:24 | -1 exactly when no `c` occurs at or before the clamped start; otherwise the last such position |
| TypingInsert.Inserted | src/Actions/typingInsert.ts:26-92 | an insert keeps the shape, the text, its length and the options; it changes no mark other than the slot after the cursor; an ended session is returned unchanged |
| TypingInsert.Insert | src/Actions/typingInsert.ts:4-93 | the reducer as written (locals reassigned branch by branch, record rebuilt) computes exactly `Inserted` |
| TypingInsert.Keystroke | src/Actions/typingInsert.ts:35-74 | the source's letter branch yields the marks, cursor and counters of one step (word skip, null, mismatch or match) |
| TypingInsert.InsertPhaseAndTimes | src/Actions/typingInsert.ts:26-80 | the start time is set exactly when the session had not started; the session ends exactly when the cursor reaches the last slot, and then records the end time; `currChar` follows the cursor |
| TypingInsert.InsertWordSkip | src/Actions/typingInsert.ts:36-42 | a space where none is expected jumps to the first space at or after max(cursor, 0), or to the last slot; marks, counters and keystrokes stay as they were |
| TypingInsert.WordSkipFromSpaceStays | src/Actions/typingInsert.ts:41 | a skip from a cursor on a space finds that same space, so the cursor does not move |
| TypingInsert.InsertMatch | src/Actions/typingInsert.ts:58-70 | the expected letter marks its slot Correct, adds one correct letter and one keystroke, and advances; it retracts an error only for a paused Incorrect slot under 'once' |
| TypingInsert.InsertMismatch | src/Actions/typingInsert.ts:45-57 | a wrong letter marks its slot Incorrect and counts an error, except for a repeat on an Incorrect slot under 'once'; it adds a keystroke and advances unless pause-on-error is set |
| TypingInsert.InsertNull | src/Actions/typingInsert.ts:71-73 | a null letter passes over one slot and changes no mark or counter |
| TypingInsert.InsertPreservesValid | src/Actions/typingInsert.ts:4-93 | every insert keeps the session invariant |
| TypingDelete.WordStart | src/Actions/typingDelete.ts:24-25 | the word ending at the cursor starts just after the last space at or before the cursor, or at 0, and holds no space |
| TypingDelete.Deleted | src/Actions/typingDelete.ts:19-58 | a delete keeps the shape, the text, the phase, the times, the options and the keystrokes; it does nothing unless the session runs with a committed slot; it never raises a counter; under 'everytime' it keeps `errorChar` |
| TypingDelete.Delete | src/Actions/typingDelete.ts:4-59 | the reducer as written computes exactly `Deleted` |
| TypingDelete.ClearDown | src/Actions/typingDelete.ts:26-35 | the downward loop resets every slot from the word start to the cursor and takes exactly their Correct marks (and their Incorrect marks under 'once') out of the counters |
| TypingDelete.ClearOne | src/Actions/typingDelete.ts:37-46 | the single-slot branch clears the cursor's slot with the same accounting |
| TypingDelete.ClearSlot | src/Actions/typingDelete.ts:38-45 | one cleared slot: reset to Incomplete, one correct letter less if it was Correct, one error less if it was Incorrect under 'once' |
| TypingDelete.DeleteSingle | src/Actions/typingDelete.ts:37-49 | a single delete resets the cursor's slot, takes its mark out of the counters (Incorrect under 'once' only) and steps back one slot |
| TypingDelete.DeleteWord | src/Actions/typingDelete.ts:23-36 | a word delete moves the cursor to the last space at or before it (or -1), clears exactly the slots in between and takes their Correct marks out of `correctChar`; under 'once' it takes their Incorrect marks out of `errorChar`, under 'everytime' `errorChar` is kept |
| TypingDelete.DeleteWordOnSpace | src/Actions/typingDelete.ts:24-25 | a word delete with the cursor on a space changes neither marks, counters nor cursor |
| TypingDelete.DeletePreservesValid | src/Actions/typingDelete.ts:19-58 | every delete keeps the session invariant |
| SetCurrentIndex.Seek | src/Actions/setCurrentIndex.ts:9-19 | an accepted payload (not 0, from -1 below `length`) sets the cursor and `currChar` to `chars[payload]`; no other field changes, and any other payload changes nothing |
| SetCurrentIndex.SeekMinusOneUndefined | src/Actions/setCurrentIndex.ts:16 | a seek to -1 stores `undefined` in `currChar` |
| SetCurrentIndex.SeekIdempotent | src/Actions/setCurrentIndex.ts:9-19 | seeking twice to the same place is seeking once |
| SetCurrentIndex.SeekPreservesValid | src/Actions/setCurrentIndex.ts:9-19 | a seek in an ended session keeps the session invariant |
| Reset.Reset | src/Actions/reset.ts:3-17 | a reset clears every mark, puts the cursor at -1 with `currChar` `''`, zeroes both counters, clears both times and returns to not started; it keeps the text, the options and `keystrokes` |
| Reset.ResetIdempotent | src/Actions/reset.ts:3-17 | resetting twice is resetting once |
| Reset.ResetForgetsProgress | src/Actions/reset.ts:3-17 | the result depends only on the text, the length, the options and the keystrokes |
| Reset.ResetValid | src/Actions/reset.ts:3-17 | a reset session over a non-empty text satisfies the invariant |
| End.End | src/Actions/end.ts:3-7 | ending sets the phase to ended and the end time to now, and changes nothing else |
| End.EndIdempotent | src/Actions/end.ts:3-7 | ending twice is ending once at the later time |
| End.EndPreservesValid | src/Actions/end.ts:3-7 | ending keeps the session invariant |
| Hook.Reduce | src/index.ts:18-36 | the text-change action yields its payload; an unknown tag leaves the state unchanged |
| Hook.Or | src/index.ts:63-66 | an option the caller gives overrides its default |
| Hook.InitialState | src/index.ts:51-67 | the initial state has all marks incomplete, cursor -1, `currChar` `''`, zero counters, no times and phase 0; skip-on-space defaults to on, pause-on-error to off, error counting to 'everytime' |
| Hook.Duration | src/index.ts:82-96 | the duration is 0 before the start; while running it is the time since a truthy start time (else 0); once ended it is `endTime - startTime` when both times are truthy, else 0 |
| Hook.InsertPayload | src/index.ts:108-117 | a missing or empty letter becomes null, any other string its first character |
| Hook.DeletePayload | src/index.ts:119-127 | a word is deleted exactly when `true` is passed |
| Hook.InitialValid | src/index.ts:51-67 | the initial state over a non-empty text satisfies the invariant |
| Hook.ReducePreservesValid | src/index.ts:18-36 | every action the hook dispatches keeps the invariant (a seek is dispatched only in an ended session, a replacement only with a valid state) |
| Hook.PhaseMonotonic | src/index.ts:18-36 | apart from a reset or a replacement, no action moves the phase backward |
| Hook.GateAcceptsZeroUnheeded | src/index.ts:129-141 | `setCurrIndex(0)` in an ended session passes the gate, yet the dispatched seek leaves the state unchanged |
| Hook.ResetAfterInsertIsInitial | src/__test__/hook.spec.ts:219-226 | a reset after the first insert gives the initial state back, apart from `keystrokes` |
| Hook.DurationOfSession | src/index.ts:82-96 | for a session started at a non-zero `t0`, the duration while running is the time since `t0`; after ending at a non-zero `t1` it is `t1 - t0` |
| Hook.TypingGame.GetDuration | src/index.ts:82-96 | `getDuration` on the hook's state: the time since the start while running, `endTime - startTime` once ended, 0 before the start or when a time is missing or 0 |
| Hook.TypingGame.constructor | src/index.ts:71-73 | the hook starts from the initial state, which satisfies the invariant |
| Hook.TypingGame.Dispatch | src/index.ts:71-73 | dispatch replaces the state by the reducer's result; insert and delete run the imperative reducers |
| Hook.TypingGame.ResetTyping | src/index.ts:98-101 | `resetTyping` dispatches a reset and keeps the invariant |
| Hook.TypingGame.EndTyping | src/index.ts:103-106 | `endTyping` dispatches an end and keeps the invariant |
| Hook.TypingGame.InsertTyping | src/index.ts:108-117 | `insertTyping` dispatches an insert of the normalised letter and keeps the invariant |
| Hook.TypingGame.DeleteTyping | src/index.ts:119-127 | `deleteTyping` dispatches a delete in the requested mode and keeps the invariant |
| Hook.TypingGame.SetCurrIndex | src/index.ts:129-141 | `setCurrIndex` returns true exactly when the index is from -1 below `length` in an ended session; only then does it dispatch the seek; it keeps the invariant |
| Properties.DeleteUndoesInsert | src/Actions/typingDelete.ts:37-49 | under 'once' without pause, a delete right after an insert that neither skipped a word nor ended the session restores marks, cursor, `currChar` and both counters; the keystroke stays counted |
| Properties.DeleteKeepsEverytimeError | src/Actions/typingDelete.ts:40-44 | under 'everytime' the same delete after a wrong letter leaves one error more than before the insert |
| Properties.Run | src/__test__/hook.spec.ts:132-134 | inserting the letters of a sequence one by one, each at its own clock reading, keeps the shape |
| Properties.TypeWholeText | src/__test__/hook.spec.ts:129-153 | typing any non-empty text correctly from a fresh session marks every slot Correct, counts one correct letter and one keystroke per slot and no errors, and ends on the last slot; the start time is the first keystroke's clock reading and the end time the last one's, so the duration is the time between them when both are non-zero |
| Properties.TypeAllWrong | src/__test__/hook.spec.ts:185-209 | missing every slot (no pause, no word skip) marks every slot Incorrect, counts one error per slot in either counting mode and no correct letter, and ends on the last slot; the start and end times are the first and last keystrokes' clock readings, and the duration is the time between them when both are non-zero |
| TestSentence.Fresh | src/__test__/hook.spec.ts:28-31 | the test sentence's initial state satisfies the invariant |
| TestSentence.TypedCorrectly | src/__test__/hook.spec.ts:129-153 | typing the sentence marks every slot Correct and gives 43 correct, no error, cursor 42 on 'g', ended with both the start and end times set |
| TestSentence.TypedAllWrong | src/__test__/hook.spec.ts:185-209 | a wrong key for every letter gives no correct letter, 43 errors, every slot Incorrect, cursor 42 on 'g', ended with both the start and end times set |
| TestSentence.SkipThenType | src/__test__/hook.spec.ts:237-261 | a leading space skips to the space at 3 without counting; 'q' then marks slot 4 alone Correct, one correct, no error, cursor 4 on 'q', still running |
| TestSentence.NoSkipThenType | src/__test__/hook.spec.ts:263-288 | without word skip the same keys mark slots 0 and 1 Incorrect, two errors, cursor 1 on 'h' |
| TestSentence.PauseOnError | src/__test__/hook.spec.ts:291-314 | with pause-on-error a wrong first letter marks slot 0 Incorrect and counts one error, but the cursor stays at -1 with `currChar` `''` |
| TestSentence.PausedErrorRetracted | src/Actions/typingInsert.ts:59-65 | with pause-on-error and 'once', the right letter on the paused slot retracts its error |
| TestSentence.MistypeThenDelete | src/__test__/hook.spec.ts:79-101 | 'Q' then delete clears every mark and returns the cursor to -1 with `''`; under 'everytime' the error stays counted |
| TestSentence.TypeThreeThenDeleteWord | src/__test__/hook.spec.ts:103-127 | "THW" then a word delete clears every mark, no correct letter, cursor -1 with `''`; both errors stay counted under 'everytime' |
| TestSentence.ResetAfterT | src/__test__/hook.spec.ts:219-226 | reset after 'T' gives the initial state back, apart from `keystrokes` |
| TestSentence.EndAfterT | src/__test__/hook.spec.ts:228-235 | end after 'T' gives the ended phase |

## Left out

- React plumbing: `useMemo`, `useCallback` and `useReducer` are not modelled. The hook is a class with one state field. The `useCallback` dependency list of `getDuration` (src/index.ts:96) names `states.startTime` twice and omits `states.endTime`, so after a second `endTyping()` the source's callback can still return the first `endTime - startTime`; `TypingGame.GetDuration` always reads the current end time.
- The effect that re-dispatches the initial state when the text changes is not modelled. The text-change action itself is (`ReplaceCmd`).
- Clock reads are not modelled: `now` is a parameter. The insert reducer reads the clock twice (start and end); the model uses one reading per dispatch.
- The source's initial state has no `keystrokes` field (the first counted keystroke would make it `NaN`). The model starts it at 0.
- Texts of length 0 are excluded by `Shaped`, which the insert and delete reducers require. On an empty text the source writes past the end of the marks array, which JavaScript grows.
- A seek the gate would refuse, dispatched by hand, can leave a running session with its cursor on the last slot. `Shaped` and `Valid` do not cover such states.
- Options passed explicitly as `undefined` are not modelled: the source's `...options` would overwrite the defaults with `undefined`.
- `insertTyping` is modelled from a string (first character, or null when missing or empty). A direct dispatch of a longer string as a letter is not modelled.
- Strings are modelled as sequences of Unicode scalar values (Dafny `char`), not as JavaScript's UTF-16 code units. Texts and letters with characters outside the Basic Multilingual Plane are not modelled: in the source such a character counts as two slots and `insertTyping` sends only its first code unit.
- The seek index is modelled as an integer. A fractional index (which the source's gate accepts, storing it with `currChar` undefined) and `NaN` (which the gate accepts and the reducer ignores) are not modelled.
- TestSentence.TypedAllWrong: the test types '1' for every letter; the model types '#' (or '%' where the text has '#'). Any key that is never the expected letter nor a space behaves the same, as `Properties.TypeAllWrong` states.
- The test "should end when typed finish(some errors in typing)" uses randomness. Its outcome is covered by the per-letter lemmas, not by a separate statement.
- The test "allows for setting of current index" checks nothing after its calls. Seek semantics are stated by `SetCurrentIndex.Seek` and `Hook.TypingGame.SetCurrIndex`.
