// The record and enumerations of the typing session (src/types.ts and
// src/Actions/index.ts).

module Types {

  datatype Option<T> = None | Some(value: T)

  /** Lifecycle phase: NotStarted = 0, Started = 1, Ended = 2. */
  datatype Phase = NotStarted | Started | Ended

  /** Mark of one character: Incomplete = 0, Correct = 1, Incorrect = 2. */
  datatype CharState = Incomplete | Correct | Incorrect

  /** `countErrors`: count every wrong keystroke, or each wrong slot once. */
  datatype CountErrors = Everytime | Once

  /** The JavaScript value held in `currChar`: the empty string, a one-character
      string, or `undefined` (what `chars[-1]` evaluates to). */
  datatype CurrChar = Blank | Char(c: char) | Undefined

  /** TypingOptionsType: fixed for the whole session. */
  datatype Options = Options(
    skipCurrentWordOnSpace: bool,
    pauseOnError: bool,
    countErrors: CountErrors)

  /** TypingStateType, which extends the options (held here as one field). `keystrokes` is used by the insert reducer but is not
      declared in the source's interface; here it is an ordinary counter. */
  datatype State = State(
    chars: string,
    charsState: seq<CharState>,
    length: int,
    currIndex: int,
    currChar: CurrChar,
    correctChar: int,
    errorChar: int,
    keystrokes: int,
    phase: Phase,
    startTime: Option<int>,
    endTime: Option<int>,
    options: Options)

  /** Partial<TypingOptionsType>: the options a caller may override. */
  datatype PartialOptions = PartialOptions(
    skipCurrentWordOnSpace: Option<bool>,
    pauseOnError: Option<bool>,
    countErrors: Option<CountErrors>)

  /** ActionItemType, plus the text-change action the reducer handles and any
      other tag, which the reducer ignores. */
  datatype Action =
    | ResetCmd
    | EndCmd
    | InsertCmd(letter: Option<char>)
    | DeleteCmd(deleteWord: bool)
    | SeekCmd(index: int)
    | ReplaceCmd(payload: State)
    | UnknownCmd(tag: string)
}
