# Calculator command handler, modelled in Dafny

This project models the expression-entry state machine of the React
calculator component in `src/Calculator.jsx`. The component's state has four
parts: the expression being typed, the last result, a newest-first history
ledger of at most ten calculations, and a flag for the history panel. Every
button press, and every key the keyboard handler accepts, goes through one
click handler. The model writes that handler as a pure transition
`Calculator.Step(state, command, eval)` and proves what it guarantees about
each command and about every state reachable from the initial one.

Modules:

- `Text`: the JavaScript `\s` whitespace class, whitespace stripping, and a
  first-occurrence search.
- `History`: the entry format `<expression> = <result>`, reading an entry
  back, and the bounded push onto the ledger.
- `Evaluator`: the guarded evaluation. It strips whitespace, returns the
  empty result for an expression that is empty after stripping, and maps a
  thrown evaluation to `"Error"`. The arithmetic itself is the parameter
  `eval: string -> Option<string>`. It receives the stripped expression and
  returns the string form of the computed value, or `None` when evaluation
  throws.
- `Calculator`: the state, the command set, how a clicked value is read as a
  command (`Dispatch`), the transition `Step`, and one lemma per command.
- `Keyboard`: the key-to-command mapping and the key handler.
- `Reachable`: the reachable-state invariant, proved by induction over
  sequences of clicks and of key presses.

Three behaviours of the code are worth stating up front:

- `safeEval` returns `''` for an expression that is empty after whitespace
  stripping (line 47). The click handler treats `''` as a failure and shows
  `"Error"` (lines 64 and 73). So a whitespace-only expression ends in the
  error state, with the expression and the ledger unchanged
  (`Calculator.WhitespaceOnlyInputIsError`).
- The keyboard handler accepts any key for which `!isNaN(key)` holds
  (line 20). That includes the space bar and the other whitespace keys,
  which are then appended to the expression
  (`Keyboard.WhitespaceKeyAppended`). The model states this for key names of
  at most one character (`Keyboard.IsNumericKey`).
- The entry rules compare the whole clicked value against the one-character
  operator strings. So a value longer than one character is appended
  unchecked (`Reachable.LongAppendBypassesRules`). The reachable-state
  invariant therefore assumes that every click is a command word or at most
  one character. Every button and every accepted key meets that assumption
  (`Reachable.ButtonsAreClickValues`, `Reachable.KeyCommandIsClickValue`).

## Model

| member | source | states |
|---|---|---|
| `Text.StripWhitespace` | src/Calculator.jsx:44 | the cleaned expression has no whitespace, keeps every non-whitespace character of the input and nothing else, and is empty exactly when the input is all whitespace |
| `Text.StripWhitespaceConcat` | src/Calculator.jsx:44 | stripping distributes over concatenation, so it acts character by character |
| `Text.StripWhitespaceIdempotent` | src/Calculator.jsx:44 | cleaning an already cleaned expression changes nothing |
| `History.FormatEntry` | src/Calculator.jsx:68 | the first `=` of a recorded entry is the separator after the expression exactly when the expression has no `=` of its own |
| `History.ParseEntry` | src/Calculator.jsx:68 | any text read back as an entry is exactly the entry format of the expression and result it yields, and that expression has no `=` |
| `History.ParseFormatEntry` | src/Calculator.jsx:68 | an entry recorded for an expression without `=` reads back to that same expression and result |
| `History.Push` | src/Calculator.jsx:69 | the new entry goes first, the previous entries follow in order, and the ledger is capped at ten |
| `History.PushEvictsOldest` | src/Calculator.jsx:69 | on a full ledger a push drops exactly the oldest entry and adds the new one |
| `Evaluator.SafeEval` | src/Calculator.jsx:41-56 | a whitespace-only expression gives the empty result without evaluation; otherwise the stripped expression is evaluated, and a thrown evaluation gives `"Error"` |
| `Evaluator.SucceededIffValue` | src/Calculator.jsx:64 | a calculation counts as a success (`Evaluator.Succeeded`) exactly when the expression is not blank and the evaluator returns a value whose text is neither `"Error"` nor empty |
| `Evaluator.SafeEvalIgnoresWhitespace` | src/Calculator.jsx:44-50 | two expressions that are equal after stripping evaluate alike |
| `Evaluator.SafeEvalInsertWhitespace` | src/Calculator.jsx:44 | whitespace inserted anywhere in an expression does not change its value |
| `Evaluator.WhitespaceOnlyNeverSucceeds` | src/Calculator.jsx:44-64 | a whitespace-only expression never counts as a successful calculation, whatever the evaluator would compute |
| `Calculator.IsValidExpression` | src/Calculator.jsx:34-38 | an expression passes exactly when it is empty or an operator could be appended to it, so the `=` guard and the operator rule inspect the same last character |
| `Calculator.AppendRefused` | src/Calculator.jsx:94-99 | a one-character value is refused exactly when it would put two operators side by side or start the expression with `+`, `*` or `/`; longer values are never refused |
| `Calculator.Dispatch` | src/Calculator.jsx:60-89 | a clicked value is appended exactly when it is not one of the five command words, and then as itself |
| `Calculator.EncodeDispatch` | src/Calculator.jsx:60-89 | every clicked value is the button value of the command it is read as |
| `Calculator.DispatchEncode` | src/Calculator.jsx:60-89 | every command whose text is not a command word is read back from its button value |
| `Calculator.Step` | src/Calculator.jsx:59-105 | only H changes the panel flag; only `=` and C change the result; only `=` and CLR_HISTORY change the ledger; only `=`, C, DEL and appends change the expression; the ledger never grows past ten entries or its previous size |
| `Calculator.HandleClick` | src/Calculator.jsx:59-105 | a clicked value that is not a command word leaves the result, the ledger and the panel flag alone, and either is appended to the expression or changes nothing |
| `Calculator.OperatorAfterOperatorIgnored` | src/Calculator.jsx:91-96 | an operator after an expression that ends in an operator leaves the whole state unchanged |
| `Calculator.LeadingOperator` | src/Calculator.jsx:98-101 | on an empty expression `+`, `*` and `/` leave the state unchanged, and `-` starts the expression |
| `Calculator.AppendAccepted` | src/Calculator.jsx:89-103 | every append the two rules do not refuse adds the value to the end of the expression and changes nothing else |
| `Calculator.DigitOrPointAlwaysAppended` | src/Calculator.jsx:89-103 | digits and `.` are appended in every state |
| `Calculator.DeleteRemovesLast` | src/Calculator.jsx:80-82 | DEL removes exactly the last character and changes nothing else; on an empty expression it changes nothing |
| `Calculator.DeleteUndoesAppend` | src/Calculator.jsx:80-103 | DEL after an accepted one-character append restores the previous state |
| `Calculator.ClearAllResets` | src/Calculator.jsx:76-79 | C empties the expression and the result whatever they held, keeps the ledger and the panel flag, and is idempotent |
| `Calculator.ToggleHistoryInvolution` | src/Calculator.jsx:83-85 | H flips only the panel flag, so pressing it twice restores the state |
| `Calculator.ClearHistoryEmpties` | src/Calculator.jsx:86-88 | CLR_HISTORY empties the ledger and changes nothing else |
| `Calculator.EvaluateIgnored` | src/Calculator.jsx:34-61 | `=` on an empty expression or one ending in an operator changes nothing |
| `Calculator.EvaluateSuccess` | src/Calculator.jsx:60-71 | a successful `=` shows the result, empties the expression, puts `<expression> = <result>` in front of the first nine old entries, and keeps the panel flag |
| `Calculator.EvaluateFailure` | src/Calculator.jsx:60-75 | a failed `=` shows `"Error"` and keeps the expression and the ledger |
| `Calculator.WhitespaceOnlyInputIsError` | src/Calculator.jsx:41-75 | `=` on a whitespace-only expression shows `"Error"` and keeps everything else, for every evaluator |
| `Keyboard.KeyCommand` | src/Calculator.jsx:11-27 | Enter, Escape and Backspace, and only they, send `=`, C and DEL; no key sends H or CLR_HISTORY; any other accepted key sends itself and is at most one character; a one-character key is accepted exactly when it is a digit, an operator, `.` or whitespace; a longer key name is accepted exactly when it is Enter, Escape or Backspace |
| `Keyboard.IsNumericKey` | src/Calculator.jsx:20 | a key name of at most one character is numeric exactly when it is empty after whitespace stripping or is a digit; longer names are not |
| `Keyboard.OnKey` | src/Calculator.jsx:11-27 | an ignored key leaves the state unchanged |
| `Keyboard.KeysMatchButtons` | src/Calculator.jsx:14-26 | Enter, Escape, Backspace, the digits, the operators and `.` act exactly like the matching buttons |
| `Keyboard.TypedCharAppended` | src/Calculator.jsx:20-22 | a one-character key that is a digit, an operator, `.` or whitespace, and that the entry rules do not refuse, appends itself and changes nothing else |
| `Keyboard.WhitespaceKeyAppended` | src/Calculator.jsx:20-22 | a whitespace key appends itself to the expression and changes nothing else |
| `Keyboard.EqualsAndCKeysIgnored` | src/Calculator.jsx:14-26 | typing the `=` or `C` character does nothing; only Enter and Escape evaluate and clear |
| `Reachable.InitialInv` | src/Calculator.jsx:4-7 | the initial state satisfies the invariant |
| `Reachable.ButtonsAreClickValues` | src/Calculator.jsx:107-177 | every keypad button sends a command word or a single character |
| `Reachable.KeyCommandIsClickValue` | src/Calculator.jsx:14-26 | every accepted key sends a command word or a single character |
| `Reachable.AppendKeepsValid` | src/Calculator.jsx:91-103 | an accepted one-character append keeps the expression free of adjacent operators, of a leading `+`, `*` or `/`, and of `=` |
| `Reachable.PrefixKeepsValid` | src/Calculator.jsx:82 | removing characters from the end keeps the expression well formed |
| `Reachable.PushKeepsEntries` | src/Calculator.jsx:68-69 | recording a successful calculation keeps every ledger entry readable back to a well-formed expression and a successful result |
| `Reachable.StepPreservesInv` | src/Calculator.jsx:59-105 | every click that sends a command word or a single character preserves the invariant |
| `Reachable.RunClicksPreservesInv` | src/Calculator.jsx:59-105 | every sequence of such clicks preserves the invariant |
| `Reachable.RunKeysPreservesInv` | src/Calculator.jsx:11-27 | every sequence of key presses preserves the invariant |
| `Reachable.ReachableByButtons` | src/Calculator.jsx:107-177 | every state reached from the start by pressing on-screen buttons satisfies the invariant |
| `Reachable.WhitespaceKeyHidesLeadingOperator` | src/Calculator.jsx:20-50 | the keys space, `*`, `5` are all accepted and give `" *5"`, which strips to `*5`, a text the invariant excludes |
| `Reachable.WhitespaceKeyHidesAdjacentOperators` | src/Calculator.jsx:20-50 | the keys `2`, `*`, space, `*`, `3` are all accepted and give `"2* *3"`, which strips to `2**3`, a text with two adjacent operators |
| `Reachable.LongAppendBypassesRules` | src/Calculator.jsx:91-103 | a clicked value of two operators is appended to an empty expression, producing an expression the invariant excludes |

The invariant (`Reachable.Inv`) has three parts. The expression has no two
adjacent operators, does not start with `+`, `*` or `/`, and contains no
`=`. The ledger has at most ten entries. Every entry reads back to a
non-empty expression that does not end in an operator, and to a successful
result.

The invariant constrains the typed text only, not the whitespace-free text
the evaluator receives. Whitespace keys can hide an operator from the entry
rules: the keys space, `*`, `5` give `" *5"`, which the evaluator sees as
`*5`, and the keys `2`, `*`, space, `*`, `3` give `"2* *3"`, which it sees as
`2**3` (`Reachable.WhitespaceKeyHidesLeadingOperator`,
`Reachable.WhitespaceKeyHidesAdjacentOperators`).

## Left out

- Arithmetic evaluation. The source builds a JavaScript function from the
  expression text and runs it with floating-point semantics (line 50). This
  is a foreign call, so the model takes it as the parameter `eval`.
- The result value. The source stores the JavaScript value that evaluation
  returns. The model stores its string form. The success test at line 64
  compares the value with `'Error'` and `''`; the model compares the text.
  The keyboard can build inputs whose value is not a number. Typing space,
  `/`, `2`, `/`, space gives the cleaned text `/2/`, which evaluates to a
  regular-expression object. No value reachable from the keypad or the
  keyboard has `''` or `'Error'` as its string form, so comparing the text
  agrees with the source's comparison of values.
- `Keyboard.IsNumericKey`: `!isNaN(key)` is modelled only for key names of at
  most one character. A longer key name counts as non-numeric. The source
  would accept a longer name that JavaScript reads as a number, such as
  `"Infinity"`. Standard key names are never numeric.
- The keyboard listener's lifecycle: registration, removal, and the stale
  closure from the `[input]` dependency list (lines 10-31). Through that
  closure a key press can see an outdated ledger or panel flag. The model
  applies each key press to the current state.
- `preventDefault` on accepted keys and the `console.error` logging at line
  53. Both are I/O.
- Strings are sequences of Unicode scalar values, while JavaScript
  indexes UTF-16 code units. Every character a button or an accepted key can
  put into the expression (ASCII digits, operators, `.`, and the `\s`
  whitespace characters) is in the Basic Multilingual Plane. So each is one
  UTF-16 code unit and one Dafny character, and the `=` guard, the entry
  rules and DEL's `slice(0, -1)` agree with the model on them.
- `Calculator.DeleteRemovesLast` and `Calculator.DeleteUndoesAppend` do not
  model a character outside the Basic Multilingual Plane, which no button or
  key produces. DEL would remove only half of its surrogate pair, while the
  model removes the whole character.
- All rendering (placeholders, the history panel) and the style constants
  (lines 107-387). The matrix-sum widget in
  `Downloads/matrix assignment 3/src/MatrixSumCalculator.jsx` is not part of
  this model.
