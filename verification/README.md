# Calculator engine — a Dafny model

This project models the state-transition engine of a keypad calculator. The
engine is a React component whose logic is six pure state updates over one
four-field record:

- `currentOperand`: the entry text or result on the main display line
- `previousOperand`: the captured left operand; `""` means none is pending
- `operation`: `+ - * /` or none
- `overwrite`: the next digit replaces the entry instead of extending it

The engine's operations are addDigit, clear, deleteDigit, chooseOperation,
calculateResult and handlePercent, plus the internal evaluate.

Files:

- `types.dfy` (module `CalculatorTypes`): `Operation` (`Add | Sub | Mul | Div | NoOp`, where `NoOp` is the source's `null`) and `CalculatorState`.
- `host.dfy` (module `HostNumber`): the JavaScript number facilities the engine calls, gathered in one record `Host<N>`:
  - `parseFloat`, as `parse`, with `None` for NaN
  - the test `=== 0`
  - the four operators
  - the constant 100
  - `toString`, as `show`

  Every operation that computes takes a host as a parameter, so each proof holds for any host.
- `calculator.dfy` (module `Calculator`): `Initial` (the source's initial state), the six operations and evaluate, each following the source's branch order. It also defines `Numeral`, the shape of the text that typing builds.
- `keypad.dfy` (module `Keypad`): the keypad's buttons as `Action`s, `Step` and `Run` over sequences of presses, and the invariant `Valid` that every reachable state satisfies.
- `properties.dfy` (module `CalculatorProperties`): properties that relate several calls:
  - clear idempotence
  - the Backspace round trip
  - idempotence of "="
  - the operator swap
  - typing a numeral
  - the consequences of `Valid`
- `scenarios.dfy` (module `Scenarios`): worked key sequences. For each one, the host's part is stated as a requirement: what `parseFloat`, the arithmetic and `toString` give on the few values involved.

Notes on behaviour:

- **Invariant of reachable states.** Outside overwrite mode, the entry is always a numeral in progress:
  - one to thirteen digit keys
  - at most one decimal point
  - no zero in front of another digit

  Also, no left operand ever waits without an operator.
- **"Error" is never extended.** The error marker is produced only together with `overwrite = true`. So the next digit always replaces it. The engine itself does append a digit to `"Error"` when overwrite is off (`ErrorAbsorbsDigits`), but `ErrorIsOverwritten` shows that no keypad sequence reaches that case.
- **A lone `"."` is accepted.** In overwrite mode, the decimal-point key yields the entry `"."`. Kept as in the source.
- **Typing `.` then `5` in a fresh calculator shows `"0.5"`, not `".5"`.** The decimal point is appended to the initial `"0"`. The model follows the code (`DotKeepsLeadingZero`).
- **The Backspace round trip needs a nonempty entry.** From an empty entry outside overwrite mode, appending `d` and deleting gives `"0"`, not `""`. Such a state is not reachable (`Valid`), so `DeleteUndoesAppend` requires a nonempty entry.

## Model

| member | source | states |
|---|---|---|
| `Calculator.AddDigit` | components/Calculator.tsx:27-50 | The pending operand and operator are never touched, and overwrite is always off afterwards. In overwrite mode the entry becomes the key. Otherwise the press is ignored exactly when it is a zero on "0", a second decimal point, or any key on an entry longer than 12 characters; a press that is not ignored replaces the entry by the key when the entry is "0" and the key is not ".", and appends the key otherwise. An entry of at most 13 characters stays within 13. A digit key keeps the entry a well-formed numeral. |
| `Calculator.Clear` | components/Calculator.tsx:52-54 | From any state the result has entry "0", no left operand, no operator and overwrite off. |
| `Calculator.DeleteDigit` | components/Calculator.tsx:56-73 | The pending operand and operator are never touched, and overwrite ends off. In overwrite mode, or on a one-character entry, the entry becomes "0"; otherwise exactly the last character is removed. The result is empty only when the entry was already empty outside overwrite mode. A numeral stays a numeral. |
| `Calculator.Evaluate` | components/Calculator.tsx:75-97 | If either operand fails to parse the result is "". Division by a right operand equal to zero gives "Error" whatever the left operand. With no operator the result is "0" (the untouched initial computation). Otherwise it is the host's rendering of the host's result. |
| `Calculator.ChooseOperation` | components/Calculator.tsx:99-130 | On the error marker it returns the initial state. Otherwise the result is either unchanged or in overwrite mode with the new operator. With no operands it is a no-op. With a pending operand in overwrite mode only the operator is replaced by the new one. With a pending operand after typing, both operands become the evaluation of the pending operation, the new operator is pending and overwrite is on. On the first press the entry is captured as the left operand, stays on display, the new operator is pending and overwrite is on. |
| `Calculator.CalculateResult` | components/Calculator.tsx:132-144 | Without an operator or a left operand it is a no-op. Otherwise the result shows the evaluation in overwrite mode, with no left operand and no operator. In every case no operation is pending afterwards. |
| `Calculator.HandlePercent` | components/Calculator.tsx:146-156 | The pending operand and operator are untouched. An unparsable entry is left alone. Otherwise the entry becomes the host's rendering of the value divided by 100, in overwrite mode. |
| `Keypad.Step` | components/Calculator.tsx:194-217 | Each keypad button keeps the reachable-state invariant. |
| `Keypad.Run` | components/Calculator.tsx:13-14 | Any sequence of keypad presses keeps the reachable-state invariant. |
| `Keypad.ReachableIsValid` | components/Calculator.tsx:6-11 | Every state reachable from the initial state satisfies the invariant. |
| `Keypad.ReachableStep` | components/Calculator.tsx:194-217 | Reachable states stay reachable under any keypad press. |
| `CalculatorProperties.ClearResets` | components/Calculator.tsx:6-11 | Clear gives exactly the initial state, clearing twice equals clearing once, and the result satisfies the invariant. |
| `CalculatorProperties.DeleteUndoesAppend` | components/Calculator.tsx:45-71 | Outside overwrite mode, on a nonempty entry, Backspace after an appended key restores the previous state exactly. |
| `CalculatorProperties.EqualsIdempotent` | components/Calculator.tsx:132-144 | Pressing "=" twice equals pressing it once. |
| `CalculatorProperties.LastOperatorWins` | components/Calculator.tsx:105-121 | Pressing a second operator right after the first gives the state the second alone would give, unless the first press produced "Error" or "". |
| `CalculatorProperties.TypingShowsNumeral` | components/Calculator.tsx:36-48 | Typing a well-formed numeral that does not start with "." into a fresh calculator shows exactly that numeral. |
| `CalculatorProperties.TypingBuildsNumeral` | components/Calculator.tsx:36-48 | Typing any sequence of digit keys into a fresh calculator leaves nothing pending, ends outside overwrite mode, and shows a well-formed numeral whose characters are the initial zero or keys typed. |
| `CalculatorProperties.FullEntryIgnoresKeys` | components/Calculator.tsx:42-43 | Once a typed entry has 13 characters, any further key leaves the state unchanged. |
| `CalculatorProperties.DeleteKeepsNumeral` | components/Calculator.tsx:56-73 | In a reachable state Backspace leaves a numeral, never an empty entry. |
| `CalculatorProperties.EntryBounded` | components/Calculator.tsx:42-43 | In any state reached from a fresh calculator by keypad presses, outside overwrite mode, the entry has at most 13 characters. |
| `CalculatorProperties.ErrorAbsorbsDigits` | components/Calculator.tsx:36-48 | Outside overwrite mode a digit key is appended to "Error", giving "Error" followed by the key. |
| `CalculatorProperties.ErrorIsOverwritten` | components/Calculator.tsx:29-35 | In a reachable state "Error" is always shown in overwrite mode, so the next key replaces it. |
| `CalculatorProperties.EqualsIgnoredIff` | components/Calculator.tsx:134 | In a reachable state "=" is a no-op exactly when no left operand is pending. |
| `Scenarios.AddThenEquals` | components/Calculator.tsx:132-144 | The sequence 5 + 3 = ends with "8", no operand or operator pending, and overwrite on. |
| `Scenarios.DivideByZeroShowsError` | components/Calculator.tsx:90-91 | The sequence 6 / 0 = shows "Error". |
| `Scenarios.DivideByZeroText` | components/Calculator.tsx:90-91 | Any parsable left operand divided by the text "0" evaluates to "Error". |
| `Scenarios.ChainLeftToRight` | components/Calculator.tsx:114-120 | The sequence 2 + 3 * 4 = evaluates 2 + 3 when * is pressed and shows "20". |
| `Scenarios.PercentOfEntry` | components/Calculator.tsx:146-156 | The sequence 5 % shows "0.05" in overwrite mode, with nothing pending. |
| `Scenarios.EqualsReusesOperand` | components/Calculator.tsx:123-128 | The sequence 9 + = computes 9 + 9, because the captured operand is still the entry. |
| `Scenarios.LoneDotEvaluatesEmpty` | components/Calculator.tsx:29-35 | The sequence 5 + . = leaves an empty entry, because "." does not parse. |
| `Scenarios.DotKeepsLeadingZero` | components/Calculator.tsx:37-48 | Typing . then 5 in a fresh calculator shows "0.5". |

## Left out

- IEEE double arithmetic, `parseFloat` and `toString` (components/Calculator.tsx:76-96, 148-152): kept abstract as the `Host` record, because they are the host's floating point. Three branches are modelled concretely: divide-by-zero gives "Error", an unparsable operand gives "", and no pending operator gives "0" (the source's untouched `computation = 0`, rendered by `toString`).
- `formatOperand` (components/Calculator.tsx:16-25): display formatting through `Intl.NumberFormat` and `BigInt`, which are foreign library calls.
- The keyboard listener (components/Calculator.tsx:159-174): DOM event plumbing. The keypad's button grid is modelled as the `Action` set instead.
- JSX rendering, `Button`, `App`, `ButtonVariant` and the React hooks: presentation only.
- Calculator.AddDigit: takes a single character rather than a string, because every caller passes a one-character key. String length is counted in characters, which equals the UTF-16 length for these ASCII keys.
