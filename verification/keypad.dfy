/** Sessions: the keypad's twenty buttons as actions, runs of actions from the
    initial state, and the invariant every reachable state keeps. */
module Keypad {
  import opened CalculatorTypes
  import opened HostNumber
  import opened Calculator

  /** One button press. */
  datatype Action =
    | Digit(key: char)
    | ChooseOp(op: Operation)
    | Equals
    | AllClear
    | Backspace
    | Percent

  /** The buttons that exist: digit keys 0-9 and ".", and the four operators. */
  predicate OnKeypad(a: Action) {
    match a
    case Digit(k) => IsDigitKey(k)
    case ChooseOp(op) => op != NoOp
    case _ => true
  }

  predicate AllOnKeypad(actions: seq<Action>) {
    forall i :: 0 <= i < |actions| ==> OnKeypad(actions[i])
  }

  /** What every reachable state satisfies: outside overwrite mode the entry is
      a numeral being typed, and no left operand waits without an operator. */
  predicate Valid(s: CalculatorState) {
    && (!s.overwrite ==> Numeral(s.currentOperand))
    && (s.operation == NoOp ==> s.previousOperand == "")
  }

  /** Applies one button press. */
  function Step<N>(h: Host<N>, s: CalculatorState, a: Action): (r: CalculatorState)
    ensures Valid(s) && OnKeypad(a) ==> Valid(r)
  {
    match a
    case Digit(k) => AddDigit(s, k)
    case ChooseOp(op) => ChooseOperation(h, s, op)
    case Equals => CalculateResult(h, s)
    case AllClear => Clear(s)
    case Backspace => DeleteDigit(s)
    case Percent => HandlePercent(h, s)
  }

  /** Applies the presses in order. */
  function Run<N>(h: Host<N>, s: CalculatorState, actions: seq<Action>): (r: CalculatorState)
    ensures Valid(s) && AllOnKeypad(actions) ==> Valid(r)
    decreases |actions|
  {
    if |actions| == 0 then s
    else Run(h, Step(h, s, actions[0]), actions[1..])
  }

  /** The states some sequence of button presses leads to from a fresh session. */
  ghost predicate Reachable<N>(h: Host<N>, s: CalculatorState) {
    exists actions :: AllOnKeypad(actions) && Run(h, Initial, actions) == s
  }

  lemma ReachableIsValid<N>(h: Host<N>, s: CalculatorState)
    requires Reachable(h, s)
    ensures Valid(s)
  {
    var actions :| AllOnKeypad(actions) && Run(h, Initial, actions) == s;
    assert Valid(Initial);
  }

  /** Reachable states stay reachable under any further button press. */
  lemma ReachableStep<N>(h: Host<N>, s: CalculatorState, a: Action)
    requires Reachable(h, s) && OnKeypad(a)
    ensures Reachable(h, Step(h, s, a))
  {
    var actions :| AllOnKeypad(actions) && Run(h, Initial, actions) == s;
    RunAppend(h, Initial, actions, a);
    assert AllOnKeypad(actions + [a]);
  }

  lemma {:induction false} RunAppend<N>(h: Host<N>, s: CalculatorState, actions: seq<Action>, a: Action)
    ensures Run(h, s, actions + [a]) == Step(h, Run(h, s, actions), a)
    decreases |actions|
  {
    if |actions| == 0 {
      assert actions + [a] == [a];
    } else {
      assert (actions + [a])[1..] == actions[1..] + [a];
      RunAppend(h, Step(h, s, actions[0]), actions[1..], a);
    }
  }
}
