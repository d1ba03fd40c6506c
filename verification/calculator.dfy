/** The calculator's state-transition engine: one pure function per key class. */
module Calculator {
  import opened CalculatorTypes
  import opened HostNumber

  /** The sentinel stored as currentOperand after a division by zero. */
  const ErrorMarker: string := "Error"

  /** addDigit refuses to extend an entry longer than this many characters. */
  const LengthGuard: nat := 12

  /** The state of a fresh session, and the state `clear` returns to. */
  const Initial: CalculatorState := CalculatorState("0", "", NoOp, false)

  /** The keys that enter text: the ten digits and the decimal point. */
  predicate IsDigitKey(c: char) {
    ('0' <= c <= '9') || c == '.'
  }

  /** A numeral in progress, as typing builds one: one to LengthGuard + 1 digit
      keys, at most one decimal point, and no zero in front of another digit. */
  predicate Numeral(t: string) {
    && 1 <= |t| <= LengthGuard + 1
    && (forall i :: 0 <= i < |t| ==> IsDigitKey(t[i]))
    && multiset(t)['.'] <= 1
    && (|t| >= 2 && t[0] == '0' ==> t[1] == '.')
  }

  /** Appends the key to the entry, or replaces the entry while overwriting.
      Outside overwrite mode a zero on "0", a second decimal point and an entry
      already over the length guard are ignored; a leading "0" is replaced. */
  function AddDigit(s: CalculatorState, d: char): (r: CalculatorState)
    ensures r.previousOperand == s.previousOperand && r.operation == s.operation
    ensures !r.overwrite
    ensures s.overwrite ==> r.currentOperand == [d]
    ensures !s.overwrite ==>
      (r == s <==>
        (d == '0' && s.currentOperand == "0")
        || (d == '.' && '.' in s.currentOperand)
        || (s.currentOperand != "0" && |s.currentOperand| > LengthGuard))
    ensures !s.overwrite && r != s ==>
      r.currentOperand ==
        (if s.currentOperand == "0" && d != '.' then [d] else s.currentOperand + [d])
    ensures !s.overwrite && |s.currentOperand| <= LengthGuard + 1 ==>
      |r.currentOperand| <= LengthGuard + 1
    ensures IsDigitKey(d) && (s.overwrite || Numeral(s.currentOperand)) ==>
      Numeral(r.currentOperand)
  {
    if s.overwrite then
      s.(currentOperand := [d], overwrite := false)
    else if d == '0' && s.currentOperand == "0" then
      s
    else if d == '.' && '.' in s.currentOperand then
      s
    else if s.currentOperand == "0" && d != '.' then
      s.(currentOperand := [d])
    else if |s.currentOperand| > LengthGuard then
      s
    else
      var t := s.currentOperand + [d];
      assert multiset(t) == multiset(s.currentOperand) + multiset{d};
      s.(currentOperand := t)
  }

  /** Returns to the initial state from any state. */
  function Clear(s: CalculatorState): (r: CalculatorState)
    ensures r.currentOperand == "0" && r.previousOperand == ""
    ensures r.operation == NoOp && !r.overwrite
  {
    Initial
  }

  /** Removes the last character of the entry; a one-character entry, or any
      value shown in overwrite mode, becomes "0". */
  function DeleteDigit(s: CalculatorState): (r: CalculatorState)
    ensures r.previousOperand == s.previousOperand && r.operation == s.operation
    ensures !r.overwrite
    ensures s.overwrite || |s.currentOperand| == 1 ==> r.currentOperand == "0"
    ensures !s.overwrite && |s.currentOperand| >= 2 ==>
      r.currentOperand + [s.currentOperand[|s.currentOperand| - 1]] == s.currentOperand
    ensures r.currentOperand == "" <==> !s.overwrite && s.currentOperand == ""
    ensures s.overwrite || Numeral(s.currentOperand) ==> Numeral(r.currentOperand)
  {
    if s.overwrite then
      s.(currentOperand := "0", overwrite := false)
    else if |s.currentOperand| == 1 then
      s.(currentOperand := "0")
    else if |s.currentOperand| == 0 then
      // slice(0, -1) of the empty string is the empty string
      s
    else
      var t := s.currentOperand;
      var p := t[..|t| - 1];
      assert t == p + [t[|t| - 1]];
      assert multiset(t) == multiset(p) + multiset{t[|t| - 1]};
      s.(currentOperand := p)
  }

  /** Computes previousOperand (operation) currentOperand on the host.
      An operand the host cannot parse gives "", a division whose right operand
      is zero gives the error marker, and no pending operation gives "0". */
  function Evaluate<N>(h: Host<N>, s: CalculatorState): (r: string)
    ensures h.parse(s.previousOperand).None? || h.parse(s.currentOperand).None? ==> r == ""
    ensures h.parse(s.previousOperand).Some? && h.parse(s.currentOperand).Some? ==>
      var a, b := h.parse(s.previousOperand).value, h.parse(s.currentOperand).value;
      match s.operation
      case Add => r == h.show(h.add(a, b))
      case Sub => r == h.show(h.sub(a, b))
      case Mul => r == h.show(h.mul(a, b))
      case Div => r == (if h.isZero(b) then ErrorMarker else h.show(h.div(a, b)))
      case NoOp => r == "0"
  {
    var prev := h.parse(s.previousOperand);
    var current := h.parse(s.currentOperand);
    if prev.None? || current.None? then ""
    else
      var a, b := prev.value, current.value;
      match s.operation
      case Add => h.show(h.add(a, b))
      case Sub => h.show(h.sub(a, b))
      case Mul => h.show(h.mul(a, b))
      case Div => if h.isZero(b) then ErrorMarker else h.show(h.div(a, b))
      case NoOp => "0"
  }

  /** Handles an operator key: resets after an error, swaps the operator before
      a new operand is typed, evaluates a pending operation left to right, or
      captures the entry as the left operand. */
  function ChooseOperation<N>(h: Host<N>, s: CalculatorState, op: Operation): (r: CalculatorState)
    ensures s.currentOperand == ErrorMarker ==> r == Initial
    ensures s.currentOperand != ErrorMarker ==>
      r == s || (r.overwrite && r.operation == op)
    ensures s.currentOperand != ErrorMarker && s.currentOperand == "" && s.previousOperand == "" ==>
      r == s
    ensures s.currentOperand != ErrorMarker && s.previousOperand != "" && s.overwrite ==>
      r == s.(operation := op)
    ensures s.currentOperand != ErrorMarker && s.previousOperand != "" && !s.overwrite ==>
      r == CalculatorState(Evaluate(h, s), Evaluate(h, s), op, true)
    ensures s.currentOperand != ErrorMarker && s.currentOperand != "" && s.previousOperand == "" ==>
      r == CalculatorState(s.currentOperand, s.currentOperand, op, true)
  {
    if s.currentOperand == ErrorMarker then
      Initial
    else if s.currentOperand == "" && s.previousOperand == "" then
      s
    else if s.previousOperand != "" then
      if s.overwrite then
        s.(operation := op)
      else
        var result := Evaluate(h, s);
        CalculatorState(result, result, op, true)
    else
      CalculatorState(s.currentOperand, s.currentOperand, op, true)
  }

  /** Handles "=": evaluates the pending operation and discards it. */
  function CalculateResult<N>(h: Host<N>, s: CalculatorState): (r: CalculatorState)
    ensures s.operation == NoOp || s.previousOperand == "" ==> r == s
    ensures s.operation != NoOp && s.previousOperand != "" ==>
      r == CalculatorState(Evaluate(h, s), "", NoOp, true)
    ensures r.operation == NoOp || r.previousOperand == ""
    ensures r.previousOperand == "" || r.previousOperand == s.previousOperand
  {
    if s.operation == NoOp || s.previousOperand == "" then
      s
    else
      CalculatorState(Evaluate(h, s), "", NoOp, true)
  }

  /** Handles "%": divides the current value by one hundred, leaving the
      pending operation alone. */
  function HandlePercent<N>(h: Host<N>, s: CalculatorState): (r: CalculatorState)
    ensures r.previousOperand == s.previousOperand && r.operation == s.operation
    ensures h.parse(s.currentOperand).None? ==> r == s
    ensures h.parse(s.currentOperand).Some? ==>
      r.overwrite
      && r.currentOperand == h.show(h.div(h.parse(s.currentOperand).value, h.hundred))
  {
    var current := h.parse(s.currentOperand);
    if current.None? then s
    else s.(currentOperand := h.show(h.div(current.value, h.hundred)), overwrite := true)
  }
}
