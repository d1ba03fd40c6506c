/** The calculator's state record and its closed set of pending operations. */
module CalculatorTypes {

  /** The pending binary operator; `NoOp` stands for the source's `null`. */
  datatype Operation = Add | Sub | Mul | Div | NoOp

  /** The whole interaction state of one calculator session.
      - currentOperand: the text on the main display line (entry buffer or result)
      - previousOperand: the captured left operand; "" means none is pending
      - operation: the pending operator
      - overwrite: the next digit replaces currentOperand instead of extending it */
  datatype CalculatorState = CalculatorState(
    currentOperand: string,
    previousOperand: string,
    operation: Operation,
    overwrite: bool)
}
