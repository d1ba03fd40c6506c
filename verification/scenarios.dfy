/** Worked key sequences.  The engine's part of each is exact; the host's part
    (what parseFloat, the arithmetic and toString give on these few values) is
    stated as the lemma's requirement. */
module Scenarios {
  import opened CalculatorTypes
  import opened HostNumber
  import opened Calculator
  import opened Keypad

  /** 5 + 3 = shows the host's rendering of 5 + 3. */
  lemma AddThenEquals<N>(h: Host<N>, five: N, three: N)
    requires h.parse("5") == Some(five) && h.parse("3") == Some(three)
    requires h.show(h.add(five, three)) == "8"
    ensures Run(h, Initial, [Digit('5'), ChooseOp(Add), Digit('3'), Equals])
      == CalculatorState("8", "", NoOp, true)
  {
    var s1 := Step(h, Initial, Digit('5'));
    var s2 := Step(h, s1, ChooseOp(Add));
    var s3 := Step(h, s2, Digit('3'));
    assert s3 == CalculatorState("3", "5", Add, false);
  }

  /** 6 / 0 = shows the error marker, whatever the host computes. */
  lemma DivideByZeroShowsError<N>(h: Host<N>, six: N, zero: N)
    requires h.parse("6") == Some(six) && h.parse("0") == Some(zero) && h.isZero(zero)
    ensures Run(h, Initial, [Digit('6'), ChooseOp(Div), Digit('0'), Equals]).currentOperand
      == ErrorMarker
  {
    var s1 := Step(h, Initial, Digit('6'));
    var s2 := Step(h, s1, ChooseOp(Div));
    var s3 := Step(h, s2, Digit('0'));
    assert s3 == CalculatorState("0", "6", Div, false);
  }

  /** Any parsable left operand divided by the text "0" gives the error marker. */
  lemma DivideByZeroText<N>(h: Host<N>, prev: string, overwrite: bool)
    requires h.parse(prev).Some?
    requires h.parse("0").Some? && h.isZero(h.parse("0").value)
    ensures Evaluate(h, CalculatorState("0", prev, Div, overwrite)) == ErrorMarker
  {
  }

  /** 2 + 3 * 4 = chains left to right: (2 + 3) is evaluated when * is pressed. */
  lemma ChainLeftToRight<N>(h: Host<N>, two: N, three: N, four: N, five: N)
    requires h.parse("2") == Some(two) && h.parse("3") == Some(three)
    requires h.show(h.add(two, three)) == "5" && h.parse("5") == Some(five)
    requires h.parse("4") == Some(four) && h.show(h.mul(five, four)) == "20"
    ensures Run(h, Initial, [Digit('2'), ChooseOp(Add), Digit('3'), ChooseOp(Mul), Digit('4'), Equals])
      .currentOperand == "20"
  {
    var s1 := Step(h, Initial, Digit('2'));
    var s2 := Step(h, s1, ChooseOp(Add));
    var s3 := Step(h, s2, Digit('3'));
    assert s3 == CalculatorState("3", "2", Add, false);
    var s4 := Step(h, s3, ChooseOp(Mul));
    assert s4 == CalculatorState("5", "5", Mul, true);
    var s5 := Step(h, s4, Digit('4'));
    assert s5 == CalculatorState("4", "5", Mul, false);
  }

  /** 5 % shows the host's rendering of 5 / 100 and enters overwrite mode. */
  lemma PercentOfEntry<N>(h: Host<N>, five: N)
    requires h.parse("5") == Some(five) && h.show(h.div(five, h.hundred)) == "0.05"
    ensures Run(h, Initial, [Digit('5'), Percent]) == CalculatorState("0.05", "", NoOp, true)
  {
    var s1 := Step(h, Initial, Digit('5'));
    assert s1 == CalculatorState("5", "", NoOp, false);
  }

  /** 9 + = uses the captured operand on both sides, since no digit replaced it. */
  lemma EqualsReusesOperand<N>(h: Host<N>, nine: N)
    requires h.parse("9") == Some(nine) && h.show(h.add(nine, nine)) == "18"
    ensures Run(h, Initial, [Digit('9'), ChooseOp(Add), Equals]).currentOperand == "18"
  {
    var s1 := Step(h, Initial, Digit('9'));
    var s2 := Step(h, s1, ChooseOp(Add));
    assert s2 == CalculatorState("9", "9", Add, true);
  }

  /** A decimal point typed in overwrite mode replaces the operand by ".", which
      parseFloat rejects, so 5 + . = shows an empty entry. */
  lemma LoneDotEvaluatesEmpty<N>(h: Host<N>)
    requires h.parse("5").Some? && h.parse(".").None?
    ensures Run(h, Initial, [Digit('5'), ChooseOp(Add), Digit('.'), Equals])
      == CalculatorState("", "", NoOp, true)
  {
    var s1 := Step(h, Initial, Digit('5'));
    var s2 := Step(h, s1, ChooseOp(Add));
    var s3 := Step(h, s2, Digit('.'));
    assert s3 == CalculatorState(".", "5", Add, false);
  }

  /** A decimal point typed into a fresh calculator keeps the zero: ". 5" shows "0.5". */
  lemma DotKeepsLeadingZero<N>(h: Host<N>)
    ensures Run(h, Initial, [Digit('.'), Digit('5')]).currentOperand == "0.5"
  {
    var s1 := Step(h, Initial, Digit('.'));
    assert s1.currentOperand == "0.";
  }
}
