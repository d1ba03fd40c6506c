/** Properties that relate several calls of the engine. */
module CalculatorProperties {
  import opened CalculatorTypes
  import opened HostNumber
  import opened Calculator
  import opened Keypad

  /** Clear forgets everything: from any state it gives the initial state, so
      clearing twice is clearing once, and the result satisfies the invariant. */
  lemma ClearResets(s: CalculatorState)
    ensures Clear(s) == Initial
    ensures Clear(Clear(s)) == Clear(s)
    ensures Valid(Clear(s))
  {
  }

  /** Backspace undoes a digit that was appended to the entry. */
  lemma DeleteUndoesAppend(s: CalculatorState, d: char)
    requires !s.overwrite && s.currentOperand != ""
    requires AddDigit(s, d).currentOperand == s.currentOperand + [d]
    ensures DeleteDigit(AddDigit(s, d)) == s
  {
    var t := s.currentOperand + [d];
    assert t[..|t| - 1] == s.currentOperand;
  }

  /** "=" leaves nothing pending, so pressing it again changes nothing. */
  lemma EqualsIdempotent<N>(h: Host<N>, s: CalculatorState)
    ensures CalculateResult(h, CalculateResult(h, s)) == CalculateResult(h, s)
  {
  }

  /** Pressing a second operator before typing an operand only replaces the
      first, unless the first press produced the error marker or no value. */
  lemma LastOperatorWins<N>(h: Host<N>, s: CalculatorState, op1: Operation, op2: Operation)
    requires s.currentOperand != ErrorMarker
    requires ChooseOperation(h, s, op1).currentOperand !in {ErrorMarker, ""}
    ensures ChooseOperation(h, ChooseOperation(h, s, op1), op2) == ChooseOperation(h, s, op2)
  {
  }

  /** The state after typing `keys` one after another. */
  function Typed(s: CalculatorState, keys: string): CalculatorState
    decreases |keys|
  {
    if |keys| == 0 then s
    else AddDigit(Typed(s, keys[..|keys| - 1]), keys[|keys| - 1])
  }

  /** Every nonempty prefix of a numeral is a numeral. */
  lemma PrefixNumeral(t: string, k: nat)
    requires Numeral(t) && 1 <= k <= |t|
    ensures Numeral(t[..k])
  {
    assert t == t[..k] + t[k..];
    assert multiset(t) == multiset(t[..k]) + multiset(t[k..]);
  }

  /** Typing a numeral that does not start with "." into a fresh calculator
      shows exactly that numeral, with nothing else changed. */
  lemma {:induction false} TypingShowsNumeral(ds: string)
    requires Numeral(ds) && ds[0] != '.'
    ensures Typed(Initial, ds) == Initial.(currentOperand := ds)
    decreases |ds|
  {
    var n := |ds|;
    var p, d := ds[..n - 1], ds[n - 1];
    if n == 1 {
      assert p == [];
      assert ds == [d];
    } else {
      PrefixNumeral(ds, n - 1);
      TypingShowsNumeral(p);
      assert ds == p + [d];
      assert multiset(ds) == multiset(p) + multiset{d};
      if d == '.' {
        assert '.' !in multiset(p);
      }
      assert p == "0" ==> d == '.' by {
        if p == "0" { assert ds[0] == '0' && ds[1] == d; }
      }
    }
  }

  /** Typing any sequence of digit keys into a fresh calculator leaves nothing
      pending and shows a numeral, every character of which is either the
      initial zero or one of the keys typed. */
  lemma {:induction false} TypingBuildsNumeral(keys: string)
    requires forall i :: 0 <= i < |keys| ==> IsDigitKey(keys[i])
    ensures Typed(Initial, keys).previousOperand == ""
    ensures Typed(Initial, keys).operation == NoOp
    ensures !Typed(Initial, keys).overwrite
    ensures Numeral(Typed(Initial, keys).currentOperand)
    ensures forall i :: 0 <= i < |Typed(Initial, keys).currentOperand| ==>
      Typed(Initial, keys).currentOperand[i] == '0' || Typed(Initial, keys).currentOperand[i] in keys
    decreases |keys|
  {
    if |keys| > 0 {
      var n := |keys|;
      var p, d := keys[..n - 1], keys[n - 1];
      TypingBuildsNumeral(p);
      var t := Typed(Initial, p).currentOperand;
      assert forall c :: c in p ==> c in keys;
      assert d in keys;
      var u := Typed(Initial, keys).currentOperand;
      assert u == t || u == [d] || u == t + [d];
    }
  }

  /** A further key on a full thirteen-character entry is ignored. */
  lemma FullEntryIgnoresKeys(ds: string, d: char)
    requires Numeral(ds) && ds[0] != '.' && |ds| == LengthGuard + 1
    ensures AddDigit(Typed(Initial, ds), d) == Typed(Initial, ds)
  {
    TypingShowsNumeral(ds);
  }

  /** In every reachable state Backspace leaves a numeral, never an empty entry. */
  lemma DeleteKeepsNumeral(s: CalculatorState)
    requires Valid(s)
    ensures Numeral(DeleteDigit(s).currentOperand)
    ensures DeleteDigit(s).currentOperand != ""
  {
  }

  /** Outside overwrite mode an entry reached from a fresh calculator by
      keypad presses never exceeds thirteen characters. */
  lemma EntryBounded<N>(h: Host<N>, s: CalculatorState)
    requires Reachable(h, s) && !s.overwrite
    ensures |s.currentOperand| <= LengthGuard + 1
  {
    ReachableIsValid(h, s);
  }

  /** A digit key typed onto the error marker outside overwrite mode is
      appended to it, giving text such as "Error5". */
  lemma ErrorAbsorbsDigits(s: CalculatorState, d: char)
    requires s.currentOperand == ErrorMarker && !s.overwrite
    requires IsDigitKey(d)
    ensures AddDigit(s, d).currentOperand == ErrorMarker + [d]
  {
  }

  /** In reachable states the error marker is always shown in overwrite mode,
      so the next digit key replaces it and text such as "Error5" never appears. */
  lemma ErrorIsOverwritten(s: CalculatorState, d: char)
    requires Valid(s) && s.currentOperand == ErrorMarker
    ensures s.overwrite
    ensures AddDigit(s, d).currentOperand == [d]
  {
  }

  /** In reachable states "=" is ignored exactly when no left operand is pending. */
  lemma EqualsIgnoredIff<N>(h: Host<N>, s: CalculatorState)
    requires Valid(s)
    ensures CalculateResult(h, s) == s <==> s.previousOperand == ""
  {
  }
}
