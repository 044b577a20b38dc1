/** The calculator's display editing: digit and decimal-point entry,
    backspace and clear, over the fields of `calculatorState`. */
module Calculator {
  import opened Wrappers

  /** The display after a digit key: the key replaces a display of `0` and
      any display shown while an operand is awaited, and is appended
      otherwise. `digit` is the key's `data-value` text. */
  function DigitEntered(display: string, waiting: bool, digit: string): (r: string)
    ensures |r| >= |digit| && r[|r| - |digit|..] == digit
    ensures waiting || display == "0" ==> r == digit
    ensures !waiting && display != "0" ==> |r| == |display| + |digit| && r[..|display|] == display
  {
    if waiting || display == "0" then digit else display + digit
  }

  /** The display after the decimal-point key: `0.` while an operand is
      awaited, else the display with a point appended unless it has one. */
  function DecimalEntered(display: string, waiting: bool): (r: string)
    ensures '.' in r
    ensures waiting ==> r == "0."
    ensures !waiting ==> |r| >= |display| && r[..|display|] == display
    ensures !waiting && '.' in display ==> r == display
    ensures !waiting && '.' !in display ==> |r| == |display| + 1
  {
    if waiting then "0." else if '.' !in display then display + "." else display
  }

  /** The display after backspace: the last character goes, but a display of
      one character (or none) becomes `0`. */
  function Backspaced(display: string): (r: string)
    ensures r != []
    ensures |display| > 1 ==> |r| == |display| - 1 && r == display[..|r|]
    ensures |display| <= 1 ==> r == "0"
  {
    if |display| > 1 then display[..|display| - 1] else "0"
  }

  predicate IsDigit(c: char) {
    '0' <= c <= '9'
  }

  /** A decimal numeral as it is typed: digits with at most one point, not
      starting with the point, and with no leading zero before another digit. */
  predicate Numeral(s: string) {
    && |s| > 0
    && s[0] != '.'
    && (forall i :: 0 <= i < |s| ==> IsDigit(s[i]) || s[i] == '.')
    && (forall i, j :: 0 <= i < j < |s| && s[i] == '.' ==> s[j] != '.')
    && (s[0] == '0' && |s| > 1 ==> s[1] == '.')
  }

  /** A digit key leaves a numeral on the display. */
  lemma DigitKeepsNumeral(display: string, waiting: bool, digit: string)
    requires waiting || Numeral(display)
    requires |digit| == 1 && IsDigit(digit[0])
    ensures Numeral(DigitEntered(display, waiting, digit))
  {
    var r := DigitEntered(display, waiting, digit);
    if !waiting && display != "0" {
      assert r == display + digit;
      assert r[..|display|] == display;
    }
  }

  /** The decimal-point key leaves a numeral with a point on the display. */
  lemma DecimalKeepsNumeral(display: string, waiting: bool)
    requires waiting || Numeral(display)
    ensures Numeral(DecimalEntered(display, waiting))
  {
    var r := DecimalEntered(display, waiting);
    if !waiting && '.' !in display {
      assert r == display + ".";
      assert forall i :: 0 <= i < |display| ==> r[i] == display[i];
    }
  }

  /** Backspace leaves a numeral on the display. */
  lemma BackspaceKeepsNumeral(display: string)
    requires Numeral(display)
    ensures Numeral(Backspaced(display))
  {
    var r := Backspaced(display);
    if |display| > 1 {
      assert forall i :: 0 <= i < |r| ==> r[i] == display[i];
    }
  }

  /** A second decimal-point key changes nothing: after the first the display
      holds a point and no operand is awaited. */
  lemma DecimalIdempotent(display: string, waiting: bool)
    ensures DecimalEntered(DecimalEntered(display, waiting), false) == DecimalEntered(display, waiting)
  {
  }

  /** Backspace undoes a digit typed onto a display other than `0`. */
  lemma BackspaceUndoesDigit(display: string, digit: string)
    requires display != "" && display != "0" && |digit| == 1
    ensures Backspaced(DigitEntered(display, false, digit)) == display
  {
    assert (display + digit)[..|display|] == display;
  }

  /** Backspace undoes a decimal point typed onto a display without one. */
  lemma BackspaceUndoesDecimal(display: string)
    requires display != "" && '.' !in display
    ensures Backspaced(DecimalEntered(display, false)) == display
  {
    assert (display + ".")[..|display|] == display;
  }

  /** `calculatorState`. The operands and the operator are only reset here;
      the arithmetic that sets them is not part of this model. */
  class CalculatorState {
    var displayValue: string
    var expression: string
    var previousValue: Option<real>
    var operation: Option<string>
    var waitingForOperand: bool

    /** The state the page starts in and `clearCalculator` restores. */
    predicate IsInitial()
      reads this
    {
      && displayValue == "0"
      && expression == ""
      && previousValue.None?
      && operation.None?
      && !waitingForOperand
    }

    constructor ()
      ensures IsInitial()
    {
      displayValue := "0";
      expression := "";
      previousValue := None;
      operation := None;
      waitingForOperand := false;
    }

    /** `inputDigit`: a key always ends the wait for an operand. */
    method InputDigit(digit: string)
      modifies this
      ensures displayValue == DigitEntered(old(displayValue), old(waitingForOperand), digit)
      ensures !waitingForOperand
      ensures expression == old(expression) && previousValue == old(previousValue) && operation == old(operation)
    {
      if waitingForOperand {
        displayValue := digit;
        waitingForOperand := false;
      } else {
        displayValue := if displayValue == "0" then digit else displayValue + digit;
      }
    }

    /** `inputDecimal`. */
    method InputDecimal()
      modifies this
      ensures displayValue == DecimalEntered(old(displayValue), old(waitingForOperand))
      ensures !waitingForOperand
      ensures expression == old(expression) && previousValue == old(previousValue) && operation == old(operation)
    {
      if waitingForOperand {
        displayValue := "0.";
        waitingForOperand := false;
      } else if '.' !in displayValue {
        displayValue := displayValue + ".";
      }
    }

    /** `clearCalculator`. */
    method ClearCalculator()
      modifies this
      ensures IsInitial()
    {
      displayValue := "0";
      expression := "";
      previousValue := None;
      operation := None;
      waitingForOperand := false;
    }

    /** `handleBackspace`. */
    method HandleBackspace()
      modifies this`displayValue
      ensures displayValue == Backspaced(old(displayValue))
    {
      if |displayValue| > 1 {
        displayValue := displayValue[..|displayValue| - 1];
      } else {
        displayValue := "0";
      }
    }
  }
}
