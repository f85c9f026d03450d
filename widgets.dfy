/** The few Qt widgets whose state the modelled code reads or writes. */
module Widgets {
  import opened Strings

  /** The identity of a row's container widget. The program finds a row again by
      comparing widget objects (`row["widget"] == widget`, `removeWidget`), so
      only object identity matters here. */
  class Widget {
    constructor () {}
  }

  /** One item of a row's horizontal layout, in the order it was added. */
  datatype Item =
    | Label(text: string)                     // QLabel
    | LineEdit(text: string)                  // QLineEdit
    | Combo(options: seq<string>, index: int) // QComboBox and its current index
    | DoubleSpin(value: string)               // QDoubleSpinBox, its value as Python prints it
    | IntSpin(number: int)                    // QSpinBox
    | DeleteButton                            // the row's delete QPushButton

  /** `QComboBox.currentText()`: the selected option, or "" when nothing is selected. */
  function CurrentText(options: seq<string>, index: int): (t: string)
    ensures t in options || t == ""
  {
    if 0 <= index < |options| then options[index] else ""
  }

  /** The label the program gives to the n-th row of a list: "B-n". */
  function RowLabel(n: nat): string {
    "B-" + NatToString(n)
  }

  lemma FirstRowLabel()
    ensures RowLabel(1) == "B-1"
  {
    assert NatToString(1) == [DigitChar(1)];
  }

  /** Row labels differ exactly when the row numbers do. */
  lemma RowLabelInjective(m: nat, n: nat)
    requires RowLabel(m) == RowLabel(n)
    ensures m == n
  {
    assert RowLabel(m)[2..] == NatToString(m);
    assert RowLabel(n)[2..] == NatToString(n);
    NatToStringInjective(m, n);
  }
}
