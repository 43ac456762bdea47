/**
  The keyboard handler: a pressed key is read as one of the click values,
  or ignored, and then goes through the same handler as a button.
 */
module Keyboard {
  import opened Wrappers
  import Text
  import Calculator
  import Evaluator

  /** Whether JavaScript number coercion reads a key name as a number, for
      names of at most one character: the empty name and a single whitespace
      character coerce to 0, a digit to itself, anything else to NaN. Longer
      names are taken as non-numeric. */
  function IsNumericKey(key: string): (b: bool)
    ensures b <==> |key| <= 1 && (Text.StripWhitespace(key) == "" || Text.IsDigit(key[0]))
  {
    |key| == 0 || (|key| == 1 && (Text.IsDigit(key[0]) || Text.IsJsWhitespace(key[0])))
  }

  /** The click value a key press sends, or `None` for an ignored key. */
  function KeyCommand(key: string): (r: Option<string>)
    ensures r == Some("=") <==> key == "Enter"
    ensures r == Some("C") <==> key == "Escape"
    ensures r == Some("DEL") <==> key == "Backspace"
    ensures r != Some("H") && r != Some("CLR_HISTORY")
    ensures r.Some? && r.value !in {"=", "C", "DEL"} ==> r.value == key && |key| <= 1
    ensures |key| == 1 && (Text.IsDigit(key[0]) || Calculator.IsOperator(key[0]) || key[0] == '.') ==>
              r == Some(key)
    ensures |key| == 1 ==>
              (r.Some? <==> Text.IsDigit(key[0]) || Calculator.IsOperator(key[0]) || key[0] == '.'
                            || Text.IsJsWhitespace(key[0]))
    ensures |key| > 1 ==> (r.Some? <==> key in {"Enter", "Escape", "Backspace"})
    ensures key == "" ==> r == Some("")
  {
    if key == "Enter" then Some("=")
    else if key == "Escape" then Some("C")
    else if IsNumericKey(key) || key in ["+", "-", "*", "/", "."] then Some(key)
    else if key == "Backspace" then Some("DEL")
    else
      assert |key| == 1 ==> key == [key[0]];
      None
  }

  /** A key press applied to the state; ignored keys leave it as it is. */
  function OnKey(s: Calculator.State, key: string, eval: Evaluator.Eval): (r: Calculator.State)
    ensures KeyCommand(key).None? ==> r == s
  {
    match KeyCommand(key)
    case None => s
    case Some(v) => Calculator.HandleClick(s, v, eval)
  }

  /** Enter, Escape and Backspace act exactly like the `=`, C and DEL
      buttons, and the symbol keys like their buttons. */
  lemma KeysMatchButtons(s: Calculator.State, eval: Evaluator.Eval)
    ensures OnKey(s, "Enter", eval) == Calculator.Step(s, Calculator.Evaluate, eval)
    ensures OnKey(s, "Escape", eval) == Calculator.Step(s, Calculator.ClearAll, eval)
    ensures OnKey(s, "Backspace", eval) == Calculator.Step(s, Calculator.Delete, eval)
    ensures forall c: char :: Text.IsDigit(c) || Calculator.IsOperator(c) || c == '.' ==>
              OnKey(s, [c], eval) == Calculator.Step(s, Calculator.Append([c]), eval)
  {
    forall c: char | Text.IsDigit(c) || Calculator.IsOperator(c) || c == '.'
      ensures OnKey(s, [c], eval) == Calculator.Step(s, Calculator.Append([c]), eval)
    {
      assert KeyCommand([c]) == Some([c]);
      assert Calculator.Dispatch([c]) == Calculator.Append([c]);
    }
  }

  /** A whitespace key, the space bar among them, is appended to the
      expression like a digit. */
  lemma WhitespaceKeyAppended(s: Calculator.State, c: char, eval: Evaluator.Eval)
    requires Text.IsJsWhitespace(c)
    ensures OnKey(s, [c], eval) == s.(input := s.input + [c])
  {
  }

  /** Any accepted one-character key that the entry rules do not refuse
      appends itself to the expression and changes nothing else. */
  lemma TypedCharAppended(s: Calculator.State, c: char, eval: Evaluator.Eval)
    requires Text.IsDigit(c) || Calculator.IsOperator(c) || c == '.' || Text.IsJsWhitespace(c)
    requires !Calculator.AppendRefused(s.input, [c])
    ensures OnKey(s, [c], eval) == s.(input := s.input + [c])
  {
    assert KeyCommand([c]) == Some([c]);
    assert Calculator.Dispatch([c]) == Calculator.Append([c]);
  }

  /** The `=` and `C` characters typed on the keyboard are ignored: only
      Enter and Escape evaluate and clear. */
  lemma EqualsAndCKeysIgnored(s: Calculator.State, eval: Evaluator.Eval)
    ensures OnKey(s, "=", eval) == s
    ensures OnKey(s, "C", eval) == s
  {
  }
}
