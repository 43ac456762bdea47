/**
  What holds in every state the calculator can reach from its initial
  state by button presses and key presses: the expression never has two
  operators in a row, never starts with `+`, `*` or `/`, and never holds
  `=`; the ledger has at most ten entries, each of which reads back to a
  well-formed expression and a successful result.
 */
module Reachable {
  import opened Wrappers
  import Text
  import History
  import Evaluator
  import Calculator
  import Keyboard

  /** The shape of every expression the entry rules let a user build. */
  predicate ValidInput(x: string) {
    && (|x| > 0 ==> x[0] != '+' && x[0] != '*' && x[0] != '/')
    && (forall i :: 0 < i < |x| ==> !(Calculator.IsOperator(x[i - 1]) && Calculator.IsOperator(x[i])))
    && '=' !in x
  }

  /** A ledger entry that records a real calculation. */
  predicate EntryOk(e: string) {
    match History.ParseEntry(e)
    case None => false
    case Some(p) =>
      && p.0 != ""
      && ValidInput(p.0)
      && !Calculator.EndsWithOperator(p.0)
      && Evaluator.Succeeded(p.1)
  }

  predicate Inv(s: Calculator.State) {
    && ValidInput(s.input)
    && |s.history| <= History.Capacity
    && forall i :: 0 <= i < |s.history| ==> EntryOk(s.history[i])
  }

  /** The values the buttons and the keyboard send: a command word or at
      most one character. */
  predicate ClickValue(v: string) {
    |v| <= 1 || v in Calculator.CommandWords
  }

  /** Every button on the keypad, plus DEL, C, the history toggle and the
      clear-history button. */
  const Buttons: seq<string> :=
    ["7", "8", "9", "/", "4", "5", "6", "*", "1", "2", "3", "-", "0", ".", "=", "+",
     "DEL", "C", "H", "CLR_HISTORY"]

  /** Clicks applied in order. */
  function RunClicks(s: Calculator.State, values: seq<string>, eval: Evaluator.Eval): Calculator.State
    decreases |values|
  {
    if |values| == 0 then s
    else RunClicks(Calculator.HandleClick(s, values[0], eval), values[1..], eval)
  }

  /** Key presses applied in order. */
  function RunKeys(s: Calculator.State, keys: seq<string>, eval: Evaluator.Eval): Calculator.State
    decreases |keys|
  {
    if |keys| == 0 then s
    else RunKeys(Keyboard.OnKey(s, keys[0], eval), keys[1..], eval)
  }

  lemma InitialInv()
    ensures Inv(Calculator.Initial)
  {
  }

  /** Every value a button sends is a click value. */
  lemma ButtonsAreClickValues()
    ensures forall i :: 0 <= i < |Buttons| ==> ClickValue(Buttons[i])
  {
  }

  /** Every value the keyboard sends is a click value. */
  lemma KeyCommandIsClickValue(key: string)
    ensures Keyboard.KeyCommand(key).Some? ==> ClickValue(Keyboard.KeyCommand(key).value)
  {
  }

  /** An accepted one-character append keeps the expression well formed. */
  lemma AppendKeepsValid(x: string, c: char)
    requires ValidInput(x) && c != '='
    requires !Calculator.AppendRefused(x, [c])
    ensures ValidInput(x + [c])
  {
    var y := x + [c];
    forall i | 0 < i < |y|
      ensures !(Calculator.IsOperator(y[i - 1]) && Calculator.IsOperator(y[i]))
    {
      if i < |x| {
        assert y[i - 1] == x[i - 1] && y[i] == x[i];
      }
    }
    assert '=' !in y by {
      forall i | 0 <= i < |y| ensures y[i] != '=' {
        if i < |x| { assert y[i] == x[i]; }
      }
    }
  }

  /** Prefixes of a well-formed expression are well formed. */
  lemma PrefixKeepsValid(x: string, n: nat)
    requires ValidInput(x) && n <= |x|
    ensures ValidInput(x[..n])
  {
    var y := x[..n];
    forall i | 0 < i < |y|
      ensures !(Calculator.IsOperator(y[i - 1]) && Calculator.IsOperator(y[i]))
    {
      assert y[i - 1] == x[i - 1] && y[i] == x[i];
    }
    assert '=' !in y by {
      forall i | 0 <= i < |y| ensures y[i] != '=' {
        assert y[i] == x[i];
      }
    }
  }

  /** Recording a successful calculation keeps every ledger entry well
      formed and the ledger within capacity. */
  lemma PushKeepsEntries(s: Calculator.State, res: string)
    requires Inv(s) && s.input != "" && !Calculator.EndsWithOperator(s.input)
    requires Evaluator.Succeeded(res)
    ensures var h := History.Push(History.FormatEntry(s.input, res), s.history);
            forall i :: 0 <= i < |h| ==> EntryOk(h[i])
  {
    History.ParseFormatEntry(s.input, res);
    var h := History.Push(History.FormatEntry(s.input, res), s.history);
    forall i | 0 <= i < |h| ensures EntryOk(h[i]) {
      if i > 0 {
        assert h[i] == s.history[i - 1];
      }
    }
  }

  /** One click from the click alphabet keeps the invariant. */
  lemma StepPreservesInv(s: Calculator.State, v: string, eval: Evaluator.Eval)
    requires Inv(s) && ClickValue(v)
    ensures Inv(Calculator.HandleClick(s, v, eval))
  {
    var r := Calculator.HandleClick(s, v, eval);
    match Calculator.Dispatch(v)
    case Evaluate =>
      if s.input != "" && Calculator.IsValidExpression(s.input) {
        var res := Evaluator.SafeEval(s.input, eval);
        if Evaluator.Succeeded(res) {
          PushKeepsEntries(s, res);
        }
      }
    case ClearAll =>
    case Delete =>
      if s.input != "" {
        PrefixKeepsValid(s.input, |s.input| - 1);
      }
    case ToggleHistory =>
    case ClearHistory =>
    case Append(w) =>
      if !Calculator.AppendRefused(s.input, w) {
        if |w| == 0 {
          assert s.input + w == s.input;
        } else {
          assert w == [w[0]];
          AppendKeepsValid(s.input, w[0]);
        }
      }
  }

  /** Any sequence of clicks from the click alphabet keeps the invariant. */
  lemma {:induction false} RunClicksPreservesInv(s: Calculator.State, values: seq<string>, eval: Evaluator.Eval)
    requires Inv(s)
    requires forall i :: 0 <= i < |values| ==> ClickValue(values[i])
    ensures Inv(RunClicks(s, values, eval))
    decreases |values|
  {
    if |values| > 0 {
      StepPreservesInv(s, values[0], eval);
      RunClicksPreservesInv(Calculator.HandleClick(s, values[0], eval), values[1..], eval);
    }
  }

  /** Any sequence of key presses keeps the invariant. */
  lemma {:induction false} RunKeysPreservesInv(s: Calculator.State, keys: seq<string>, eval: Evaluator.Eval)
    requires Inv(s)
    ensures Inv(RunKeys(s, keys, eval))
    decreases |keys|
  {
    if |keys| > 0 {
      KeyCommandIsClickValue(keys[0]);
      if Keyboard.KeyCommand(keys[0]).Some? {
        StepPreservesInv(s, Keyboard.KeyCommand(keys[0]).value, eval);
      }
      RunKeysPreservesInv(Keyboard.OnKey(s, keys[0], eval), keys[1..], eval);
    }
  }

  /** Every state reached by pressing buttons from the start satisfies the
      invariant. */
  lemma ReachableByButtons(presses: seq<nat>, eval: Evaluator.Eval)
    requires forall i :: 0 <= i < |presses| ==> presses[i] < |Buttons|
    ensures var values := seq(|presses|, i requires 0 <= i < |presses| => Buttons[presses[i]]);
            Inv(RunClicks(Calculator.Initial, values, eval))
  {
    var values := seq(|presses|, i requires 0 <= i < |presses| => Buttons[presses[i]]);
    ButtonsAreClickValues();
    InitialInv();
    RunClicksPreservesInv(Calculator.Initial, values, eval);
  }

  /** Appending a value longer than one character bypasses the entry
      rules: the handler adds any value that is not a lone operator. */
  lemma LongAppendBypassesRules(eval: Evaluator.Eval)
    ensures Calculator.HandleClick(Calculator.Initial, "*+", eval).input == "*+"
    ensures !ValidInput("*+")
  {
  }

  /** The invariant is about the typed text, not about what the evaluator
      receives: a leading whitespace key lets the stripped expression start
      with `*`. */
  lemma WhitespaceKeyHidesLeadingOperator(eval: Evaluator.Eval)
    ensures RunKeys(Calculator.Initial, [" ", "*", "5"], eval).input == " *5"
    ensures Text.StripWhitespace(" *5") == "*5" && !ValidInput("*5")
  {
    var s0 := Calculator.Initial;
    Keyboard.TypedCharAppended(s0, ' ', eval);
    var s1 := Keyboard.OnKey(s0, " ", eval);
    Keyboard.TypedCharAppended(s1, '*', eval);
    var s2 := Keyboard.OnKey(s1, "*", eval);
    Keyboard.TypedCharAppended(s2, '5', eval);
    var s3 := Keyboard.OnKey(s2, "5", eval);
    assert s3.input == " *5";
    assert RunKeys(s3, [], eval) == s3;
    assert RunKeys(s2, ["5"], eval) == s3;
    assert RunKeys(s1, ["*", "5"], eval) == s3;
    LeadingOperatorStripped();
  }

  lemma LeadingOperatorStripped()
    ensures Text.StripWhitespace(" *5") == "*5" && !ValidInput("*5")
  {
    Text.StripWhitespaceJoins("", " ", "*5");
    assert "" + " " + "*5" == " *5";
  }

  /** Likewise a whitespace key between two operators lets the stripped
      expression hold two operators in a row. */
  lemma WhitespaceKeyHidesAdjacentOperators(eval: Evaluator.Eval)
    ensures RunKeys(Calculator.Initial, ["2", "*", " ", "*", "3"], eval).input == "2* *3"
    ensures Text.StripWhitespace("2* *3") == "2**3" && !ValidInput("2**3")
  {
    var s0 := Calculator.Initial;
    Keyboard.TypedCharAppended(s0, '2', eval);
    var s1 := Keyboard.OnKey(s0, "2", eval);
    Keyboard.TypedCharAppended(s1, '*', eval);
    var s2 := Keyboard.OnKey(s1, "*", eval);
    Keyboard.TypedCharAppended(s2, ' ', eval);
    var s3 := Keyboard.OnKey(s2, " ", eval);
    Keyboard.TypedCharAppended(s3, '*', eval);
    var s4 := Keyboard.OnKey(s3, "*", eval);
    Keyboard.TypedCharAppended(s4, '3', eval);
    var s5 := Keyboard.OnKey(s4, "3", eval);
    assert s5.input == "2* *3";
    assert RunKeys(s5, [], eval) == s5;
    assert RunKeys(s4, ["3"], eval) == s5;
    assert RunKeys(s3, ["*", "3"], eval) == s5;
    assert RunKeys(s2, [" ", "*", "3"], eval) == s5;
    assert RunKeys(s1, ["*", " ", "*", "3"], eval) == s5;
    AdjacentOperatorsStripped();
  }

  lemma AdjacentOperatorsStripped()
    ensures Text.StripWhitespace("2* *3") == "2**3" && !ValidInput("2**3")
  {
    Text.StripWhitespaceJoins("2*", " ", "*3");
    assert "2*" + " " + "*3" == "2* *3";
    DoubleOperatorInvalid();
  }

  lemma DoubleOperatorInvalid()
    ensures !ValidInput("2**3")
  {
    assert Calculator.IsOperator("2**3"[1]) && Calculator.IsOperator("2**3"[2]);
  }
}
