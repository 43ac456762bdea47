/**
  The calculator's command handler: one pure transition over the component
  state, applied to every button press and every accepted key.
 */
module Calculator {
  import Text
  import History
  import Evaluator

  /** The component state: the expression being typed, the text of the last
      result, the history ledger (newest first) and whether the history panel
      is open. */
  datatype State = State(input: string, result: string, history: seq<string>, showHistory: bool)

  /** The state the component starts in. */
  const Initial := State("", "", [], false)

  /** The commands the handler distinguishes. `Append` carries any other
      clicked value, which is added to the expression. */
  datatype Cmd = Evaluate | ClearAll | Delete | ToggleHistory | ClearHistory | Append(value: string)

  /** The values that name a command instead of text to append. */
  const CommandWords: set<string> := {"=", "C", "DEL", "H", "CLR_HISTORY"}

  predicate IsOperator(c: char) {
    c == '+' || c == '-' || c == '*' || c == '/'
  }

  /** The handler compares a whole clicked value against the operator list,
      so only a one-character value counts as an operator. */
  predicate IsOperatorValue(v: string) {
    |v| == 1 && IsOperator(v[0])
  }

  predicate EndsWithOperator(s: string) {
    |s| > 0 && IsOperator(s[|s| - 1])
  }

  /** True unless the last character is an operator; an empty expression
      passes, since it has no last character. */
  function IsValidExpression(expr: string): (b: bool)
    ensures b <==> expr == "" || !AppendRefused(expr, "*")
  {
    !EndsWithOperator(expr)
  }

  /** Reads a clicked value as a command. */
  function Dispatch(value: string): (c: Cmd)
    ensures c.Append? <==> value !in CommandWords
    ensures c.Append? ==> c.value == value
  {
    if value == "=" then Evaluate
    else if value == "C" then ClearAll
    else if value == "DEL" then Delete
    else if value == "H" then ToggleHistory
    else if value == "CLR_HISTORY" then ClearHistory
    else Append(value)
  }

  /** The value a button sends for a command. */
  function Encode(c: Cmd): string {
    match c
    case Evaluate => "="
    case ClearAll => "C"
    case Delete => "DEL"
    case ToggleHistory => "H"
    case ClearHistory => "CLR_HISTORY"
    case Append(v) => v
  }

  /** Every clicked value is the encoding of the command it is read as. */
  lemma EncodeDispatch(value: string)
    ensures Encode(Dispatch(value)) == value
  {
  }

  /** Every command whose appended text is not a command word is read back
      from its encoding. */
  lemma DispatchEncode(c: Cmd)
    requires c.Append? ==> c.value !in CommandWords
    ensures Dispatch(Encode(c)) == c
  {
  }

  /** True when an append of `v` to `input` is refused: an operator right
      after an operator, or an operator other than `-` at the start. */
  function AppendRefused(input: string, v: string): (b: bool)
    ensures |v| != 1 ==> !b
    ensures |v| == 1 ==>
              (b <==> (EndsWithOperator(input) && IsOperator(v[0]))
                      || (input == "" && v[0] in {'+', '*', '/'}))
  {
    IsOperatorValue(v) && (EndsWithOperator(input) || (input == "" && v != "-"))
  }

  /** One command applied to the state. */
  function Step(s: State, cmd: Cmd, eval: Evaluator.Eval): (r: State)
    ensures r.showHistory != s.showHistory ==> cmd == ToggleHistory
    ensures r.result != s.result ==> cmd == Evaluate || cmd == ClearAll
    ensures r.history != s.history ==> cmd == Evaluate || cmd == ClearHistory
    ensures r.input != s.input ==> cmd == Evaluate || cmd == ClearAll || cmd == Delete || cmd.Append?
    ensures |r.history| <= if |s.history| < History.Capacity then History.Capacity else |s.history|
  {
    match cmd
    case Evaluate =>
      if s.input != "" && IsValidExpression(s.input) then
        var res := Evaluator.SafeEval(s.input, eval);
        if Evaluator.Succeeded(res) then
          s.(input := "", result := res,
             history := History.Push(History.FormatEntry(s.input, res), s.history))
        else
          s.(result := Evaluator.ErrorMarker)
      else
        s
    case ClearAll => s.(input := "", result := "")
    case Delete => s.(input := if s.input == "" then "" else s.input[..|s.input| - 1])
    case ToggleHistory => s.(showHistory := !s.showHistory)
    case ClearHistory => s.(history := [])
    case Append(v) =>
      if AppendRefused(s.input, v) then s else s.(input := s.input + v)
  }

  /** The click handler: a clicked value read as a command and applied. */
  function HandleClick(s: State, value: string, eval: Evaluator.Eval): (r: State)
    ensures value !in CommandWords ==>
              && r.result == s.result && r.history == s.history && r.showHistory == s.showHistory
              && (r.input == s.input + value || r == s)
  {
    Step(s, Dispatch(value), eval)
  }

  // Appending

  /** An operator right after an operator changes nothing. */
  lemma OperatorAfterOperatorIgnored(s: State, v: string, eval: Evaluator.Eval)
    requires IsOperatorValue(v) && EndsWithOperator(s.input)
    ensures Step(s, Append(v), eval) == s
  {
  }

  /** `+`, `*` or `/` on an empty expression changes nothing; `-` there is
      taken as the sign of the first number. */
  lemma LeadingOperator(s: State, v: string, eval: Evaluator.Eval)
    requires IsOperatorValue(v) && s.input == ""
    ensures v != "-" ==> Step(s, Append(v), eval) == s
    ensures v == "-" ==> Step(s, Append(v), eval) == s.(input := "-")
  {
  }

  /** Every append that is not refused adds the value to the end of the
      expression and touches nothing else. */
  lemma AppendAccepted(s: State, v: string, eval: Evaluator.Eval)
    requires !AppendRefused(s.input, v)
    ensures Step(s, Append(v), eval) == s.(input := s.input + v)
    ensures Step(s, Append(v), eval).input[..|s.input|] == s.input
  {
  }

  /** Digits and the decimal point are never refused. */
  lemma DigitOrPointAlwaysAppended(s: State, c: char, eval: Evaluator.Eval)
    requires Text.IsDigit(c) || c == '.'
    ensures Step(s, Append([c]), eval) == s.(input := s.input + [c])
  {
  }

  // Deleting and clearing

  /** DEL removes exactly the last character, and does nothing on an empty
      expression. */
  lemma DeleteRemovesLast(s: State, eval: Evaluator.Eval)
    ensures s.input == "" ==> Step(s, Delete, eval) == s
    ensures s.input != "" ==>
              var r := Step(s, Delete, eval);
              && r == s.(input := r.input)
              && |r.input| == |s.input| - 1
              && r.input + [s.input[|s.input| - 1]] == s.input
  {
  }

  /** DEL undoes an accepted one-character append. */
  lemma DeleteUndoesAppend(s: State, c: char, eval: Evaluator.Eval)
    requires !AppendRefused(s.input, [c])
    ensures Step(Step(s, Append([c]), eval), Delete, eval) == s
  {
    assert (s.input + [c])[..|s.input|] == s.input;
  }

  /** C empties the expression and the result whatever they held. */
  lemma ClearAllResets(s: State, eval: Evaluator.Eval)
    ensures Step(s, ClearAll, eval) == State("", "", s.history, s.showHistory)
    ensures Step(Step(s, ClearAll, eval), ClearAll, eval) == Step(s, ClearAll, eval)
  {
  }

  // History commands

  /** H flips the panel flag only, so two presses restore the state. */
  lemma ToggleHistoryInvolution(s: State, eval: Evaluator.Eval)
    ensures Step(s, ToggleHistory, eval) == s.(showHistory := !s.showHistory)
    ensures Step(Step(s, ToggleHistory, eval), ToggleHistory, eval) == s
  {
  }

  /** CLR_HISTORY empties the ledger and nothing else. */
  lemma ClearHistoryEmpties(s: State, eval: Evaluator.Eval)
    ensures Step(s, ClearHistory, eval) == s.(history := [])
  {
  }

  // Evaluating

  /** `=` on an empty expression or one ending in an operator is ignored. */
  lemma EvaluateIgnored(s: State, eval: Evaluator.Eval)
    requires s.input == "" || EndsWithOperator(s.input)
    ensures Step(s, Evaluate, eval) == s
  {
  }

  /** A successful `=` shows the result, clears the expression, and puts the
      calculation at the front of the ledger, which keeps at most its ten
      newest entries. */
  lemma EvaluateSuccess(s: State, eval: Evaluator.Eval)
    requires s.input != "" && !EndsWithOperator(s.input)
    requires Evaluator.Succeeded(Evaluator.SafeEval(s.input, eval))
    ensures var res := Evaluator.SafeEval(s.input, eval);
            var r := Step(s, Evaluate, eval);
            && r.input == ""
            && r.result == res
            && r.showHistory == s.showHistory
            && r.history[0] == s.input + " = " + res
            && r.history[1..] == s.history[..if |s.history| < 9 then |s.history| else 9]
            && |r.history| <= 10
  {
  }

  /** A failed `=` shows the error marker and keeps the expression, so the
      user can correct it; the ledger is unchanged. */
  lemma EvaluateFailure(s: State, eval: Evaluator.Eval)
    requires s.input != "" && !EndsWithOperator(s.input)
    requires !Evaluator.Succeeded(Evaluator.SafeEval(s.input, eval))
    ensures Step(s, Evaluate, eval) == s.(result := "Error")
  {
  }

  /** An expression of spaces only is reported as an error, whatever the
      evaluator does: stripping leaves nothing and the empty value is
      treated as a failure. */
  lemma WhitespaceOnlyInputIsError(s: State, eval: Evaluator.Eval)
    requires s.input != "" && Text.AllWhitespace(s.input)
    ensures Step(s, Evaluate, eval) == s.(result := "Error")
  {
    assert !IsOperator(s.input[|s.input| - 1]) by {
      assert Text.IsJsWhitespace(s.input[|s.input| - 1]);
    }
  }
}
