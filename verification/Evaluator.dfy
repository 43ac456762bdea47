/**
  The guarded evaluation step. The arithmetic itself is done by the
  JavaScript runtime and is not modelled: it is the parameter `eval`, which
  receives the whitespace-free expression and yields the string form of the
  computed value, or `None` when evaluation throws.
 */
module Evaluator {
  import opened Wrappers
  import Text

  type Eval = string -> Option<string>

  /** The result text shown when a calculation fails. */
  const ErrorMarker := "Error"

  /** Strips whitespace; an expression that is empty after stripping gives
      the empty result without consulting the evaluator; a thrown evaluation
      gives the error marker. */
  function SafeEval(expr: string, eval: Eval): (r: string)
    ensures Text.AllWhitespace(expr) ==> r == ""
    ensures !Text.AllWhitespace(expr) && eval(Text.StripWhitespace(expr)).None? ==> r == ErrorMarker
    ensures !Text.AllWhitespace(expr) && eval(Text.StripWhitespace(expr)).Some? ==>
              r == eval(Text.StripWhitespace(expr)).value
  {
    var clean := Text.StripWhitespace(expr);
    if clean == "" then ""
    else
      match eval(clean)
      case Some(v) => v
      case None => ErrorMarker
  }

  /** Whether a value from SafeEval counts as a finished calculation: the
      calculator treats both the error marker and the empty result as a
      failure. */
  predicate Succeeded(r: string) {
    r != ErrorMarker && r != ""
  }

  /** A calculation succeeds exactly when the expression is not blank and the
      evaluator returns a value whose text is neither the error marker nor
      empty. */
  lemma SucceededIffValue(expr: string, eval: Eval)
    ensures Succeeded(SafeEval(expr, eval)) <==>
              && !Text.AllWhitespace(expr)
              && eval(Text.StripWhitespace(expr)).Some?
              && eval(Text.StripWhitespace(expr)).value !in {ErrorMarker, ""}
  {
  }

  /** Evaluation sees only the stripped expression: two inputs that differ
      only in whitespace evaluate alike. */
  lemma SafeEvalIgnoresWhitespace(x: string, y: string, eval: Eval)
    requires Text.StripWhitespace(x) == Text.StripWhitespace(y)
    ensures SafeEval(x, eval) == SafeEval(y, eval)
  {
  }

  /** Whitespace inserted anywhere in an expression does not change its
      value. */
  lemma SafeEvalInsertWhitespace(a: string, w: string, b: string, eval: Eval)
    requires Text.AllWhitespace(w)
    ensures SafeEval(a + w + b, eval) == SafeEval(a + b, eval)
  {
    var sa, sb := Text.StripWhitespace(a), Text.StripWhitespace(b);
    assert Text.StripWhitespace(w) == [];
    Text.StripWhitespaceConcat(a + w, b);
    Text.StripWhitespaceConcat(a, w);
    Text.StripWhitespaceConcat(a, b);
    assert Text.StripWhitespace(a + w) == sa;
    assert Text.StripWhitespace(a + w + b) == sa + sb;
    SafeEvalIgnoresWhitespace(a + w + b, a + b, eval);
  }

  /** A whitespace-only expression never counts as a success, whatever the
      evaluator would have computed. */
  lemma WhitespaceOnlyNeverSucceeds(expr: string, eval: Eval)
    requires Text.AllWhitespace(expr)
    ensures !Succeeded(SafeEval(expr, eval))
  {
  }
}
