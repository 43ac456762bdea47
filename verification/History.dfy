/**
  The history ledger: a newest-first list of finished calculations, each
  written as `<expression> = <result>`, holding at most ten entries.
 */
module History {
  import opened Wrappers
  import Text

  /** The number of calculations the ledger keeps. */
  const Capacity: nat := 10

  /** The text recorded for one successful calculation. */
  function FormatEntry(expr: string, res: string): (e: string)
    ensures Text.IndexOf(e, '=') == Some(|expr| + 1) <==> '=' !in expr
  {
    var e := expr + " = " + res;
    assert e[..|expr|] == expr;
    if '=' !in expr then
      assert e[..|expr| + 1] == expr + " ";
      Text.IndexOfUnique(e, '=', |expr| + 1);
      e
    else
      e
  }

  /** Reads an entry back into its expression and result, splitting at the
      first `=`; `None` when the text is not shaped like an entry. */
  function ParseEntry(e: string): (r: Option<(string, string)>)
    ensures r.Some? ==> '=' !in r.value.0 && FormatEntry(r.value.0, r.value.1) == e
  {
    match Text.IndexOf(e, '=')
    case None => None
    case Some(k) =>
      if 1 <= k && k + 1 < |e| && e[k - 1] == ' ' && e[k + 1] == ' ' then
        assert e[..k - 1] <= e[..k];
        assert e == e[..k - 1] + " = " + e[k + 2..];
        Some((e[..k - 1], e[k + 2..]))
      else
        None
  }

  /** An entry whose expression has no `=` reads back to exactly what was
      recorded. */
  lemma ParseFormatEntry(expr: string, res: string)
    requires '=' !in expr
    ensures ParseEntry(FormatEntry(expr, res)) == Some((expr, res))
  {
    var e := FormatEntry(expr, res);
    var k := |expr| + 1;
    assert e[k] == '=';
    assert e[..k] == expr + " ";
    Text.IndexOfUnique(e, '=', k);
    assert e[..k - 1] == expr;
    assert e[k + 2..] == res;
  }

  /** Records `entry` at the front of the ledger and keeps only the ten
      newest entries. */
  function Push(entry: string, h: seq<string>): (r: seq<string>)
    ensures |r| <= Capacity
    ensures |r| == if |h| < Capacity then |h| + 1 else Capacity
    ensures r[0] == entry
    ensures forall i :: 1 <= i < |r| ==> r[i] == h[i - 1]
  {
    [entry] + (if |h| <= Capacity - 1 then h else h[..Capacity - 1])
  }

  /** On a full ledger a push drops exactly the oldest entry: every other
      entry moves one place back. */
  lemma PushEvictsOldest(entry: string, h: seq<string>)
    requires |h| == Capacity
    ensures Push(entry, h) == [entry] + h[..Capacity - 1]
    ensures multiset(Push(entry, h)) == multiset(h) - multiset{h[Capacity - 1]} + multiset{entry}
  {
    assert h == h[..Capacity - 1] + [h[Capacity - 1]];
  }
}
