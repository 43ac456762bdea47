/**
  String helpers the calculator relies on: the whitespace class that the
  evaluator strips before computing, and a first-occurrence search used to
  read history entries back.
 */
module Text {
  import opened Wrappers

  /** The characters of the `\s` class of a JavaScript regular expression
      (ECMAScript WhiteSpace and LineTerminator), by code point. */
  predicate IsJsWhitespace(c: char) {
    var n := c as int;
    || n == 0x09 || n == 0x0A || n == 0x0B || n == 0x0C || n == 0x0D
    || n == 0x20 || n == 0xA0 || n == 0x1680 || (0x2000 <= n <= 0x200A)
    || n == 0x2028 || n == 0x2029 || n == 0x202F || n == 0x205F
    || n == 0x3000 || n == 0xFEFF
  }

  predicate IsDigit(c: char) {
    '0' <= c <= '9'
  }

  predicate AllWhitespace(s: string) {
    forall i :: 0 <= i < |s| ==> IsJsWhitespace(s[i])
  }

  predicate NoWhitespace(s: string) {
    forall i :: 0 <= i < |s| ==> !IsJsWhitespace(s[i])
  }

  /** `s` with every whitespace character removed (a global `/\s/g` replace). */
  function StripWhitespace(s: string): (r: string)
    ensures |r| <= |s|
    ensures NoWhitespace(r)
    ensures r == [] <==> AllWhitespace(s)
    ensures forall c :: c in r <==> c in s && !IsJsWhitespace(c)
  {
    if |s| == 0 then []
    else if IsJsWhitespace(s[0]) then
      assert AllWhitespace(s) <==> AllWhitespace(s[1..]);
      StripWhitespace(s[1..])
    else
      [s[0]] + StripWhitespace(s[1..])
  }

  /** A string without whitespace is left as it is. */
  lemma {:induction false} StripWhitespaceFixesClean(s: string)
    requires NoWhitespace(s)
    ensures StripWhitespace(s) == s
  {
    if |s| > 0 {
      assert NoWhitespace(s[1..]);
      StripWhitespaceFixesClean(s[1..]);
    }
  }

  /** Stripping twice is stripping once. */
  lemma StripWhitespaceIdempotent(s: string)
    ensures StripWhitespace(StripWhitespace(s)) == StripWhitespace(s)
  {
    StripWhitespaceFixesClean(StripWhitespace(s));
  }

  /** Stripping works character by character, so it distributes over
      concatenation. */
  lemma {:induction false} StripWhitespaceConcat(a: string, b: string)
    ensures StripWhitespace(a + b) == StripWhitespace(a) + StripWhitespace(b)
  {
    if |a| > 0 {
      assert (a + b)[0] == a[0];
      assert (a + b)[1..] == a[1..] + b;
      StripWhitespaceConcat(a[1..], b);
    } else {
      assert a + b == b;
    }
  }

  /** Whitespace between two clean pieces disappears and the pieces join. */
  lemma StripWhitespaceJoins(a: string, w: string, b: string)
    requires NoWhitespace(a) && AllWhitespace(w) && NoWhitespace(b)
    ensures StripWhitespace(a + w + b) == a + b
  {
    StripWhitespaceConcat(a + w, b);
    StripWhitespaceConcat(a, w);
    StripWhitespaceFixesClean(a);
    StripWhitespaceFixesClean(b);
    assert StripWhitespace(w) == [];
    assert StripWhitespace(a + w) == a;
  }

  /** The position of the first `c` in `s`, if any. */
  function IndexOf(s: string, c: char): (r: Option<nat>)
    ensures r.Some? ==> r.value < |s| && s[r.value] == c && c !in s[..r.value]
    ensures r.None? <==> c !in s
  {
    if |s| == 0 then None
    else if s[0] == c then Some(0)
    else
      match IndexOf(s[1..], c)
      case None => None
      case Some(k) =>
        assert s[..k + 1] == [s[0]] + s[1..][..k];
        Some(k + 1)
  }

  /** A position holding `c` with no `c` before it is the one IndexOf finds. */
  lemma IndexOfUnique(s: string, c: char, k: nat)
    requires k < |s| && s[k] == c && c !in s[..k]
    ensures IndexOf(s, c) == Some(k)
  {
    assert c in s;
  }
}
