/**
 * The part of JavaScript's string library the task board relies on:
 * `String.prototype.trim`, which strips white space and line terminators
 * from both ends of a string.
 */
module JsText {

  /** The characters ECMAScript counts as WhiteSpace or LineTerminator. */
  predicate IsJsSpace(c: char)
  {
    || c == '\t' || c == '\n' || c == '\U{000B}' || c == '\U{000C}' || c == '\r'
    || c == ' ' || c == '\U{00A0}' || c == '\U{1680}'
    || ('\U{2000}' <= c <= '\U{200A}')
    || c == '\U{2028}' || c == '\U{2029}' || c == '\U{202F}' || c == '\U{205F}'
    || c == '\U{3000}' || c == '\U{FEFF}'
  }

  /** Every character of `s` is white space (vacuously true of ""). */
  predicate AllSpace(s: string)
  {
    forall k :: 0 <= k < |s| ==> IsJsSpace(s[k])
  }

  /** Drops the leading white space: the result is the suffix of `s` that starts at its first non-space character. */
  function TrimStart(s: string): (r: string)
    ensures |r| <= |s| && r == s[|s| - |r|..]
    ensures AllSpace(s[..|s| - |r|])
    ensures r == [] || !IsJsSpace(r[0])
  {
    if s == [] then []
    else if IsJsSpace(s[0]) then TrimStart(s[1..])
    else s
  }

  /** Drops the trailing white space: the result is the prefix of `s` that ends at its last non-space character. */
  function TrimEnd(s: string): (r: string)
    ensures |r| <= |s| && r == s[..|r|]
    ensures AllSpace(s[|r|..])
    ensures r == [] || !IsJsSpace(r[|r| - 1])
  {
    if s == [] then []
    else if IsJsSpace(s[|s| - 1]) then TrimEnd(s[..|s| - 1])
    else s
  }

  /**
   * `s.trim()`: empty exactly when `s` is white space only; otherwise it
   * neither starts nor ends with white space.
   */
  function Trim(s: string): (r: string)
    ensures r == [] <==> AllSpace(s)
    ensures r != [] ==> !IsJsSpace(r[0]) && !IsJsSpace(r[|r| - 1])
  {
    StripsAllIffAllSpace(s);
    TrimEnd(TrimStart(s))
  }

  /** Stripping both ends removes every character exactly when all of them are white space. */
  lemma StripsAllIffAllSpace(s: string)
    ensures TrimEnd(TrimStart(s)) == [] <==> AllSpace(s)
  {
    var a := TrimStart(s);
    var cut := |s| - |a|;
    if TrimEnd(a) == [] {
      // TrimEnd(a) == [] strips every character of a, but a cannot start with a space.
      assert AllSpace(a[0..]);
      assert a[0..] == a;
      assert a == [];
      assert s[..cut] == s;
    } else {
      assert a != [];
      assert !IsJsSpace(a[0]);
      assert s[cut] == a[0];
    }
  }
}
