/** The few JavaScript semantics the pages rely on, written out over integers
    and strings: truthiness of a nullable number, `Number(x) || fallback`,
    the truncating `%`, `trim()`, `toLowerCase()` and `includes()`. */
module Js {
  import opened Wrappers

  /** A nullable number is truthy unless it is null or 0 (NaN is not modelled). */
  predicate Truthy(n: Option<int>) {
    n.Some? && n.value != 0
  }

  /** `Number(raw) || fallback`: a missing, unparseable (None) or zero value falls back. */
  function NumberOr(raw: Option<int>, fallback: int): (r: int)
    ensures Truthy(raw) ==> r == raw.value
    ensures !Truthy(raw) ==> r == fallback
    ensures fallback != 0 ==> r != 0
  {
    if Truthy(raw) then raw.value else fallback
  }

  /** `a % b` for `b > 0`: JavaScript truncates toward zero, so the remainder
      takes the sign of `a` (Dafny's `%` never is negative). */
  function Rem(a: int, b: int): (r: int)
    requires b > 0
    ensures a >= 0 ==> 0 <= r < b
    ensures a < 0 ==> -b < r <= 0
  {
    if a >= 0 then a % b else -((-a) % b)
  }

  /** The characters `String.prototype.trim` removes (the Unicode space
      separators beyond U+00A0 and U+FEFF are not modelled). */
  predicate IsTrimmed(c: char) {
    c == ' ' || c == '\t' || c == '\n' || c == '\r' || c == '\U{000B}' || c == '\U{000C}'
    || c == '\U{00A0}' || c == '\U{FEFF}' || c == '\U{2028}' || c == '\U{2029}'
  }

  /** `!s.trim()`: nothing is left once surrounding white space is removed. */
  predicate Blank(s: string) {
    forall i :: 0 <= i < |s| ==> IsTrimmed(s[i])
  }

  /** `toLowerCase()`, character by character through `fold`. */
  function Lower(s: string, fold: char -> char): (r: string)
    ensures |r| == |s|
    ensures forall i :: 0 <= i < |s| ==> r[i] == fold(s[i])
  {
    seq(|s|, i requires 0 <= i < |s| => fold(s[i]))
  }

  /** `s.includes(sub)`: `sub` occurs somewhere in `s`. */
  predicate Includes(s: string, sub: string) {
    exists k :: 0 <= k <= |s| - |sub| && sub <= s[k..]
  }

  lemma IncludesEmpty(s: string)
    ensures Includes(s, "")
  {
    assert "" <= s[0..];
  }
}
