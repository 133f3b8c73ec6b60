/**
 * The string primitives of the .NET base library that the packer relies on:
 * ordinal case-insensitive comparison (`StringComparison.OrdinalIgnoreCase`),
 * `String.IndexOf(char)`, `Char.IsWhiteSpace` and `String.IsNullOrWhiteSpace`.
 *
 * Case folding is restricted to the ASCII letters; every other character is
 * compared exactly.
 */
module Text {
  import opened Wrappers

  predicate IsLower(c: char) {
    'a' <= c <= 'z'
  }

  /** The upper-case form of `c` used for case-insensitive comparison. */
  function ToUpper(c: char): (u: char)
    ensures !IsLower(u)
    ensures u == c || (IsLower(c) && 'A' <= u <= 'Z' && u as int + 32 == c as int)
  {
    if IsLower(c) then (c as int - 32) as char else c
  }

  /** Two characters are equal once both are upper-cased. */
  predicate CharEqualsIgnoreCase(a: char, b: char) {
    ToUpper(a) == ToUpper(b)
  }

  /** `a.Equals(b, StringComparison.OrdinalIgnoreCase)`. */
  predicate EqualsIgnoreCase(a: string, b: string) {
    |a| == |b| && forall i :: 0 <= i < |a| ==> CharEqualsIgnoreCase(a[i], b[i])
  }

  /** `s.StartsWith(prefix, StringComparison.OrdinalIgnoreCase)`. */
  predicate StartsWithIgnoreCase(s: string, prefix: string) {
    |prefix| <= |s| && EqualsIgnoreCase(s[..|prefix|], prefix)
  }

  /** `s.EndsWith(suffix, StringComparison.OrdinalIgnoreCase)`. */
  predicate EndsWithIgnoreCase(s: string, suffix: string) {
    |suffix| <= |s| && EqualsIgnoreCase(s[|s| - |suffix|..], suffix)
  }

  /** Only `=` itself upper-cases to `=`, so a case-insensitive match on `=` is an exact one. */
  lemma EqualsSignFoldsOnlyToItself(c: char)
    ensures CharEqualsIgnoreCase(c, '=') <==> c == '='
  {
  }

  /**
   * `s.IndexOf(c)`: the position of the first occurrence of `c` in `s`,
   * or -1 when `c` does not occur.
   */
  function IndexOf(s: string, c: char): (r: int)
    ensures -1 <= r < |s|
    ensures r == -1 <==> forall j :: 0 <= j < |s| ==> s[j] != c
    ensures 0 <= r ==> s[r] == c && forall j :: 0 <= j < r ==> s[j] != c
  {
    if |s| == 0 then -1
    else if s[0] == c then 0
    else
      var k := IndexOf(s[1..], c);
      if k == -1 then -1 else k + 1
  }

  /**
   * `Char.IsWhiteSpace(c)`: the characters of the Unicode White_Space
   * property, as .NET lists them.
   */
  predicate IsWhiteSpace(c: char) {
    var n := c as int;
    || 0x09 <= n <= 0x0D
    || n == 0x20
    || n == 0x85
    || n == 0xA0
    || n == 0x1680
    || 0x2000 <= n <= 0x200A
    || n == 0x2028
    || n == 0x2029
    || n == 0x202F
    || n == 0x205F
    || n == 0x3000
  }

  /** `String.IsNullOrWhiteSpace(s)`: null, empty, or nothing but white space. */
  predicate IsNullOrWhiteSpace(s: Option<string>) {
    match s
    case None => true
    case Some(v) => forall i :: 0 <= i < |v| ==> IsWhiteSpace(v[i])
  }

  /** `String.IsNullOrEmpty(s)`. */
  predicate IsNullOrEmpty(s: Option<string>) {
    s.None? || s.value == ""
  }
}
