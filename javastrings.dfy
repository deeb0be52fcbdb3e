/** The few `java.lang.String` operations the core relies on, with Java's semantics.
    A Dafny `char` is a Unicode scalar value, so a character outside the Basic
    Multilingual Plane is one `char` here and two UTF-16 code units in Java; indices and
    lengths differ only for such characters, and the core inspects none of them (it
    looks for '@', chars up to U+0020 and ASCII text). */
module JavaStrings {
  import opened Wrappers

  /** How string concatenation renders a possibly null `String`: a null reference
      becomes the four characters "null". */
  function Show(s: Option<string>): string {
    if s.Some? then s.value else "null"
  }

  /** `String.trim` removes every leading and trailing char whose code is at most U+0020. */
  predicate IsTrimmable(c: char) {
    c <= ' '
  }

  /** Index of the first char that `trim` keeps. */
  function TrimStart(s: string): (k: nat)
    ensures k <= |s|
    ensures forall i :: 0 <= i < k ==> IsTrimmable(s[i])
    ensures k < |s| ==> !IsTrimmable(s[k])
  {
    if s == [] || !IsTrimmable(s[0]) then 0 else 1 + TrimStart(s[1..])
  }

  /** One past the index of the last char that `trim` keeps. */
  function TrimEnd(s: string): (l: nat)
    ensures l <= |s|
    ensures forall i :: l <= i < |s| ==> IsTrimmable(s[i])
    ensures l > 0 ==> !IsTrimmable(s[l - 1])
  {
    if s == [] || !IsTrimmable(s[|s| - 1]) then |s| else TrimEnd(s[..|s| - 1])
  }

  /** `String.trim`: the longest infix that neither starts nor ends with a trimmable char. */
  function Trim(s: string): (r: string)
    ensures forall c :: c in r ==> c in s
    ensures r == [] || (!IsTrimmable(r[0]) && !IsTrimmable(r[|r| - 1]))
    ensures r == [] <==> forall i :: 0 <= i < |s| ==> IsTrimmable(s[i])
  {
    var st := TrimStart(s);
    if st == |s| then [] else s[st..TrimEnd(s)]
  }

  /** `String.indexOf(char)`: the first index holding `c`, or -1 when there is none. */
  function IndexOf(s: string, c: char): (r: int)
    ensures -1 <= r < |s|
    ensures r == -1 <==> c !in s
    ensures r >= 0 ==> s[r] == c && c !in s[..r]
  {
    if s == [] then -1
    else if s[0] == c then 0
    else
      var k := IndexOf(s[1..], c);
      if k == -1 then -1 else k + 1
  }

  /** `String.startsWith`. */
  predicate StartsWith(s: string, prefix: string) {
    |prefix| <= |s| && s[..|prefix|] == prefix
  }

  /** `t` occurs in `s` starting at index `i`. */
  predicate OccursAt(s: string, t: string, i: int) {
    0 <= i <= |s| - |t| && s[i..i + |t|] == t
  }

  /** `String.contains`: `t` occurs as a contiguous block of `s`. */
  predicate Contains(s: string, t: string) {
    exists i :: 0 <= i <= |s| - |t| && OccursAt(s, t, i)
  }

  /** `String.replace(CharSequence, CharSequence)` for a non-empty target: every
      occurrence, scanning left to right without overlap, is replaced. */
  function Replace(s: string, target: string, replacement: string): string
    decreases |s|
  {
    if target == [] || |s| < |target| then ReplaceEmpty(s, target, replacement)
    else if s[..|target|] == target then replacement + Replace(s[|target|..], target, replacement)
    else [s[0]] + Replace(s[1..], target, replacement)
  }

  /** The two cases `Replace` does not scan: a target longer than what is left (nothing
      changes) and an empty target (the replacement goes before every char and at the end). */
  function ReplaceEmpty(s: string, target: string, replacement: string): string {
    if target != [] then s
    else if s == [] then replacement
    else replacement + [s[0]] + ReplaceEmpty(s[1..], target, replacement)
  }

  /** `Character.toUpperCase` restricted to ASCII letters. */
  function ToUpperAscii(c: char): char {
    if 'a' <= c <= 'z' then (c as int - 32) as char else c
  }

  /** `String.equalsIgnoreCase`, folding ASCII letters only. */
  predicate EqualsIgnoreCase(a: string, b: string) {
    |a| == |b| && forall i :: 0 <= i < |a| ==> ToUpperAscii(a[i]) == ToUpperAscii(b[i])
  }

  /** `Character.isWhitespace`: the Unicode space, line and paragraph separators other
      than the no-break spaces, plus U+0009..U+000D and U+001C..U+001F. */
  predicate IsWhitespace(c: char) {
    || c == ' ' || '\t' <= c <= '\r' || '\U{1C}' <= c <= '\U{1F}'
    || c == '\U{1680}' || '\U{2000}' <= c <= '\U{2006}' || '\U{2008}' <= c <= '\U{200A}'
    || c == '\U{2028}' || c == '\U{2029}' || c == '\U{205F}' || c == '\U{3000}'
  }

  /** Spring's `StringUtils.hasText`: not null and holding a non-whitespace char. */
  predicate HasText(s: Option<string>) {
    s.Some? && exists i :: 0 <= i < |s.value| && !IsWhitespace(s.value[i])
  }
}
