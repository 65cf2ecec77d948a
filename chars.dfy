/** Character classification and line-break scanning shared by the text counter
    and the cursor-position parser. */
module Chars {

  /** `Char.IsWhiteSpace`: the Unicode space, line and paragraph separators
      (categories Zs, Zl, Zp) and U+0009 to U+000D and U+0085. */
  predicate IsWhiteSpace(c: char)
  {
    var n := c as int;
    (0x09 <= n <= 0x0D) || n == 0x20 || n == 0x85 || n == 0xA0 || n == 0x1680 ||
    (0x2000 <= n <= 0x200A) || n == 0x2028 || n == 0x2029 || n == 0x202F ||
    n == 0x205F || n == 0x3000
  }

  /** The character seen before position `i` of a scan that starts with `'\0'`. */
  function PreviousAt(s: string, i: nat): char
    requires i <= |s|
  {
    if i == 0 then '\0' else s[i - 1]
  }

  /** Both scans count a line break at every `'\r'` and at every `'\n'` that does
      not directly follow a `'\r'`, so that `"\r\n"` is one break. */
  predicate IsBreak(previous: char, c: char)
  {
    c == '\r' || (c == '\n' && previous != '\r')
  }

  predicate IsBreakAt(s: string, i: nat)
    requires i < |s|
  {
    IsBreak(PreviousAt(s, i), s[i])
  }

  /** The number of line breaks in `s`. */
  function LineBreaks(s: string): nat
  {
    if s == [] then 0
    else LineBreaks(s[..|s| - 1]) + if IsBreakAt(s, |s| - 1) then 1 else 0
  }

  /** The position just after the last line break of `s`, 0 when there is none. */
  function LastBreakEnd(s: string): (e: nat)
    ensures e <= |s|
    ensures e > 0 ==> IsBreakAt(s, e - 1)
    ensures forall i :: e <= i < |s| ==> !IsBreakAt(s, i)
  {
    if s == [] then 0
    else if IsBreakAt(s, |s| - 1) then |s|
    else
      var e := LastBreakEnd(s[..|s| - 1]);
      assert forall i :: 0 <= i < |s| - 1 ==> IsBreakAt(s[..|s| - 1], i) == IsBreakAt(s, i);
      e
  }

  /** Scanning only a prefix sees the same breaks and the same previous characters. */
  lemma PrefixBreaks(s: string, k: nat, i: nat)
    requires i < k <= |s|
    ensures PreviousAt(s[..k], i) == PreviousAt(s, i)
    ensures IsBreakAt(s[..k], i) == IsBreakAt(s, i)
  {
  }
}
