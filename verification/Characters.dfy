/** Classes of characters in Python's strings. */
module Characters {
  /** What `str.strip` and `\s` take for white space. */
  predicate IsSpace(c: char) {
    var n := c as int;
    || 0x9 <= n <= 0xD || 0x1C <= n <= 0x20 || n == 0x85 || n == 0xA0 || n == 0x1680 || 0x2000 <= n <= 0x200A
    || n == 0x2028 || n == 0x2029 || n == 0x202F || n == 0x205F || n == 0x3000
  }

  predicate IsBlank(s: string) { forall i :: 0 <= i < |s| ==> IsSpace(s[i]) }

  /** Where `str.splitlines` ends a line. */
  predicate IsBreak(c: char) {
    var n := c as int;
    0xA <= n <= 0xD || 0x1C <= n <= 0x1E || n == 0x85 || n == 0x2028 || n == 0x2029
  }
}
