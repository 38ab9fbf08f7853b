/**
 The operations of the Arduino `String` class that the request parser relies on.
 Positions are unsigned 32-bit values there, so a negative `indexOf` result that is
 passed on as a position becomes a very large one.
 */
module ArduinoString {
  const U32_LIMIT := 0x1_0000_0000

  /** Conversion to an unsigned 32-bit value. */
  function U32(x: int): (r: nat)
    ensures r < U32_LIMIT
    ensures 0 <= x < U32_LIMIT ==> r == x
  {
    x % U32_LIMIT
  }

  /** First position of `c`, or -1. The search is over a C string: it stops at a NUL. */
  function IndexOf(s: string, c: char): (i: int)
    ensures -1 <= i < |s|
    ensures i >= 0 ==> s[i] == c && c !in s[..i]
  {
    if s == "" || s[0] == '\0' then -1
    else if s[0] == c then 0
    else
      var i := IndexOf(s[1..], c);
      if i < 0 then -1 else
        assert s[..i + 1] == [s[0]] + s[1..][..i];
        i + 1
  }

  /** Positions beyond the end are clipped and crossed positions are exchanged. */
  function Substring(s: string, left: nat, right: nat): (r: string)
    ensures |r| <= |s|
    ensures left <= right <= |s| ==> r == s[left..right]
  {
    var (lo, hi) := if left > right then (right, left) else (left, right);
    if lo >= |s| then "" else s[lo..if hi > |s| then |s| else hi]
  }

  function SubstringFrom(s: string, left: nat): (r: string)
    ensures |r| <= |s|
    ensures left > 0 && |s| > 0 ==> |r| < |s|
    ensures left <= |s| ==> r == s[left..]
  {
    if left >= |s| then "" else s[left..]
  }

  function ToLower(c: char): char {
    if 'A' <= c <= 'Z' then ((c as int) + 32) as char else c
  }

  predicate EqualsIgnoreCase(a: string, b: string) {
    |a| == |b| && forall i :: 0 <= i < |a| ==> ToLower(a[i]) == ToLower(b[i])
  }
}
