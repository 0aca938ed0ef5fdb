/**
 * Character and string helpers shared by the matcher, the tokenizer and the
 * variant expander. Only the ASCII range is modelled: Python's `lower()`,
 * `upper()` and `strip()` also act on the rest of Unicode.
 */
module Text {

  predicate IsAsciiUpper(c: char) { 'A' <= c <= 'Z' }

  predicate IsAsciiLower(c: char) { 'a' <= c <= 'z' }

  /** `c.lower()` on one character. */
  function Lower(c: char): (r: char)
    ensures IsAsciiUpper(c) ==> IsAsciiLower(r) && r as int == c as int + 32
    ensures !IsAsciiUpper(c) ==> r == c
  {
    if IsAsciiUpper(c) then (c as int + 32) as char else c
  }

  /** `c.upper()` on one character. */
  function Upper(c: char): (r: char)
    ensures IsAsciiLower(c) ==> IsAsciiUpper(r) && r as int + 32 == c as int
    ensures !IsAsciiLower(c) ==> r == c
  {
    if IsAsciiLower(c) then (c as int - 32) as char else c
  }

  /** Two characters that agree case-insensitively have the same upper case. */
  lemma SameLowerSameUpper(a: char, b: char)
    requires Lower(a) == Lower(b)
    ensures Upper(a) == Upper(b)
  {
  }

  /** `s.upper()`. */
  function UpperString(s: string): (r: string)
    ensures |r| == |s|
    ensures forall i :: 0 <= i < |s| ==> r[i] == Upper(s[i])
  {
    seq(|s|, i requires 0 <= i < |s| => Upper(s[i]))
  }

  /** `s.lower()`. */
  function LowerString(s: string): (r: string)
    ensures |r| == |s|
    ensures forall i :: 0 <= i < |s| ==> r[i] == Lower(s[i])
  {
    seq(|s|, i requires 0 <= i < |s| => Lower(s[i]))
  }

  lemma UpperStringConcat(a: string, b: string)
    ensures UpperString(a + b) == UpperString(a) + UpperString(b)
  {
  }

  /** The characters `str.strip()` removes, restricted to ASCII. */
  predicate IsStripSpace(c: char)
  {
    c == ' ' || '\t' <= c <= '\r' || '\U{1c}' <= c <= '\U{1f}'
  }

  /** `s.strip()`: drop leading and trailing white space. */
  function Strip(s: string): (r: string)
    ensures exists i, j ::
              && 0 <= i <= j <= |s| && r == s[i..j]
              && (forall k :: 0 <= k < i ==> IsStripSpace(s[k]))
              && (forall k :: j <= k < |s| ==> IsStripSpace(s[k]))
    ensures r != [] ==> !IsStripSpace(r[0]) && !IsStripSpace(r[|r| - 1])
  {
    var i := LeftCut(s);
    var j := i + RightCut(s[i..]);
    assert forall k :: j <= k < |s| ==> s[k] == s[i..][k - i];
    s[i..j]
  }

  /** How many characters `lstrip()` removes. */
  function LeftCut(s: string): (i: nat)
    ensures i <= |s|
    ensures forall k :: 0 <= k < i ==> IsStripSpace(s[k])
    ensures i < |s| ==> !IsStripSpace(s[i])
  {
    if s != [] && IsStripSpace(s[0]) then 1 + LeftCut(s[1..]) else 0
  }

  /** Where `rstrip()` cuts. */
  function RightCut(s: string): (j: nat)
    ensures j <= |s|
    ensures forall k :: j <= k < |s| ==> IsStripSpace(s[k])
    ensures s != [] && !IsStripSpace(s[0]) ==> j > 0
    ensures j > 0 ==> !IsStripSpace(s[j - 1])
  {
    if s != [] && IsStripSpace(s[|s| - 1]) then RightCut(s[..|s| - 1]) else |s|
  }
}
