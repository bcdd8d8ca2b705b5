/**
 * Character classification as the sorter uses it through Python's
 * `str.lower`, `str.upper`, `str.isupper` and `str.isalnum`.
 *
 * The answers are written out for the characters the sorter cares about:
 * ASCII, and the Cyrillic letters U+0400..U+045F and U+0490..U+0491
 * (the "charted" characters).  For every other character the answers are
 * whatever a `Unicode` value says, so every property proved below holds
 * for all possible Unicode tables.
 */
module Chars {

  /** Python's answers for characters outside the charted ranges. */
  datatype Unicode = Unicode(lower: char -> char, isUpper: char -> bool, isAlnum: char -> bool)

  predicate IsAsciiUpper(c: char) { 'A' <= c <= 'Z' }
  predicate IsAsciiLower(c: char) { 'a' <= c <= 'z' }
  predicate IsAsciiDigit(c: char) { '0' <= c <= '9' }
  predicate IsAsciiLetter(c: char) { IsAsciiUpper(c) || IsAsciiLower(c) }
  predicate IsAsciiAlnum(c: char) { IsAsciiLetter(c) || IsAsciiDigit(c) }

  /** Cyrillic capitals: U+0400..U+042F and GHE WITH UPTURN U+0490. */
  predicate IsCyrillicUpper(c: char) { '\U{0400}' <= c <= '\U{042F}' || c == '\U{0490}' }
  /** Cyrillic small letters: U+0430..U+045F and U+0491. */
  predicate IsCyrillicLower(c: char) { '\U{0430}' <= c <= '\U{045F}' || c == '\U{0491}' }

  predicate IsCharted(c: char) { c < '\U{0080}' || IsCyrillicUpper(c) || IsCyrillicLower(c) }

  /** `c.lower()` for a single character (assumed to stay one character). */
  function Lower(c: char, u: Unicode): (r: char)
    ensures IsAsciiUpper(c) ==> IsAsciiLower(r) && r as int == c as int + 32
    ensures IsCyrillicUpper(c) ==> IsCyrillicLower(r)
    ensures IsCharted(c) && !IsAsciiUpper(c) && !IsCyrillicUpper(c) ==> r == c
    ensures c < '\U{0080}' ==> r < '\U{0080}'
  {
    if IsAsciiUpper(c) then (c as int + 32) as char
    else if '\U{0400}' <= c <= '\U{040F}' then (c as int + 0x50) as char
    else if '\U{0410}' <= c <= '\U{042F}' then (c as int + 0x20) as char
    else if c == '\U{0490}' then '\U{0491}'
    else if IsCharted(c) then c
    else u.lower(c)
  }

  /** `c.isupper()`. */
  predicate IsUpper(c: char, u: Unicode)
  {
    if IsCharted(c) then IsAsciiUpper(c) || IsCyrillicUpper(c) else u.isUpper(c)
  }

  /** `c.isalnum()`: ASCII letters and digits and every charted Cyrillic letter. */
  predicate IsAlnum(c: char, u: Unicode)
  {
    if IsCharted(c) then IsAsciiAlnum(c) || IsCyrillicUpper(c) || IsCyrillicLower(c) else u.isAlnum(c)
  }

  /** The capital whose `lower()` is the Cyrillic small letter `c`. */
  function CyrillicUpper(c: char): (r: char)
    requires IsCyrillicLower(c)
    ensures IsCyrillicUpper(r)
    ensures forall u: Unicode :: Lower(r, u) == c && IsUpper(r, u)
  {
    if c <= '\U{044F}' then (c as int - 0x20) as char
    else if c <= '\U{045F}' then (c as int - 0x50) as char
    else '\U{0490}'
  }

  /** `str.upper()` on one ASCII character; other characters are left alone. */
  function UpperAscii(c: char): (r: char)
    ensures IsAsciiLower(c) ==> IsAsciiUpper(r) && r as int == c as int - 32
    ensures !IsAsciiLower(c) ==> r == c
  {
    if IsAsciiLower(c) then (c as int - 32) as char else c
  }

  /** `s.upper()` for a string of ASCII letters. */
  function UpperStr(s: string): (r: string)
    ensures |r| == |s|
    ensures forall i :: 0 <= i < |s| ==> r[i] == UpperAscii(s[i])
  {
    seq(|s|, i requires 0 <= i < |s| => UpperAscii(s[i]))
  }

  /** `s.lower()`, character by character. */
  function LowerStr(s: string, u: Unicode): (r: string)
    ensures |r| == |s|
    ensures forall i :: 0 <= i < |s| ==> r[i] == Lower(s[i], u)
  {
    seq(|s|, i requires 0 <= i < |s| => Lower(s[i], u))
  }

  /** Lower-casing undoes `UpperStr`: `s.upper().lower() == s.lower()` for these strings. */
  lemma LowerOfUpper(s: string, u: Unicode)
    ensures LowerStr(UpperStr(s), u) == LowerStr(s, u)
  {
    forall i | 0 <= i < |s|
      ensures Lower(UpperAscii(s[i]), u) == Lower(s[i], u)
    {
      if IsAsciiLower(s[i]) {
        assert IsAsciiUpper(UpperAscii(s[i]));
      }
    }
  }
}
