/**
  Byte length of a Rust string. A Rust `String` is UTF-8, and `String::len`
  counts bytes, not characters: each Unicode scalar value takes one to four
  bytes depending on its code point.
 */
module Utf8 {

  /** Number of bytes UTF-8 spends on the scalar value `c`. */
  function Width(c: char): (w: nat)
    ensures 1 <= w <= 4
    ensures w == 1 <==> c as int < 0x80
    ensures w == 2 <==> 0x80 <= c as int < 0x800
    ensures w == 3 <==> 0x800 <= c as int < 0x1_0000
    ensures w == 4 <==> 0x1_0000 <= c as int
  {
    if c as int < 0x80 then 1
    else if c as int < 0x800 then 2
    else if c as int < 0x1_0000 then 3
    else 4
  }

  /** `str::len`: the number of bytes in the UTF-8 encoding of `s`. */
  function ByteLength(s: string): (n: nat)
    ensures |s| <= n <= 4 * |s|
    ensures n == 0 <==> s == []
  {
    if s == [] then 0 else Width(s[0]) + ByteLength(s[1..])
  }

  /** ASCII text: every character is below U+0080. */
  predicate IsAscii(s: string) {
    forall i :: 0 <= i < |s| ==> s[i] as int < 0x80
  }

  /** On ASCII text, bytes and characters coincide; any other character
      makes the byte length exceed the character count. */
  lemma {:induction false} ByteLengthAsciiIff(s: string)
    ensures ByteLength(s) == |s| <==> IsAscii(s)
  {
    if s != [] {
      ByteLengthAsciiIff(s[1..]);
      assert IsAscii(s) <==> s[0] as int < 0x80 && IsAscii(s[1..]) by {
        if IsAscii(s) {
          forall i | 0 <= i < |s[1..]| ensures s[1..][i] as int < 0x80 {
            assert s[1..][i] == s[i + 1];
          }
        }
        if s[0] as int < 0x80 && IsAscii(s[1..]) {
          forall i | 0 <= i < |s| ensures s[i] as int < 0x80 {
            if i > 0 { assert s[i] == s[1..][i - 1]; }
          }
        }
      }
    }
  }
}
