/** The C character handling the modem relies on: 8-bit `char` values,
    `isspace` and `toupper` in the "C" locale, and the view of a buffer as a
    NUL-terminated string. */
module Bytes {

  /** One C `char` of a buffer: a character code below 256. */
  type Byte = c: char | c as int < 256 witness '\0'

  const NUL: Byte := '\0'
  const CR: Byte := '\r'
  const PLUS: Byte := '+'

  /** `isspace` in the "C" locale: space, and tab through carriage return. */
  predicate IsSpace(c: Byte) {
    c == ' ' || 9 <= c as int <= 13
  }

  /** `toupper` in the "C" locale: only 'a'..'z' change. */
  function Upper(c: Byte): (u: Byte)
    ensures 'a' <= c <= 'z' ==> u as int == c as int - 32
    ensures !('a' <= c <= 'z') ==> u == c
    ensures 'A' <= u <= 'Z' ==> (c == u || c as int == u as int + 32)
    ensures c == NUL <==> u == NUL
  {
    if 'a' <= c <= 'z' then (c as int - 32) as char else c
  }

  predicate IsDigit(c: Byte) {
    '0' <= c <= '9'
  }

  function DigitValue(c: Byte): (d: nat)
    requires IsDigit(c)
    ensures d < 10
  {
    c as int - '0' as int
  }

  /** The character a C pointer reads at index `i` of a buffer holding `s`
      followed by its terminating NUL. */
  function At(s: seq<Byte>, i: nat): Byte {
    if i < |s| then s[i] else NUL
  }

  /** The C string that starts at the front of `s`: everything before the
      first NUL. */
  function CStr(s: seq<Byte>): (r: seq<Byte>)
    ensures |r| <= |s| && r == s[..|r|]
    ensures NUL !in r
    ensures |r| < |s| ==> s[|r|] == NUL
  {
    if s == [] || s[0] == NUL then [] else [s[0]] + CStr(s[1..])
  }

  /** A buffer with no NUL in it is a C string as a whole. */
  lemma {:induction false} CStrWhole(s: seq<Byte>)
    requires NUL !in s
    ensures CStr(s) == s
  {
    if s != [] {
      assert forall i | 0 <= i < |s| - 1 :: s[1..][i] == s[i + 1];
      CStrWhole(s[1..]);
    }
  }
}
