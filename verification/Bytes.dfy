/** Bytes and the handful of C character classes the configuration code uses. */
module Bytes {

  type Byte = b: int | 0 <= b < 256
  type Bytes = seq<Byte>

  const NUL: Byte := 0
  const BS: Byte := 8
  const TAB: Byte := 9
  const LF: Byte := 10
  const VT: Byte := 11
  const FF: Byte := 12
  const CR: Byte := 13
  const SPACE: Byte := 32
  const DQUOTE: Byte := 34
  const HASH: Byte := 35
  const SQUOTE: Byte := 39
  const PLUS: Byte := 43
  const MINUS: Byte := 45
  const DOT: Byte := 46
  const SEMICOLON: Byte := 59
  const EQUALS: Byte := 61
  const LBRACKET: Byte := 91
  const BACKSLASH: Byte := 92
  const RBRACKET: Byte := 93
  const LOWER_B: Byte := 98
  const LOWER_N: Byte := 110
  const LOWER_T: Byte := 116

  /** `isspace()` in the C locale. */
  predicate IsSpace(c: Byte) {
    c == SPACE || c == TAB || c == LF || c == VT || c == FF || c == CR
  }

  predicate IsUpper(c: Byte) { 65 <= c <= 90 }

  predicate IsAlpha(c: Byte) { IsUpper(c) || 97 <= c <= 122 }

  predicate IsDigit(c: Byte) { 48 <= c <= 57 }

  /** `iskeychar()`: alphanumeric or `-`. */
  predicate IsKeyChar(c: Byte) { IsAlpha(c) || IsDigit(c) || c == MINUS }

  function Lower(c: Byte): Byte { if IsUpper(c) then c + 32 else c }

  function LowerAll(s: Bytes): (r: Bytes)
    ensures |r| == |s|
    ensures forall i :: 0 <= i < |s| ==> r[i] == Lower(s[i])
  {
    seq(|s|, i requires 0 <= i < |s| => Lower(s[i]))
  }
}
