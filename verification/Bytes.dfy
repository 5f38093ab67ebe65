/** Bytes, and the characters the sources name, as numbers. */
module Bytes {

  type Byte = x: int | 0 <= x < 256

  const NUL: Byte := 0
  const SPACE: Byte := 0x20
  const QUOTE: Byte := 0x22
  const APOSTROPHE: Byte := 0x27
  const BACKSLASH: Byte := 0x5C

  /** `isspace` and `isprint` in the C locale. */
  predicate IsSpace(c: Byte) {
    c == SPACE || 9 <= c <= 13
  }

  predicate IsPrint(c: Byte) {
    0x20 <= c <= 0x7E
  }

  predicate IsHexDigit(c: Byte) {
    0x30 <= c <= 0x39 || 0x61 <= c <= 0x66 || 0x41 <= c <= 0x46
  }

  function HexDigitToInt(c: Byte): (v: nat)
    ensures v < 16
  {
    if 0x30 <= c <= 0x39 then c - 0x30
    else if 0x61 <= c <= 0x66 then c - 0x61 + 10
    else if 0x41 <= c <= 0x46 then c - 0x41 + 10
    else 0
  }
}
