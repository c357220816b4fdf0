/** Bytes, the characters and numbers several modules speak of, and the optional value. */
module Bytes {
  type byte = x: int | 0 <= x < 256

  datatype Option<+T> = None | Some(value: T)

  const SLASH: byte := 47
  const QUESTION: byte := 63

  const WORD32: nat := 0x1_0000_0000
  const WORD64: nat := 0x1_0000_0000_0000_0000

  predicate IsAlpha(c: byte) { 65 <= c <= 90 || 97 <= c <= 122 }

  predicate IsDigit(c: int) { 48 <= c <= 57 }

  predicate IsHexDigit(c: int) { IsDigit(c) || 65 <= c <= 70 || 97 <= c <= 102 }

  function Least(a: nat, b: nat): nat {
    if a <= b then a else b
  }
}
