/** Bytes as numbers, and their hexadecimal digits. */
module Octets {
  type byte = x: int | 0 <= x < 256

  predicate IsHex(b: byte) {
    0x30 <= b <= 0x39 || 0x41 <= b <= 0x46 || 0x61 <= b <= 0x66
  }

  function AsHex(b: byte): (r: nat)
    requires IsHex(b)
    ensures r < 16
  {
    if b <= 0x39 then b - 0x30 else if b <= 0x46 then b - 0x41 + 10 else b - 0x61 + 10
  }

  const UPPER_DIGITS := "0123456789ABCDEF"
  const LOWER_DIGITS := "0123456789abcdef"

  /** The character of a hexadecimal digit, in either case. */
  predicate DigitOf(b: byte, d: nat) {
    d < 16 && (b == UPPER_DIGITS[d] as int || b == LOWER_DIGITS[d] as int)
  }

  /** What the digits are read as is what they are. */
  lemma DigitRead(b: byte, d: nat)
    ensures DigitOf(b, d) <==> IsHex(b) && AsHex(b) == d
  {
  }

  function HexChar(d: nat): byte
    requires d < 16
  {
    if d < 10 then 0x30 + d else 0x61 + d - 10
  }

  lemma HexCharValue(d: nat)
    requires d < 16
    ensures IsHex(HexChar(d)) && AsHex(HexChar(d)) == d
  {
  }

  /** Digits that spell a number, in either case. */
  predicate Spells(digits: seq<byte>, v: nat)
    decreases |digits|
  {
    if digits == [] then v == 0 else DigitOf(digits[|digits| - 1], v % 16) && Spells(digits[..|digits| - 1], v / 16)
  }
}
