/** The character classes shared by the YAML scanner and emitter. */
module YamlBytes {
  import opened Octets

  /** The byte at an offset; the reader ends its input with NUL. */
  function At(t: seq<byte>, i: nat): byte {
    if i < |t| then t[i] else 0
  }

  predicate IsSpace(t: seq<byte>) { At(t, 0) == 0x20 }

  predicate IsBlank(t: seq<byte>) { At(t, 0) == 0x20 || At(t, 0) == 0x09 }

  predicate IsZ(t: seq<byte>) { At(t, 0) == 0 }

  predicate IsBreak(t: seq<byte>) {
    At(t, 0) == 0x0D || At(t, 0) == 0x0A ||
    (At(t, 0) == 0xC2 && At(t, 1) == 0x85) ||
    (At(t, 0) == 0xE2 && At(t, 1) == 0x80 && (At(t, 2) == 0xA8 || At(t, 2) == 0xA9))
  }

  predicate IsBlankz(t: seq<byte>) { IsBlank(t) || IsBreak(t) || IsZ(t) }

  predicate IsAscii(t: seq<byte>) { At(t, 0) < 0x80 }

  predicate IsBom(t: seq<byte>) { At(t, 0) == 0xEF && At(t, 1) == 0xBB && At(t, 2) == 0xBF }

  predicate IsPrintable(t: seq<byte>) {
    var a, b, c := At(t, 0), At(t, 1), At(t, 2);
    a == 0x0A || 0x20 <= a <= 0x7E || (a == 0xC2 && b >= 0xA0) || 0xC2 < a < 0xED ||
    (a == 0xED && b < 0xA0) || a == 0xEE ||
    (a == 0xEF && !(b == 0xBB && c == 0xBF) && !(b == 0xBF && (c == 0xBE || c == 0xBF)))
  }

  // ---- Hexadecimal ----

  function HexDigit(d: nat): byte
    requires d < 16
  {
    if d < 10 then d + 0x30 else d + 0x37   // '0'.. and 'A'..
  }

  /** The last `n` hexadecimal digits of `v`. */
  function HexDigits(v: nat, n: nat): (r: seq<byte>)
    ensures |r| == n
  {
    if n == 0 then [] else HexDigits(v / 16, n - 1) + [HexDigit(v % 16)]
  }
}
