/** UTF-8 as RFC 3629, section 3, defines it. */
module Utf8 {
  import opened Octets

  function Width(b: byte): nat {
    if b < 0x80 then 1
    else if 0xC0 <= b < 0xE0 then 2
    else if 0xE0 <= b < 0xF0 then 3
    else if 0xF0 <= b < 0xF8 then 4
    else 0
  }

  predicate Tail(b: byte) { 0x80 <= b < 0xC0 }

  /** The length of the well-formed character at the front, 0 if there is none. */
  function CharLength(t: seq<byte>): (w: nat)
    ensures w <= |t| && (w > 0 ==> w == Width(t[0]))
  {
    if |t| >= 1 && t[0] < 0x80 then 1
    else if |t| >= 2 && 0xC2 <= t[0] < 0xE0 && Tail(t[1]) then 2
    else if |t| >= 3 && 0xE0 <= t[0] < 0xF0 && Tail(t[1]) && Tail(t[2]) &&
            (t[0] == 0xE0 ==> t[1] >= 0xA0) && (t[0] == 0xED ==> t[1] < 0xA0) then 3
    else if |t| >= 4 && 0xF0 <= t[0] < 0xF5 && Tail(t[1]) && Tail(t[2]) && Tail(t[3]) &&
            (t[0] == 0xF0 ==> t[1] >= 0x90) && (t[0] == 0xF4 ==> t[1] < 0x90) then 4
    else 0
  }

  predicate ValidUtf8(t: seq<byte>) {
    t == [] || (CharLength(t) > 0 && ValidUtf8(t[CharLength(t)..]))
  }

  /** A single well-formed character. */
  predicate OneChar(c: seq<byte>) {
    |c| > 0 && CharLength(c) == |c|
  }

  /** The scalar value, accumulated as the emitter does from the leading byte on. */
  function Decode(c: seq<byte>): (v: nat)
    requires OneChar(c)
  {
    if |c| == 1 then c[0] as int % 128
    else if |c| == 2 then (c[0] as int % 32) * 64 + c[1] as int % 64
    else if |c| == 3 then ((c[0] as int % 16) * 64 + c[1] as int % 64) * 64 + c[2] as int % 64
    else (((c[0] as int % 8) * 64 + c[1] as int % 64) * 64 + c[2] as int % 64) * 64 + c[3] as int % 64
  }

  /** Scalar values that a character can have. */
  predicate Scalar(v: int) {
    0 <= v <= 0x10FFFF && !(0xD800 <= v <= 0xDFFF)
  }

  /** The bytes the scanner writes for an escape code. */
  function Encode(v: nat): seq<byte>
    requires v <= 0x10FFFF
  {
    if v <= 0x7F then [v]
    else if v <= 0x7FF then [0xC0 + v / 64, 0x80 + v % 64]
    else if v <= 0xFFFF then [0xE0 + v / 4096, 0x80 + v / 64 % 64, 0x80 + v % 64]
    else [0xF0 + v / 262144, 0x80 + v / 4096 % 64, 0x80 + v / 64 % 64, 0x80 + v % 64]
  }

  /** Decoding and encoding a well-formed character gives it back. */
  lemma EncodeDecode(c: seq<byte>)
    requires OneChar(c)
    ensures Scalar(Decode(c)) && Encode(Decode(c)) == c
  {
    if |c| == 1 { EncodeDecode1(c); }
    else if |c| == 2 { EncodeDecode2(c); }
    else if |c| == 3 { EncodeDecode3(c); }
    else { EncodeDecode4(c); }
  }

  lemma EncodeDecode1(c: seq<byte>)
    requires OneChar(c) && |c| == 1
    ensures Scalar(Decode(c)) && Encode(Decode(c)) == c
  {
  }

  lemma EncodeDecode2(c: seq<byte>)
    requires OneChar(c) && |c| == 2
    ensures Scalar(Decode(c)) && Encode(Decode(c)) == c
  {
    var v := Decode(c);
    assert v / 64 == c[0] as int - 0xC0 && v % 64 == c[1] as int - 0x80;
  }

  lemma EncodeDecode3(c: seq<byte>)
    requires OneChar(c) && |c| == 3
    ensures Scalar(Decode(c)) && Encode(Decode(c)) == c
  {
    var v := Decode(c);
    var x: int, y: int, z: int := c[0] as int - 0xE0, c[1] as int - 0x80, c[2] as int - 0x80;
    assert v == x * 4096 + y * 64 + z;
    assert v / 64 == x * 64 + y && v / 4096 == x;
  }

  lemma EncodeDecode4(c: seq<byte>)
    requires OneChar(c) && |c| == 4
    ensures Scalar(Decode(c)) && Encode(Decode(c)) == c
  {
    var v := Decode(c);
    var x: int, y: int, z: int, u: int :=
      c[0] as int - 0xF0, c[1] as int - 0x80, c[2] as int - 0x80, c[3] as int - 0x80;
    assert v == x * 262144 + y * 4096 + z * 64 + u;
    assert v / 64 == x * 4096 + y * 64 + z && v / 4096 == x * 64 + y && v / 262144 == x;
  }

  /** The first character of valid text stands alone. */
  lemma {:induction false} FirstChar(t: seq<byte>)
    requires t != [] && ValidUtf8(t)
    ensures OneChar(t[..CharLength(t)]) && CharLength(t) == Width(t[0]) && ValidUtf8(t[CharLength(t)..])
  {
  }

  // ---- Sequences of characters ----

  function Join(cs: seq<seq<byte>>): seq<byte> {
    if cs == [] then [] else Join(cs[..|cs| - 1]) + cs[|cs| - 1]
  }

  lemma {:induction false} JoinCons(c: seq<byte>, cs: seq<seq<byte>>)
    ensures Join([c] + cs) == c + Join(cs)
  {
    if cs == [] {
      assert [c] + cs == [c] && [c][..0] == [];
    } else {
      JoinCons(c, cs[..|cs| - 1]);
      assert ([c] + cs)[..|cs|] == [c] + cs[..|cs| - 1];
    }
  }

  lemma {:induction false} JoinSnoc(cs: seq<seq<byte>>, c: seq<byte>)
    ensures Join(cs + [c]) == Join(cs) + c
  {
    assert (cs + [c])[..|cs|] == cs;
  }
}
