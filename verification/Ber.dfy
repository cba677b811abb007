/** Basic Encoding Rules: identifiers, lengths, and trees of packets (X.690). */
module Ber {
  import opened Octets

  datatype Error =
    | UnexpectedEof | InvalidFirstTagByte | TagOverflow | InvalidLengthByte | LengthOverflow
    | IndefinitePrimitive | BoundaryMismatch | UnexpectedEoc | IntegerTooLarge
    | Crashed   // a panic: making room for the data of a primitive packet with a negative length

  datatype Result<+T> = Ok(value: T, rest: seq<byte>) | Err(error: Error)

  /** `class` in the two top bits: 0, 64, 128 or 192. */
  datatype Identifier = Identifier(class_: nat, constructed: bool, tag: nat)

  /** The data of a constructed packet is the encoding of its children. */
  datatype Packet = Packet(id: Identifier, data: seq<byte>, children: seq<Packet>)

  const HIGH_TAG := 31
  const INDEFINITE := -1
  const TWO_63 := 0x8000_0000_0000_0000
  const TWO_64 := 0x1_0000_0000_0000_0000

  // ---- Digits ----

  function Power(b: nat, n: nat): nat {
    if n == 0 then 1 else b * Power(b, n - 1)
  }

  lemma {:induction false} PowerPositive(b: nat, n: nat)
    requires b > 0
    ensures Power(b, n) > 0
  {
    if n > 0 { PowerPositive(b, n - 1); }
  }

  /** The last `n` base-128 digits of `v`. */
  function Low(v: nat, n: nat): nat {
    if n == 0 then 0 else Low(v / 128, n - 1) * 128 + v % 128
  }

  /** A number with at most n digits is its last n digits, and conversely. */
  lemma {:induction false} LowWhole(v: nat, n: nat)
    ensures Low(v, n) < Power(128, n)
    ensures Low(v, n) == v <==> v < Power(128, n)
  {
    if n > 0 { LowWhole(v / 128, n - 1); }
  }

  // ---- Identifiers ----

  predicate ValidIdentifier(id: Identifier) {
    id.class_ in {0, 64, 128, 192} && id.tag < TWO_64
  }

  function Leading(id: Identifier): byte {
    (id.class_ + (if id.constructed then 32 else 0) + (if id.tag < HIGH_TAG then id.tag else HIGH_TAG)) % 256
  }

  /** The index of the highest bit set. */
  function HighBit(tag: nat): nat {
    if tag < 2 then 0 else 1 + HighBit(tag / 2)
  }

  /** How many bytes the encoder gives a high tag number. */
  function TagBytes(tag: nat): nat {
    (HighBit(tag) + 6) / 7
  }

  /** The last `n` base-128 digits, all but the last with the top bit set; built
      from the last digit back. */
  function TagDigits(v: nat, n: nat, more: bool): (r: seq<byte>)
    ensures |r| == n
  {
    if n == 0 then [] else TagDigits(v / 128, n - 1, true) + [v % 128 + if more then 128 else 0]
  }

  function EncodeIdentifier(id: Identifier): (r: seq<byte>)
    ensures |r| >= 1
  {
    if id.tag < HIGH_TAG then [Leading(id)]
    else [Leading(id)] + TagDigits(id.tag, TagBytes(id.tag), false)
  }

  /** A high tag number, `k` bytes of which have been read as `tag`. */
  function ReadTag(t: seq<byte>, tag: nat, k: nat): (r: Result<nat>)
    ensures r.Ok? ==> |r.rest| < |t|
    decreases |t|
  {
    if t == [] then Err(UnexpectedEof)
    else
      var tag' := tag * 128 + t[0] % 128;
      if k == 0 && tag' == 0 then Err(InvalidFirstTagByte)
      else if k + 1 > 9 then Err(TagOverflow)
      else if t[0] < 128 then Ok(tag', t[1..])
      else ReadTag(t[1..], tag', k + 1)
  }

  function ClassOf(b: byte): nat { b / 64 * 64 }

  predicate ConstructedBit(b: byte) { b / 32 % 2 == 1 }

  function ReadIdentifier(t: seq<byte>): (r: Result<Identifier>)
    ensures r.Ok? ==> |r.rest| < |t|
  {
    if t == [] then Err(UnexpectedEof)
    else if t[0] % 32 != HIGH_TAG then Ok(Identifier(ClassOf(t[0]), ConstructedBit(t[0]), t[0] % 32), t[1..])
    else match ReadTag(t[1..], 0, 0)
      case Err(e) => Err(e)
      case Ok(tag, rest) => Ok(Identifier(ClassOf(t[0]), ConstructedBit(t[0]), tag), rest)
  }

  /** Reads digits that all announce another. */
  lemma {:induction false} ReadTagDigits(v: nat, n: nat, t: seq<byte>, tag: nat, k: nat)
    requires k + n <= 9
    requires k == 0 ==> tag == 0 && (n > 0 ==> TagDigits(v, n, true)[0] % 128 != 0)
    ensures ReadTag(TagDigits(v, n, true) + t, tag, k) == ReadTag(t, tag * Power(128, n) + Low(v, n), k + n)
    decreases n
  {
    hide Power, Low, TagDigits, ReadTag;
    if n == 0 {
      NoDigits(tag, v, t);
    } else {
      var d: byte := v % 128 + 128;
      DigitBack(v, n, true);
      assert TagDigits(v, n, true) + t == TagDigits(v / 128, n - 1, true) + ([d] + t);
      ReadTagDigits(v / 128, n - 1, [d] + t, tag, k);
      if n == 1 { NoDigits(tag, v / 128, t); }
      ReadTagStep(d, t, tag * Power(128, n - 1) + Low(v / 128, n - 1), k + n - 1);
      LastDigit(tag, v, n);
    }
  }

  lemma DigitBack(v: nat, n: nat, more: bool)
    requires n > 0
    ensures TagDigits(v, n, more) == TagDigits(v / 128, n - 1, true) + [v % 128 + if more then 128 else 0]
  {
  }

  lemma {:induction false} ReadTagStep(d: byte, t: seq<byte>, tag: nat, k: nat)
    requires d >= 128 && k < 9 && (k == 0 ==> tag == 0 && d != 128)
    ensures ReadTag([d] + t, tag, k) == ReadTag(t, tag * 128 + d % 128, k + 1)
  {
    assert ([d] + t)[1..] == t;
  }

  lemma {:induction false} NoDigits(tag: nat, v: nat, t: seq<byte>)
    ensures tag * Power(128, 0) + Low(v, 0) == tag && TagDigits(v, 0, true) + t == t
  {
  }

  lemma LastDigit(tag: nat, v: nat, n: nat)
    requires n > 0
    ensures (tag * Power(128, n - 1) + Low(v / 128, n - 1)) * 128 + v % 128 == tag * Power(128, n) + Low(v, n)
  {
    TagValue(tag, Power(128, n - 1), Low(v / 128, n - 1), v % 128);
  }

  lemma TagValue(tag: nat, p: nat, low: nat, d: nat)
    ensures (tag * p + low) * 128 + d == tag * (128 * p) + (low * 128 + d)
  {
  }

  /** A leading digit of zero means that the number has fewer digits. */
  lemma {:induction false} LeadingDigit(v: nat, n: nat, more: bool)
    requires n > 0 && TagDigits(v, n, more)[0] % 128 == 0
    ensures Low(v, n) < Power(128, n - 1)
    decreases n
  {
    if n == 1 {
      assert Low(v / 128, 0) == 0 && Power(128, 0) == 1;
    } else {
      LeadingDigit(v / 128, n - 1, true);
    }
  }

  lemma {:induction false} ReadAllDigits(v: nat, n: nat, t: seq<byte>)
    requires 1 <= n <= 9
    ensures var r := ReadTag(TagDigits(v, n, false) + t, 0, 0);
            if TagDigits(v, n, false)[0] % 128 == 0 then r == Err(InvalidFirstTagByte) else r == Ok(Low(v, n), t)
  {
    var d: byte := v % 128;
    var u := [d] + t;
    assert TagDigits(v, n, false) + t == TagDigits(v / 128, n - 1, true) + u;
    assert u[1..] == t;
    if TagDigits(v, n, false)[0] % 128 != 0 {
      ReadTagDigits(v / 128, n - 1, u, 0, 0);
    }
  }

  lemma {:induction false} PowerAdd(b: nat, m: nat, n: nat)
    ensures Power(b, m + n) == Power(b, m) * Power(b, n)
  {
    if m > 0 {
      PowerAdd(b, m - 1, n);
      assert b * (Power(b, m - 1) * Power(b, n)) == b * Power(b, m - 1) * Power(b, n);
    }
  }

  lemma {:induction false} Power128(n: nat)
    ensures Power(128, n) == Power(2, 7 * n)
  {
    if n > 0 {
      Power128(n - 1);
      PowerAdd(2, 7, 7 * (n - 1));
      assert Power(2, 7) == 128;
    }
  }

  lemma {:induction false} PowerMonotone(m: nat, n: nat)
    requires m <= n
    ensures Power(2, m) <= Power(2, n)
    decreases n
  {
    if m < n { PowerMonotone(m, n - 1); }
  }

  lemma {:induction false} HighBitBounds(tag: nat)
    requires tag > 0
    ensures Power(2, HighBit(tag)) <= tag < Power(2, HighBit(tag) + 1)
  {
    if tag >= 2 { HighBitBounds(tag / 2); }
  }

  /** Tag numbers that the encoder gives enough bytes: not those whose highest
      bit has an index divisible by seven. */
  predicate Representable(tag: nat) {
    tag < HIGH_TAG || HighBit(tag) % 7 != 0
  }

  /** The encoder's digits carry the whole number exactly in that case. */
  lemma {:induction false} DigitsSuffice(tag: nat)
    requires HIGH_TAG <= tag < TWO_64
    ensures 1 <= TagBytes(tag) <= 9
    ensures Low(tag, TagBytes(tag)) == tag <==> Representable(tag)
    ensures Representable(tag) ==> Power(128, TagBytes(tag) - 1) <= tag
  {
    hide Power, HighBit, Low;
    var h, n := HighBit(tag), TagBytes(tag);
    HighBitBounds(tag);
    HighBitRange(tag);
    LowWhole(tag, n);
    Power128(n);
    Power128(n - 1);
    if h % 7 != 0 {
      assert 7 * n >= h + 1 && 7 * (n - 1) <= h;
      PowerMonotone(h + 1, 7 * n);
      PowerMonotone(7 * (n - 1), h);
    } else {
      assert 7 * n == h;
    }
  }

  lemma {:induction false} HighBitRange(tag: nat)
    requires HIGH_TAG <= tag < TWO_64
    ensures 4 <= HighBit(tag) <= 63
  {
    assert HighBit(31) == 4;
    HighBitMonotone(31, tag);
    HighBitBounds(tag);
    if HighBit(tag) > 63 { PowerMonotone(64, HighBit(tag)); TwoTo64(); }
  }

  lemma TwoTo64()
    ensures Power(2, 64) == TWO_64
  {
    assert Power(2, 8) == 256;
    PowerAdd(2, 8, 8);
    PowerAdd(2, 16, 16);
    PowerAdd(2, 32, 32);
  }

  lemma {:induction false} HighBitMonotone(a: nat, b: nat)
    requires a <= b
    ensures HighBit(a) <= HighBit(b)
  {
    if a >= 2 { HighBitMonotone(a / 2, b / 2); }
  }

  lemma Fields(c: nat, f: nat, n: nat)
    requires c <= 3 && f <= 1 && n <= 31
    ensures var b := c * 64 + f * 32 + n; b < 256 && b / 64 == c && b / 32 % 2 == f && b % 32 == n
  {
  }

  lemma LeadingByte(id: Identifier)
    requires ValidIdentifier(id)
    ensures ClassOf(Leading(id)) == id.class_
    ensures ConstructedBit(Leading(id)) == id.constructed
    ensures Leading(id) % 32 == if id.tag < HIGH_TAG then id.tag else HIGH_TAG
  {
    Fields(id.class_ / 64, if id.constructed then 1 else 0, if id.tag < HIGH_TAG then id.tag else HIGH_TAG);
  }

  /** Reading what was encoded gives back the identifier exactly when the tag
      is representable. */
  lemma IdentifierRoundTrip(id: Identifier, t: seq<byte>)
    requires ValidIdentifier(id)
    ensures ReadIdentifier(EncodeIdentifier(id) + t) == Ok(id, t) <==> Representable(id.tag)
  {
    hide HighBit, TagDigits, Low, Power, ReadTag, Leading, ClassOf, ConstructedBit;
    LeadingByte(id);
    var u := EncodeIdentifier(id) + t;
    if id.tag < HIGH_TAG {
      assert u[1..] == t;
    } else {
      var n := TagBytes(id.tag);
      DigitsSuffice(id.tag);
      ReadAllDigits(id.tag, n, t);
      assert u[1..] == TagDigits(id.tag, n, false) + t;
      if TagDigits(id.tag, n, false)[0] % 128 == 0 { LeadingDigit(id.tag, n, false); }
    }
  }

  /** What is read never has more than 63 bits of tag number. */
  lemma {:induction false} ReadTagBound(t: seq<byte>, tag: nat, k: nat)
    requires k <= 9 && tag < Power(128, k)
    ensures ReadTag(t, tag, k).Ok? ==> ReadTag(t, tag, k).value < Power(128, 9)
    decreases |t|
  {
    if t != [] && k + 1 <= 9 {
      if t[0] < 128 { PowersOf128(k + 1, 9); }
      else { ReadTagBound(t[1..], tag * 128 + t[0] % 128, k + 1); }
    }
  }

  lemma {:induction false} PowersOf128(m: nat, n: nat)
    requires m <= n
    ensures Power(128, m) <= Power(128, n)
    decreases n
  {
    PowerPositive(128, n);
    if m < n { PowersOf128(m, n - 1); }
  }

  lemma IdentifierIsValid(t: seq<byte>)
    ensures ReadIdentifier(t).Ok? ==> ValidIdentifier(ReadIdentifier(t).value)
  {
    if t != [] {
      ReadTagBound(t[1..], 0, 0);
      Power128(9);
      PowerMonotone(63, 64);
      TwoTo64();
    }
  }

  // ---- Lengths ----

  /** The bytes a number needs, at least one. */
  function ByteLength(v: nat): (n: nat)
    ensures n >= 1
  {
    if v <= 255 then 1 else 1 + ByteLength(v / 256)
  }

  /** The last `n` bytes of a number, the highest first; two's complement for a
      number below zero. */
  function BigEndian(v: int, n: nat): (r: seq<byte>)
    ensures |r| == n
    decreases n
  {
    if n == 0 then [] else BigEndian(v / 256, n - 1) + [v % 256]
  }

  function Number(s: seq<byte>): nat {
    if s == [] then 0 else Number(s[..|s| - 1]) * 256 + s[|s| - 1]
  }

  lemma {:induction false} NumberNext(t: seq<byte>, i: nat)
    requires 1 + i < |t|
    ensures Number(t[1..2 + i]) == Number(t[1..1 + i]) * 256 + t[1 + i]
  {
    var u := t[1..2 + i];
    assert u[i] == t[1 + i] && u[..|u| - 1] == t[1..1 + i];
  }

  lemma {:induction false} BigEndianNumber(v: nat, n: nat)
    requires v < Power(256, n)
    ensures Number(BigEndian(v, n)) == v
  {
    if n > 0 {
      BigEndianNumber(v / 256, n - 1);
      assert BigEndian(v, n)[..n - 1] == BigEndian(v / 256, n - 1);
    }
  }

  lemma {:induction false} ByteLengthSuffices(v: nat)
    ensures v < Power(256, ByteLength(v))
  {
    if v > 255 {
      ByteLengthSuffices(v / 256);
    } else {
      assert Power(256, 1) == 256 * Power(256, 0);
    }
  }

  function EncodeLength(length: nat): (r: seq<byte>)
    ensures |r| >= 1
  {
    var n := ByteLength(length);
    if length > 127 || n > 1 then [(128 + n) % 256] + BigEndian(length, n) else BigEndian(length, n)
  }

  lemma {:induction false} ByteLengthBound(v: nat)
    ensures v < TWO_64 ==> ByteLength(v) <= 8
  {
    var a := v / 256;
    var b := a / 256;
    var c := b / 256;
    var d := c / 256;
    var e := d / 256;
    var f := e / 256;
    var g := f / 256;
    assert v < TWO_64 ==> g <= 255;
    assert g <= 255 ==> ByteLength(g) == 1;
    assert g <= 255 ==> ByteLength(f) <= 2;
    assert g <= 255 ==> ByteLength(e) <= 3;
    assert g <= 255 ==> ByteLength(d) <= 4;
    assert g <= 255 ==> ByteLength(c) <= 5;
    assert g <= 255 ==> ByteLength(b) <= 6;
    assert g <= 255 ==> ByteLength(a) <= 7;
  }

  /** A 64-bit pattern as a signed number. */
  function Signed(v: nat): int {
    if v >= TWO_63 then v - TWO_64 else v
  }

  /** A length; the indefinite form, and eight bytes of ones, read as -1. */
  function ReadLength(t: seq<byte>): (r: Result<int>)
    ensures r.Ok? ==> |r.rest| < |t|
  {
    if t == [] then Err(UnexpectedEof)
    else if t[0] == 0xFF then Err(InvalidLengthByte)
    else if t[0] == 0x80 then Ok(INDEFINITE, t[1..])
    else if t[0] < 0x80 then Ok(t[0], t[1..])
    else
      var n := t[0] - 128;
      if n > 8 then Err(LengthOverflow)
      else if |t| < 1 + n then Err(UnexpectedEof)
      else Ok(Signed(Number(t[1..1 + n])), t[1 + n..])
  }

  lemma LengthRoundTrip(length: nat, t: seq<byte>)
    requires length < TWO_63
    ensures ReadLength(EncodeLength(length) + t) == Ok(length, t)
  {
    hide Number, BigEndian, Power;
    var n := ByteLength(length);
    ByteLengthBound(length);
    ByteLengthSuffices(length);
    BigEndianNumber(length, n);
    var u := EncodeLength(length) + t;
    if length > 127 || n > 1 {
      assert u[1..1 + n] == BigEndian(length, n);
      assert u[1 + n..] == t;
    } else {
      SmallNumber(length);
      assert u[1..] == t;
    }
  }

  lemma {:induction false} SmallNumber(v: nat)
    requires v <= 127
    ensures BigEndian(v, 1) == [v]
  {
  }

  // ---- Packets ----

  function ReadHeader(t: seq<byte>): (r: Result<(Identifier, int)>)
    ensures r.Ok? ==> |r.rest| < |t| - 1
  {
    match ReadIdentifier(t)
    case Err(e) => Err(e)
    case Ok(id, t') =>
      match ReadLength(t')
      case Err(e) => Err(e)
      case Ok(n, rest) => if n == INDEFINITE && !id.constructed then Err(IndefinitePrimitive) else Ok((id, n), rest)
  }

  predicate IsEoc(p: Packet) {
    p.id == Identifier(0, false, 0) && p.data == [] && p.children == []
  }

  function Bytes(p: Packet): (r: seq<byte>)
    ensures |r| >= 2 + |p.data|
  {
    EncodeIdentifier(p.id) + EncodeLength(|p.data|) + p.data
  }

  function BytesAll(ps: seq<Packet>): seq<byte> {
    if ps == [] then [] else BytesAll(ps[..|ps| - 1]) + Bytes(ps[|ps| - 1])
  }

  function ReadPacket(t: seq<byte>): (r: Result<Packet>)
    ensures r.Ok? ==> |r.rest| < |t| - 1
    decreases |t|, 0
  {
    match ReadHeader(t)
    case Err(e) => Err(e)
    case Ok((id, n), rest) =>
      if id.constructed then ReadChildren(rest, n, 0, Packet(id, [], []))
      else if n < 0 then Err(Crashed)
      else if |rest| < n then Err(UnexpectedEof)
      else Ok(Packet(id, rest[..n], []), rest[n..])
  }

  /** Adds children to `p` until `n` bytes are read, or to the end-of-contents marker. */
  function ReadChildren(t: seq<byte>, n: int, read: nat, p: Packet): (r: Result<Packet>)
    ensures r.Ok? ==> |r.rest| <= |t|
    decreases |t|, 1
  {
    if n != INDEFINITE && read == n then Ok(p, t)
    else if n != INDEFINITE && read > n then Err(BoundaryMismatch)
    else match ReadPacket(t)
      case Err(e) => Err(e)
      case Ok(child, rest) =>
        if IsEoc(child) then if n == INDEFINITE then Ok(p, rest) else Err(UnexpectedEoc)
        else ReadChildren(rest, n, read + |t| - |rest|, Packet(p.id, p.data + Bytes(child), p.children + [child]))
  }

  /** Trees as the decoder builds them: the data of a constructed packet is the
      encoding of its children, none of which is the end-of-contents marker. */
  ghost predicate Structured(p: Packet) {
    && ValidIdentifier(p.id)
    && (forall c | c in p.children :: Structured(c) && !IsEoc(c))
    && (if p.id.constructed then p.data == BytesAll(p.children) else p.children == [])
  }

  /** Every tag number in the tree is representable. */
  ghost predicate Writable(p: Packet) {
    Representable(p.id.tag) && forall c | c in p.children :: Writable(c)
  }

  lemma HeaderRoundTrip(id: Identifier, n: nat, t: seq<byte>)
    requires ValidIdentifier(id) && Representable(id.tag) && n < TWO_63
    ensures ReadHeader(EncodeIdentifier(id) + (EncodeLength(n) + t)) == Ok((id, n), t)
  {
    hide ReadIdentifier, ReadLength, EncodeIdentifier, EncodeLength, Representable;
    IdentifierRoundTrip(id, EncodeLength(n) + t);
    LengthRoundTrip(n, t);
  }

  lemma NoChildren(p: Packet)
    ensures p.children[..0] == [] && BytesAll([]) == [] && p.data[0..] == p.data
  {
  }

  /** Reading the bytes of a tree gives back the tree, and leaves what follows. */
  lemma {:induction false} PacketRoundTrip(p: Packet, t: seq<byte>)
    requires Structured(p) && Writable(p) && |p.data| < TWO_63
    ensures ReadPacket(Bytes(p) + t) == Ok(p, t)
    decreases p, 1, 0
  {
    hide ReadHeader, ReadChildren, BytesAll, ValidIdentifier, Representable, EncodeIdentifier, EncodeLength;
    var w := p.data + t;
    assert Bytes(p) + t == EncodeIdentifier(p.id) + (EncodeLength(|p.data|) + w);
    HeaderRoundTrip(p.id, |p.data|, w);
    if p.id.constructed {
      ChildrenRoundTrip(p, |p.children|, t);
      NoChildren(p);
    } else {
      assert w[..|p.data|] == p.data && w[|p.data|..] == t;
    }
  }

  lemma {:induction false} ChildStep(c: Packet, tail: seq<byte>, n: nat, read: nat, q: Packet)
    requires ReadPacket(Bytes(c) + tail) == Ok(c, tail) && !IsEoc(c) && read < n
    ensures ReadChildren(Bytes(c) + tail, n, read, q)
         == ReadChildren(tail, n, read + |Bytes(c)|, Packet(q.id, q.data + Bytes(c), q.children + [c]))
  {
    hide Bytes, ReadPacket;
  }

  lemma {:induction false} PrefixBytes(cs: seq<Packet>, k: nat)
    requires k < |cs|
    ensures BytesAll(cs[..k + 1]) == BytesAll(cs[..k]) + Bytes(cs[k])
    ensures BytesAll(cs[..k + 1]) <= BytesAll(cs)
    decreases |cs| - k
  {
    hide Bytes;
    assert cs[..k + 1][..k] == cs[..k];
    if k + 1 < |cs| { PrefixBytes(cs, k + 1); }
    else { assert cs[..k + 1] == cs; }
  }

  function ChildrenBefore(p: Packet, k: nat): seq<byte>
    requires k <= |p.children|
  {
    BytesAll(p.children[..k])
  }

  /** Where the k-th child stands in the data. */
  lemma ChildSplit(p: Packet, k: nat, t: seq<byte>)
    requires k < |p.children| && p.data == BytesAll(p.children)
    ensures var c, done, done' := p.children[k], ChildrenBefore(p, k), ChildrenBefore(p, k + 1);
            && done' == done + Bytes(c)
            && done <= p.data && done' <= p.data && |c.data| < |p.data|
            && p.data[|done|..] + t == Bytes(c) + (p.data[|done'|..] + t)
            && p.children[..k] + [c] == p.children[..k + 1]
  {
    hide BytesAll, Bytes;
    PrefixBytes(p.children, k);
  }

  /** With the first k children read, the rest follow. */
  lemma {:induction false} ChildrenRoundTrip(p: Packet, left: nat, t: seq<byte>)
    requires Structured(p) && Writable(p) && |p.data| < TWO_63 && p.id.constructed && left <= |p.children|
    ensures var k := |p.children| - left;
            var done := ChildrenBefore(p, k);
            done <= p.data &&
            ReadChildren(p.data[|done|..] + t, |p.data|, |done|, Packet(p.id, done, p.children[..k])) == Ok(p, t)
    decreases p, 0, left
  {
    hide Bytes, BytesAll, IsEoc, ReadPacket;
    var k := |p.children| - left;
    var done := ChildrenBefore(p, k);
    if left == 0 {
      assert p.children[..k] == p.children;
      assert p.data[|done|..] + t == t;
    } else {
      hide ReadChildren, ChildrenBefore;
      var c := p.children[k];
      assert c in p.children;
      ChildrenRoundTrip(p, left - 1, t);
      ChildSplit(p, k, t);
      var tail := p.data[|ChildrenBefore(p, k + 1)|..] + t;
      PacketRoundTrip(c, tail);
      ChildStep(c, tail, |p.data|, |done|, Packet(p.id, done, p.children[..k]));
    }
  }

  lemma {:induction false} ReadChildrenAppends(t: seq<byte>, n: int, read: nat, p: Packet)
    ensures var r := ReadChildren(t, n, read, p);
            r.Ok? ==> p.children <= r.value.children && r.value.id == p.id
    decreases |t|
  {
    hide Bytes, IsEoc, ReadPacket;
    if (n == INDEFINITE || read < n) && ReadPacket(t).Ok? && !IsEoc(ReadPacket(t).value) {
      var c, rest := ReadPacket(t).value, ReadPacket(t).rest;
      ReadChildrenAppends(rest, n, read + |t| - |rest|, Packet(p.id, p.data + Bytes(c), p.children + [c]));
    }
  }

  lemma IdentifierReadBack(id: Identifier, t: seq<byte>)
    requires ValidIdentifier(id)
    ensures ReadIdentifier(EncodeIdentifier(id) + t).Ok? && ReadIdentifier(EncodeIdentifier(id) + t).value == id
        ==> Representable(id.tag)
  {
    hide HighBit, TagDigits, Low, Power, ReadTag, Leading, ClassOf, ConstructedBit;
    LeadingByte(id);
    if id.tag >= HIGH_TAG {
      var n := TagBytes(id.tag);
      DigitsSuffice(id.tag);
      ReadAllDigits(id.tag, n, t);
      assert (EncodeIdentifier(id) + t)[1..] == TagDigits(id.tag, n, false) + t;
    }
  }

  /** Only a tree whose tags are all representable is read back from its bytes. */
  lemma {:induction false} OnlyWritable(p: Packet, t: seq<byte>)
    requires Structured(p) && |p.data| < TWO_63
    requires ReadPacket(Bytes(p) + t).Ok? && ReadPacket(Bytes(p) + t).value == p
    ensures Writable(p)
    decreases p, 1, 0
  {
    hide ReadIdentifier, ReadLength, ReadChildren, BytesAll, ValidIdentifier, Representable,
      EncodeIdentifier, EncodeLength;
    var w := p.data + t;
    assert Bytes(p) + t == EncodeIdentifier(p.id) + (EncodeLength(|p.data|) + w);
    var h := ReadHeader(Bytes(p) + t);
    if h.value.0.constructed { ReadChildrenAppends(h.rest, h.value.1, 0, Packet(h.value.0, [], [])); }
    IdentifierReadBack(p.id, EncodeLength(|p.data|) + w);
    HeaderRoundTrip(p.id, |p.data|, w);
    if p.id.constructed {
      NoChildren(p);
      OnlyWritableChildren(p, 0, t);
    }
  }

  lemma {:induction false} OnlyWritableChildren(p: Packet, k: nat, t: seq<byte>)
    requires Structured(p) && |p.data| < TWO_63 && p.id.constructed && k <= |p.children|
    requires var done := ChildrenBefore(p, k);
             done <= p.data &&
             var r := ReadChildren(p.data[|done|..] + t, |p.data|, |done|, Packet(p.id, done, p.children[..k]));
             r.Ok? && r.value == p
    ensures forall i | k <= i < |p.children| :: Writable(p.children[i])
    decreases p, 0, |p.children| - k
  {
    hide Bytes, BytesAll, IsEoc, ReadPacket, Writable, ChildrenBefore, ReadChildren;
    if k < |p.children| {
      var c, done := p.children[k], ChildrenBefore(p, k);
      assert c in p.children;
      ChildSplit(p, k, t);
      var tail := p.data[|ChildrenBefore(p, k + 1)|..] + t;
      FirstChild(c, tail, |p.data|, |done|, Packet(p.id, done, p.children[..k]), p);
      OnlyWritable(c, tail);
      PacketRoundTrip(c, tail);
      ChildStep(c, tail, |p.data|, |done|, Packet(p.id, done, p.children[..k]));
      OnlyWritableChildren(p, k + 1, t);
    }
  }

  /** When reading goes on from `q` to `p`, what it reads next is p's next child. */
  lemma {:induction false} FirstChild(c: Packet, tail: seq<byte>, n: nat, read: nat, q: Packet, p: Packet)
    requires |q.children| < |p.children| && p.children[|q.children|] == c && read < n
    requires var r := ReadChildren(Bytes(c) + tail, n, read, q); r.Ok? && r.value == p
    ensures !IsEoc(c) && ReadPacket(Bytes(c) + tail).Ok? && ReadPacket(Bytes(c) + tail).value == c
  {
    hide Bytes, IsEoc, ReadPacket;
    var u := Bytes(c) + tail;
    var r := ReadPacket(u);
    if r.Ok? {
      ReadChildrenAppends(r.rest, n, read + |u| - |r.rest|,
                          Packet(q.id, q.data + Bytes(r.value), q.children + [r.value]));
    }
  }

  /** A tree is read back from its bytes, leaving what follows, exactly when all
      its tags are representable. */
  lemma {:induction false} PacketRoundTripExactly(p: Packet, t: seq<byte>)
    requires Structured(p) && |p.data| < TWO_63
    ensures ReadPacket(Bytes(p) + t) == Ok(p, t) <==> Writable(p)
  {
    hide ReadPacket, Bytes, Structured, Writable;
    if Writable(p) { PacketRoundTrip(p, t); }
    if ReadPacket(Bytes(p) + t) == Ok(p, t) { OnlyWritable(p, t); }
  }

  /** Whatever is accepted, in whatever form of length, is a structured tree. */
  lemma {:induction false} ReadIsStructured(t: seq<byte>)
    ensures ReadPacket(t).Ok? ==> Structured(ReadPacket(t).value)
    decreases |t|, 0
  {
    IdentifierIsValid(t);
    if ReadPacket(t).Ok? {
      var h := ReadHeader(t);
      var (id, n) := h.value;
      if id.constructed { ReadChildrenStructured(h.rest, n, 0, Packet(id, [], [])); }
    }
  }

  lemma {:induction false} ReadChildrenStructured(t: seq<byte>, n: int, read: nat, p: Packet)
    requires Structured(p) && p.id.constructed
    ensures ReadChildren(t, n, read, p).Ok? ==> Structured(ReadChildren(t, n, read, p).value)
    decreases |t|, 1
  {
    hide Bytes, IsEoc, ReadPacket, Structured;
    if (n == INDEFINITE || read < n) && ReadPacket(t).Ok? && !IsEoc(ReadPacket(t).value) {
      ReadIsStructured(t);
      var c, rest := ReadPacket(t).value, ReadPacket(t).rest;
      AppendIsStructured(p, c);
      ReadChildrenStructured(rest, n, read + |t| - |rest|, Packet(p.id, p.data + Bytes(c), p.children + [c]));
    }
  }

  lemma {:induction false} AppendIsStructured(p: Packet, c: Packet)
    requires Structured(p) && Structured(c) && !IsEoc(c) && p.id.constructed
    ensures Structured(Packet(p.id, p.data + Bytes(c), p.children + [c]))
  {
    hide Bytes, IsEoc, ValidIdentifier;
    assert (p.children + [c])[..|p.children|] == p.children;
  }

  /** An accepted input, indefinite or long-winded as it may be, decodes to a tree
      whose encoding decodes to that same tree, exactly when the tags in it are
      representable. */
  lemma {:induction false} ReencodingIsStable(t: seq<byte>, s: seq<byte>)
    requires ReadPacket(t).Ok? && |ReadPacket(t).value.data| < TWO_63
    ensures ReadPacket(Bytes(ReadPacket(t).value) + s) == Ok(ReadPacket(t).value, s) <==> Writable(ReadPacket(t).value)
  {
    hide ReadPacket, Bytes, Structured, Writable;
    ReadIsStructured(t);
    PacketRoundTripExactly(ReadPacket(t).value, s);
  }

  // ---- Integers ----

  function Magnitude(i: int): nat {
    if i < 0 then -i else i
  }

  /** The bytes a signed number needs, as the encoder counts them. */
  function SignedLength(i: int): (n: nat)
    ensures n >= 1
    decreases Magnitude(i)
  {
    if i > 127 || i < -128 then 1 + SignedLength(i / 256) else 1
  }

  /** The bytes as a number whose top bit is its sign. */
  function SignExtended(s: seq<byte>): int {
    if s == [] then 0
    else if |s| == 1 then (if s[0] >= 128 then s[0] as int - 256 else s[0])
    else SignExtended(s[..|s| - 1]) * 256 + s[|s| - 1]
  }

  /** What was written of an integer, sign-extended, is that integer. */
  lemma {:induction false} IntegerRoundTrip(i: int)
    ensures SignExtended(BigEndian(i, SignedLength(i))) == i
    decreases Magnitude(i)
  {
    var n := SignedLength(i);
    if n == 1 {
      assert BigEndian(i, 1) == BigEndian(i / 256, 0) + [i % 256];
    } else {
      IntegerRoundTrip(i / 256);
      assert BigEndian(i, n)[..n - 1] == BigEndian(i / 256, n - 1);
    }
  }

  /** A number that fits in `n` bytes is given no more than that. */
  lemma {:induction false} SignedLengthBound(i: int, n: nat)
    requires n >= 1 && -128 * Power(256, n - 1) <= i < 128 * Power(256, n - 1)
    ensures SignedLength(i) <= n
    decreases n
  {
    if i > 127 || i < -128 { SignedLengthBound(i / 256, n - 1); }
  }

  /** Every 64-bit integer is written in at most eight bytes, which are read as it. */
  lemma {:induction false} Int64RoundTrip(i: int)
    requires -TWO_63 <= i < TWO_63
    ensures |BigEndian(i, SignedLength(i))| <= 8 && SignExtended(BigEndian(i, SignedLength(i))) == i
  {
    IntegerRoundTrip(i);
    PowersOf256();
    SignedLengthBound(i, 8);
  }

  lemma PowersOf256()
    ensures Power(256, 8) == TWO_64 && 128 * Power(256, 7) == TWO_63
  {
    assert Power(256, 2) == 0x1_0000;
    assert Power(256, 4) == 0x1_0000_0000;
    assert Power(256, 6) == 0x1_0000_0000_0000;
  }

  /** Sign extension takes away the bit above the top one. */
  lemma {:induction false} SignExtension(s: seq<byte>)
    requires s != []
    ensures Number(s) < Power(256, |s|)
    ensures s[0] >= 128 <==> Number(s) >= 128 * Power(256, |s| - 1)
    ensures SignExtended(s) == if s[0] >= 128 then Number(s) - Power(256, |s|) else Number(s)
  {
    if |s| == 1 {
      assert Power(256, 1) == 256 * Power(256, 0) && Number(s[..0]) == 0;
    } else {
      SignExtension(s[..|s| - 1]);
    }
  }

  lemma {:induction false} NoBytes(s: seq<byte>)
    requires s == []
    ensures Number(s) == 0 && SignExtended(s) == 0 && Signed(0) == 0
  {
  }

  lemma Cancel(a: int, p: nat)
    requires p > 0
    ensures a * p / p == a
  {
    Exact(a, p, a * p / p, a * p % p);
  }

  lemma Exact(a: int, p: nat, q: int, m: nat)
    requires a * p == p * q + m && m < p
    ensures a == q
  {
    assert (a - q) * p == m;
    if a > q { ScaleUp(a - q, 1, p); }
    if a < q { ScaleUp(q - a, 1, p); }
  }

  lemma TopOfWord(v: nat, p: nat, all: nat, half: nat)
    requires p > 0 && all * p == TWO_64 && 128 * (half * p) == TWO_63 && v < all
    ensures Signed(v * p % TWO_64) / p == if v >= 128 * half then v - all else v
  {
    assert v * p < TWO_64 by { ScaleLess(v, all, p); }
    if v >= 128 * half {
      assert v * p >= TWO_63 by { ScaleUp(v, 128 * half, p); }
      assert v * p - TWO_64 == (v - all) * p;
      Cancel(v - all, p);
    } else {
      ScaleLess(v, 128 * half, p);
      Cancel(v, p);
    }
  }

  lemma ScaleLess(a: nat, b: nat, p: nat)
    requires a < b && p > 0
    ensures a * p < b * p
  {
  }

  lemma ScaleUp(a: nat, b: nat, p: nat)
    requires a >= b
    ensures a * p >= b * p
  {
  }

  /** Shifting up to the top of a 64-bit word and down again extends the sign. */
  lemma {:induction false} ShiftUpAndDown(s: seq<byte>)
    requires |s| <= 8
    ensures var p := Power(256, 8 - |s|);
            p > 0 && Signed(Number(s) * p % TWO_64) / p == SignExtended(s)
  {
    hide Number, SignExtended, Power, Signed;
    var n := |s|;
    PowerPositive(256, 8 - n);
    PowersOf256();
    if n == 0 {
      NoBytes(s);
    } else {
      SignExtension(s);
      PowerAdd(256, n, 8 - n);
      PowerAdd(256, n - 1, 8 - n);
      TopOfWord(Number(s), Power(256, 8 - n), Power(256, n), Power(256, n - 1));
    }
  }

  // ---- The codec as it runs ----

  /** A reader with its input still to come. */
  class Reader {
    const input: seq<byte>
    var pos: nat

    ghost predicate Valid() reads this { pos <= |input| }

    ghost function Rest(): seq<byte>
      reads this
      requires Valid()
    {
      input[pos..]
    }

    constructor (input: seq<byte>)
      ensures Valid() && Rest() == input && pos == 0
    {
      this.input, pos := input, 0;
      new;
      assert input[0..] == input;
    }

    method ReadByte() returns (ok: bool, b: byte)
      requires Valid()
      modifies this
      ensures Valid() && ok == (old(Rest()) != [])
      ensures ok ==> b == old(Rest())[0] && Rest() == old(Rest())[1..] && pos == old(pos) + 1
      ensures !ok ==> pos == old(pos)
    {
      if pos == |input| { return false, 0; }
      b := input[pos];
      pos := pos + 1;
      return true, b;
    }

    method NextIdentifier() returns (r: Result<Identifier>, read: nat)
      requires Valid()
      modifies this
      ensures Valid() && read == pos - old(pos)
      ensures r.Ok? ==> r.rest == Rest()
      ensures r == ReadIdentifier(old(Rest()))
    {
      var ok, b := ReadByte();
      if !ok { return Err(UnexpectedEof), 0; }
      read := 1;
      var class_, constructed := b / 64 * 64, b / 32 % 2 == 1;
      if b % 32 != HIGH_TAG {
        return Ok(Identifier(class_, constructed, b % 32), input[pos..]), read;
      }
      ghost var start := Rest();
      var tag: nat, tagBytes: nat := 0, 0;
      while true
        invariant Valid() && read == pos - old(pos) && read == 1 + tagBytes
        invariant ReadTag(start, 0, 0) == ReadTag(Rest(), tag, tagBytes)
        decreases |Rest()|
      {
        ok, b := ReadByte();
        if !ok { return Err(UnexpectedEof), read; }
        tagBytes := tagBytes + 1;
        read := read + 1;
        tag := tag * 128 + b % 128;
        if tagBytes == 1 && tag == 0 { return Err(InvalidFirstTagByte), read; }
        if tagBytes > 9 { return Err(TagOverflow), read; }
        if b < 128 { break; }
      }
      r := Ok(Identifier(class_, constructed, tag), input[pos..]);
    }

    method NextLength() returns (r: Result<int>, read: nat)
      requires Valid()
      modifies this
      ensures Valid() && read == pos - old(pos)
      ensures r.Ok? ==> r.rest == Rest()
      ensures r == ReadLength(old(Rest()))
    {
      ghost var t := Rest();
      var ok, b := ReadByte();
      if !ok { return Err(UnexpectedEof), 0; }
      read := 1;
      if b == 0xFF { return Err(InvalidLengthByte), read; }
      if b == 0x80 { return Ok(INDEFINITE, input[pos..]), read; }
      if b < 0x80 { return Ok(b, input[pos..]), read; }
      var lengthBytes := b - 0x80;
      if lengthBytes > 8 { return Err(LengthOverflow), read; }
      var length: nat, i: nat := 0, 0;
      while i < lengthBytes
        invariant 0 <= i <= lengthBytes && Valid() && read == pos - old(pos) == 1 + i
        invariant Rest() == t[1 + i..] && 1 + i <= |t| && length == Number(t[1..1 + i])
      {
        ok, b := ReadByte();
        if !ok { return Err(UnexpectedEof), read; }
        read := read + 1;
        NumberNext(t, i);
        length := length * 256 + b;
        i := i + 1;
      }
      r := Ok(Signed(length), input[pos..]);
    }

    method NextHeader() returns (r: Result<(Identifier, int)>, read: nat)
      requires Valid()
      modifies this
      ensures Valid() && read == pos - old(pos)
      ensures r.Ok? ==> r.rest == Rest()
      ensures r == ReadHeader(old(Rest()))
    {
      var i, c := NextIdentifier();
      read := c;
      if i.Err? { return Err(i.error), read; }
      var n;
      n, c := NextLength();
      read := read + c;
      if n.Err? { return Err(n.error), read; }
      if n.value == INDEFINITE && !i.value.constructed { return Err(IndefinitePrimitive), read; }
      r := Ok((i.value, n.value), n.rest);
    }

    /** Reads children until the length is used up, or the end-of-contents marker. */
    method NextChildren(id: Identifier, length: int) returns (r: Result<Packet>, read: nat)
      requires Valid()
      modifies this
      ensures Valid() && read == pos - old(pos)
      ensures r.Ok? ==> r.rest == Rest()
      ensures r == ReadChildren(old(Rest()), length, 0, Packet(id, [], []))
      decreases |Rest()|, 1
    {
      hide Bytes, ReadPacket, IsEoc;
      var p := Packet(id, [], []);
      read := 0;
      while true
        invariant Valid() && read == pos - old(pos) && |Rest()| <= |old(Rest())| && p.id == id
        invariant ReadChildren(old(Rest()), length, 0, Packet(id, [], [])) == ReadChildren(Rest(), length, read, p)
        decreases |Rest()|
      {
        if length != INDEFINITE {
          if read == length { break; }
          if read > length { return Err(BoundaryMismatch), read; }
        }
        var child, c := NextPacket();
        read := read + c;
        if child.Err? { return Err(child.error), read; }
        if IsEoc(child.value) {
          if length == INDEFINITE { break; }
          return Err(UnexpectedEoc), read;
        }
        p := Packet(id, p.data + Bytes(child.value), p.children + [child.value]);
      }
      r := Ok(p, input[pos..]);
    }

    /** Reads one packet and reports how many bytes it took. */
    method NextPacket() returns (r: Result<Packet>, read: nat)
      requires Valid()
      modifies this
      ensures Valid() && read == pos - old(pos)
      ensures r.Ok? ==> r.rest == Rest()
      ensures r == ReadPacket(old(Rest()))
      decreases |Rest()|, 0
    {
      hide ReadChildren, ReadHeader;
      var h;
      h, read := NextHeader();
      if h.Err? { return Err(h.error), read; }
      var (id, length) := h.value;
      if id.constructed {
        var c;
        r, c := NextChildren(id, length);
        return r, read + c;
      }
      if length < 0 { return Err(Crashed), read; }
      if |input| - pos < length { return Err(UnexpectedEof), read; }
      assert Rest()[..length] == input[pos..pos + length] && Rest()[length..] == input[pos + length..];
      r := Ok(Packet(id, input[pos..pos + length], []), input[pos + length..]);
      pos := pos + length;
      read := read + length;
    }
  }

  /** `v` without its last `k` bytes. */
  function DropBytes(v: int, k: nat): int {
    if k == 0 then v else DropBytes(v, k - 1) / 256
  }

  /** `v` without its last `k` base-128 digits. */
  function DropDigits(v: nat, k: nat): nat {
    if k == 0 then v else DropDigits(v, k - 1) / 128
  }

  method CountBytes(v: nat) returns (n: nat)
    ensures n == ByteLength(v)
  {
    n := 1;
    var w := v;
    while w > 255
      invariant ByteLength(v) == n - 1 + ByteLength(w)
      decreases w
    {
      n := n + 1;
      w := w / 256;
    }
  }

  /** The bytes of an unsigned number, the highest first. */
  method EncodeUnsignedInteger(v: nat) returns (out: seq<byte>)
    ensures out == BigEndian(v, ByteLength(v))
  {
    var length := CountBytes(v);
    var n := length;
    out := [];
    while n > 0
      invariant 0 <= n <= length && out == BigEndian(DropBytes(v, n), length - n)
    {
      out := out + [DropBytes(v, n - 1) % 256];
      n := n - 1;
    }
  }

  method CountSignedBytes(v: int) returns (n: nat)
    ensures n == SignedLength(v)
  {
    n := 1;
    var i := v;
    while i > 127
      invariant SignedLength(v) == n - 1 + SignedLength(i)
      invariant v >= 0 ==> i >= 0
      decreases i
    {
      n := n + 1;
      i := i / 256;
    }
    while i < -128
      invariant i <= 127 && SignedLength(v) == n - 1 + SignedLength(i)
      decreases -i
    {
      n := n + 1;
      i := i / 256;
    }
  }

  method EncodeInteger(v: int) returns (out: seq<byte>)
    requires -TWO_63 <= v < TWO_63
    ensures out == BigEndian(v, SignedLength(v))
    ensures |out| <= 8 && SignExtended(out) == v
  {
    var length := CountSignedBytes(v);
    var n := length;
    out := [];
    while n > 0
      invariant 0 <= n <= length && out == BigEndian(DropBytes(v, n), length - n)
    {
      out := out + [DropBytes(v, n - 1) % 256];
      n := n - 1;
    }
    Int64RoundTrip(v);
  }

  /** Reads a signed number of at most eight bytes: shifts each byte in, then the
      whole up to the top of the word and down again. */
  method ParseInt64(bytes: seq<byte>) returns (r: Result<int>)
    ensures r == if |bytes| > 8 then Err(IntegerTooLarge) else Ok(SignExtended(bytes), [])
  {
    if |bytes| > 8 { return Err(IntegerTooLarge); }
    var ret: nat, bytesRead: nat := 0, 0;
    while bytesRead < |bytes|
      invariant bytesRead <= |bytes| && ret == Number(bytes[..bytesRead])
    {
      assert bytes[..bytesRead + 1][..bytesRead] == bytes[..bytesRead];
      ret := ret * 256 + bytes[bytesRead];
      bytesRead := bytesRead + 1;
    }
    assert bytes[..bytesRead] == bytes;
    ShiftUpAndDown(bytes);
    var p := Power(256, 8 - |bytes|);
    r := Ok(Signed(ret * p % TWO_64) / p, []);
  }

  /** The bytes of an identifier; the search for the highest bit starts at bit 63. */
  method EncodeTag(id: Identifier) returns (b: seq<byte>)
    requires ValidIdentifier(id)
    ensures b == EncodeIdentifier(id)
  {
    hide HighBit, Leading;
    if id.tag < HIGH_TAG { return [Leading(id)]; }
    var highBit := FindHighBit(id.tag);
    var tagBytes := (highBit + 6) / 7;
    var digits: seq<byte> := [];
    var i := tagBytes;
    while i > 0
      invariant 0 <= i <= tagBytes
      invariant digits == TagDigits(DropDigits(id.tag, i), tagBytes - i, i != 0)
    {
      i := i - 1;
      digits := digits + [DropDigits(id.tag, i) % 128 + if i != 0 then 128 else 0];
    }
    b := [Leading(id)] + digits;
  }

  method FindHighBit(tag: nat) returns (highBit: nat)
    requires 0 < tag < TWO_64
    ensures highBit == HighBit(tag)
  {
    highBit := 63;
    TwoTo64();
    while tag / Power(2, highBit) % 2 == 0
      invariant 0 <= highBit <= 63 && tag < Power(2, highBit + 1)
      invariant Power(2, highBit) > 0
      decreases highBit
    {
      PowerPositive(2, highBit);
      BitClear(tag, highBit);
      highBit := highBit - 1;
      PowerPositive(2, highBit);
    }
    BitSet(tag, highBit);
  }

  lemma BitClear(tag: nat, k: nat)
    requires 0 < tag < Power(2, k + 1) && Power(2, k) > 0 && tag / Power(2, k) % 2 == 0
    ensures k > 0 && tag < Power(2, k)
  {
    TopBit(tag, Power(2, k));
  }

  lemma BitSet(tag: nat, k: nat)
    requires 0 < tag < Power(2, k + 1) && Power(2, k) > 0 && tag / Power(2, k) % 2 != 0
    ensures k == HighBit(tag)
  {
    TopBit(tag, Power(2, k));
    HighBitIs(tag, k);
  }

  /** Below 2p, the quotient by p is the bit that says whether p is reached. */
  lemma TopBit(v: nat, p: nat)
    requires 0 < p && v < 2 * p
    ensures v / p == if v < p then 0 else 1
  {
    Quotient(v, p, v / p, v % p);
  }

  lemma Quotient(v: nat, p: nat, q: nat, m: nat)
    requires 0 < p && v < 2 * p && v == p * q + m && m < p
    ensures q == if v < p then 0 else 1
  {
    if q >= 2 { AtLeastTwice(p, q); }
  }

  lemma AtLeastTwice(p: nat, q: nat)
    requires q >= 2
    ensures p * q >= 2 * p
  {
    assert p * q == 2 * p + p * (q - 2);
  }

  lemma HighBitIs(tag: nat, k: nat)
    requires Power(2, k) <= tag < Power(2, k + 1) && tag > 0
    ensures k == HighBit(tag)
  {
    hide HighBit, Power;
    HighBitBounds(tag);
    var h := HighBit(tag);
    if h < k { PowerMonotone(h + 1, k); }
    if h > k { PowerMonotone(k + 1, h); }
  }
}
