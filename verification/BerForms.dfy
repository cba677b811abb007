/** All the encodings that a tree of packets may have: identifiers in short or long form,
    lengths in short or long form with any number of bytes up to eight, or for constructed
    packets in indefinite form, at every level. The reader is proved to read exactly these. */
module BerForms {
  import opened Octets
  import opened Ber

  /** A tag number in the leading byte, or as base-128 digits behind it. */
  datatype TagForm = InLead(tag: nat) | Behind(digits: seq<nat>)

  datatype LengthForm = Short(length: nat) | Long(length: nat, size: nat)

  /** `unit` is the class, from 0 to 3. */
  datatype Form =
    | Plain(unit: nat, tag: TagForm, length: LengthForm, data: seq<byte>)
    | Definite(unit: nat, tag: TagForm, length: LengthForm, parts: seq<Form>)
    | Indefinite(unit: nat, tag: TagForm, opening: seq<byte>, parts: seq<Form>, end: Form)

  // ---- Tags and lengths ----

  predicate TagOk(f: TagForm) {
    match f
    case InLead(tag) => tag < 31
    case Behind(ds) => 1 <= |ds| <= 9 && ds[0] != 0 && forall i :: 0 <= i < |ds| ==> ds[i] < 128
  }

  function TagValue(f: TagForm): nat {
    match f
    case InLead(tag) => tag
    case Behind(ds) => Horner(ds)
  }

  function Horner(ds: seq<nat>): nat {
    if ds == [] then 0 else Horner(ds[..|ds| - 1]) * 128 + ds[|ds| - 1]
  }

  /** All digits but the last have the top bit set. */
  function DigitBytes(ds: seq<nat>): (r: seq<byte>)
    requires forall i :: 0 <= i < |ds| ==> ds[i] < 128
    ensures |r| == |ds|
  {
    seq(|ds|, i requires 0 <= i < |ds| => if i < |ds| - 1 then 128 + ds[i] else ds[i])
  }

  function IdentifierBytes(unit: nat, constructed: bool, f: TagForm): (r: seq<byte>)
    requires unit <= 3 && TagOk(f)
    ensures r != []
  {
    var lead := unit * 64 + if constructed then 32 else 0;
    if f.InLead? then [lead + f.tag] else [lead + 31] + DigitBytes(f.digits)
  }

  predicate LengthOk(f: LengthForm) {
    match f
    case Short(n) => n < 128
    case Long(n, size) => 1 <= size <= 8 && n < Power(256, size) && n < TWO_63
  }

  function LengthBytes(f: LengthForm): (r: seq<byte>)
    requires LengthOk(f)
    ensures r != []
  {
    match f
    case Short(n) => [n]
    case Long(n, size) => [128 + size] + BigEndian(n, size)
  }

  /** 80, or the eight bytes of ones that the reader takes for the same. */
  predicate Opening(s: seq<byte>) {
    s == [0x80] || s == [0x88, 0xFF, 0xFF, 0xFF, 0xFF, 0xFF, 0xFF, 0xFF, 0xFF]
  }

  // ---- Forms ----

  ghost predicate Well(f: Form)
    decreases f, 0
  {
    && f.unit <= 3 && TagOk(f.tag)
    && match f
       case Plain(_, _, length, data) => LengthOk(length) && length.length == |data|
       case Definite(_, _, length, fs) => LengthOk(length) && AllWell(fs) && length.length == |FormBytesAll(fs)|
       case Indefinite(_, _, opening, fs, end) => Opening(opening) && AllWell(fs) && Well(end) && IsEoc(Tree(end))
  }

  /** Parts that are no end marker. */
  ghost predicate AllWell(fs: seq<Form>)
    decreases fs, 1
  {
    fs == [] || (Well(fs[0]) && !IsEoc(Tree(fs[0])) && AllWell(fs[1..]))
  }

  ghost function FormBytes(f: Form): seq<byte>
    requires Well(f)
    decreases f, 2
  {
    match f
    case Plain(unit, tag, length, data) => IdentifierBytes(unit, false, tag) + (LengthBytes(length) + data)
    case Definite(unit, tag, length, fs) =>
      IdentifierBytes(unit, true, tag) + (LengthBytes(length) + FormBytesAll(fs))
    case Indefinite(unit, tag, opening, fs, end) =>
      IdentifierBytes(unit, true, tag) + (opening + (FormBytesAll(fs) + FormBytes(end)))
  }

  ghost function FormBytesAll(fs: seq<Form>): seq<byte>
    requires AllWell(fs)
    decreases fs, 3
  {
    if fs == [] then [] else FormBytes(fs[0]) + FormBytesAll(fs[1..])
  }

  function Tree(f: Form): Packet
    decreases f, 0
  {
    var id := Identifier(f.unit * 64, !f.Plain?, TagValue(f.tag));
    if f.Plain? then Packet(id, f.data, []) else Packet(id, BytesAll(Trees(f.parts)), Trees(f.parts))
  }

  function Trees(fs: seq<Form>): seq<Packet>
    decreases fs, 1
  {
    if fs == [] then [] else [Tree(fs[0])] + Trees(fs[1..])
  }

  // ---- Every form is read ----

  lemma {:induction false} DigitsRead(ds: seq<nat>, i: nat, t: seq<byte>)
    requires TagOk(Behind(ds)) && i < |ds|
    ensures ReadTag(DigitBytes(ds)[i..] + t, Horner(ds[..i]), i) == Ok(Horner(ds), t)
    decreases |ds| - i
  {
    hide DigitBytes, ReadTag;
    DigitsForm(ds, i, t);
    var u := DigitBytes(ds)[i..] + t;
    var tag := Horner(ds[..i + 1]);
    assert ds[..i + 1][..i] == ds[..i];
    if i == 0 { FirstDigit(ds); }
    if i == |ds| - 1 {
      assert ds[..i + 1] == ds;
      LastRead(u, Horner(ds[..i]), i, t);
    } else {
      NextRead(u, Horner(ds[..i]), i);
      DigitsRead(ds, i + 1, t);
    }
  }

  lemma FirstDigit(ds: seq<nat>)
    requires ds != []
    ensures Horner(ds[..0]) == 0 && Horner(ds[..1]) == ds[0]
  {
    assert ds[..1][..0] == [];
  }

  lemma DigitsForm(ds: seq<nat>, i: nat, t: seq<byte>)
    requires TagOk(Behind(ds)) && i < |ds|
    ensures var u := DigitBytes(ds)[i..] + t;
            u[0] == (if i < |ds| - 1 then 128 + ds[i] else ds[i]) && u[1..] == DigitBytes(ds)[i + 1..] + t
    ensures DigitBytes(ds)[|ds|..] == [] && DigitBytes(ds)[|ds|..] + t == t
  {
  }

  lemma {:induction false} LastRead(u: seq<byte>, tag: nat, i: nat, t: seq<byte>)
    requires u != [] && u[0] < 128 && u[1..] == t && i < 9 && (i == 0 ==> tag * 128 + u[0] != 0)
    ensures ReadTag(u, tag, i) == Ok(tag * 128 + u[0], t)
  {
  }

  lemma {:induction false} NextRead(u: seq<byte>, tag: nat, i: nat)
    requires u != [] && u[0] >= 128 && i < 9 && (i == 0 ==> tag * 128 + (u[0] - 128) != 0)
    ensures ReadTag(u, tag, i) == ReadTag(u[1..], tag * 128 + (u[0] - 128), i + 1)
  {
  }

  lemma IdentifierRead(unit: nat, constructed: bool, f: TagForm, t: seq<byte>)
    requires unit <= 3 && TagOk(f)
    ensures ReadIdentifier(IdentifierBytes(unit, constructed, f) + t) ==
            Ok(Identifier(unit * 64, constructed, TagValue(f)), t)
  {
    hide ReadTag, Horner, ClassOf, ConstructedBit, DigitBytes;
    var u := IdentifierBytes(unit, constructed, f) + t;
    LeadRead(unit, constructed, if f.InLead? then f.tag else 31);
    if f.InLead? {
      assert u[1..] == t;
    } else {
      assert u[1..] == DigitBytes(f.digits)[0..] + t;
      assert f.digits[..0] == [];
      FirstDigit(f.digits);
      DigitsRead(f.digits, 0, t);
    }
  }

  lemma LeadRead(unit: nat, constructed: bool, n: nat)
    requires unit <= 3 && n < 32
    ensures var b := unit * 64 + (if constructed then 32 else 0) + n;
            b < 256 && ClassOf(b) == unit * 64 && ConstructedBit(b) == constructed && b % 32 == n
  {
  }

  lemma LengthRead(f: LengthForm, t: seq<byte>)
    requires LengthOk(f)
    ensures ReadLength(LengthBytes(f) + t) == Ok(f.length, t)
  {
    hide Number, BigEndian, Power;
    var u := LengthBytes(f) + t;
    if f.Long? {
      BigEndianNumber(f.length, f.size);
      assert u[1..1 + f.size] == BigEndian(f.length, f.size) && u[1 + f.size..] == t;
    } else {
      assert u[1..] == t;
    }
  }

  lemma OpeningRead(s: seq<byte>, t: seq<byte>)
    requires Opening(s)
    ensures ReadLength(s + t) == Ok(INDEFINITE, t)
  {
    hide Number;
    var u := s + t;
    if s != [0x80] {
      assert u[1..9] == s[1..] && u[9..] == t;
      Ones();
    } else {
      assert u[1..] == t;
    }
  }

  lemma Ones()
    ensures Number([0xFF, 0xFF, 0xFF, 0xFF, 0xFF, 0xFF, 0xFF, 0xFF]) == TWO_64 - 1
  {
    hide Number;
    NoBytes([]);
    OneMore([]);
    assert [] + [0xFF] == [0xFF];
    OneMore([0xFF]);
    assert [0xFF] + [0xFF] == [0xFF, 0xFF];
    OneMore([0xFF, 0xFF]);
    assert [0xFF, 0xFF] + [0xFF] == [0xFF, 0xFF, 0xFF];
    OneMore([0xFF, 0xFF, 0xFF]);
    assert [0xFF, 0xFF, 0xFF] + [0xFF] == [0xFF, 0xFF, 0xFF, 0xFF];
    OneMore([0xFF, 0xFF, 0xFF, 0xFF]);
    assert [0xFF, 0xFF, 0xFF, 0xFF] + [0xFF] == [0xFF, 0xFF, 0xFF, 0xFF, 0xFF];
    OneMore([0xFF, 0xFF, 0xFF, 0xFF, 0xFF]);
    assert [0xFF, 0xFF, 0xFF, 0xFF, 0xFF] + [0xFF] == [0xFF, 0xFF, 0xFF, 0xFF, 0xFF, 0xFF];
    OneMore([0xFF, 0xFF, 0xFF, 0xFF, 0xFF, 0xFF]);
    assert [0xFF, 0xFF, 0xFF, 0xFF, 0xFF, 0xFF] + [0xFF] == [0xFF, 0xFF, 0xFF, 0xFF, 0xFF, 0xFF, 0xFF];
    OneMore([0xFF, 0xFF, 0xFF, 0xFF, 0xFF, 0xFF, 0xFF]);
    assert [0xFF, 0xFF, 0xFF, 0xFF, 0xFF, 0xFF, 0xFF] + [0xFF] == [0xFF, 0xFF, 0xFF, 0xFF, 0xFF, 0xFF, 0xFF, 0xFF];
  }

  lemma {:induction false} OneMore(s: seq<byte>)
    ensures Number(s + [0xFF]) == Number(s) * 256 + 255
  {
    assert (s + [0xFF])[..|s|] == s;
  }

  /** The bytes of any form are read as its tree, and what follows is left. */
  lemma {:induction false} FormRead(f: Form, t: seq<byte>)
    requires Well(f)
    ensures ReadPacket(FormBytes(f) + t) == Ok(Tree(f), t)
    decreases f, 0
  {
    hide ReadIdentifier, ReadLength, ReadChildren, LengthBytes, IdentifierBytes, BytesAll, FormBytesAll, Trees;
    hide TagValue, IsEoc, LengthOk, TagOk;
    match f
    case Plain(unit, tag, length, data) =>
      var w := data + t;
      assert FormBytes(f) + t == IdentifierBytes(unit, false, tag) + (LengthBytes(length) + w);
      IdentifierRead(unit, false, tag, LengthBytes(length) + w);
      LengthRead(length, w);
      assert w[..|data|] == data && w[|data|..] == t;
    case Definite(unit, tag, length, fs) =>
      var w := FormBytesAll(fs) + t;
      assert FormBytes(f) + t == IdentifierBytes(unit, true, tag) + (LengthBytes(length) + w);
      IdentifierRead(unit, true, tag, LengthBytes(length) + w);
      LengthRead(length, w);
      var q := Packet(Identifier(unit * 64, true, TagValue(tag)), [], []);
      PartsRead(fs, length.length, 0, q, t);
      PartsDone(t, length.length, q, fs);
    case Indefinite(unit, tag, opening, fs, end) =>
      var w := FormBytesAll(fs) + (FormBytes(end) + t);
      assert FormBytes(f) + t == IdentifierBytes(unit, true, tag) + (opening + w);
      IdentifierRead(unit, true, tag, opening + w);
      OpeningRead(opening, w);
      var q := Packet(Identifier(unit * 64, true, TagValue(tag)), [], []);
      PartsRead(fs, INDEFINITE, 0, q, FormBytes(end) + t);
      FormRead(end, t);
      PartsEnded(FormBytes(end) + t, |FormBytesAll(fs)|, q, fs);
  }

  lemma {:induction false} PartsDone(t: seq<byte>, n: nat, q: Packet, fs: seq<Form>)
    requires q.data == [] && q.children == []
    ensures ReadChildren(t, n, n, Packet(q.id, q.data + BytesAll(Trees(fs)), q.children + Trees(fs))) ==
            Ok(Packet(q.id, BytesAll(Trees(fs)), Trees(fs)), t)
  {
    hide BytesAll, Trees;
    assert [] + BytesAll(Trees(fs)) == BytesAll(Trees(fs)) && [] + Trees(fs) == Trees(fs);
  }

  lemma {:induction false} PartsEnded(t: seq<byte>, read: nat, q: Packet, fs: seq<Form>)
    requires q.data == [] && q.children == [] && ReadPacket(t).Ok? && IsEoc(ReadPacket(t).value)
    ensures ReadChildren(t, INDEFINITE, read, Packet(q.id, q.data + BytesAll(Trees(fs)), q.children + Trees(fs))) ==
            Ok(Packet(q.id, BytesAll(Trees(fs)), Trees(fs)), ReadPacket(t).rest)
  {
    hide BytesAll, Trees, ReadPacket, IsEoc;
    assert [] + BytesAll(Trees(fs)) == BytesAll(Trees(fs)) && [] + Trees(fs) == Trees(fs);
  }

  /** Parts are added one by one. */
  lemma {:induction false} PartsRead(fs: seq<Form>, n: int, read: nat, q: Packet, t: seq<byte>)
    requires AllWell(fs) && (n != INDEFINITE ==> read + |FormBytesAll(fs)| <= n)
    ensures ReadChildren(FormBytesAll(fs) + t, n, read, q) ==
            ReadChildren(t, n, read + |FormBytesAll(fs)|,
              Packet(q.id, q.data + BytesAll(Trees(fs)), q.children + Trees(fs)))
    decreases fs, 1
  {
    hide ReadPacket, ReadChildren, FormBytes, Tree, Bytes, BytesAll, IsEoc, Well;
    if fs == [] {
      assert FormBytesAll(fs) + t == t;
      NoBytesAll();
      assert q.data + [] == q.data && q.children + [] == q.children;
    } else {
      var c, tail := Tree(fs[0]), FormBytesAll(fs[1..]) + t;
      assert FormBytesAll(fs) + t == FormBytes(fs[0]) + tail;
      FormRead(fs[0], tail);
      PartRead(FormBytes(fs[0]), tail, n, read, q, c);
      var q' := Packet(q.id, q.data + Bytes(c), q.children + [c]);
      PartsRead(fs[1..], n, read + |FormBytes(fs[0])|, q', t);
      BytesFirst(c, Trees(fs[1..]));
      assert q.data + Bytes(c) + BytesAll(Trees(fs[1..])) == q.data + (Bytes(c) + BytesAll(Trees(fs[1..])));
      assert q.children + [c] + Trees(fs[1..]) == q.children + ([c] + Trees(fs[1..]));
    }
  }

  lemma {:induction false} PartRead(s: seq<byte>, t: seq<byte>, n: int, read: nat, q: Packet, c: Packet)
    requires ReadPacket(s + t) == Ok(c, t) && !IsEoc(c) && (n != INDEFINITE ==> read + |s| <= n)
    ensures ReadChildren(s + t, n, read, q) ==
            ReadChildren(t, n, read + |s|, Packet(q.id, q.data + Bytes(c), q.children + [c]))
  {
    hide ReadPacket, Bytes, IsEoc;
    assert |t| < |s + t|;
  }

  lemma NoBytesAll()
    ensures BytesAll([]) == []
  {
  }

  lemma {:induction false} BytesFirst(c: Packet, cs: seq<Packet>)
    ensures BytesAll([c] + cs) == Bytes(c) + BytesAll(cs)
    decreases |cs|
  {
    hide Bytes;
    if cs == [] {
      assert [c] + cs == [c] && [c][..0] == [];
    } else {
      BytesFirst(c, cs[..|cs| - 1]);
      assert ([c] + cs)[..|cs|] == [c] + cs[..|cs| - 1];
    }
  }

  // ---- And nothing else is read ----

  lemma {:induction false} DigitsOf(t: seq<byte>, done: seq<nat>) returns (ds: seq<nat>)
    requires ReadTag(t, Horner(done), |done|).Ok? && (done != [] ==> TagOk(Behind(done)))
    ensures TagOk(Behind(ds)) && |done| < |ds| && done <= ds
    ensures ReadTag(t, Horner(done), |done|) == Ok(Horner(ds), ReadTag(t, Horner(done), |done|).rest)
    ensures t == DigitBytes(ds)[|done|..] + ReadTag(t, Horner(done), |done|).rest
    decreases |t|
  {
    hide Horner, ReadTag, DigitBytes;
    var d := t[..1][0] % 128;
    ds := done + [d];
    TagStep(t, Horner(done), |done|, d);
    DigitAdded(done, d);
    if t[0] >= 128 {
      ds := DigitsOf(t[1..], ds);
      assert ds[|done|] == d;
    }
    var rest := ReadTag(t, Horner(done), |done|).rest;
    assert t[1..] == DigitBytes(ds)[|done| + 1..] + rest by { if t[0] < 128 { NothingBehind(ds, rest); } }
    DigitsFrom(ds, |done|);
    FrontByte(t, DigitBytes(ds)[|done| + 1..], rest);
  }

  lemma NothingBehind(ds: seq<nat>, rest: seq<byte>)
    requires TagOk(Behind(ds))
    ensures |DigitBytes(ds)| == |ds| && DigitBytes(ds)[|ds|..] + rest == rest
  {
  }

  lemma FrontByte(t: seq<byte>, s: seq<byte>, rest: seq<byte>)
    requires t != [] && t[1..] == s + rest
    ensures t == [t[0]] + s + rest
  {
  }

  lemma TagStep(t: seq<byte>, tag: nat, k: nat, d: nat)
    requires ReadTag(t, tag, k).Ok?
    ensures t != [] && k < 9
    requires t != [] ==> d == t[0] % 128
    ensures d < 128 && t[0] == d + (if t[0] < 128 then 0 else 128) && (k == 0 ==> tag * 128 + d != 0)
    ensures ReadTag(t, tag, k) == if t[0] < 128 then Ok(tag * 128 + d, t[1..])
              else ReadTag(t[1..], tag * 128 + d, k + 1)
  {
  }

  lemma {:induction false} DigitAdded(done: seq<nat>, d: nat)
    ensures Horner([]) == 0 && Horner(done + [d]) == Horner(done) * 128 + d
  {
    assert (done + [d])[..|done|] == done;
  }

  /** The bytes of the digits from one on. */
  lemma DigitsFrom(ds: seq<nat>, i: nat)
    requires TagOk(Behind(ds)) && i < |ds|
    ensures DigitBytes(ds)[i..] == [if i < |ds| - 1 then 128 + ds[i] else ds[i]] + DigitBytes(ds)[i + 1..]
    ensures DigitBytes(ds)[|ds|..] == []
  {
  }

  lemma LeadOf(b: byte)
    ensures b / 64 <= 3 && ClassOf(b) == b / 64 * 64 && ConstructedBit(b) == (b / 32 % 2 == 1)
    ensures b == b / 64 * 64 + (if ConstructedBit(b) then 32 else 0) + b % 32
  {
  }

  lemma IdentifierOf(t: seq<byte>) returns (unit: nat, f: TagForm)
    requires ReadIdentifier(t).Ok?
    ensures unit <= 3 && TagOk(f)
    ensures var r := ReadIdentifier(t);
            && r.value == Identifier(unit * 64, r.value.constructed, TagValue(f))
            && t == IdentifierBytes(unit, r.value.constructed, f) + r.rest
  {
    hide ReadTag, DigitBytes;
    LeadOf(t[0]);
    unit := t[0] / 64;
    assert t == [t[0]] + t[1..];
    if t[0] % 32 != HIGH_TAG {
      f := InLead(t[0] % 32);
    } else {
      var ds := DigitsOf(t[1..], []);
      f := Behind(ds);
      assert DigitBytes(ds)[0..] == DigitBytes(ds);
    }
  }

  lemma {:induction false} NumberBack(s: seq<byte>)
    ensures Number(s) < Power(256, |s|) && BigEndian(Number(s), |s|) == s
  {
    if s != [] {
      NumberBack(s[..|s| - 1]);
      var v, b := Number(s[..|s| - 1]), s[|s| - 1];
      assert (v * 256 + b) / 256 == v && (v * 256 + b) % 256 == b;
    }
  }

  lemma LengthOf(t: seq<byte>) returns (f: LengthForm)
    requires ReadLength(t).Ok? && ReadLength(t).value >= 0
    ensures LengthOk(f) && ReadLength(t).value == f.length && t == LengthBytes(f) + ReadLength(t).rest
  {
    hide Number, BigEndian, Power;
    if t[0] < 0x80 {
      f := Short(t[0]);
    } else {
      var n := t[0] - 128;
      NumberBack(t[1..1 + n]);
      PowersOf256();
      PowerUpTo(n);
      f := Long(Number(t[1..1 + n]), n);
    }
  }

  lemma {:induction false} PowerUpTo(n: nat)
    requires n <= 8
    ensures Power(256, n) <= TWO_64 && (n < 8 ==> Power(256, n) < TWO_63)
  {
    PowersOf256();
    if n < 8 {
      PowerAdd(256, n, 7 - n);
      PowerPositive(256, 7 - n);
      Grows(Power(256, n), Power(256, 7 - n));
    }
  }

  lemma Grows(a: nat, b: nat)
    requires b > 0
    ensures a <= a * b
  {
  }

  lemma OpeningOf(t: seq<byte>) returns (s: seq<byte>)
    requires ReadLength(t).Ok? && ReadLength(t).value == INDEFINITE
    ensures Opening(s) && t == s + ReadLength(t).rest
  {
    hide Number, BigEndian, Power;
    if t[0] == 0x80 {
      s := t[..1];
    } else {
      var n := t[0] - 128;
      NumberBack(t[1..1 + n]);
      PowerUpTo(n);
      Ones();
      NumberBack([0xFF, 0xFF, 0xFF, 0xFF, 0xFF, 0xFF, 0xFF, 0xFF]);
      s := t[..9];
      assert s == [t[0]] + t[1..9];
    }
  }

  /** Whatever is read is a form of its tree. */
  lemma {:induction false} FormOf(t: seq<byte>) returns (f: Form)
    requires ReadPacket(t).Ok?
    ensures Well(f) && Tree(f) == ReadPacket(t).value && t == FormBytes(f) + ReadPacket(t).rest
    decreases |t|, 0
  {
    hide ReadIdentifier, ReadLength, ReadChildren, LengthBytes, IdentifierBytes, BytesAll, FormBytesAll, Trees;
    hide TagValue, IsEoc, LengthOk, TagOk, Opening;
    var r := ReadPacket(t);
    var unit, tag := IdentifierOf(t);
    var u := ReadIdentifier(t).rest;
    var id, n, rest := ReadIdentifier(t).value, ReadLength(u).value, ReadLength(u).rest;
    if !id.constructed {
      var length := LengthOf(u);
      f := Plain(unit, tag, length, rest[..n]);
      assert u == LengthBytes(length) + (f.data + rest[n..]);
      assert t == FormBytes(f) + r.rest;
    } else {
      var q := Packet(id, [], []);
      var fs, end := PartsOf(rest, n, 0, q);
      assert [] + BytesAll(Trees(fs)) == BytesAll(Trees(fs)) && [] + Trees(fs) == Trees(fs);
      if n == INDEFINITE {
        var s := OpeningOf(u);
        f := Indefinite(unit, tag, s, fs, end.value);
        assert FormBytesAll(fs) + (FormBytes(end.value) + r.rest) == FormBytesAll(fs) + FormBytes(end.value) + r.rest;
        assert u == s + (FormBytesAll(fs) + FormBytes(end.value)) + r.rest;
        assert t == FormBytes(f) + r.rest;
      } else {
        var length := LengthOf(u);
        f := Definite(unit, tag, length, fs);
        assert u == LengthBytes(length) + FormBytesAll(fs) + r.rest;
        assert t == FormBytes(f) + r.rest;
      }
    }
  }

  datatype Marker = NoMarker | Marker(value: Form)

  /** The bytes of the parts and of what ends them. */
  ghost predicate Made(t: seq<byte>, fs: seq<Form>, end: Marker, indefinite: bool, rest: seq<byte>) {
    && AllWell(fs)
    && if indefinite
       then end.Marker? && Well(end.value) && IsEoc(Tree(end.value)) &&
         t == FormBytesAll(fs) + (FormBytes(end.value) + rest)
       else t == FormBytesAll(fs) + rest
  }

  lemma {:induction false} PartsOf(t: seq<byte>, n: int, read: nat, q: Packet) returns (fs: seq<Form>, end: Marker)
    requires ReadChildren(t, n, read, q).Ok?
    ensures var r := ReadChildren(t, n, read, q);
            && Made(t, fs, end, n == INDEFINITE, r.rest)
            && r.value == Packet(q.id, q.data + BytesAll(Trees(fs)), q.children + Trees(fs))
            && (n != INDEFINITE ==> n == read + |FormBytesAll(fs)|)
    decreases |t|, 1
  {
    hide ReadPacket, FormBytes, Tree, Bytes, BytesAll, IsEoc, Well, Made;
    fs, end := [], NoMarker;
    if n == INDEFINITE || read != n {
      var c, rest := ReadPacket(t).value, ReadPacket(t).rest;
      var f := FormOf(t);
      if IsEoc(c) {
        end := Marker(f);
        NothingMade(t, q, end, true, rest);
      } else {
        var q' := Packet(q.id, q.data + Bytes(c), q.children + [c]);
        fs, end := PartsOf(rest, n, read + |t| - |rest|, q');
        OneMade(f, fs, end, n == INDEFINITE, rest, ReadChildren(t, n, read, q).rest, q);
        fs := [f] + fs;
      }
    } else {
      NothingMade(t, q, end, false, t);
    }
  }

  lemma NothingMade(t: seq<byte>, q: Packet, end: Marker, indefinite: bool, rest: seq<byte>)
    requires if indefinite
               then end.Marker? && Well(end.value) && IsEoc(Tree(end.value)) && t == FormBytes(end.value) + rest
             else t == rest
    ensures Made(t, [], end, indefinite, rest) && FormBytesAll([]) == []
    ensures q == Packet(q.id, q.data + BytesAll(Trees([])), q.children + Trees([]))
  {
    hide FormBytes, Tree, Bytes, IsEoc, Well;
    NoBytesAll();
    assert q.data + [] == q.data && q.children + [] == q.children && [] + t == t;
    if indefinite { assert [] + (FormBytes(end.value) + rest) == t; }
  }

  lemma {:induction false} OneMade(f: Form, fs: seq<Form>, end: Marker, indefinite: bool, t: seq<byte>, rest: seq<byte>,
                                   q: Packet)
    requires Well(f) && !IsEoc(Tree(f)) && Made(t, fs, end, indefinite, rest)
    ensures Made(FormBytes(f) + t, [f] + fs, end, indefinite, rest)
    ensures FormBytesAll([f] + fs) == FormBytes(f) + FormBytesAll(fs)
    ensures Packet(q.id, q.data + BytesAll(Trees([f] + fs)), q.children + Trees([f] + fs)) ==
            Packet(q.id, q.data + Bytes(Tree(f)) + BytesAll(Trees(fs)), q.children + [Tree(f)] + Trees(fs))
  {
    hide FormBytes, Tree, Bytes, BytesAll, IsEoc, Well;
    var c := Tree(f);
    assert ([f] + fs)[0] == f && ([f] + fs)[1..] == fs;
    BytesFirst(c, Trees(fs));
    assert q.data + Bytes(c) + BytesAll(Trees(fs)) == q.data + (Bytes(c) + BytesAll(Trees(fs)));
    assert q.children + [c] + Trees(fs) == q.children + ([c] + Trees(fs));
    var u := if indefinite then FormBytes(end.value) + rest else rest;
    assert FormBytes(f) + (FormBytesAll(fs) + u) == FormBytes(f) + FormBytesAll(fs) + u;
  }

  /** A tree is read from the front of some bytes, and the rest left, if and only if what
      is in front is one of its forms. */
  lemma {:induction false} ReadsForms(t: seq<byte>, p: Packet, rest: seq<byte>)
    ensures ReadPacket(t) == Ok(p, rest) <==> exists f: Form :: Well(f) && Tree(f) == p && t == FormBytes(f) + rest
  {
    hide ReadPacket, Well, Tree, FormBytes;
    if f: Form :| Well(f) && Tree(f) == p && t == FormBytes(f) + rest { FormRead(f, rest); }
    if ReadPacket(t) == Ok(p, rest) { var f := FormOf(t); }
  }

  // ---- The writer's encoding is the shortest ----

  lemma {:induction false} ByteLengthLeast(v: nat, n: nat)
    requires n >= 1 && v < Power(256, n)
    ensures ByteLength(v) <= n
    decreases n
  {
    if v > 255 { ByteLengthLeast(v / 256, n - 1); }
  }

  lemma ShortestLength(f: LengthForm)
    requires LengthOk(f)
    ensures |EncodeLength(f.length)| <= |LengthBytes(f)|
  {
    if f.Long? { ByteLengthLeast(f.length, f.size); }
  }

  lemma {:induction false} HighBitBound(v: nat, k: nat)
    requires v < Power(128, k)
    ensures HighBit(v) <= 7 * k
    decreases k
  {
    if k > 0 {
      HighBitBound(v / 128, k - 1);
      SevenBits(v);
    }
  }

  lemma {:induction false} SevenBits(v: nat)
    ensures HighBit(v) <= HighBit(v / 128) + 7
  {
    var a := v / 2;
    var b := a / 2;
    var c := b / 2;
    var d := c / 2;
    var e := d / 2;
    var f := e / 2;
    assert v / 128 == f / 2;
    assert HighBit(v) <= 1 + HighBit(a) && HighBit(a) <= 1 + HighBit(b) && HighBit(b) <= 1 + HighBit(c);
    assert HighBit(c) <= 1 + HighBit(d) && HighBit(d) <= 1 + HighBit(e) && HighBit(e) <= 1 + HighBit(f);
    assert HighBit(f) <= 1 + HighBit(f / 2);
  }

  lemma {:induction false} HornerBound(ds: seq<nat>)
    requires forall i :: 0 <= i < |ds| ==> ds[i] < 128
    ensures Horner(ds) < Power(128, |ds|)
  {
    if ds != [] { HornerBound(ds[..|ds| - 1]); }
  }

  lemma ShortestTag(unit: nat, constructed: bool, f: TagForm)
    requires unit <= 3 && TagOk(f)
    ensures |EncodeIdentifier(Identifier(unit * 64, constructed, TagValue(f)))| <= |IdentifierBytes(unit, constructed,
              f)|
  {
    if f.Behind? {
      HornerBound(f.digits);
      HighBitBound(Horner(f.digits), |f.digits|);
    }
  }

  /** No length is indefinite, at any level. */
  predicate AllDefinite(f: Form)
    decreases f, 0
  {
    !f.Indefinite? && (f.Definite? ==> EachDefinite(f.parts))
  }

  predicate EachDefinite(fs: seq<Form>)
    decreases fs, 1
  {
    fs == [] || (AllDefinite(fs[0]) && EachDefinite(fs[1..]))
  }

  /** What is written of a tree is no longer than any of its encodings with definite lengths. */
  lemma {:induction false} Shortest(f: Form)
    requires Well(f) && AllDefinite(f)
    ensures |Bytes(Tree(f))| <= |FormBytes(f)|
    decreases f, 0
  {
    hide EncodeLength, EncodeIdentifier, LengthBytes, IdentifierBytes, LengthOk, TagOk;
    ShortestTag(f.unit, f.Definite?, f.tag);
    if f.Plain? {
      ShortestLength(f.length);
    } else {
      ShortestAll(f.parts);
      ShorterLength(f.length, |BytesAll(Trees(f.parts))|);
    }
  }

  lemma ShorterLength(f: LengthForm, n: nat)
    requires LengthOk(f) && n <= f.length
    ensures |EncodeLength(n)| <= |LengthBytes(f)|
  {
    ShortestLength(f.(length := n));
  }

  lemma {:induction false} ShortestAll(fs: seq<Form>)
    requires AllWell(fs) && EachDefinite(fs)
    ensures |BytesAll(Trees(fs))| <= |FormBytesAll(fs)|
    decreases fs, 1
  {
    hide Bytes, Tree, FormBytes, Well, AllDefinite;
    if fs == [] {
      NoBytesAll();
    } else {
      Shortest(fs[0]);
      ShortestAll(fs[1..]);
      BytesFirst(Tree(fs[0]), Trees(fs[1..]));
    }
  }

  /** Nor is what is written of an integer longer than any bytes that are read as it. */
  lemma {:induction false} ShortestInteger(s: seq<byte>)
    requires s != []
    ensures SignedLength(SignExtended(s)) <= |s|
  {
    SignExtension(s);
    SignedLengthBound(SignExtended(s), |s|);
  }
}
