/** What the bytes of an input stand for: UTF-8 by RFC 3629 and UTF-16 by RFC 2781, section 2,
    with or without a byte order mark. The reader is proved to read exactly these. */
module YamlEncodings {
  import opened Octets
  import opened Utf8
  import opened Wrappers
  import opened YamlReader

  /** A 16-bit unit. */
  function Pair(u: nat, little: bool): seq<byte>
    requires u < 0x10000
  {
    if little then [u % 256, u / 256] else [u / 256, u % 256]
  }

  /** One unit, or a high and a low surrogate. */
  function Utf16(v: nat, little: bool): seq<byte>
    requires v <= 0x10FFFF
  {
    if v < 0x10000 then Pair(v, little)
    else Pair(0xD800 + (v - 0x10000) / 1024, little) + Pair(0xDC00 + (v - 0x10000) % 1024, little)
  }

  function Form(e: Encoding, v: nat): seq<byte>
    requires v <= 0x10FFFF
  {
    if e.Utf16LE? || e.Utf16BE? then Utf16(v, e.Utf16LE?) else Encode(v)
  }

  predicate AllAllowed(vs: seq<nat>) {
    forall i :: 0 <= i < |vs| ==> Allowed(vs[i])
  }

  /** The bytes of a text. */
  function Text(e: Encoding, vs: seq<nat>): seq<byte>
    requires AllAllowed(vs)
  {
    if vs == [] then [] else Form(e, vs[0]) + Text(e, vs[1..])
  }

  /** Its characters. */
  function Characters(vs: seq<nat>): seq<seq<byte>>
    requires AllAllowed(vs)
  {
    seq(|vs|, i requires 0 <= i < |vs| => Encode(vs[i]))
  }

  function Mark(e: Encoding): seq<byte> {
    match e
    case Utf16LE => [0xFF, 0xFE]
    case Utf16BE => [0xFE, 0xFF]
    case _ => [0xEF, 0xBB, 0xBF]
  }

  /** No character of the encoding that may stand in a text begins here. */
  ghost predicate Stuck(e: Encoding, t: seq<byte>) {
    forall v: nat :: v <= 0x10FFFF && Allowed(v) ==> !(Form(e, v) <= t)
  }

  /** The input is a text up to where no character begins: behind a byte order mark, or
      in UTF-8 if there is none. */
  ghost predicate Reads(input: seq<byte>, e: Encoding, vs: seq<nat>, rest: seq<byte>) {
    && AllAllowed(vs) && Stuck(e, rest)
    && match e
       case AnyEncoding => false
       case Utf8Encoding =>
         !(Mark(Utf16LE) <= input) && !(Mark(Utf16BE) <= input) &&
         input == (if Mark(e) <= input then Mark(e) else []) + (Text(e, vs) + rest)
       case _ => input == Mark(e) + (Text(e, vs) + rest)
  }

  // ---- One character ----

  lemma DecodeEncode(v: nat)
    requires Scalar(v)
    ensures OneChar(Encode(v)) && Decode(Encode(v)) == v
  {
    if v <= 0x7FF {
    } else if v <= 0xFFFF {
      DecodeEncode3(v);
    } else {
      DecodeEncode4(v);
    }
  }

  lemma DecodeEncode3(v: nat)
    requires Scalar(v) && 0x7FF < v <= 0xFFFF
    ensures OneChar(Encode(v)) && Decode(Encode(v)) == v
  {
    var x, y, z := v / 4096, v / 64 % 64, v % 64;
    assert v == (x * 64 + y) * 64 + z;
    assert Encode(v) == [0xE0 + x, 0x80 + y, 0x80 + z];
  }

  lemma DecodeEncode4(v: nat)
    requires 0xFFFF < v <= 0x10FFFF
    ensures OneChar(Encode(v)) && Decode(Encode(v)) == v
  {
    var x, y, z, u := v / 262144, v / 4096 % 64, v / 64 % 64, v % 64;
    assert v == ((x * 64 + y) * 64 + z) * 64 + u;
    assert Encode(v) == [0xF0 + x, 0x80 + y, 0x80 + z, 0x80 + u];
  }

  lemma {:induction false} TrailByByte(a: seq<byte>, value: nat)
    ensures |a| >= 1 ==> Trail(a, 1, 1, value) == Char(value, 1)
    ensures |a| >= 2 ==> Trail(a, 1, 2, value) ==
                         if !Tail(a[1]) then Bad(InvalidTrailingOctet, 1) else Char(value * 64 + a[1] % 64, 2)
    ensures |a| >= 3 && Tail(a[1]) && Tail(a[2]) ==>
              Trail(a, 1, 3, value) == Char((value * 64 + a[1] % 64) * 64 + a[2] % 64, 3)
    ensures |a| >= 4 && Tail(a[1]) && Tail(a[2]) && Tail(a[3]) ==>
              Trail(a, 1, 4, value) == Char(((value * 64 + a[1] % 64) * 64 + a[2] % 64) * 64 + a[3] % 64, 4)
  {
  }

  lemma {:induction false} TailsOnly(a: seq<byte>, w: nat, value: nat)
    requires 1 <= w <= 4 && w <= |a| && Trail(a, 1, w, value).Char?
    ensures forall k :: 1 <= k < w ==> Tail(a[k])
  {
  }

  /** A character in front is read as what it is, whatever follows. */
  lemma FormRead(e: Encoding, v: nat, t: seq<byte>)
    requires !e.AnyEncoding? && Scalar(v)
    ensures DecodeOne(e, Form(e, v) + t) == Checked(v, |Form(e, v)|)
  {
    var a := Form(e, v) + t;
    assert forall i :: 0 <= i < |Form(e, v)| ==> a[i] == Form(e, v)[i];
    if e.Utf8Encoding? {
      hide Trail, Allowed;
      DecodeEncode(v);
      TrailByByte(a, LeadValue(a[0]));
    } else {
      UnitsRead(v, a, e.Utf16LE?);
    }
  }

  lemma UnitsRead(v: nat, a: seq<byte>, little: bool)
    requires Scalar(v) && Utf16(v, little) <= a
    ensures DecodeUtf16(a, little) == Checked(v, |Utf16(v, little)|)
  {
    hide Allowed;
    assert forall i :: 0 <= i < |Utf16(v, little)| ==> a[i] == Utf16(v, little)[i];
  }

  /** And what is read is the form of a character. */
  lemma ReadForm(e: Encoding, a: seq<byte>)
    requires !e.AnyEncoding? && a != [] && DecodeOne(e, a).Char?
    ensures var c := DecodeOne(e, a);
            Allowed(c.value) && Form(e, c.value) <= a && c.width == |Form(e, c.value)|
  {
    if e.Utf8Encoding? { Utf8Form(a); } else { Utf16Form(a, e.Utf16LE?); }
  }

  lemma PairOfUnit(a: seq<byte>, i: nat, little: bool)
    requires i + 1 < |a|
    ensures Unit(a, i, little) < 0x10000 && Pair(Unit(a, i, little), little) == a[i..i + 2]
  {
  }

  lemma Utf16Form(a: seq<byte>, little: bool)
    requires DecodeUtf16(a, little).Char?
    ensures var c := DecodeUtf16(a, little);
            Allowed(c.value) && Utf16(c.value, little) <= a && c.width == |Utf16(c.value, little)|
  {
    hide Unit, Pair, Allowed;
    PairOfUnit(a, 0, little);
    var u := Unit(a, 0, little);
    if 0xD800 <= u <= 0xDBFF {
      PairOfUnit(a, 2, little);
      var u' := Unit(a, 2, little);
      var v := 0x10000 + (u - 0xD800) * 1024 + (u' - 0xDC00);
      assert (v - 0x10000) / 1024 == u - 0xD800 && (v - 0x10000) % 1024 == u' - 0xDC00;
      assert a[..4] == a[..2] + a[2..4];
    }
  }

  lemma Utf8Form(a: seq<byte>)
    requires a != [] && DecodeUtf8(a).Char?
    ensures var c := DecodeUtf8(a); Allowed(c.value) && Encode(c.value) <= a && c.width == |Encode(c.value)|
  {
    hide Trail, Allowed;
    var w := Width(a[0]);
    TailsOnly(a, w, LeadValue(a[0]));
    TrailByByte(a, LeadValue(a[0]));
    TrailWidth(a, 1, w, LeadValue(a[0]));
    var c := a[..w];
    assert OneChar(c) && Decode(c) == DecodeUtf8(a).value;
    EncodeDecode(c);
  }

  lemma NoCharacter(e: Encoding, t: seq<byte>)
    requires !e.AnyEncoding? && Stuck(e, t) && t != []
    ensures !DecodeOne(e, t).Char?
    ensures DecodeOne(e, t) == Bad(ControlCharacter, 0) <==> exists v: nat :: Scalar(v) && Form(e, v) <= t
    ensures DecodeOne(e, t).Bad? ==> DecodeOne(e, t).at <= 3
    ensures DecodeOne(e, t).Short? ==> DecodeOne(e, t).problem != ControlCharacter
  {
    hide Form, DecodeOne, Allowed;
    if DecodeOne(e, t).Char? { ReadForm(e, t); }
    if v: nat :| Scalar(v) && Form(e, v) <= t {
      FormRead(e, v, t[|Form(e, v)|..]);
      assert t == Form(e, v) + t[|Form(e, v)|..];
    }
    Refusal(e, t);
  }

  lemma ControlForm(a: seq<byte>)
    requires a != [] && DecodeUtf8(a) == Bad(ControlCharacter, 0)
    ensures exists v: nat :: Scalar(v) && Encode(v) <= a
  {
    hide Trail, Allowed;
    var w := Width(a[0]);
    TrailByByte(a, LeadValue(a[0]));
    TrailWidth(a, 1, w, LeadValue(a[0]));
    TrailFault(a, 1, w, LeadValue(a[0]));
    TailsOnly(a, w, LeadValue(a[0]));
    var c := a[..w];
    assert OneChar(c);
    EncodeDecode(c);
    assert Scalar(Decode(c)) && Encode(Decode(c)) <= a;
  }

  lemma {:induction false} TrailFault(a: seq<byte>, k: nat, w: nat, value: nat)
    requires k <= w <= |a|
    ensures var r := Trail(a, k, w, value);
            r.Bad? ==> r.problem == InvalidTrailingOctet && k <= r.at < w
    decreases w - k
  {
    if k < w && Tail(a[k]) { TrailFault(a, k + 1, w, value * 64 + a[k] % 64); }
  }

  lemma ControlUnits(a: seq<byte>, little: bool)
    requires DecodeUtf16(a, little) == Bad(ControlCharacter, 0)
    ensures exists v: nat :: Scalar(v) && Utf16(v, little) <= a
  {
    hide Unit, Pair, Allowed;
    PairOfUnit(a, 0, little);
    var u := Unit(a, 0, little);
    if 0xD800 <= u <= 0xDBFF {
      PairOfUnit(a, 2, little);
      var u' := Unit(a, 2, little);
      var v := 0x10000 + (u - 0xD800) * 1024 + (u' - 0xDC00);
      assert (v - 0x10000) / 1024 == u - 0xD800 && (v - 0x10000) % 1024 == u' - 0xDC00;
      assert a[..4] == a[..2] + a[2..4];
      assert Scalar(v) && Utf16(v, little) <= a;
    } else {
      assert Scalar(u) && Utf16(u, little) <= a;
    }
  }

  lemma Refusal(e: Encoding, t: seq<byte>)
    requires !e.AnyEncoding? && t != [] && !DecodeOne(e, t).Char?
    ensures DecodeOne(e, t).Bad? ==> DecodeOne(e, t).at <= 3
    ensures DecodeOne(e, t).Short? ==> DecodeOne(e, t).problem != ControlCharacter
    ensures DecodeOne(e, t) == Bad(ControlCharacter, 0) ==> exists v: nat :: Scalar(v) && Form(e, v) <= t
  {
    if e.Utf8Encoding? {
      hide Trail, Allowed;
      var w := Width(t[0]);
      if 0 < w <= |t| {
        TrailFault(t, 1, w, LeadValue(t[0]));
        TrailWidth(t, 1, w, LeadValue(t[0]));
      }
      if DecodeUtf8(t) == Bad(ControlCharacter, 0) {
        ControlForm(t);
        var v: nat :| Scalar(v) && Encode(v) <= t;
        assert Form(e, v) <= t;
      }
    } else {
      if DecodeUtf16(t, e.Utf16LE?) == Bad(ControlCharacter, 0) {
        ControlUnits(t, e.Utf16LE?);
        var v: nat :| Scalar(v) && Utf16(v, e.Utf16LE?) <= t;
        assert Form(e, v) <= t;
      }
    }
  }

  // ---- The whole input ----

  lemma {:induction false} TextRead(e: Encoding, input: seq<byte>, offset: nat, vs: seq<nat>, rest: seq<byte>)
    requires !e.AnyEncoding? && offset <= |input| && AllAllowed(vs) && input[offset..] == Text(e, vs) + rest
    ensures |rest| <= |input| && input[|input| - |rest|..] == rest
    ensures DecodeFrom(e, input, offset) == Before(Characters(vs), DecodeFrom(e, input, |input| - |rest|))
    decreases |vs|
  {
    hide DecodeOne, Form, Allowed;
    if vs == [] {
      assert Text(e, vs) + rest == rest;
      NothingBefore(DecodeFrom(e, input, offset));
    } else {
      FormOfAllowed(vs[0]);
      var c, more := Form(e, vs[0]), Text(e, vs[1..]) + rest;
      assert Text(e, vs) + rest == c + more;
      FormRead(e, vs[0], more);
      CharForm(e, c + more);
      assert input[offset + |c|..] == more;
      TextRead(e, input, offset + |c|, vs[1..], rest);
      BeforeTwice([Encode(vs[0])], Characters(vs[1..]), DecodeFrom(e, input, |input| - |rest|));
      assert [Encode(vs[0])] + Characters(vs[1..]) == Characters(vs);
    }
  }

  lemma FormOfAllowed(v: nat)
    requires Allowed(v)
    ensures Scalar(v) && forall e: Encoding :: Form(e, v) != []
  {
  }

  /** Every input is a text up to some place. */
  lemma {:induction false} TextOf(e: Encoding, t: seq<byte>) returns (vs: seq<nat>, rest: seq<byte>)
    requires !e.AnyEncoding?
    ensures AllAllowed(vs) && Stuck(e, rest) && t == Text(e, vs) + rest
    decreases |t|
  {
    hide DecodeOne, Form, Allowed;
    vs, rest := [], t;
    if v: nat :| Allowed(v) && v <= 0x10FFFF && Form(e, v) <= t {
      var c := Form(e, v);
      assert t == c + t[|c|..];
      FormOfAllowed(v);
      FormRead(e, v, t[|c|..]);
      CharForm(e, t);
      vs, rest := TextOf(e, t[|c|..]);
      assert [v][0] == v && ([v] + vs)[1..] == vs;
      vs := [v] + vs;
      assert c + (Text(e, vs[1..]) + rest) == Text(e, vs) + rest;
    }
  }

  /** Every input has a reading. */
  lemma SomeReading(input: seq<byte>) returns (e: Encoding, vs: seq<nat>, rest: seq<byte>)
    ensures Reads(input, e, vs, rest)
  {
    hide Stuck, Text;
    var start;
    e, start := Detect(input).0, Detect(input).1;
    vs, rest := TextOf(e, input[start..]);
    assert input == input[..start] + input[start..];
    assert start == 0 ==> input == [] + input[start..];
  }

  /** The characters delivered are those of the text. There is no failure if and only if
      the input is all text, else it is where the text ends or at most three bytes on; a
      control character is reported exactly where one stands that is not allowed. */
  lemma InputRead(input: seq<byte>, e: Encoding, vs: seq<nat>, rest: seq<byte>)
    requires Reads(input, e, vs, rest)
    ensures DecodeInput(input).chars == Characters(vs)
    ensures DecodeInput(input).failure == None <==> rest == []
    ensures rest != [] ==>
              |rest| <= |input| && |input| - |rest| <= DecodeInput(input).failure.value.offset <= |input| - |rest| + 3
    ensures rest != [] ==> (DecodeInput(input).failure.value == Failure(ControlCharacter, |input| - |rest|) <==>
              exists v: nat :: Scalar(v) && Form(e, v) <= rest)
  {
    hide Stuck, Text, DecodeOne, Form, Allowed;
    var start, text := Detect(input).1, Text(e, vs) + rest;
    if !e.Utf8Encoding? { assert Mark(e) <= input && input[0] == Mark(e)[0]; }
    assert Detect(input).0 == e && start <= |input|;
    assert input == input[..start] + text;
    assert input[start..] == text;
    TextRead(e, input, start, vs, rest);
    var end := |input| - |rest|;
    if rest != [] { NoCharacter(e, rest); }
    var d := DecodeFrom(e, input, end);
    assert d.chars == [] && Characters(vs) + [] == Characters(vs);
  }

  /** So an input is read without failure as some characters if and only if it is their
      text, with the mark of its encoding or, in UTF-8, perhaps without. */
  lemma ReadAsText(input: seq<byte>, cs: seq<seq<byte>>)
    ensures DecodeInput(input) == Decoded(cs, None) <==>
            exists e, vs :: Reads(input, e, vs, []) && AllAllowed(vs) && cs == Characters(vs)
  {
    hide Stuck, Text, DecodeInput, Characters;
    var e, vs, rest := SomeReading(input);
    InputRead(input, e, vs, rest);
    if DecodeInput(input) == Decoded(cs, None) { assert Reads(input, e, vs, []); }
    if e', vs' :| Reads(input, e', vs', []) && AllAllowed(vs') && cs == Characters(vs') {
      InputRead(input, e', vs', []);
    }
  }
}
