/** The text of tags: how the emitter writes handle and suffix, and the scanner that
    reads them back. */
module YamlTagText {
  import opened Octets
  import opened Utf8
  import opened YamlBytes
  import opened YamlFlowScanner
  import Q = YamlQuoted

  const BANG: byte := 0x21
  const PERCENT: byte := 0x25
  const LESS: byte := 0x3C
  const GREATER: byte := 0x3E

  // ---- Writing ----

  predicate IsAlpha(b: byte) {
    0x30 <= b <= 0x39 || 0x41 <= b <= 0x5A || 0x61 <= b <= 0x7A || b == 0x5F || b == 0x2D
  }

  const MARKS: set<byte> :=
    {0x24, 0x26, 0x27, 0x28, 0x29, 0x2A, 0x2B, 0x2C, 0x2E, 0x2F, 0x3A, 0x3B, 0x3D, 0x3F, 0x40, 0x5B, 0x5D, 0x7E}

  /** What is written as it is. */
  predicate Raw(b: byte) { IsAlpha(b) || b in MARKS }

  function Percent(b: byte): seq<byte> {
    [PERCENT, HexDigit(b / 16), HexDigit(b % 16)]
  }

  /** The text of a suffix or a prefix. */
  function Content(v: seq<byte>): seq<byte> {
    if v == [] then [] else (if Raw(v[0]) then [v[0]] else Percent(v[0])) + Content(v[1..])
  }

  /** A handle with the suffix, or the suffix in its brackets. */
  function TagOut(handle: seq<byte>, suffix: seq<byte>): seq<byte> {
    if handle != [] then handle + Content(suffix) else [BANG, LESS] + Content(suffix) + [GREATER]
  }

  predicate AllAlpha(s: seq<byte>) {
    forall i | 0 <= i < |s| :: IsAlpha(s[i])
  }

  /** A handle that the emitter accepts for a directive. */
  predicate IsHandle(h: seq<byte>) {
    h == [BANG] || (|h| >= 2 && h[0] == BANG && h[|h| - 1] == BANG && AllAlpha(h[1..|h| - 1]))
  }

  // ---- Scanning ----

  /** What may stand in the text of a tag. */
  predicate InUri(b: byte) { Raw(b) || b == BANG || b == PERCENT }

  datatype Uri = BadUri | Uri(text: seq<byte>, rest: seq<byte>)

  predicate IsOctet(t: seq<byte>) {
    At(t, 0) == PERCENT && IsHex(At(t, 1)) && IsHex(At(t, 2))
  }

  function Octet(t: seq<byte>): byte
    requires IsOctet(t)
  {
    AsHex(t[1]) * 16 + AsHex(t[2])
  }

  /** The trailing octets of an escaped character. */
  function TakeTrail(t: seq<byte>, w: nat, s: seq<byte>): (r: Uri)
    ensures r.Uri? ==> |r.rest| <= |t|
    decreases w
  {
    if w == 0 then Uri(s, t)
    else if !IsOctet(t) || !Tail(Octet(t)) then BadUri
    else TakeTrail(t[3..], w - 1, s + [Octet(t)])
  }

  function TakeEscaped(t: seq<byte>, s: seq<byte>): (r: Uri)
    ensures r.Uri? ==> |r.rest| < |t|
  {
    if !IsOctet(t) || Width(Octet(t)) == 0 then BadUri else TakeTrail(t[3..], Width(Octet(t)) - 1, s + [Octet(t)])
  }

  function TakeUri(t: seq<byte>, s: seq<byte>): (r: Uri)
    ensures r.Uri? ==> |r.rest| <= |t|
    decreases |t|
  {
    if !InUri(At(t, 0)) then Uri(s, t)
    else if t[0] == PERCENT then
      match TakeEscaped(t, s)
      case BadUri => BadUri
      case Uri(s', u) => TakeUri(u, s')
    else TakeUri(t[1..], s + [t[0]])
  }

  /** The text may not be empty; of the head the exclamation mark is left out. */
  function UriAt(t: seq<byte>, head: seq<byte>): Uri {
    var r := TakeUri(t, if |head| > 1 then head[1..] else []);
    if r.Uri? && r.text == [] then BadUri else r
  }

  /** The letters and digits at the front. */
  function Alphas(t: seq<byte>): (k: nat)
    ensures k <= |t| && AllAlpha(t[..k]) && !IsAlpha(At(t[k..], 0))
  {
    if !IsAlpha(At(t, 0)) then 0 else 1 + Alphas(t[1..])
  }

  datatype Handle = BadHandle | Crash | Handle(text: seq<byte>, rest: seq<byte>)

  /** The handle of a directive must end in an exclamation mark; to see whether it is but
      one mark, the scanner looks at a second byte that is not there. */
  function TakeHandle(directive: bool, t: seq<byte>): (r: Handle)
    ensures r.Handle? ==> |r.rest| < |t|
    ensures !directive ==> !r.Crash?
  {
    if At(t, 0) != BANG then BadHandle
    else
      var k := 1 + Alphas(t[1..]);
      if At(t[k..], 0) == BANG then Handle(t[..k + 1], t[k + 1..])
      else if directive then if k == 1 then Crash else BadHandle
      else Handle(t[..k], t[k..])
  }

  datatype Tag = BadTag | Tag(handle: seq<byte>, suffix: seq<byte>, rest: seq<byte>)

  function TakeTag(t: seq<byte>): Tag
    requires At(t, 0) == BANG
  {
    var tag :=
      if At(t, 1) == LESS then
        match UriAt(t[2..], [])
        case BadUri => BadTag
        case Uri(s, u) => if At(u, 0) != GREATER then BadTag else Tag([], s, u[1..])
      else match TakeHandle(false, t)
        case BadHandle => BadTag
        case Handle(h, u) =>
          var whole := |h| > 1 && h[|h| - 1] == BANG;
          match UriAt(u, if whole then [] else h)
          case BadUri => BadTag
          case Uri(s, v) => Tag(if whole then h else [BANG], s, v);
    if tag.Tag? && !IsBlankz(tag.rest) then BadTag else tag
  }

  function SkipBlanks(t: seq<byte>): (r: seq<byte>)
    ensures |r| <= |t|
  {
    if IsBlank(t) then SkipBlanks(t[1..]) else t
  }

  datatype Directive = BadDirective | Crashes | Directive(handle: seq<byte>, prefix: seq<byte>, rest: seq<byte>)

  /** What stands behind %TAG. */
  function TakeDirective(t: seq<byte>): Directive {
    match TakeHandle(true, SkipBlanks(t))
    case BadHandle => BadDirective
    case Crash => Crashes
    case Handle(h, u) =>
      if !IsBlank(u) then BadDirective
      else match UriAt(SkipBlanks(u), [])
        case BadUri => BadDirective
        case Uri(p, v) => if !IsBlankz(v) then BadDirective else Directive(h, p, v)
  }

  // ---- What is written is read back ----

  lemma {:induction false} ContentJoin(a: seq<byte>, b: seq<byte>)
    ensures Content(a + b) == Content(a) + Content(b)
  {
    hide Raw, Percent;
    if a == [] {
      assert a + b == b;
    } else {
      ContentJoin(a[1..], b);
      assert (a + b)[1..] == a[1..] + b && (a + b)[0] == a[0];
      var x := if Raw(a[0]) then [a[0]] else Percent(a[0]);
      assert x + (Content(a[1..]) + Content(b)) == x + Content(a[1..]) + Content(b);
    }
  }

  /** Neither an exclamation mark nor a bracket is written as it is. */
  lemma {:induction false} ContentBytes(v: seq<byte>)
    ensures forall i | 0 <= i < |Content(v)| :: Raw(Content(v)[i]) || Content(v)[i] == PERCENT
  {
    if v != [] {
      ContentBytes(v[1..]);
      HexIsAlpha(v[0] / 16);
      HexIsAlpha(v[0] % 16);
    }
  }

  lemma HexIsAlpha(d: nat)
    requires d < 16
    ensures IsAlpha(HexDigit(d)) && IsHex(HexDigit(d)) && AsHex(HexDigit(d)) == d
  {
  }

  lemma OctetRead(b: byte, t: seq<byte>)
    ensures IsOctet(Percent(b) + t) && Octet(Percent(b) + t) == b && (Percent(b) + t)[3..] == t
  {
    HexIsAlpha(b / 16);
    HexIsAlpha(b % 16);
  }

  lemma {:induction false} TrailRead(c: seq<byte>, t: seq<byte>, s: seq<byte>)
    requires forall i | 0 <= i < |c| :: Tail(c[i])
    ensures TakeTrail(Content(c) + t, |c|, s) == Uri(s + c, t)
    decreases |c|
  {
    hide IsOctet, Octet, Percent;
    if c == [] {
      assert Content(c) + t == t && s + c == s;
    } else {
      var rest := Content(c[1..]) + t;
      assert Content(c) + t == Percent(c[0]) + rest;
      OctetRead(c[0], rest);
      TrailRead(c[1..], t, s + [c[0]]);
      assert s + [c[0]] + c[1..] == s + c;
    }
  }

  /** A character that is not written as it is. */
  lemma {:induction false} CharRead(c: seq<byte>, t: seq<byte>, s: seq<byte>)
    requires OneChar(c) && !Raw(c[0])
    ensures Content(c) + t != [] && (Content(c) + t)[0] == PERCENT
    ensures TakeEscaped(Content(c) + t, s) == Uri(s + c, t)
  {
    hide IsOctet, Octet, TakeTrail, Raw;
    var rest := Content(c[1..]) + t;
    assert Content(c) + t == Percent(c[0]) + rest;
    OctetRead(c[0], rest);
    TrailRead(c[1..], t, s + [c[0]]);
    assert s + [c[0]] + c[1..] == s + c;
  }

  lemma {:induction false} UriRead(v: seq<byte>, t: seq<byte>, s: seq<byte>)
    requires ValidUtf8(v) && !InUri(At(t, 0))
    ensures TakeUri(Content(v) + t, s) == Uri(s + v, t)
    decreases |v|
  {
    hide TakeEscaped, CharLength, Content, Raw, ValidUtf8;
    if v == [] {
      NothingWritten();
      assert [] + t == t && s + v == s;
    } else {
      FirstChar(v);
      Split(v);
      var k := CharLength(v);
      var c, w := v[..k], v[k..];
      var rest := Content(w) + t;
      assert v == c + w && c[0] == v[0];
      ContentJoin(c, w);
      assert Content(v) + t == Content(c) + rest;
      UriRead(w, t, s + c);
      assert s + c + w == s + v;
      if Raw(v[0]) {
        RawChar(c);
        assert c == [c[0]] && (c + rest)[0] == c[0] && (c + rest)[1..] == rest;
      } else {
        CharRead(c, rest, s);
      }
    }
  }

  lemma NothingWritten()
    ensures Content([]) == []
  {
  }

  lemma {:induction false} Split(v: seq<byte>)
    requires ValidUtf8(v) && v != []
    ensures 0 < CharLength(v) <= |v|
  {
  }

  lemma {:induction false} RawChar(c: seq<byte>)
    requires OneChar(c) && Raw(c[0])
    ensures |c| == 1 && Content(c) == c && c[0] != PERCENT
  {
    assert c[1..] == [];
  }

  /** Letters and digits that were taken for part of a handle. */
  lemma {:induction false} AlphasTaken(t: seq<byte>, s: seq<byte>)
    ensures TakeUri(t, s) == TakeUri(t[Alphas(t)..], s + t[..Alphas(t)])
  {
    hide TakeEscaped, Alphas;
    OneAlpha(t);
    if IsAlpha(At(t, 0)) {
      AlphasTaken(t[1..], s + [t[0]]);
      var k := Alphas(t[1..]);
      assert t[1..][k..] == t[k + 1..] && [t[0]] + t[1..][..k] == t[..k + 1];
      assert s + [t[0]] + t[1..][..k] == s + t[..k + 1];
    } else {
      assert t[0..] == t && s + t[..0] == s;
    }
  }

  lemma {:induction false} OneAlpha(t: seq<byte>)
    ensures Alphas(t) == if IsAlpha(At(t, 0)) then 1 + Alphas(t[1..]) else 0
  {
  }

  lemma {:induction false} AlphasCounted(a: seq<byte>, t: seq<byte>)
    requires AllAlpha(a) && !IsAlpha(At(t, 0))
    ensures Alphas(a + t) == |a|
    decreases |a|
  {
    if a == [] {
      assert a + t == t;
    } else {
      assert (a + t)[1..] == a[1..] + t;
      AlphasCounted(a[1..], t);
    }
  }

  lemma BlankzEndsUri(t: seq<byte>)
    requires IsBlankz(t)
    ensures !InUri(At(t, 0)) && At(t, 0) != GREATER
  {
  }

  lemma {:induction false} HandleRead(directive: bool, x: seq<byte>, u: seq<byte>)
    requires AllAlpha(x)
    ensures TakeHandle(directive, [BANG] + x + [BANG] + u) == Handle([BANG] + x + [BANG], u)
  {
    hide IsAlpha;
    var h, all := [BANG] + x + [BANG], [BANG] + x + [BANG] + u;
    assert !IsAlpha(BANG) by { NoLetter(); }
    assert all[1..] == x + ([BANG] + u);
    AlphasCounted(x, [BANG] + u);
    assert all[1 + |x|..] == [BANG] + u && all[..|x| + 2] == h && all[|x| + 2..] == u;
  }

  lemma NoLetter()
    ensures !IsAlpha(BANG) && !IsAlpha(LESS) && !IsAlpha(0)
  {
  }

  /** The suffix behind a handle of its own. */
  lemma {:induction false} NamedHandle(handle: seq<byte>, suffix: seq<byte>, t: seq<byte>)
    requires IsHandle(handle) && handle != [BANG] && ValidUtf8(suffix) && IsBlankz(t)
    ensures TakeTag(TagOut(handle, suffix) + t) == if suffix == [] then BadTag else Tag(handle, suffix, t)
  {
    hide TakeUri, TakeHandle, Content, ValidUtf8, IsAlpha, IsBlankz;
    var x := handle[1..|handle| - 1];
    var u := Content(suffix) + t;
    assert handle == [BANG] + x + [BANG];
    assert TagOut(handle, suffix) + t == [BANG] + x + [BANG] + u;
    HandleRead(false, x, u);
    BlankzEndsUri(t);
    UriRead(suffix, t, []);
    assert [] + suffix == suffix;
    NoLetter();
    assert x != [] ==> IsAlpha(x[0]) && handle[1] == x[0];
  }

  /** The suffix behind a mere exclamation mark, the beginning of which looks like a handle. */
  lemma {:induction false} PrimaryHandle(suffix: seq<byte>, t: seq<byte>)
    requires ValidUtf8(suffix) && IsBlankz(t)
    ensures TakeTag(TagOut([BANG], suffix) + t) == if suffix == [] then BadTag else Tag([BANG], suffix, t)
  {
    hide TakeUri, TakeHandle, Content, ValidUtf8, Alphas, IsBlankz;
    var u := Content(suffix) + t;
    var all := TagOut([BANG], suffix) + t;
    var k := Alphas(u);
    assert all == [BANG] + u && all[1..] == u;
    BlankzEndsUri(t);
    UriRead(suffix, t, []);
    assert [] + suffix == suffix;
    NoBangBehind(suffix, t, 0);
    assert u[0..] == u;
    NoBangBehind(suffix, t, k);
    MarkRead(u);
    NoLetter();
    assert k > 0 ==> IsAlpha(u[..k][k - 1]);
    AlphasTaken(u, []);
    assert [] + u[..k] == u[..k] && ([BANG] + u[..k])[1..] == u[..k];
  }

  lemma {:induction false} MarkRead(u: seq<byte>)
    requires At(u[Alphas(u)..], 0) != BANG
    ensures var k := Alphas(u); TakeHandle(false, [BANG] + u) == Handle([BANG] + u[..k], u[k..])
  {
    var all, k := [BANG] + u, Alphas(u);
    assert all[1..] == u && all[k + 1..] == u[k..] && all[..k + 1] == [BANG] + u[..k];
  }

  lemma {:induction false} NoBangBehind(suffix: seq<byte>, t: seq<byte>, k: nat)
    requires IsBlankz(t) && k <= |Content(suffix) + t| && AllAlpha((Content(suffix) + t)[..k])
    ensures var b := At((Content(suffix) + t)[k..], 0); b != BANG && b != LESS
  {
    hide Content;
    var c := Content(suffix);
    ContentBytes(suffix);
    BlankzEndsUri(t);
    assert t != [] ==> (c + t)[|c|] == t[0];
    if k == |c| {
      assert (c + t)[k..] == t;
    } else if k < |c| {
      assert (c + t)[k..][0] == c[k];
    }
  }

  lemma {:induction false} Bracketed(suffix: seq<byte>, t: seq<byte>)
    requires ValidUtf8(suffix) && IsBlankz(t)
    ensures TakeTag(TagOut([], suffix) + t) == if suffix == [] then BadTag else Tag([], suffix, t)
  {
    hide TakeUri, Content, ValidUtf8;
    var all := TagOut([], suffix) + t;
    var u := [GREATER] + t;
    assert all[2..] == Content(suffix) + u && all[1] == LESS;
    UriRead(suffix, u, []);
    assert [] + suffix == suffix && u[1..] == t;
  }

  /** Before a blank, a break or the end, the text of a tag is scanned as its handle and
      suffix if and only if it has a suffix; without one it is refused. */
  lemma {:induction false} TagRoundTrip(handle: seq<byte>, suffix: seq<byte>, t: seq<byte>)
    requires (handle == [] || IsHandle(handle)) && ValidUtf8(suffix) && IsBlankz(t)
    ensures TagOut(handle, suffix)[0] == BANG
    ensures TakeTag(TagOut(handle, suffix) + t) == if suffix == [] then BadTag else Tag(handle, suffix, t)
  {
    hide TakeTag, ValidUtf8, Content;
    if handle == [] { Bracketed(suffix, t); }
    else if handle == [BANG] { PrimaryHandle(suffix, t); }
    else { NamedHandle(handle, suffix, t); }
  }

  /** A directive as it is written behind %TAG. */
  function DirectiveOut(handle: seq<byte>, prefix: seq<byte>): seq<byte> {
    [SPACE] + handle + ([SPACE] + Content(prefix))
  }

  /** Before a blank, a break or the end, what is written behind %TAG is scanned as its
      handle and prefix if and only if the handle is not a lone exclamation mark, on which
      the scanner crashes. */
  lemma {:induction false} DirectiveRoundTrip(handle: seq<byte>, prefix: seq<byte>, t: seq<byte>)
    requires IsHandle(handle) && ValidUtf8(prefix) && prefix != [] && IsBlankz(t)
    ensures TakeDirective(DirectiveOut(handle, prefix) + t) == if handle == [BANG] then Crashes
              else Directive(handle, prefix, t)
  {
    hide TakeUri, TakeHandle, Content, ValidUtf8, IsBlankz, IsHandle;
    var u := Content(prefix) + t;
    var v := [SPACE] + u;
    Regrouped(handle, u, Content(prefix), t);
    HandleFirst(handle, v);
    PrefixFirst(prefix, t);
    BlankSkipped(handle + v);
    BlankSkipped(u);
    BlankzEndsUri(t);
    UriRead(prefix, t, []);
    assert [] + prefix == prefix;
    if handle == [BANG] { LoneMark(v); } else { NamedMark(handle, v); }
  }

  lemma Regrouped(handle: seq<byte>, u: seq<byte>, content: seq<byte>, t: seq<byte>)
    requires u == content + t
    ensures [SPACE] + handle + ([SPACE] + content) + t == [SPACE] + (handle + ([SPACE] + u))
  {
  }

  lemma HandleFirst(handle: seq<byte>, v: seq<byte>)
    requires IsHandle(handle)
    ensures !IsBlank(handle + v)
  {
    assert (handle + v)[0] == BANG;
  }

  lemma {:induction false} PrefixFirst(prefix: seq<byte>, t: seq<byte>)
    requires prefix != []
    ensures !IsBlank(Content(prefix) + t)
  {
    ContentBytes(prefix);
    var c := Content(prefix);
    assert c != [] && (c + t)[0] == c[0];
  }

  lemma {:induction false} BlankSkipped(t: seq<byte>)
    requires !IsBlank(t)
    ensures SkipBlanks([SPACE] + t) == t && IsBlank([SPACE] + t)
  {
    assert ([SPACE] + t)[1..] == t;
  }

  lemma LoneMark(u: seq<byte>)
    requires IsBlank(u)
    ensures TakeHandle(true, [BANG] + u) == Crash
  {
    assert ([BANG] + u)[1..] == u;
  }

  lemma NamedMark(handle: seq<byte>, u: seq<byte>)
    requires IsHandle(handle) && handle != [BANG]
    ensures TakeHandle(true, handle + u) == Handle(handle, u)
  {
    hide TakeHandle;
    var x := handle[1..|handle| - 1];
    HandleRead(true, x, u);
    assert handle == [BANG] + x + [BANG];
  }

  // ---- The writer and the scanner as they run ----

  method WriteTagHandle(em: Q.Emitter, value: seq<byte>)
    modifies em
    ensures em.output == old(em.output) + (if old(em.whitespace) then [] else [SPACE]) + value
    ensures !em.whitespace && !em.indention
  {
    if !em.whitespace { em.Put(SPACE); }
    ghost var before := em.output;
    for i := 0 to |value|
      invariant em.output == before + value[..i]
    {
      em.Put(value[i]);
      assert value[..i + 1] == value[..i] + [value[i]];
    }
    assert value[..|value|] == value;
    em.whitespace, em.indention := false, false;
  }

  /** Writes a suffix character by character, those that may not stand in it octet by octet. */
  method WriteTagContent(em: Q.Emitter, value: seq<byte>, needWhitespace: bool)
    requires ValidUtf8(value)
    modifies em
    ensures em.output ==
            old(em.output) + (if needWhitespace && !old(em.whitespace) then [SPACE] else []) + Content(value)
    ensures !em.whitespace && !em.indention
  {
    hide Content, Raw, CharLength, ValidUtf8;
    if needWhitespace && !em.whitespace { em.Put(SPACE); }
    ghost var before := em.output;
    var i := 0;
    assert value[0..] == value && before + Content(value[..0]) == before by { NothingWritten(); }
    while i < |value|
      invariant 0 <= i <= |value| && ValidUtf8(value[i..]) && em.output == before + Content(value[..i])
      decreases |value| - i
    {
      ghost var rest := value[i..];
      FirstChar(rest);
      Split(rest);
      ghost var c := rest[..CharLength(rest)];
      var w := Width(value[i]);
      ContentJoin(value[..i], c);
      assert value[..i] + c == value[..i + w] && rest[w..] == value[i + w..];
      if Raw(value[i]) {
        em.Write(value[i..]);
        RawChar(c);
      } else {
        WriteOctets(em, value, i, w);
        assert value[i..i + w] == c;
      }
      assert before + Content(value[..i]) + Content(c) == before + Content(value[..i + w]);
      i := i + w;
    }
    assert value[..i] == value;
    em.whitespace, em.indention := false, false;
  }

  method WriteOctets(em: Q.Emitter, value: seq<byte>, i: nat, w: nat)
    requires i + w <= |value| && OneChar(value[i..i + w]) && !Raw(value[i])
    modifies em`output, em`column
    ensures em.output == old(em.output) + Content(value[i..i + w])
  {
    hide Content, Raw, Percent, CharLength, HexDigit;
    ghost var before := em.output;
    assert value[i..i] == [] && before + [] == before;
    NothingWritten();
    for k := 0 to w
      invariant em.output == before + Content(value[i..i + k])
    {
      var octet := value[i + k];
      em.Put(PERCENT);
      em.Put(HexDigit(octet / 16));
      em.Put(HexDigit(octet % 16));
      OctetWritten(value[i..i + w], k);
      assert value[i..i + w][..k] == value[i..i + k] && value[i..i + w][..k + 1] == value[i..i + k + 1];
      assert em.output == before + Content(value[i..i + k]) + [PERCENT, HexDigit(octet / 16), HexDigit(octet % 16)];
    }
  }

  lemma OctetWritten(c: seq<byte>, k: nat)
    requires OneChar(c) && !Raw(c[0]) && k < |c|
    ensures Content(c[..k + 1]) == Content(c[..k]) + [PERCENT, HexDigit(c[k] / 16), HexDigit(c[k] % 16)]
  {
    hide HexDigit;
    NotRaw(c, k);
    ContentJoin(c[..k], [c[k]]);
    assert c[..k + 1] == c[..k] + [c[k]];
    assert [c[k]][1..] == [] && Content([c[k]]) == Percent(c[k]);
  }

  /** No octet of a character that is not written as it is. */
  lemma NotRaw(c: seq<byte>, k: nat)
    requires OneChar(c) && !Raw(c[0]) && k < |c|
    ensures !Raw(c[k])
  {
  }

  /** Whatever comes behind it, if it is a blank, a break or the end, the scanner finds
      handle and suffix in the tag, or refuses a handle without a suffix. */
  ghost predicate ReadBack(tag: seq<byte>, handle: seq<byte>, suffix: seq<byte>) {
    forall t: seq<byte> | IsBlankz(t) ::
      At(tag + t, 0) == BANG && TakeTag(tag + t) == if suffix == [] then BadTag else Tag(handle, suffix, t)
  }

  lemma {:induction false} WrittenIsReadBack(handle: seq<byte>, suffix: seq<byte>)
    requires (handle == [] || IsHandle(handle)) && ValidUtf8(suffix)
    ensures ReadBack(TagOut(handle, suffix), handle, suffix)
  {
    hide Content, TakeTag, ValidUtf8, IsBlankz;
    var tag := TagOut(handle, suffix);
    forall t: seq<byte> | IsBlankz(t)
      ensures At(tag + t, 0) == BANG && TakeTag(tag + t) == if suffix == [] then BadTag else Tag(handle, suffix, t)
    {
      TagRoundTrip(handle, suffix, t);
    }
  }

  /** Writes the tag of a node, if it has one. */
  method ProcessTag(em: Q.Emitter, handle: seq<byte>, suffix: seq<byte>) returns (ghost tag: seq<byte>)
    requires (handle == [] || IsHandle(handle)) && ValidUtf8(suffix)
    modifies em
    ensures if handle == [] && suffix == [] then em.output == old(em.output)
            else em.output == old(em.output) + (if old(em.whitespace) then [] else [SPACE]) + tag
    ensures handle != [] || suffix != [] ==> ReadBack(tag, handle, suffix)
  {
    hide Content, TakeTag, ValidUtf8, ReadBack, IsHandle;
    tag := TagOut(handle, suffix);
    if |handle| == 0 && |suffix| == 0 { return; }
    ghost var before := em.output + if em.whitespace then [] else [SPACE];
    if |handle| > 0 {
      WriteTagHandle(em, handle);
      if |suffix| > 0 { WriteTagContent(em, suffix, false); } else { NothingWritten(); }
      assert em.output == before + tag;
    } else {
      if !em.whitespace { em.Put(SPACE); }
      em.Put(BANG);
      em.Put(LESS);
      em.whitespace, em.indention, em.openEnded := false, false, false;
      WriteTagContent(em, suffix, false);
      em.WriteIndicator(GREATER, false, false, false);
      assert em.output == before + tag;
    }
    WrittenIsReadBack(handle, suffix);
  }

  /** One character in octets. */
  method ScanUriEscapes(sc: Scanner, s: seq<byte>) returns (ok: bool, s': seq<byte>)
    requires sc.Valid()
    modifies sc
    ensures sc.Valid()
    ensures match TakeEscaped(old(sc.Rest()), s)
            case BadUri => !ok
            case Uri(text, rest) => ok && s' == text && sc.Rest() == rest
  {
    var w := 1024;
    s' := s;
    while w > 0
      invariant sc.Valid() && 0 <= w
      invariant if w == 1024 then TakeEscaped(old(sc.Rest()), s) == TakeEscaped(sc.Rest(), s')
                else w < 4 && TakeEscaped(old(sc.Rest()), s) == TakeTrail(sc.Rest(), w, s')
      decreases w
    {
      if !IsOctet(sc.Rest()) { return false, s'; }
      var octet := Octet(sc.Rest());
      if w == 1024 {
        w := Width(octet);
        if w == 0 { return false, s'; }
      } else if !Tail(octet) {
        return false, s';
      }
      s' := s' + [octet];
      sc.Skip(3);
      w := w - 1;
    }
    return true, s';
  }

  method ScanTagUri(sc: Scanner, head: seq<byte>) returns (ok: bool, uri: seq<byte>)
    requires sc.Valid()
    modifies sc
    ensures sc.Valid()
    ensures match UriAt(old(sc.Rest()), head)
            case BadUri => !ok
            case Uri(text, rest) => ok && uri == text && sc.Rest() == rest
  {
    hide TakeEscaped;
    uri := if |head| > 1 then head[1..] else [];
    while InUri(At(sc.Rest(), 0))
      invariant sc.Valid()
      invariant TakeUri(old(sc.Rest()), if |head| > 1 then head[1..] else []) == TakeUri(sc.Rest(), uri)
      decreases |sc.Rest()|
    {
      if At(sc.Rest(), 0) == PERCENT {
        ok, uri := ScanUriEscapes(sc, uri);
        if !ok { return; }
      } else {
        uri := uri + [sc.Rest()[0]];
        sc.Skip(1);
      }
    }
    ok := |uri| > 0;
  }

  /** How a piece of text is scanned. */
  datatype Outcome = Scanned | Fails | Panics

  /** In a directive the second byte is looked at even if there is but one. */
  method ScanTagHandle(sc: Scanner, directive: bool) returns (o: Outcome, handle: seq<byte>)
    requires sc.Valid()
    modifies sc
    ensures sc.Valid()
    ensures match TakeHandle(directive, old(sc.Rest()))
            case BadHandle => o.Fails?
            case Crash => o.Panics?
            case Handle(text, rest) => o.Scanned? && handle == text && sc.Rest() == rest
  {
    hide Alphas, IsAlpha, TakeHandle;
    handle := [];
    ghost var t := sc.Rest();
    if At(sc.Rest(), 0) != BANG {
      HandleRefused(directive, t);
      return Fails, handle;
    }
    handle := [BANG];
    sc.Skip(1);
    while IsAlpha(At(sc.Rest(), 0))
      invariant sc.Valid() && handle + sc.Rest() == t && 1 + Alphas(t[1..]) == |handle| + Alphas(sc.Rest())
      invariant handle != [] && handle[0] == BANG && AllAlpha(handle[1..])
      decreases |sc.Rest()|
    {
      ghost var u := sc.Rest();
      NoLetter();
      OneAlpha(u);
      assert handle + [u[0]] + u[1..] == t by { assert u == [u[0]] + u[1..]; }
      handle := handle + [sc.Rest()[0]];
      sc.Skip(1);
    }
    OneAlpha(sc.Rest());
    HandleEnds(directive, t, handle, sc.Rest());
    if At(sc.Rest(), 0) == BANG {
      handle := handle + [BANG];
      sc.Skip(1);
    } else if directive {
      if handle[0] == BANG {
        if |handle| == 1 { return Panics, handle; }
        NoLetter();
        assert IsAlpha(handle[1..][0]);
        if handle[1] == 0 { return Scanned, handle; }
      }
      return Fails, handle;
    }
    o := Scanned;
  }

  lemma HandleRefused(directive: bool, t: seq<byte>)
    requires At(t, 0) != BANG
    ensures TakeHandle(directive, t) == BadHandle
  {
  }

  lemma HandleEnds(directive: bool, t: seq<byte>, handle: seq<byte>, u: seq<byte>)
    requires At(t, 0) == BANG && t == handle + u && |handle| == 1 + Alphas(t[1..])
    ensures TakeHandle(directive, t) ==
            if At(u, 0) == BANG then Handle(handle + [BANG], u[1..])
            else if directive then if |handle| == 1 then Crash else BadHandle
            else Handle(handle, u)
  {
    hide Alphas;
    var k := |handle|;
    assert t[..k] == handle && t[k..] == u;
    if At(u, 0) == BANG { assert t[..k + 1] == handle + [BANG] && t[k + 1..] == u[1..]; }
  }

  method SkipAllBlanks(sc: Scanner)
    requires sc.Valid()
    modifies sc
    ensures sc.Valid() && sc.Rest() == SkipBlanks(old(sc.Rest()))
  {
    while IsBlank(sc.Rest())
      invariant sc.Valid() && SkipBlanks(old(sc.Rest())) == SkipBlanks(sc.Rest())
      decreases |sc.Rest()|
    {
      sc.Skip(1);
    }
  }

  /** Handle and prefix behind %TAG. */
  method ScanTagDirectiveValue(sc: Scanner) returns (o: Outcome, handle: seq<byte>, prefix: seq<byte>)
    requires sc.Valid()
    modifies sc
    ensures sc.Valid()
    ensures match TakeDirective(old(sc.Rest()))
            case BadDirective => o.Fails?
            case Crashes => o.Panics?
            case Directive(h, p, rest) => o.Scanned? && handle == h && prefix == p && sc.Rest() == rest
  {
    hide TakeHandle, UriAt, IsBlankz, IsBlank, SkipBlanks;
    prefix := [];
    SkipAllBlanks(sc);
    o, handle := ScanTagHandle(sc, true);
    if !o.Scanned? { return; }
    if !IsBlank(sc.Rest()) { return Fails, handle, prefix; }
    SkipAllBlanks(sc);
    var ok;
    ok, prefix := ScanTagUri(sc, []);
    if !ok || !IsBlankz(sc.Rest()) { o := Fails; }
  }

  /** A directive on its line, up to the break. */
  method WriteTagDirective(em: Q.Emitter, handle: seq<byte>, prefix: seq<byte>)
    requires IsHandle(handle) && ValidUtf8(prefix) && prefix != []
    modifies em
    ensures em.output ==
            old(em.output) + (if old(em.whitespace) then [] else [SPACE]) + [PERCENT, 0x54, 0x41, 0x47] +
            DirectiveOut(handle, prefix)
    ensures forall t: seq<byte> | IsBlankz(t) ::
              TakeDirective(DirectiveOut(handle, prefix) + t) == if handle == [BANG] then Crashes
                else Directive(handle, prefix, t)
  {
    hide Content, ValidUtf8, IsHandle, TakeDirective, DirectiveOut, IsBlankz;
    em.WriteIndicator(PERCENT, true, false, false);
    em.Put(0x54);
    em.Put(0x41);
    em.Put(0x47);
    ghost var before := em.output;
    WriteTagHandle(em, handle);
    WriteTagContent(em, prefix, true);
    DirectiveWritten(before, handle, prefix);
    forall t: seq<byte> | IsBlankz(t)
      ensures TakeDirective(DirectiveOut(handle, prefix) + t) == if handle == [BANG] then Crashes
                else Directive(handle, prefix, t)
    {
      DirectiveRoundTrip(handle, prefix, t);
    }
  }

  lemma {:induction false} DirectiveWritten(before: seq<byte>, handle: seq<byte>, prefix: seq<byte>)
    ensures before + [SPACE] + handle + [SPACE] + Content(prefix) == before + DirectiveOut(handle, prefix)
  {
    hide Content;
  }

  /** The tag at an exclamation mark. */
  method ScanTag(sc: Scanner) returns (ok: bool, handle: seq<byte>, suffix: seq<byte>)
    requires sc.Valid() && At(sc.Rest(), 0) == BANG
    modifies sc
    ensures sc.Valid()
    ensures match TakeTag(old(sc.Rest()))
            case BadTag => !ok
            case Tag(h, s, rest) => ok && handle == h && suffix == s && sc.Rest() == rest
  {
    hide TakeHandle, UriAt, IsBlankz;
    handle, suffix := [], [];
    if At(sc.Rest(), 1) == LESS {
      sc.Skip(1);
      sc.Skip(1);
      ok, suffix := ScanTagUri(sc, []);
      if !ok { return; }
      if At(sc.Rest(), 0) != GREATER { return false, handle, suffix; }
      sc.Skip(1);
    } else {
      var o;
      o, handle := ScanTagHandle(sc, false);
      ok := o.Scanned?;
      if !ok { return; }
      if |handle| > 1 && handle[|handle| - 1] == BANG {
        ok, suffix := ScanTagUri(sc, []);
        if !ok { return; }
      } else {
        ok, suffix := ScanTagUri(sc, handle);
        if !ok { return; }
        handle := [BANG];
        NeverEmpty();
        if |suffix| == 0 { handle, suffix := suffix, handle; }
      }
    }
    ok := IsBlankz(sc.Rest());
  }

  /** What is found is not empty; so the special case of a lone exclamation mark is dead. */
  lemma NeverEmpty()
    ensures forall u, head :: UriAt(u, head).Uri? ==> UriAt(u, head).text != []
  {
  }
}
