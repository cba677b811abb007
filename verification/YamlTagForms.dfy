/** Tags as anyone may write them: each character that may stand in a tag for itself, any
    other, or the same, as escaped octets with digits of either case. */
module YamlTagForms {
  import opened Octets
  import opened Utf8
  import opened YamlBytes
  import opened YamlTagText

  /** An octet behind a percent sign. */
  datatype Coded = Coded(value: byte, high: byte, low: byte)

  datatype Piece = Itself(mark: byte) | Character(octets: seq<Coded>)

  predicate Digits(o: Coded) {
    DigitOf(o.high, o.value / 16) && DigitOf(o.low, o.value % 16)
  }

  predicate Trailing(os: seq<Coded>) {
    forall i :: 0 <= i < |os| ==> Digits(os[i]) && Tail(os[i].value)
  }

  predicate Legible(p: Piece) {
    match p
    case Itself(b) => Raw(b) || b == BANG
    case Character(os) => os != [] && Digits(os[0]) && Width(os[0].value) == |os| && Trailing(os[1..])
  }

  function OctetsText(os: seq<Coded>): seq<byte> {
    if os == [] then [] else [PERCENT, os[0].high, os[0].low] + OctetsText(os[1..])
  }

  function OctetsMeant(os: seq<Coded>): seq<byte> {
    if os == [] then [] else [os[0].value] + OctetsMeant(os[1..])
  }

  function PieceText(p: Piece): seq<byte> {
    match p
    case Itself(b) => [b]
    case Character(os) => OctetsText(os)
  }

  function PieceMeant(p: Piece): seq<byte> {
    match p
    case Itself(b) => [b]
    case Character(os) => OctetsMeant(os)
  }

  function Text(ps: seq<Piece>): seq<byte> {
    if ps == [] then [] else PieceText(ps[0]) + Text(ps[1..])
  }

  function Meant(ps: seq<Piece>): seq<byte> {
    if ps == [] then [] else PieceMeant(ps[0]) + Meant(ps[1..])
  }

  predicate AllLegible(ps: seq<Piece>) {
    forall i :: 0 <= i < |ps| ==> Legible(ps[i])
  }

  // ---- Pieces are read as what they mean ----

  lemma OctetAt(o: Coded, t: seq<byte>)
    requires Digits(o)
    ensures var u := [PERCENT, o.high, o.low] + t; IsOctet(u) && Octet(u) == o.value && u[3..] == t
  {
    DigitRead(o.high, o.value / 16);
    DigitRead(o.low, o.value % 16);
  }

  /** And an octet at the front stands there as some digits. */
  lemma OctetFrom(t: seq<byte>) returns (o: Coded)
    requires IsOctet(t)
    ensures Digits(o) && o.value == Octet(t) && |t| >= 3 && t == [PERCENT, o.high, o.low] + t[3..]
  {
    o := Coded(Octet(t), t[1], t[2]);
    SixteenParts(AsHex(t[1]), AsHex(t[2]));
    DigitRead(o.high, o.value / 16);
    DigitRead(o.low, o.value % 16);
  }

  lemma SixteenParts(a: nat, b: nat)
    requires a < 16 && b < 16
    ensures (a * 16 + b) / 16 == a && (a * 16 + b) % 16 == b
  {
  }

  lemma Joined<T>(a: seq<T>, b: seq<T>, c: seq<T>)
    ensures a + (b + c) == a + b + c && [] + a == a == a + []
  {
  }

  lemma {:induction false} TrailForms(os: seq<Coded>, t: seq<byte>, s: seq<byte>)
    requires Trailing(os)
    ensures TakeTrail(OctetsText(os) + t, |os|, s) == Uri(s + OctetsMeant(os), t)
    decreases |os|
  {
    hide IsOctet, Octet, Digits, Tail;
    if os == [] {
      Joined(s, [], t);
      Joined(t, [], []);
    } else {
      var o, rest := os[0], OctetsText(os[1..]) + t;
      Joined([PERCENT, o.high, o.low], OctetsText(os[1..]), t);
      OctetAt(o, rest);
      TrailForms(os[1..], t, s + [o.value]);
      Joined(s, [o.value], OctetsMeant(os[1..]));
    }
  }

  lemma {:induction false} PieceForms(p: Piece, t: seq<byte>, s: seq<byte>)
    requires Legible(p)
    ensures TakeUri(PieceText(p) + t, s) == TakeUri(t, s + PieceMeant(p))
    ensures |PieceText(p)| > 0 && PieceText(p)[0] != LESS && |PieceMeant(p)| > 0
  {
    match p
    case Itself(b) =>
      assert ([b] + t)[1..] == t;
    case Character(os) =>
      hide IsOctet, Octet, Digits, Raw;
      var o, rest := os[0], OctetsText(os[1..]) + t;
      Joined([PERCENT, o.high, o.low], OctetsText(os[1..]), t);
      OctetAt(o, rest);
      TrailForms(os[1..], t, s + [o.value]);
      Joined(s, [o.value], OctetsMeant(os[1..]));
      assert InUri(PERCENT) && At(PieceText(p) + t, 0) == PERCENT;
  }

  lemma {:induction false} TextForms(ps: seq<Piece>, t: seq<byte>, s: seq<byte>)
    requires AllLegible(ps) && !InUri(At(t, 0))
    ensures TakeUri(Text(ps) + t, s) == Uri(s + Meant(ps), t)
    ensures ps != [] ==> Meant(ps) != [] && Text(ps) != [] && Text(ps)[0] != LESS
    decreases |ps|
  {
    hide TakeUri, PieceText, PieceMeant, Legible, InUri;
    if ps == [] {
      Joined(t, [], []);
      Joined(s, [], []);
      assert TakeUri(t, s) == Uri(s, t) by { NothingTaken(t, s); }
    } else {
      PieceForms(ps[0], Text(ps[1..]) + t, s);
      Joined(PieceText(ps[0]), Text(ps[1..]), t);
      TextForms(ps[1..], t, s + PieceMeant(ps[0]));
      Joined(s, PieceMeant(ps[0]), Meant(ps[1..]));
    }
  }

  lemma {:induction false} NothingTaken(t: seq<byte>, s: seq<byte>)
    requires !InUri(At(t, 0))
    ensures TakeUri(t, s) == Uri(s, t)
  {
  }

  // ---- And whatever is read stands there as pieces ----

  lemma {:induction false} TrailFrom(t: seq<byte>, w: nat, s: seq<byte>) returns (os: seq<Coded>)
    requires TakeTrail(t, w, s).Uri?
    ensures Trailing(os) && |os| == w
    ensures var r := TakeTrail(t, w, s); t == OctetsText(os) + r.rest && r.text == s + OctetsMeant(os)
    decreases w
  {
    hide IsOctet, Octet, Digits, Tail;
    os := [];
    if w == 0 {
      Joined(s, [], []);
      Joined(t, [], []);
    } else {
      var o := OctetFrom(t);
      var more := TrailFrom(t[3..], w - 1, s + [o.value]);
      var r := TakeTrail(t, w, s);
      os := [o] + more;
      assert os[1..] == more;
      Joined([PERCENT, o.high, o.low], OctetsText(more), r.rest);
      Joined(s, [o.value], OctetsMeant(more));
    }
  }

  lemma {:induction false} PieceFrom(t: seq<byte>, s: seq<byte>) returns (p: Piece, rest: seq<byte>)
    requires InUri(At(t, 0)) && TakeUri(t, s).Uri?
    ensures Legible(p) && t == PieceText(p) + rest && |rest| < |t|
    ensures TakeUri(t, s) == TakeUri(rest, s + PieceMeant(p))
  {
    if t[0] != PERCENT {
      p, rest := Itself(t[0]), t[1..];
    } else {
      hide IsOctet, Octet, Digits, Raw;
      var o := OctetFrom(t);
      var w := Width(o.value);
      var os := TrailFrom(t[3..], w - 1, s + [o.value]);
      p, rest := Character([o] + os), TakeEscaped(t, s).rest;
      assert ([o] + os)[1..] == os;
      Joined([PERCENT, o.high, o.low], OctetsText(os), rest);
      Joined(s, [o.value], OctetsMeant(os));
    }
  }

  lemma {:induction false} TextFrom(t: seq<byte>, s: seq<byte>) returns (ps: seq<Piece>)
    requires TakeUri(t, s).Uri?
    ensures AllLegible(ps)
    ensures var r := TakeUri(t, s); !InUri(At(r.rest, 0)) && t == Text(ps) + r.rest && r.text == s + Meant(ps)
    decreases |t|
  {
    hide TakeUri, PieceText, PieceMeant, Legible, InUri;
    ps := [];
    if InUri(At(t, 0)) {
      var p, rest := PieceFrom(t, s);
      var more := TextFrom(rest, s + PieceMeant(p));
      var r := TakeUri(t, s);
      ps := [p] + more;
      assert ps[1..] == more;
      Joined(PieceText(p), Text(more), r.rest);
      Joined(s, PieceMeant(p), Meant(more));
    } else {
      NothingTaken(t, s);
      Joined(t, [], []);
      Joined(s, [], []);
    }
  }

  // ---- Tags ----

  /** A tag in brackets, one with a handle, or one behind a lone exclamation mark. */
  datatype Form = Verbatim(suffix: seq<Piece>) | Named(name: seq<byte>,
    suffix: seq<Piece>) | Primary(suffix: seq<Piece>)

  /** Whether letters and digits come first, and then an exclamation mark. */
  predicate LikeHandle(t: seq<byte>) {
    At(t[Alphas(t)..], 0) == BANG
  }

  predicate Well(f: Form) {
    f.suffix != [] && AllLegible(f.suffix) &&
    match f
    case Verbatim(_) => true
    case Named(name, _) => AllAlpha(name)
    case Primary(ps) => !LikeHandle(Text(ps))
  }

  function FormText(f: Form): seq<byte> {
    match f
    case Verbatim(ps) => [BANG, LESS] + Text(ps) + [GREATER]
    case Named(name, ps) => [BANG] + name + [BANG] + Text(ps)
    case Primary(ps) => [BANG] + Text(ps)
  }

  function HandleOf(f: Form): seq<byte> {
    match f
    case Verbatim(_) => []
    case Named(name, _) => [BANG] + name + [BANG]
    case Primary(_) => [BANG]
  }

  /** What becomes of the text of a suffix, and what must stand behind it. */
  function Suffixed(handle: seq<byte>, uri: Uri): Tag {
    if uri.BadUri? || uri.text == [] || !IsBlankz(uri.rest) then BadTag else Tag(handle, uri.text, uri.rest)
  }

  lemma {:induction false} VerbatimTag(v: seq<byte>)
    ensures var r := TakeUri(v, []);
            TakeTag([BANG, LESS] + v) ==
            if r.Uri? && At(r.rest, 0) == GREATER then Suffixed([], r.(rest := r.rest[1..])) else BadTag
  {
    hide TakeUri, IsBlankz;
    assert ([BANG, LESS] + v)[2..] == v;
  }

  lemma {:induction false} NamedTag(name: seq<byte>, v: seq<byte>)
    requires AllAlpha(name)
    ensures TakeTag([BANG] + name + [BANG] + v) == Suffixed([BANG] + name + [BANG], TakeUri(v, []))
  {
    hide TakeUri, IsBlankz, AllAlpha, TakeHandle;
    HandleRead(false, name, v);
    NamedFirst(name, v);
  }

  lemma {:induction false} PrimaryTag(v: seq<byte>)
    requires At(v, 0) != LESS && !LikeHandle(v)
    ensures TakeTag([BANG] + v) == Suffixed([BANG], TakeUri(v, []))
  {
    hide TakeUri, UriAt, IsBlankz, AllAlpha, TakeHandle, Alphas;
    var k := Alphas(v);
    MarkRead(v);
    FirstBehind(v);
    LetterLast(v);
    HeadTaken(v);
  }

  lemma {:induction false} LetterLast(v: seq<byte>)
    ensures var h := [BANG] + v[..Alphas(v)]; |h| > 1 ==> h[|h| - 1] != BANG
  {
    hide IsAlpha;
    var k := Alphas(v);
    assert k > 0 ==> IsAlpha(v[..k][k - 1]) && ([BANG] + v[..k])[k] == v[..k][k - 1];
    NoLetter();
  }

  lemma {:induction false} HeadTaken(v: seq<byte>)
    ensures var k := Alphas(v);
            var r := TakeUri(v, []);
            UriAt(v[k..], [BANG] + v[..k]) == if r.Uri? && r.text == [] then BadUri else r
  {
    hide TakeUri, Alphas;
    var k := Alphas(v);
    AlphasTaken(v, []);
    assert ([BANG] + v[..k])[1..] == v[..k] == [] + v[..k];
    assert k == 0 ==> v[..k] == [];
  }

  lemma FirstBehind(v: seq<byte>)
    ensures At([BANG] + v, 0) == BANG && At([BANG] + v, 1) == At(v, 0)
  {
  }

  lemma {:induction false} FormRead(f: Form, t: seq<byte>)
    requires Well(f) && IsBlankz(t)
    ensures At(FormText(f) + t, 0) == BANG && TakeTag(FormText(f) + t) == Tag(HandleOf(f), Meant(f.suffix), t)
  {
    hide TakeUri, TakeTag, IsBlankz, Text, Meant, AllAlpha, AllLegible, InUri, LikeHandle;
    BlankzEndsUri(t);
    var ps := f.suffix;
    Joined(Meant(ps), [], []);
    match f
    case Verbatim(_) =>
      MoreEnds();
      TextForms(ps, [GREATER] + t, []);
      VerbatimTag(Text(ps) + ([GREATER] + t));
      Joined([BANG, LESS], Text(ps), [GREATER] + t);
      Joined([BANG, LESS] + Text(ps), [GREATER], t);
      Bracket(t);
    case Named(name, _) =>
      TextForms(ps, t, []);
      NamedTag(name, Text(ps) + t);
      Joined([BANG] + name + [BANG], Text(ps), t);
    case Primary(_) =>
      TextForms(ps, t, []);
      AlphasWithin(Text(ps), t);
      PrimaryTag(Text(ps) + t);
      Joined([BANG], Text(ps), t);
  }

  lemma Bracket(t: seq<byte>)
    ensures At([GREATER] + t, 0) == GREATER && ([GREATER] + t)[1..] == t
  {
  }

  lemma MoreEnds()
    ensures !InUri(GREATER)
  {
  }

  lemma NamedFirst(name: seq<byte>, t: seq<byte>)
    requires AllAlpha(name)
    ensures At([BANG] + name + [BANG] + t, 1) != LESS
  {
    if name != [] { assert IsAlpha(name[0]); }
  }

  lemma {:induction false} AlphasWithin(x: seq<byte>, t: seq<byte>)
    requires !InUri(At(t, 0))
    ensures Alphas(x + t) == Alphas(x) && (LikeHandle(x + t) <==> LikeHandle(x))
    ensures [] + (x + t)[..Alphas(x)] == x[..Alphas(x)]
  {
    hide IsAlpha;
    var k := Alphas(x);
    var y := x[k..] + t;
    assert x + t == x[..k] + y && (x + t)[k..] == y;
    assert !IsAlpha(At(t, 0)) by { NoUri(At(t, 0)); }
    assert x[k..] == [] ==> y == t;
    assert At(y, 0) == if k < |x| then At(x[k..], 0) else At(t, 0);
    AlphasCounted(x[..k], y);
    assert At(t, 0) != BANG;
  }

  lemma NoUri(b: byte)
    requires !InUri(b)
    ensures !IsAlpha(b)
  {
  }

  lemma {:induction false} FormFrom(u: seq<byte>) returns (f: Form)
    requires At(u, 0) == BANG && TakeTag(u).Tag?
    ensures Well(f) && IsBlankz(TakeTag(u).rest) && u == FormText(f) + TakeTag(u).rest
    ensures TakeTag(u).handle == HandleOf(f) && TakeTag(u).suffix == Meant(f.suffix)
  {
    hide TakeUri, TakeTag, IsBlankz, Text, Meant, AllAlpha, AllLegible, InUri, LikeHandle;
    var tag, v := TakeTag(u), u[1..];
    NoPieces();
    assert u == [BANG] + v;
    if At(u, 1) == LESS {
      var w := u[2..];
      VerbatimTag(w);
      Bracketed(u);
      var ps := TextFrom(w, []);
      Joined(Meant(ps), [], []);
      f := Verbatim(ps);
      FrontMark(TakeUri(w, []).rest);
      Joined([BANG, LESS], Text(ps), [GREATER] + tag.rest);
      Joined([BANG, LESS] + Text(ps), [GREATER], tag.rest);
    } else if LikeHandle(v) {
      var name, w := HandleFrom(v);
      Joined([BANG], name, [BANG] + w);
      Joined([BANG] + name, [BANG], w);
      NamedTag(name, w);
      var ps := TextFrom(w, []);
      Joined(Meant(ps), [], []);
      f := Named(name, ps);
      Joined([BANG] + name + [BANG], Text(ps), tag.rest);
    } else {
      PrimaryTag(v);
      var ps := TextFrom(v, []);
      Joined(Meant(ps), [], []);
      f := Primary(ps);
      AlphasWithin(Text(ps), tag.rest);
      Joined([BANG], Text(ps), tag.rest);
    }
  }

  lemma Bracketed(u: seq<byte>)
    requires At(u, 0) == BANG && At(u, 1) == LESS
    ensures u == [BANG, LESS] + u[2..]
  {
  }

  lemma FrontMark(t: seq<byte>)
    ensures At(t, 0) == GREATER ==> t == [GREATER] + t[1..]
  {
  }

  lemma HandleFrom(v: seq<byte>) returns (name: seq<byte>, w: seq<byte>)
    requires LikeHandle(v)
    ensures AllAlpha(name) && v == name + ([BANG] + w)
  {
    var k := Alphas(v);
    name, w := v[..k], v[k + 1..];
    assert v[k..] == [BANG] + w;
  }

  lemma NoPieces()
    ensures Text([]) == [] && Meant([]) == []
  {
  }

  /** A tag is scanned exactly from one of its forms, in front of a blank, a break or the
      end, and as the handle and the suffix that the form means. */
  lemma TagExactly(u: seq<byte>, handle: seq<byte>, suffix: seq<byte>, t: seq<byte>)
    requires At(u, 0) == BANG
    ensures TakeTag(u) == Tag(handle, suffix, t) <==>
            IsBlankz(t) && exists f ::
              Well(f) && u == FormText(f) + t && HandleOf(f) == handle && Meant(f.suffix) == suffix
  {
    hide TakeTag, IsBlankz, Well, FormText, HandleOf, Meant;
    if TakeTag(u) == Tag(handle, suffix, t) { var f := FormFrom(u); }
    if IsBlankz(t) {
      forall f | Well(f) && u == FormText(f) + t && HandleOf(f) == handle && Meant(f.suffix) == suffix
        ensures TakeTag(u) == Tag(handle, suffix, t)
      {
        FormRead(f, t);
      }
    }
  }
}
