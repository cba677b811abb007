/** Filters as anyone may write them: in a value each character stands for itself, or each
    of its bytes for itself as two hexadecimal digits of either case behind a backslash. */
module LdapFilterText {
  import opened Octets
  import opened Utf8
  import opened LdapFilter

  datatype Piece = Itself(rune: seq<byte>) | Hex(value: byte, high: byte, low: byte)

  predicate Legible(p: Piece) {
    match p
    case Itself(c) => OneChar(c) && c != [0xEF, 0xBF, 0xBD] && c[0] != BACKSLASH
    case Hex(v, high, low) => DigitOf(high, v / 16) && DigitOf(low, v % 16)
  }

  function PieceText(p: Piece): seq<byte> {
    match p
    case Itself(c) => c
    case Hex(_, high, low) => [BACKSLASH, high, low]
  }

  function PieceValue(p: Piece): seq<byte> {
    match p
    case Itself(c) => c
    case Hex(v, _, _) => [v]
  }

  function Text(ps: seq<Piece>): seq<byte> {
    if ps == [] then [] else PieceText(ps[0]) + Text(ps[1..])
  }

  function Value(ps: seq<Piece>): seq<byte> {
    if ps == [] then [] else PieceValue(ps[0]) + Value(ps[1..])
  }

  predicate AllLegible(ps: seq<Piece>) {
    forall i :: 0 <= i < |ps| ==> Legible(ps[i])
  }

  /** A text denotes a value. */
  ghost predicate Denotes(s: seq<byte>, v: seq<byte>) {
    exists ps :: AllLegible(ps) && Text(ps) == s && Value(ps) == v
  }

  // ---- Values ----

  lemma {:induction false} PieceRead(p: Piece, t: seq<byte>)
    requires Legible(p)
    ensures Unescape(PieceText(p) + t) == Prepend(PieceValue(p), Unescape(t))
    ensures RuneWidth(PieceText(p) + t) > 0 && PieceText(p) != []
  {
    var u := PieceText(p) + t;
    if p.Hex? {
      DigitRead(p.high, p.value / 16);
      DigitRead(p.low, p.value % 16);
      hide DigitOf, AsHex, IsHex, RuneWidth;
      AsciiRune(u);
      assert u[0] == BACKSLASH && u[1] == p.high && u[2] == p.low && u[3..] == t;
    } else {
      hide Unescape;
      CharStays(p.rune, t);
      assert u[..|p.rune|] == p.rune && u[|p.rune|..] == t;
      CharUnescaped(u);
    }
  }

  lemma CharStays(c: seq<byte>, t: seq<byte>)
    requires OneChar(c) && c != [0xEF, 0xBF, 0xBD]
    ensures RuneWidth(c + t) == |c|
  {
    assert (c + t)[0] == c[0] && (|c| == 3 ==> (c + t)[..3] == c) && (|c| != 3 ==> c[0] != 0xEF);
    hide CharLength;
    CharFront(c, t);
  }

  lemma CharFront(c: seq<byte>, t: seq<byte>)
    requires OneChar(c)
    ensures CharLength(c + t) == |c|
  {
    assert forall i :: 0 <= i < |c| ==> (c + t)[i] == c[i];
  }

  lemma {:induction false} CharUnescaped(u: seq<byte>)
    requires RuneWidth(u) > 0 && u[0] != BACKSLASH
    ensures Unescape(u) == Prepend(u[..RuneWidth(u)], Unescape(u[RuneWidth(u)..]))
  {
  }

  /** A value is read from a text if and only if the text denotes it. */
  lemma {:induction false} UnescapesDenoted(s: seq<byte>, v: seq<byte>)
    ensures Unescape(s) == Ok(v) <==> Denotes(s, v)
  {
    if ps :| AllLegible(ps) && Text(ps) == s && Value(ps) == v { TextRead(ps); }
    if Unescape(s) == Ok(v) { var ps := PiecesOf(s); }
  }

  lemma {:induction false} TextRead(ps: seq<Piece>)
    requires AllLegible(ps)
    ensures Unescape(Text(ps)) == Ok(Value(ps)) && Readable(Text(ps))
  {
    hide Unescape, RuneWidth, Legible, PieceText, PieceValue;
    if ps == [] {
      NothingToUnescape();
    } else {
      PieceRead(ps[0], Text(ps[1..]));
      TextRead(ps[1..]);
      PieceReadable(ps[0], Text(ps[1..]));
    }
  }

  lemma {:induction false} PieceReadable(p: Piece, t: seq<byte>)
    requires Legible(p) && Readable(t)
    ensures Readable(PieceText(p) + t)
  {
    var u := PieceText(p) + t;
    if p.Itself? {
      hide RuneWidth;
      CharStays(p.rune, t);
      assert u[|p.rune|..] == t;
    } else {
      DigitRead(p.high, p.value / 16);
      DigitRead(p.low, p.value % 16);
      hide RuneWidth, DigitOf;
      var u1, u2 := [p.high, p.low] + t, [p.low] + t;
      assert u[1..] == u1 && u1[1..] == u2 && u2[1..] == t;
      AsciiRune(u);
      AsciiRune(u1);
      AsciiRune(u2);
      assert Readable(u2) && Readable(u1);
    }
  }

  lemma {:induction false} PiecesOf(s: seq<byte>) returns (ps: seq<Piece>)
    requires Unescape(s).Ok?
    ensures AllLegible(ps) && Text(ps) == s && Ok(Value(ps)) == Unescape(s)
    decreases |s|
  {
    hide RuneWidth, Unescape;
    NothingToUnescape();
    ps := [];
    if s != [] {
      var p := FirstPiece(s);
      var k := |PieceText(p)|;
      PieceRead(p, s[k..]);
      ps := PiecesOf(s[k..]);
      ps := [p] + ps;
      assert ps[1..] == ps[1..] && ps[0] == p;
    }
  }

  lemma FirstPiece(s: seq<byte>) returns (p: Piece)
    requires s != [] && Unescape(s).Ok?
    ensures Legible(p) && |PieceText(p)| <= |s| && s == PieceText(p) + s[|PieceText(p)|..]
  {
    if s[0] == BACKSLASH {
      p := Hex(AsHex(s[1]) * 16 + AsHex(s[2]), s[1], s[2]);
      DigitRead(s[1], p.value / 16);
      DigitRead(s[2], p.value % 16);
    } else {
      p := Itself(s[..RuneWidth(s)]);
      CharAlone(s);
    }
  }

  lemma CharAlone(s: seq<byte>)
    requires RuneWidth(s) > 0
    ensures OneChar(s[..RuneWidth(s)]) && s[..RuneWidth(s)] != [0xEF, 0xBF, 0xBD]
  {
  }

  // ---- Filters ----

  /** The text of a filter behind the opening parenthesis, its values given as texts. */
  function Spelled(f: Filter): seq<byte>
    decreases f, 0
  {
    match f
    case And(fs) => [AND] + SpelledAll(fs) + [CLOSE]
    case Or(fs) => [OR] + SpelledAll(fs) + [CLOSE]
    case Not(g) => [NOT] + ([OPEN] + Spelled(g)) + [CLOSE]
    case Equality(a, s) => a + [EQUAL] + s + [CLOSE]
    case Substrings(a, ps) => a + [EQUAL] + JoinStar(Between(ps)) + [CLOSE]
    case GreaterOrEqual(a, s) => a + [GREATER, EQUAL] + s + [CLOSE]
    case LessOrEqual(a, s) => a + [LESS, EQUAL] + s + [CLOSE]
    case Present(a) => a + [EQUAL] + [STAR] + [CLOSE]
    case Approx(a, s) => a + [TILDE, EQUAL] + s + [CLOSE]
    case Extensible(a, dn, rule, s) => a + Matching(dn, rule) + s + [CLOSE]
  }

  function SpelledAll(fs: seq<Filter>): seq<byte>
    decreases fs, 1
  {
    if fs == [] then [] else [OPEN] + Spelled(fs[0]) + SpelledAll(fs[1..])
  }

  /** What stands between the stars: nothing in front of or behind a star at the end. */
  function Between(ps: seq<Part>): (l: seq<seq<byte>>)
    ensures l != []
  {
    var l := (if ps != [] && ps[0].place.Initial? then [] else [[]]) +
      seq(|ps|, i requires 0 <= i < |ps| => ps[i].value) +
             (if ps != [] && ps[|ps| - 1].place.Final? then [] else [[]]);
    if l == [] then [[]] else l
  }

  /** A text in a condition ends at the closing parenthesis, and a star would divide it. */
  predicate InParts(s: seq<byte>) {
    s != [] && CLOSE !in s && STAR !in s
  }

  /** The filter with texts for its values is one with the values they denote. */
  ghost predicate Meant(f: Filter, g: Filter)
    decreases f, 0
  {
    match f
    case And(fs) => g.And? && AllMeant(fs, g.filters)
    case Or(fs) => g.Or? && AllMeant(fs, g.filters)
    case Not(f') => g.Not? && Meant(f', g.filter)
    case Equality(a, s) =>
      AttributeOk(a) && CLOSE !in s && STAR !in s && g.Equality? && g.attribute == a && Denotes(s, g.value)
    case Substrings(a, ps) =>
      AttributeOk(a) && PartsOk(ps) && g.Substrings? && g.attribute == a && PartsMeant(ps, g.parts)
    case GreaterOrEqual(a, s) =>
      AttributeOk(a) && CLOSE !in s && g.GreaterOrEqual? && g.attribute == a && Denotes(s, g.value)
    case LessOrEqual(a, s) =>
      AttributeOk(a) && CLOSE !in s && g.LessOrEqual? && g.attribute == a && Denotes(s, g.value)
    case Present(a) => AttributeOk(a) && g == f
    case Approx(a, s) => AttributeOk(a) && CLOSE !in s && g.Approx? && g.attribute == a && Denotes(s, g.value)
    case Extensible(a, dn, rule, s) =>
      AttributeOk(a) && NameOk(rule) && (rule == DN ==> dn) && CLOSE !in s && g.Extensible? && Denotes(s, g.value) &&
      (g.attribute, g.dn, g.rule) == (a, dn, rule)
  }

  ghost predicate AllMeant(fs: seq<Filter>, gs: seq<Filter>)
    decreases fs, 1
  {
    if fs == [] then gs == [] else gs != [] && Meant(fs[0], gs[0]) && AllMeant(fs[1..], gs[1..])
  }

  ghost predicate PartsMeant(ps: seq<Part>, qs: seq<Part>) {
    |ps| == |qs| && forall i | 0 <= i < |ps| ::
      InParts(ps[i].value) && qs[i].place == ps[i].place && Denotes(ps[i].value, qs[i].value)
  }

  // ---- Reading ----

  /** Reads a condition of any characters up to the closing parenthesis. */
  lemma {:induction false} ReadText(s: seq<byte>, t: seq<byte>, it: Item)
    requires it.state.ReadingCondition? && Readable(s) && CLOSE !in s
    ensures ReadItem(s + ([CLOSE] + t), it) == Ok((it.(condition := it.condition + s), |s|))
    decreases |s|
  {
    hide RuneWidth, ReadItem;
    var u := s + ([CLOSE] + t);
    if s == [] {
      assert u == [CLOSE] + t && it.condition + s == it.condition;
      AtClose(u, it);
    } else {
      var w := RuneWidth(s);
      RuneStays(s, [CLOSE] + t);
      assert u[w..] == s[w..] + ([CLOSE] + t) && u[..w] == s[..w] && u[0] == s[0];
      assert s[0] in s;
      ReadItemStep(u, it);
      ReadText(s[w..], t, it.(condition := it.condition + s[..w]));
      assert it.condition + s[..w] + s[w..] == it.condition + s;
    }
  }

  lemma {:induction false} DenotedReadable(s: seq<byte>, v: seq<byte>)
    requires Denotes(s, v)
    ensures Readable(s) && Unescape(s) == Ok(v)
  {
    var ps :| AllLegible(ps) && Text(ps) == s && Value(ps) == v;
    TextRead(ps);
  }

  lemma {:induction false} TextItem(a: seq<byte>, kind: Kind, s: seq<byte>, t: seq<byte>, f: Filter)
    requires AttributeOk(a) && !kind.NoKind? && !kind.ExtensibleKind? && Readable(s) && CLOSE !in s
    requires Finish(Item(ReadingCondition, kind, a, false, [], s)) == Ok(f)
    ensures Compile(a + Operator(kind) + s + [CLOSE] + t) == Ok((f, |a + Operator(kind) + s + [CLOSE]|))
  {
    hide ReadItem, Compile, Finish, RuneWidth, Readable, NameOk;
    var v := s + ([CLOSE] + t);
    var u := a + Operator(kind) + v;
    assert u == a + Operator(kind) + s + [CLOSE] + t && u == a + (Operator(kind) + v);
    var it := START.(attribute := [] + a);
    assert [] + a == a && [] + s == s;
    ReadName(a, Operator(kind) + v, START);
    ReadOperator(kind, v, it);
    ReadText(s, t, it.(kind := kind, state := ReadingCondition));
    AttributeFront(a, Operator(kind), v);
    Furthest(|a|, |Operator(kind)|, |s|, Item(ReadingCondition, kind, a, false, [], s));
    CompileItem(u, Item(ReadingCondition, kind, a, false, [], s), |a| + |Operator(kind)| + |s|, f);
  }

  lemma Grouped<T>(a: seq<T>, b: seq<T>, c: seq<T>)
    ensures a + (b + c) == a + b + c && [] + a == a && a + [] == a
  {
  }

  lemma {:induction false} ExtensibleItem(a: seq<byte>, dn: bool, rule: seq<byte>, s: seq<byte>, w: seq<byte>,
                                          t: seq<byte>)
    requires AttributeOk(a) && NameOk(rule) && (rule == DN ==> dn) && CLOSE !in s && Denotes(s, w)
    ensures var u := a + Matching(dn, rule) + s + [CLOSE];
            Compile(u + t) == Ok((Extensible(a, dn, rule, w), |u|))
  {
    hide Compile, ReadItem, RuneWidth, NameOk, Matching, Readable, Denotes, Finish;
    MatchingFront(dn, rule);
    var m, v := Matching(dn, rule), s + ([CLOSE] + t);
    DenotedReadable(s, w);
    Grouped(a + m + s, [CLOSE], t);
    Grouped(a + m, s, [CLOSE] + t);
    ExtensibleRead(a, dn, rule, s, t);
    AttributeFront(a, m, v);
    ExtensibleFinishes(a, dn, rule, s, w);
    var done := Item(ReadingCondition, ExtensibleKind, a, dn, rule, s);
    CompileItem(a + m + v, done, |a| + |m| + |s|, Extensible(a, dn, rule, w));
  }

  lemma {:induction false} ExtensibleRead(a: seq<byte>, dn: bool, rule: seq<byte>, s: seq<byte>, t: seq<byte>)
    requires NameOk(a) && NameOk(rule) && (rule == DN ==> dn) && CLOSE !in s && Readable(s)
    ensures ReadItem(a + Matching(dn, rule) + (s + ([CLOSE] + t)), START) ==
            Ok((Item(ReadingCondition, ExtensibleKind, a, dn, rule, s), |a| + |Matching(dn, rule)| + |s|))
  {
    hide ReadItem, NameOk, Matching, Further, Readable;
    var m, v, it := Matching(dn, rule), s + ([CLOSE] + t), Item(ReadingAttr, NoKind, a, false, [], []);
    Grouped(a, m, v);
    Grouped(a, [], []);
    Grouped(s, [], []);
    ReadName(a, m + v, START);
    assert START.(attribute := START.attribute + a) == it;
    ReadMatching(dn, rule, v, it);
    ReadText(s, t, Item(ReadingCondition, ExtensibleKind, a, dn, rule, []));
    Furthest(|a|, |m|, |s|, Item(ReadingCondition, ExtensibleKind, a, dn, rule, s));
  }

  lemma ExtensibleFinishes(a: seq<byte>, dn: bool, rule: seq<byte>, s: seq<byte>, w: seq<byte>)
    requires Denotes(s, w)
    ensures Finish(Item(ReadingCondition, ExtensibleKind, a, dn, rule, s)) == Ok(Extensible(a, dn, rule, w))
  {
    hide Unescape, Denotes;
    DenotedReadable(s, w);
  }

  /** A condition without a star is its value. */
  lemma {:induction false} ValueFinishes(a: seq<byte>, kind: Kind, s: seq<byte>, v: seq<byte>)
    requires Denotes(s, v) && !kind.NoKind? && !kind.ExtensibleKind? && (kind.EqualityKind? ==> STAR !in s)
    ensures Readable(s)
    ensures Finish(Item(ReadingCondition, kind, a, false, [], s)) ==
            Ok(match kind
               case EqualityKind => Equality(a, v)
               case GreaterKind => GreaterOrEqual(a, v)
               case LessKind => LessOrEqual(a, v)
               case _ => Approx(a, v))
  {
    hide Unescape;
    DenotedReadable(s, v);
  }

  // ---- Parts ----

  lemma {:induction false} PartsCollected(ps: seq<Part>, qs: seq<Part>, l: seq<seq<byte>>, k: nat)
    requires PartsOk(ps) && PartsMeant(ps, qs) && l == Between(ps) && k <= |ps|
    ensures Collect(l, (if ps[0].place.Initial? then 0 else 1) + k) == Ok(qs[k..])
    decreases |ps| - k
  {
    hide Unescape, Collect, Denotes, Between;
    var o := if ps[0].place.Initial? then 0 else 1;
    BetweenForm(ps);
    if k < |ps| {
      PartsCollected(ps, qs, l, k + 1);
      assert l[o + k] == ps[k].value;
      DenotedReadable(ps[k].value, qs[k].value);
      CollectPart(l, o + k, qs[k].value);
      assert qs[k..] == [qs[k]] + qs[k + 1..] && qs[k] == Part(ps[k].place, qs[k].value);
    } else {
      assert qs[k..] == [];
      CollectEnd(l, o + k);
    }
  }

  lemma BetweenForm(ps: seq<Part>)
    requires ps != []
    ensures var o, l := if ps[0].place.Initial? then 0 else 1, Between(ps);
            && |l| == o + |ps| + (if ps[|ps| - 1].place.Final? then 0 else 1)
            && (forall k | 0 <= k < |ps| :: l[o + k] == ps[k].value)
            && (!ps[|ps| - 1].place.Final? ==> l[o + |ps|] == []) && (o == 1 ==> l[0] == [])
  {
  }

  lemma {:induction false} JoinedReadable(l: seq<seq<byte>>)
    requires l != [] && forall i | 0 <= i < |l| :: Readable(l[i]) && CLOSE !in l[i]
    ensures Readable(JoinStar(l)) && CLOSE !in JoinStar(l) && (|l| > 1 ==> STAR in JoinStar(l))
  {
    hide RuneWidth;
    if |l| > 1 {
      JoinedReadable(l[1..]);
      var u := [STAR] + JoinStar(l[1..]);
      AsciiRune(u);
      assert u[1..] == JoinStar(l[1..]);
      ReadableJoin(l[0], u);
      assert JoinStar(l) == l[0] + u;
    }
  }

  lemma {:induction false} ReadableJoin(a: seq<byte>, b: seq<byte>)
    requires Readable(a) && Readable(b)
    ensures Readable(a + b)
    decreases |a|
  {
    hide RuneWidth;
    if a == [] {
      assert a + b == b;
    } else {
      var w := RuneWidth(a);
      RuneStays(a, b);
      ReadableJoin(a[w..], b);
      assert (a + b)[w..] == a[w..] + b;
    }
  }

  lemma PartsFinish(a: seq<byte>, ps: seq<Part>, qs: seq<Part>)
    requires PartsOk(ps) && PartsMeant(ps, qs)
    ensures var s := JoinStar(Between(ps));
            && Readable(s) && CLOSE !in s
            && Finish(Item(ReadingCondition, EqualityKind, a, false, [], s)) == Ok(Substrings(a, qs))
  {
    hide Collect, Split, Denotes, JoinStar, Between, Readable;
    var l := Between(ps);
    var o := if ps[0].place.Initial? then 0 else 1;
    BetweenForm(ps);
    EmptyReadable();
    forall i | 0 <= i < |l| ensures Readable(l[i]) && CLOSE !in l[i] && STAR !in l[i] {
      if o <= i < o + |ps| {
        assert l[i] == ps[i - o].value;
        DenotedReadable(ps[i - o].value, qs[i - o].value);
      }
    }
    JoinedReadable(l);
    SplitJoin(l);
    PartsCollected(ps, qs, l, 0);
    if o == 1 { CollectEmpty(l); }
    assert qs[0..] == qs;
    SplitStar();
    assert l[o] == ps[0].value;
    OneOfTwo(ps);
  }

  lemma EmptyReadable()
    ensures Readable([])
  {
  }

  lemma OneOfTwo(ps: seq<Part>)
    requires PartsOk(ps)
    ensures |Between(ps)| > 1
  {
  }

  // ---- The law ----

  /** Compiling a filter reads it as what its texts denote, and stops at its end. */
  lemma {:induction false} SpelledCompiles(f: Filter, g: Filter, t: seq<byte>)
    requires Meant(f, g)
    ensures Compile(Spelled(f) + t) == Ok((g, |Spelled(f)|))
    decreases f, 1
  {
    hide AttributeOk, NameOk, PartsOk, PartsMeant, Finish, Denotes, Compile, Between, JoinStar, Readable;
    match f
    case And(fs) =>
      SetCompiles(fs, g.filters, t, []);
      SetCloses(AND, fs, g.filters, t);
    case Or(fs) =>
      SetCompiles(fs, g.filters, t, []);
      SetCloses(OR, fs, g.filters, t);
    case Not(f') =>
      SpelledCompiles(f', g.filter, [CLOSE] + t);
      NotCompiles(f', g.filter, t);
    case Equality(a, s) => ValueCompiles(a, EqualityKind, s, g.value, t);
    case GreaterOrEqual(a, s) => ValueCompiles(a, GreaterKind, s, g.value, t);
    case LessOrEqual(a, s) => ValueCompiles(a, LessKind, s, g.value, t);
    case Approx(a, s) => ValueCompiles(a, ApproxKind, s, g.value, t);
    case Present(a) =>
      PresentFinishes(a);
      StarReadable();
      TextItem(a, EqualityKind, [STAR], t, f);
    case Substrings(a, ps) =>
      PartsFinish(a, ps, g.parts);
      TextItem(a, EqualityKind, JoinStar(Between(ps)), t, g);
    case Extensible(a, dn, rule, s) => ExtensibleItem(a, dn, rule, s, g.value, t);
  }

  lemma StarReadable()
    ensures Readable([STAR])
  {
    AsciiRune([STAR]);
    assert [STAR][1..] == [];
  }

  lemma {:induction false} ValueCompiles(a: seq<byte>, kind: Kind, s: seq<byte>, v: seq<byte>, t: seq<byte>)
    requires AttributeOk(a) && !kind.NoKind? && !kind.ExtensibleKind? && Denotes(s, v) && CLOSE !in s
    requires kind.EqualityKind? ==> STAR !in s
    ensures var text := a + Operator(kind) + s + [CLOSE];
            var g := match kind
              case EqualityKind => Equality(a, v)
              case GreaterKind => GreaterOrEqual(a, v)
              case LessKind => LessOrEqual(a, v)
              case _ => Approx(a, v);
            Compile(text + t) == Ok((g, |text|))
  {
    hide AttributeOk, Denotes, Finish, Compile, Readable;
    ValueFinishes(a, kind, s, v);
    var g := Finish(Item(ReadingCondition, kind, a, false, [], s)).value;
    TextItem(a, kind, s, t, g);
  }

  lemma {:induction false} SetCompiles(fs: seq<Filter>, gs: seq<Filter>, t: seq<byte>, done: seq<Filter>)
    requires AllMeant(fs, gs)
    ensures CompileSet(SpelledAll(fs) + ([CLOSE] + t), done) == Ok((done + gs, |SpelledAll(fs)| + 1))
    decreases fs, 2
  {
    hide Spelled, Compile, CompileSet, Meant;
    var v := [CLOSE] + t;
    if fs == [] {
      SetEnds(t, done);
    } else {
      var rest := SpelledAll(fs[1..]) + v;
      SpelledCompiles(fs[0], gs[0], rest);
      SetCompiles(fs[1..], gs[1..], t, done + [gs[0]]);
      SetStep(Spelled(fs[0]), gs[0], rest, done);
      assert SpelledAll(fs) + v == [OPEN] + (Spelled(fs[0]) + rest);
      assert done + [gs[0]] + gs[1..] == done + gs;
    }
  }

  lemma {:induction false} SetStep(body: seq<byte>, g: Filter, rest: seq<byte>, done: seq<Filter>)
    requires Compile(body + rest) == Ok((g, |body|))
    ensures CompileSet([OPEN] + (body + rest), done) ==
            match CompileSet(rest, done + [g])
            case Err(e) => Err(e)
            case Ok((gs, m)) => Ok((gs, 1 + |body| + m))
  {
    hide Compile;
    var u := [OPEN] + (body + rest);
    assert u[1..] == body + rest && u[1 + |body|..] == rest;
  }

  lemma {:induction false} SetCloses(op: byte, fs: seq<Filter>, gs: seq<Filter>, t: seq<byte>)
    requires op == AND || op == OR
    requires CompileSet(SpelledAll(fs) + ([CLOSE] + t), []) == Ok(([] + gs, |SpelledAll(fs)| + 1))
    ensures var text := [op] + SpelledAll(fs) + [CLOSE];
            Compile(text + t) == Ok((if op == AND then And(gs) else Or(gs), |text|))
  {
    hide CompileSet, SpelledAll, RuneWidth;
    var v := SpelledAll(fs) + ([CLOSE] + t);
    var u := [op] + v;
    assert [op] + SpelledAll(fs) + [CLOSE] + t == u && u[1..] == v && [] + gs == gs;
    OpenRune(u);
  }

  lemma {:induction false} NotCompiles(f: Filter, g: Filter, t: seq<byte>)
    requires Compile(Spelled(f) + ([CLOSE] + t)) == Ok((g, |Spelled(f)|))
    ensures var text := [NOT] + ([OPEN] + Spelled(f)) + [CLOSE];
            Compile(text + t) == Ok((Not(g), |text|))
  {
    hide Spelled, RuneWidth;
    var w := Spelled(f) + ([CLOSE] + t);
    var v := [OPEN] + w;
    var u := [NOT] + v;
    assert [NOT] + ([OPEN] + Spelled(f)) + [CLOSE] + t == u && u[1..] == v && v[1..] == w;
    OpenRune(u);
    OpenRune(v);
    assert Compile(v) == Ok((g, 1 + |Spelled(f)| + 1));
  }

  /** Whoever writes a filter, its text compiles to the filter with the values that its
      texts denote. */
  lemma {:induction false} TextCompiles(f: Filter, g: Filter)
    requires Meant(f, g)
    ensures Compiled([OPEN] + Spelled(f)) == Made(g)
  {
    hide Spelled, Compile, Meant;
    SpelledCompiles(f, g, []);
    assert ([OPEN] + Spelled(f))[1..] == Spelled(f) + [];
  }

  // ---- And nothing else is read ----

  lemma {:induction false} UnreadableText(s: seq<byte>, t: seq<byte>, it: Item)
    requires it.state.ReadingCondition? && !Readable(s) && CLOSE !in s
    ensures ReadItem(s + ([CLOSE] + t), it) == Err(BadRune)
    decreases |s|
  {
    hide ReadItem;
    var u := s + ([CLOSE] + t);
    var w := RuneWidth(s);
    assert u[0] == s[0] && s[0] in s;
    if w == 0 {
      NoRune(s, t);
      ItemFails(u, it);
    } else {
      hide RuneWidth;
      RuneStays(s, [CLOSE] + t);
      assert u[w..] == s[w..] + ([CLOSE] + t);
      ReadItemStep(u, it);
      UnreadableText(s[w..], t, it.(condition := it.condition + s[..w]));
      assert u[..w] == s[..w];
    }
  }

  lemma {:induction false} ItemFails(t: seq<byte>, it: Item)
    requires t != [] && t[0] != CLOSE && RuneWidth(t) == 0
    ensures ReadItem(t, it) == Err(BadRune)
  {
    hide RuneWidth;
  }

  /** A parenthesis does not complete a character. */
  lemma NoRune(s: seq<byte>, t: seq<byte>)
    requires s != [] && RuneWidth(s) == 0
    ensures RuneWidth(s + ([CLOSE] + t)) == 0
  {
    var u := s + ([CLOSE] + t);
    assert forall i :: 0 <= i < |s| ==> u[i] == s[i];
    assert u[|s|] == CLOSE;
    if |s| >= 3 { assert u[..3] == s[..3]; }
  }

  /** The filter with one value that an operator makes. */
  function Compared(kind: Kind, a: seq<byte>, v: seq<byte>): Filter
    requires !kind.NoKind? && !kind.ExtensibleKind?
  {
    match kind
    case EqualityKind => Equality(a, v)
    case GreaterKind => GreaterOrEqual(a, v)
    case LessKind => LessOrEqual(a, v)
    case _ => Approx(a, v)
  }

  /** A value is compiled from a text if and only if the text denotes it. */
  lemma {:induction false} ValueExactly(a: seq<byte>, kind: Kind, s: seq<byte>, v: seq<byte>)
    requires AttributeOk(a) && !kind.NoKind? && !kind.ExtensibleKind? && CLOSE !in s
    requires kind.EqualityKind? ==> STAR !in s
    ensures Compiled([OPEN] + (a + Operator(kind) + s + [CLOSE])) == Made(Compared(kind, a, v)) <==> Denotes(s, v)
  {
    hide AttributeOk, Denotes, Compile, Readable, Unescape;
    var u := a + Operator(kind) + s + [CLOSE];
    assert u + [] == u && ([OPEN] + u)[1..] == u;
    if Denotes(s, v) {
      ValueCompiles(a, kind, s, v, []);
    } else if Readable(s) {
      UnescapesDenoted(s, v);
      match Unescape(s)
      case Err(e) => BadValue(a, kind, s, e);
      case Ok(w) =>
        UnescapesDenoted(s, w);
        ValueCompiles(a, kind, s, w, []);
    } else {
      BadText(a, kind, s);
    }
  }

  lemma {:induction false} BadValue(a: seq<byte>, kind: Kind, s: seq<byte>, e: Error)
    requires AttributeOk(a) && !kind.NoKind? && !kind.ExtensibleKind? && CLOSE !in s && Readable(s)
    requires Unescape(s) == Err(e) && (kind.EqualityKind? ==> STAR !in s)
    ensures Compile(a + Operator(kind) + s + [CLOSE]) == Err(e)
  {
    hide ReadItem, RuneWidth, Readable, NameOk, Unescape;
    var u, it := a + Operator(kind) + s + [CLOSE], Item(ReadingCondition, kind, a, false, [], s);
    ItemRead(a, kind, s);
    AttributeFront(a, Operator(kind), s + [CLOSE]);
    assert u == a + Operator(kind) + (s + [CLOSE]);
    assert Finish(it) == Err(e);
    ItemRefused(u, it, |a| + |Operator(kind)| + |s|, e);
  }

  lemma {:induction false} ItemRead(a: seq<byte>, kind: Kind, s: seq<byte>)
    requires NameOk(a) && !kind.NoKind? && !kind.ExtensibleKind? && CLOSE !in s && Readable(s)
    ensures ReadItem(a + Operator(kind) + s + [CLOSE], START) ==
            Ok((Item(ReadingCondition, kind, a, false, [], s), |a| + |Operator(kind)| + |s|))
  {
    hide ReadItem, RuneWidth, Readable, NameOk;
    var v := s + ([CLOSE] + []);
    assert a + Operator(kind) + s + [CLOSE] == a + (Operator(kind) + v);
    assert [] + a == a && [] + s == s;
    ReadName(a, Operator(kind) + v, START);
    ReadOperator(kind, v, START.(attribute := a));
    ReadText(s, [], START.(attribute := a, kind := kind, state := ReadingCondition));
    Furthest(|a|, |Operator(kind)|, |s|, Item(ReadingCondition, kind, a, false, [], s));
  }

  lemma {:induction false} ItemRefused(u: seq<byte>, it: Item, n: nat, e: Error)
    requires u != [] && RuneWidth(u) > 0 && u[0] != OPEN && u[0] != AND && u[0] != OR && u[0] != NOT
    requires ReadItem(u, START) == Ok((it, n)) && n < |u| && !it.kind.NoKind? && Finish(it) == Err(e)
    ensures Compile(u) == Err(e)
  {
    hide RuneWidth, ReadItem, Finish;
  }

  lemma {:induction false} BadText(a: seq<byte>, kind: Kind, s: seq<byte>)
    requires AttributeOk(a) && !kind.NoKind? && !kind.ExtensibleKind? && CLOSE !in s && !Readable(s)
    ensures Compile(a + Operator(kind) + s + [CLOSE]) == Err(BadRune)
  {
    hide ReadItem, RuneWidth, Readable, NameOk, Finish;
    var v := s + ([CLOSE] + []);
    var u := a + Operator(kind) + s + [CLOSE];
    assert u == a + (Operator(kind) + v) && u == a + Operator(kind) + (s + [CLOSE]);
    assert [] + a == a;
    ReadName(a, Operator(kind) + v, START);
    ReadOperator(kind, v, START.(attribute := a));
    UnreadableText(s, [], START.(attribute := a, kind := kind, state := ReadingCondition));
    AttributeFront(a, Operator(kind), s + [CLOSE]);
  }

  // ---- Escaping ----

  /** A character that RFC 4515 lets stand for itself, if it is ASCII. */
  predicate PlainByte(b: byte) {
    0 < b < 0x80 && b != OPEN && b != CLOSE && b != STAR && b != BACKSLASH
  }

  predicate AllPlain(v: seq<byte>) {
    v == [] || (PlainByte(v[|v| - 1]) && AllPlain(v[..|v| - 1]))
  }

  /** A text is its own escaped form if nothing in it needs escaping; otherwise the escaped
      form is longer. */
  lemma {:induction false} EscapedOnlyWhereNeeded(v: seq<byte>)
    ensures if AllPlain(v) then Escape(v) == v else |Escape(v)| > |v|
  {
    if v != [] {
      hide EscapeByte, PlainByte;
      var k := |v| - 1;
      EscapedOnlyWhereNeeded(v[..k]);
      ByteEscaped(v[k]);
      assert v == v[..k] + [v[k]];
    }
  }

  lemma ByteEscaped(b: byte)
    ensures if PlainByte(b) then EscapeByte(b) == [b] else |EscapeByte(b)| == 3
  {
  }
}
