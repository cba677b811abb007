/** The double-quoted scalar writer, and the round trip with the flow scalar scanner. */
module YamlQuoted {
  import opened Octets
  import opened Utf8
  import opened YamlBytes
  import opened YamlFlowScanner
  import opened Wrappers

  // ---- What the writer may produce ----

  datatype Break = CrBreak | LnBreak | CrLnBreak

  function BreakBytes(b: Break): seq<byte> {
    match b
    case CrBreak => [CR]
    case LnBreak => [LF]
    case CrLnBreak => [CR, LF]
  }

  function Spaces(n: nat): (r: seq<byte>)
    ensures |r| == n && forall i | 0 <= i < n :: r[i] == SPACE
  {
    seq(n, i => SPACE)
  }

  /** The text between the quotes, piece by piece. A fold stands for one space;
      a space behind it is shielded by a backslash. */
  datatype Piece =
    | Raw(bytes: seq<byte>)
    | Escaped(bytes: seq<byte>)
    | Blank
    | Folded(br: Break, indent: nat)
    | Shielded

  predicate Plain(c: seq<byte>) {
    OneChar(c) && !IsBlankz(c) && c[0] != DOUBLE_QUOTE && c[0] != BACKSLASH
  }

  predicate Proper(p: Piece) {
    match p
    case Raw(c) => Plain(c)
    case Escaped(c) => OneChar(c)
    case Folded(_, n) => n >= 1
    case _ => true
  }

  /** Which piece may come after which; the scanner would drop spaces around a fold. */
  predicate Follows(p: Piece, q: Piece) {
    (p.Folded? ==> q.Raw? || q.Escaped? || q.Shielded?) && (p.Blank? ==> !q.Folded?)
  }

  predicate ProperAll(ps: seq<Piece>) {
    (forall i | 0 <= i < |ps| :: Proper(ps[i])) &&
    (forall i | 0 <= i < |ps| - 1 :: Follows(ps[i], ps[i + 1]))
  }

  function Text(p: Piece): seq<byte>
    requires Proper(p)
  {
    match p
    case Raw(c) => c
    case Escaped(c) => EscapeText(Decode(c))
    case Blank => [SPACE]
    case Folded(br, n) => BreakBytes(br) + Spaces(n)
    case Shielded => [BACKSLASH, SPACE]
  }

  function Meaning(p: Piece): seq<byte> {
    match p
    case Raw(c) => c
    case Escaped(c) => c
    case _ => [SPACE]
  }

  function TextAll(ps: seq<Piece>): seq<byte>
    requires ProperAll(ps)
  {
    if ps == [] then [] else TextAll(ps[..|ps| - 1]) + Text(ps[|ps| - 1])
  }

  function MeaningAll(ps: seq<Piece>): seq<byte> {
    if ps == [] then [] else MeaningAll(ps[..|ps| - 1]) + Meaning(ps[|ps| - 1])
  }

  /** The escape sequence of a scalar value. */
  function EscapeText(v: nat): seq<byte> {
    [BACKSLASH] + EscapeCode(v)
  }

  function EscapeCode(v: nat): seq<byte> {
    if v == 0x00 then [0x30]
    else if v == 0x07 then [0x61]
    else if v == 0x08 then [0x62]
    else if v == 0x09 then [0x74]
    else if v == 0x0A then [0x6E]
    else if v == 0x0B then [0x76]
    else if v == 0x0C then [0x66]
    else if v == 0x0D then [0x72]
    else if v == 0x1B then [0x65]
    else if v == 0x22 then [DOUBLE_QUOTE]
    else if v == 0x5C then [BACKSLASH]
    else if v == 0x85 then [0x4E]
    else if v == 0xA0 then [0x5F]
    else if v == 0x2028 then [0x4C]
    else if v == 0x2029 then [0x50]
    else if v <= 0xFF then [0x78] + HexDigits(v, 2)
    else if v <= 0xFFFF then [0x75] + HexDigits(v, 4)
    else [0x55] + HexDigits(v, 8)
  }

  lemma {:induction false} EscapeCodeForm(v: nat)
    ensures var code := EscapeCode(v);
            |code| == 1 || code == (if v <= 0xFF then [0x78] + HexDigits(v, 2)
                                    else if v <= 0xFFFF then [0x75] + HexDigits(v, 4) else [0x55] + HexDigits(v, 8))
    ensures |EscapeCode(v)| != 0
  {
  }

  // ---- The scanner undoes each piece ----

  function Power16(n: nat): nat {
    if n == 0 then 1 else 16 * Power16(n - 1)
  }

  lemma {:induction false} ParseHexPrefix(a: seq<byte>, t: seq<byte>, n: nat)
    requires n <= |a|
    ensures ParseHex(a + t, n) == ParseHex(a, n)
  {
    if n > 0 { ParseHexPrefix(a, t, n - 1); }
  }

  lemma {:induction false} ParseHexDigits(v: nat, n: nat)
    requires v < Power16(n)
    ensures ParseHex(HexDigits(v, n), n) == Some(v)
  {
    if n > 0 {
      ParseHexDigits(v / 16, n - 1);
      ParseHexPrefix(HexDigits(v / 16, n - 1), [HexDigit(v % 16)], n - 1);
    }
  }

  lemma {:induction false} HexEscape(v: nat, letter: byte, n: nat, t: seq<byte>)
    requires Scalar(v) && v < Power16(n) && EscapeOf(letter) == Code(n)
    ensures TakeEscape([BACKSLASH] + ([letter] + HexDigits(v, n)) + t) == Took(Encode(v), t)
  {
    hide HexDigits, Encode, Scalar, IsHex, AsHex;
    var d := HexDigits(v, n);
    var u := [BACKSLASH] + ([letter] + d) + t;
    assert u[2..] == d + t;
    assert u[2 + n..] == t;
    ParseHexDigits(v, n);
    ParseHexPrefix(d, t, n);
  }

  /** Escaping a scalar value and scanning it yields its UTF-8 bytes. */
  lemma EscapeRoundTrip(v: nat, t: seq<byte>)
    requires Scalar(v)
    ensures TakeEscape(EscapeText(v) + t) == Took(Encode(v), t)
    ensures !IsBreak((EscapeText(v) + t)[1..])
  {
    var u := EscapeText(v) + t;
    assert u[0] == BACKSLASH && u[1] == EscapeCode(v)[0];
    assert At(u[1..], 0) == u[1];
    if |EscapeCode(v)| == 1 {
      assert u[2..] == t;
    } else if v <= 0xFF {
      assert Power16(2) == 256;
      HexEscape(v, 0x78, 2, t);
    } else if v <= 0xFFFF {
      assert Power16(2) == 256 && Power16(4) == 65536;
      HexEscape(v, 0x75, 4, t);
    } else {
      assert Power16(2) == 256 && Power16(4) == 65536 && Power16(6) == 16777216 && Power16(8) == 4294967296;
      HexEscape(v, 0x55, 8, t);
    }
  }

  /** Text that does not read as the end of the stream. */
  predicate Continues(t: seq<byte>) {
    t != [] && !IsZ(t)
  }

  /** Taking one character or escape first makes no difference to the rest. */
  lemma {:induction false} TakeStep(t: seq<byte>, text: seq<byte>, rest: seq<byte>, s: seq<byte>)
    requires Continues(t) && !IsBlankz(t) && t[0] != DOUBLE_QUOTE
    requires t[0] == BACKSLASH ==> !IsBreak(t[1..]) && TakeEscape(t) == Took(text, rest)
    requires t[0] != BACKSLASH ==> TakeChar(t) == Took(text, rest)
    requires |rest| < |t| && Continues(rest)
    ensures Scan(false, t, s, false) == Scan(false, rest, s + text, false)
  {
    hide TakeEscape, TakeChar, DocumentIndicator;
    assert NonBlank(false, t, s, false) == NonBlank(false, rest, s + text, false);
  }

  lemma {:induction false} RawStep(c: seq<byte>, t: seq<byte>, s: seq<byte>)
    requires Plain(c) && Continues(t)
    ensures Scan(false, c + t, s, false) == Scan(false, t, s + c, false)
  {
    var u := c + t;
    assert u[..|c|] == c && u[|c|..] == t;
    PlainStays(c, t);
    TakeStep(u, c, t, s);
  }

  lemma PlainStays(c: seq<byte>, t: seq<byte>)
    requires Plain(c)
    ensures !IsBlankz(c + t) && Width((c + t)[0]) == |c|
  {
    assert forall i | 0 <= i < |c| :: At(c + t, i) == At(c, i);
  }

  lemma {:induction false} EscapeStep(c: seq<byte>, t: seq<byte>, s: seq<byte>)
    requires OneChar(c) && Continues(t)
    ensures Scan(false, EscapeText(Decode(c)) + t, s, false) == Scan(false, t, s + c, false)
  {
    EncodeDecode(c);
    EscapeRoundTrip(Decode(c), t);
    TakeStep(EscapeText(Decode(c)) + t, c, t, s);
  }

  lemma {:induction false} ShieldStep(t: seq<byte>, s: seq<byte>)
    requires Continues(t)
    ensures Scan(false, [BACKSLASH, SPACE] + t, s, false) == Scan(false, t, s + [SPACE], false)
  {
    var u := [BACKSLASH, SPACE] + t;
    assert u[2..] == t && At(u[1..], 0) == SPACE;
    TakeStep(u, [SPACE], t, s);
  }

  /** The spaces at the front end in something that is not a line break. */
  predicate NoFoldAhead(t: seq<byte>)
    decreases |t|
  {
    if IsBlank(t) then NoFoldAhead(t[1..]) else !IsBreak(t)
  }

  function Gather(t: seq<byte>, spaces: seq<byte>): Gap {
    Blanks(Gap(t, false, spaces, [], [], false))
  }

  lemma {:induction false} GatherSpaces(t: seq<byte>, spaces: seq<byte>)
    requires NoFoldAhead(t)
    ensures var g, h := Gather(t, spaces), Gather(t, []);
            !g.leading && g.spaces == spaces + h.spaces && g.rest == h.rest && !g.bol &&
            !h.leading && !h.bol && (IsBlank(t) ==> |g.rest| < |t|)
    decreases |t|
  {
    if IsBlank(t) {
      GatherSpaces(t[1..], spaces + [t[0]]);
      GatherSpaces(t[1..], [t[0]]);
      assert [] + [t[0]] == [t[0]];
      assert spaces + [t[0]] + Gather(t[1..], []).spaces == spaces + ([t[0]] + Gather(t[1..], []).spaces);
    }
  }

  lemma {:induction false} BlankStep(single: bool, t: seq<byte>, s: seq<byte>)
    requires Continues(t) && NoFoldAhead(t)
    ensures Scan(single, [SPACE] + t, s, false) == Scan(single, t, s + [SPACE], false)
  {
    hide TakeEscape, TakeChar, DocumentIndicator, BreakText, BreakWidth;
    var u := [SPACE] + t;
    assert u[1..] == t;
    GatherSpaces(t, [SPACE]);
    assert [] + [SPACE] == [SPACE];
    assert Gather(u, []) == Gather(t, [SPACE]);
    var h := Gather(t, []);
    assert Scan(single, u, s, false) == Scan(single, h.rest, s + ([SPACE] + h.spaces), false);
    assert s + ([SPACE] + h.spaces) == (s + [SPACE]) + h.spaces;
    if !IsBlank(t) {
      assert h.rest == t && h.spaces == [];
      assert (s + [SPACE]) + [] == s + [SPACE];
    }
  }

  lemma {:induction false} SkipIndent(n: nat, t: seq<byte>, bol: bool)
    requires !IsBlank(t) && !IsBreak(t)
    ensures Blanks(Gap(Spaces(n) + t, true, [], [LF], [], bol)) == Gap(t, true, [], [LF], [], bol && n == 0)
  {
    if n == 0 {
      assert Spaces(0) + t == t;
    } else {
      assert (Spaces(n) + t)[1..] == Spaces(n - 1) + t;
      SkipIndent(n - 1, t, false);
    }
  }

  lemma {:induction false} FoldStep(single: bool, br: Break, n: nat, t: seq<byte>, s: seq<byte>)
    requires n >= 1 && Continues(t) && !IsBlankz(t)
    ensures Scan(single, BreakBytes(br) + Spaces(n) + t, s, false) == Scan(single, t, s + [SPACE], false)
  {
    hide TakeEscape, TakeChar, DocumentIndicator;
    var u := BreakBytes(br) + Spaces(n) + t;
    var k := |BreakBytes(br)|;
    assert u[k..] == Spaces(n) + t;
    assert u[k] == SPACE && At(u, 0) == BreakBytes(br)[0];
    assert IsBreak(u) && BreakWidth(u) == k && BreakText(u) == [LF];
    SkipIndent(n, t, true);
    assert [] + [LF] == [LF];
    var g := Blanks(Gap(u, false, [], [], [], false));
    assert g == Gap(t, true, [], [LF], [], false);
    assert NonBlank(single, u, s, false) == Part(s, u, false, false);
  }

  /** How the text after a piece starts. */
  predicate Fits(p: Piece, t: seq<byte>) {
    Continues(t) && (p.Folded? ==> !IsBlankz(t)) && (p.Blank? ==> NoFoldAhead(t))
  }

  lemma {:induction false} PieceStep(p: Piece, t: seq<byte>, s: seq<byte>)
    requires Proper(p) && Fits(p, t)
    ensures Scan(false, Text(p) + t, s, false) == Scan(false, t, s + Meaning(p), false)
  {
    match p
    case Raw(c) => RawStep(c, t, s);
    case Escaped(c) => EscapeStep(c, t, s);
    case Blank => BlankStep(false, t, s);
    case Folded(br, n) => FoldStep(false, br, n, t, s);
    case Shielded => ShieldStep(t, s);
  }

  /** The text from piece p on, as the piece before it needs it. */
  lemma {:induction false} PieceFits(p: Piece, t: seq<byte>)
    requires Proper(p) && Fits(p, t)
    ensures Continues(Text(p) + t)
    ensures p.Raw? || p.Escaped? || p.Shielded? ==> !IsBlankz(Text(p) + t)
    ensures !p.Folded? ==> NoFoldAhead(Text(p) + t)
  {
    match p
    case Raw(c) => PlainStays(c, t);
    case Blank => assert ([SPACE] + t)[1..] == t;
    case _ =>
  }

  /** Scanning a written scalar gives back the value it was written for. */
  lemma {:induction false} TextRoundTrip(ps: seq<Piece>, t: seq<byte>, s: seq<byte>)
    requires ProperAll(ps) && (ps != [] ==> Fits(ps[|ps| - 1], t)) && Continues(t)
    ensures Scan(false, TextAll(ps) + t, s, false) == Scan(false, t, s + MeaningAll(ps), false)
    decreases |ps|
  {
    hide Scan, Text, Meaning, NoFoldAhead;
    if ps == [] {
      assert TextAll(ps) + t == t && s + MeaningAll(ps) == s;
    } else {
      var init, p := ps[..|ps| - 1], ps[|ps| - 1];
      PieceFits(p, t);
      if init != [] { assert Follows(init[|init| - 1], p); }
      TextRoundTrip(init, Text(p) + t, s);
      assert TextAll(ps) + t == TextAll(init) + (Text(p) + t);
      PieceStep(p, t, s + MeaningAll(init));
      assert s + MeaningAll(ps) == (s + MeaningAll(init)) + Meaning(p);
    }
  }

  /** The whole scalar, in its quotes and in any surroundings. */
  lemma {:induction false} QuotedRoundTrip(ps: seq<Piece>, rest: seq<byte>)
    requires ProperAll(ps) && (ps != [] ==> !ps[|ps| - 1].Folded?)
    ensures Scan(false, TextAll(ps) + [DOUBLE_QUOTE] + rest, [], false) == Token(MeaningAll(ps), rest)
  {
    hide TextAll, MeaningAll, TakeEscape, TakeChar, DocumentIndicator;
    var t := [DOUBLE_QUOTE] + rest;
    assert t[1..] == rest;
    TextRoundTrip(ps, t, []);
    assert TextAll(ps) + [DOUBLE_QUOTE] + rest == TextAll(ps) + t;
    assert [] + MeaningAll(ps) == MeaningAll(ps);
    assert NonBlank(false, t, MeaningAll(ps), false) == Part(MeaningAll(ps), t, false, false);
  }

  // ---- The writer ----

  /** A scalar in quotes that the scanner reads as `value`, whatever comes after it. */
  ghost predicate Reads(text: seq<byte>, value: seq<byte>) {
    forall rest: seq<byte> :: Scan(false, text + rest, [], false) == Token(value, rest)
  }

  lemma ProperAdded(ps: seq<Piece>, p: Piece)
    requires ProperAll(ps) && Proper(p) && (ps != [] ==> Follows(ps[|ps| - 1], p))
    ensures ProperAll(ps + [p])
  {
    hide Proper, Follows;
    var qs := ps + [p];
    assert forall i | 0 <= i < |ps| :: qs[i] == ps[i];
    assert qs[|ps|] == p;
  }

  lemma {:induction false} PieceAdded(ps: seq<Piece>, p: Piece)
    requires ProperAll(ps) && Proper(p) && (ps != [] ==> Follows(ps[|ps| - 1], p))
    ensures ProperAll(ps + [p])
    ensures TextAll(ps + [p]) == TextAll(ps) + Text(p)
    ensures MeaningAll(ps + [p]) == MeaningAll(ps) + Meaning(p)
  {
    ProperAdded(ps, p);
    hide Text, Meaning, Proper, Follows, ProperAll;
    assert (ps + [p])[..|ps|] == ps;
  }

  lemma NoPieces()
    ensures ProperAll([]) && TextAll([]) == [] && MeaningAll([]) == []
  {
  }

  class Emitter {
    var output: seq<byte>
    var column: nat
    var whitespace: bool
    var indention: bool
    var openEnded: bool
    const indent: int
    const bestWidth: int
    const unicode: bool
    const lineBreak: Break

    constructor (indent: int, bestWidth: int, unicode: bool, lineBreak: Break, column: nat, whitespace: bool,
                 indention: bool)
    {
      this.indent, this.bestWidth, this.unicode, this.lineBreak := indent, bestWidth, unicode, lineBreak;
      this.output, this.column, this.whitespace, this.indention, this.openEnded :=
        [], column, whitespace, indention, false;
    }

    method Put(b: byte)
      modifies this`output, this`column
      ensures output == old(output) + [b] && column == old(column) + 1
    {
      output := output + [b];
      column := column + 1;
    }

    method PutBreak()
      modifies this`output, this`column
      ensures output == old(output) + BreakBytes(lineBreak) && column == 0
    {
      output := output + BreakBytes(lineBreak);
      column := 0;
    }

    /** Copies the character at the front of `t`. */
    method Write(t: seq<byte>)
      requires CharLength(t) > 0
      modifies this`output, this`column
      ensures output == old(output) + t[..CharLength(t)] && column == old(column) + 1
    {
      output := output + t[..Width(t[0])];
      column := column + 1;
    }

    method WriteIndicator(b: byte, needWhitespace: bool, isWhitespace: bool, isIndention: bool)
      modifies this
      ensures output == old(output) + (if needWhitespace && !old(whitespace) then [SPACE] else []) + [b]
      ensures column > old(column) && whitespace == isWhitespace && indention == (old(indention) && isIndention)
    {
      if needWhitespace && !whitespace { Put(SPACE); }
      Put(b);
      whitespace := isWhitespace;
      indention := indention && isIndention;
      openEnded := false;
    }

    /** Starts a line at the indentation, unless the column is within it on a
        fresh line already. */
    method WriteIndent()
      modifies this`output, this`column, this`whitespace, this`indention
      ensures var margin := if indent < 0 then 0 else indent;
              var starts := !old(indention) || old(column) > margin || (old(column) == margin && !old(whitespace));
              output == old(output) +
                (if starts then BreakBytes(lineBreak) + Spaces(margin) else Spaces(margin - old(column))) &&
              column == margin
      ensures whitespace && indention
    {
      var margin := if indent < 0 then 0 else indent;
      if !indention || column > margin || (column == margin && !whitespace) {
        PutBreak();
      }
      ghost var o, c := output, column;
      while column < margin
        invariant c <= column <= margin && output == o + Spaces(column - c)
      {
        Put(SPACE);
      }
      whitespace, indention := true, true;
    }

    /** Accumulates the scalar value of the character at the front of `t`. */
    method ScalarValue(t: seq<byte>) returns (v: nat)
      requires CharLength(t) > 0
      ensures v == Decode(t[..CharLength(t)])
    {
      ghost var c := t[..CharLength(t)];
      var w := Width(t[0]);
      v := if w == 1 then t[0] as int % 128 else if w == 2 then t[0] as int % 32
           else if w == 3 then t[0] as int % 16 else t[0] as int % 8;
      for k := 1 to w
        invariant v == Leading(c, k)
      {
        v := v * 64 + t[k] as int % 64;
      }
      LeadingIsDecode(c);
    }

    /** Writes the escape sequence of the character at the front of `t`. */
    method WriteEscape(t: seq<byte>)
      requires CharLength(t) > 0
      modifies this`output, this`column
      ensures output == old(output) + EscapeText(Decode(t[..CharLength(t)]))
      ensures column > old(column)
    {
      hide EscapeCode, HexDigits, Decode, CharLength;
      var v := ScalarValue(t);
      Put(BACKSLASH);
      EscapeCodeForm(v);
      var code := EscapeCode(v);
      if |code| == 1 {
        Put(code[0]);
        assert code == [code[0]];
      } else {
        var digits: nat;
        if v <= 0xFF {
          Put(0x78);
          digits := 2;
        } else if v <= 0xFFFF {
          Put(0x75);
          digits := 4;
        } else {
          Put(0x55);
          digits := 8;
        }
        WriteDigits(v, digits);
      }
    }

    /** The digits of the escape code, the highest first. */
    method WriteDigits(v: nat, digits: nat)
      modifies this`output, this`column
      ensures output == old(output) + HexDigits(v, digits) && column == old(column) + digits
    {
      var k := digits;
      while k > 0
        invariant 0 <= k <= digits && column == old(column) + digits - k
        invariant output == old(output) + HexDigits(Nibbles(v, k), digits - k)
      {
        Put(HexDigit(Nibbles(v, k - 1) % 16));
        k := k - 1;
      }
    }

    predicate MustEscape(value: seq<byte>, t: seq<byte>) {
      !IsPrintable(t) || (!unicode && !IsAscii(t)) || IsBom(value) || IsBreak(t) ||
      At(t, 0) == DOUBLE_QUOTE || At(t, 0) == BACKSLASH
    }

    /** Half way through `value`: the pieces written stand for value[..i]. After
        `slash` a backslash is out already for the space at i. */
    ghost predicate Progress(start: seq<byte>, value: seq<byte>, i: nat, ps: seq<Piece>, slash: bool, spaces: bool)
      reads this
    {
      && i <= |value| && ValidUtf8(value[i..]) && indent >= 1
      && ProperAll(ps) && MeaningAll(ps) == value[..i]
      && (if slash then output == start + TextAll(ps) + [BACKSLASH] else output == start + TextAll(ps))
      && (slash ==> spaces && i < |value| && value[i] == SPACE && !IsBom(value))
      && (slash ==> ps != [] && ps[|ps| - 1].Folded?)
      && (!spaces && ps != [] ==> !ps[|ps| - 1].Blank? && !ps[|ps| - 1].Folded?)
      && (ps != [] && ps[|ps| - 1].Folded? ==> i < |value| && (value[i] == SPACE ==> slash))
      && (indention ==> column >= indent && (spaces || column > indent))
    }

    /** The next character, escaped. */
    method WriteEscaped(value: seq<byte>, i: nat, ghost start: seq<byte>, ghost ps: seq<Piece>, ghost slash: bool,
                        ghost spaces: bool)
      returns (i': nat, ghost ps': seq<Piece>)
      requires Progress(start, value, i, ps, slash, spaces) && i < |value| && MustEscape(value, value[i..])
      modifies this`output, this`column
      ensures Progress(start, value, i', ps', false, false) && i < i'
    {
      hide TextAll, MeaningAll, ProperAll, EscapeText, Decode, CharLength;
      ghost var c := value[i..][..CharLength(value[i..])];
      NextChar(value, i);
      if value[i] == SPACE { SpaceNeedsNoEscape(value[i..]); }
      PieceAdded(ps, Escaped(c));
      ps' := ps + [Escaped(c)];
      i' := i + Width(value[i]);
      WriteEscape(value[i..]);
    }

    /** The next character as it stands. */
    method WritePlain(value: seq<byte>, i: nat, ghost start: seq<byte>, ghost ps: seq<Piece>, ghost slash: bool,
                      ghost spaces: bool)
      returns (i': nat, ghost ps': seq<Piece>)
      requires Progress(start, value, i, ps, slash, spaces) && i < |value|
      requires !MustEscape(value, value[i..]) && !IsSpace(value[i..])
      modifies this`output, this`column
      ensures Progress(start, value, i', ps', false, false) && i < i'
    {
      hide TextAll, MeaningAll, ProperAll, CharLength;
      ghost var c := value[i..][..CharLength(value[i..])];
      NextChar(value, i);
      UnescapedIsPlain(value[i..]);
      PieceAdded(ps, Raw(c));
      ps' := ps + [Raw(c)];
      i' := i + Width(value[i]);
      Write(value[i..]);
    }

    /** The next character is a space: written, or turned into a fold. */
    method WriteSpace(value: seq<byte>, i: nat, allowBreaks: bool, spaces: bool,
                      ghost start: seq<byte>, ghost ps: seq<Piece>, ghost slash: bool)
      returns (i': nat, ghost ps': seq<Piece>, ghost slash': bool)
      requires Progress(start, value, i, ps, slash, spaces) && i < |value|
      requires !MustEscape(value, value[i..]) && IsSpace(value[i..])
      modifies this`output, this`column, this`whitespace, this`indention
      ensures Progress(start, value, i', ps', slash', true) && i < i'
    {
      hide TextAll, MeaningAll, ProperAll, CharLength, IsPrintable;
      NextChar(value, i);
      ghost var p;
      slash' := false;
      i' := i + Width(value[i]);
      if allowBreaks && !spaces && column > bestWidth && i > 0 && i < |value| - 1 {
        p := Folded(lineBreak, indent);
        NonemptyPieces(ps, value[..i]);
        PieceAdded(ps, p);
        WriteIndent();
        if IsSpace(value[i + 1..]) {
          Put(BACKSLASH);
          slash' := true;
        }
      } else {
        p := if slash then Shielded else Blank;
        PieceAdded(ps, p);
        Write(value[i..]);
        assert slash ==> [BACKSLASH] + [SPACE] == Text(p);
      }
      ps' := ps + [p];
    }

    /** Writes `value` in double quotes, folding long lines at spaces. The scanner
        reads the text back as `value`. */
    method WriteDoubleQuotedScalar(value: seq<byte>, allowBreaks: bool) returns (ghost text: seq<byte>)
      requires ValidUtf8(value) && indent >= 1
      modifies this
      ensures output == old(output) + (if old(whitespace) then [] else [SPACE]) + [DOUBLE_QUOTE] + text
      ensures Reads(text, value)
      ensures !whitespace && !indention
    {
      NoPieces();
      WriteIndicator(DOUBLE_QUOTE, true, false, false);
      ghost var start := output;
      ghost var ps: seq<Piece> := [];
      ghost var slash := false;
      var spaces := false;
      var i: nat := 0;
      while i < |value|
        invariant Progress(start, value, i, ps, slash, spaces)
        decreases |value| - i
      {
        if MustEscape(value, value[i..]) {
          i, ps := WriteEscaped(value, i, start, ps, slash, spaces);
          slash, spaces := false, false;
        } else if IsSpace(value[i..]) {
          i, ps, slash := WriteSpace(value, i, allowBreaks, spaces, start, ps, slash);
          spaces := true;
        } else {
          i, ps := WritePlain(value, i, start, ps, slash, spaces);
          slash, spaces := false, false;
        }
      }
      assert value[..i] == value;
      WriteIndicator(DOUBLE_QUOTE, false, false, false);
      text := TextAll(ps) + [DOUBLE_QUOTE];
      forall rest: seq<byte> ensures Scan(false, text + rest, [], false) == Token(value, rest) {
        QuotedRoundTrip(ps, rest);
      }
      whitespace, indention := false, false;
    }
  }

  lemma NextChar(value: seq<byte>, i: nat)
    requires i < |value| && ValidUtf8(value[i..])
    ensures var t := value[i..];
            var w := CharLength(t);
            w == Width(value[i]) > 0 && i + w <= |value| && OneChar(t[..w]) &&
            ValidUtf8(value[i + w..]) && value[..i + w] == value[..i] + t[..w] &&
            (value[i] == SPACE ==> t[..w] == [SPACE])
  {
    FirstChar(value[i..]);
    assert value[i..][CharLength(value[i..])..] == value[i + CharLength(value[i..])..];
  }

  lemma {:induction false} NonemptyPieces(ps: seq<Piece>, s: seq<byte>)
    requires MeaningAll(ps) == s && s != []
    ensures ps != []
  {
  }

  /** A space is only escaped in a value that starts with a byte order mark. */
  lemma SpaceNeedsNoEscape(t: seq<byte>)
    requires t != [] && t[0] == SPACE
    ensures IsPrintable(t) && IsAscii(t) && !IsBreak(t)
  {
  }

  /** The scalar value after `k` bytes of a character. */
  function Leading(c: seq<byte>, k: nat): nat
    requires 1 <= k <= |c|
  {
    if k == 1 then
      if |c| == 1 then c[0] as int % 128 else if |c| == 2 then c[0] as int % 32
      else if |c| == 3 then c[0] as int % 16 else c[0] as int % 8
    else Leading(c, k - 1) * 64 + c[k - 1] as int % 64
  }

  lemma {:induction false} LeadingIsDecode(c: seq<byte>)
    requires OneChar(c)
    ensures Leading(c, |c|) == Decode(c)
  {
    if |c| >= 2 { assert Leading(c, 2) == Leading(c, 1) * 64 + c[1] as int % 64; }
    if |c| >= 3 { assert Leading(c, 3) == Leading(c, 2) * 64 + c[2] as int % 64; }
    if |c| >= 4 { assert Leading(c, 4) == Leading(c, 3) * 64 + c[3] as int % 64; }
  }

  /** `v` without its last `k` hexadecimal digits. */
  function Nibbles(v: nat, k: nat): nat {
    if k == 0 then v else Nibbles(v, k - 1) / 16
  }

  lemma {:induction false} UnescapedIsPlain(t: seq<byte>)
    requires t != [] && ValidUtf8(t) && IsPrintable(t) && !IsBreak(t) && !IsSpace(t)
    requires At(t, 0) != DOUBLE_QUOTE && At(t, 0) != BACKSLASH
    ensures Plain(t[..CharLength(t)])
  {
    var c := t[..CharLength(t)];
    FirstChar(t);
    assert forall i | 0 <= i < |c| :: At(c, i) == At(t, i);
  }
}
