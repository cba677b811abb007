/** Quoted scalars as anyone may write them, by sections 5.7 and 7.3 of the YAML
    specification: characters, escapes, blanks between them, and lines that are folded. */
module YamlFlowText {
  import opened Octets
  import opened Utf8
  import opened YamlBytes
  import opened YamlFlowScanner
  import opened Wrappers

  /** The characters that a letter behind a backslash stands for. */
  const ESCAPES: map<byte, nat> := map[
    0x30 := 0x00, 0x61 := 0x07, 0x62 := 0x08, 0x74 := 0x09, 0x09 := 0x09, 0x6E := 0x0A, 0x76 := 0x0B, 0x66 := 0x0C,
    0x72 := 0x0D, 0x65 := 0x1B, 0x20 := 0x20, 0x22 := 0x22, 0x27 := 0x27, 0x5C := 0x5C, 0x4E := 0x85, 0x5F := 0xA0,
    0x4C := 0x2028, 0x50 := 0x2029]

  /** A line break, and the blanks at the beginning of the line after it. */
  datatype Line = Line(br: seq<byte>, indent: seq<byte>)

  datatype Piece =
    | Char(bytes: seq<byte>)
    | TwoQuotes                                       // two single quotes
    | Named(letter: byte)                         // an escape
    | Coded(letter: byte, digits: seq<byte>, value: nat)
    | Blank(blanks: seq<byte>)                    // within a line
    | Folded(blanks: seq<byte>, lines: seq<Line>)   // from a line to a later one
    | Joined(lines: seq<Line>)                      // the same behind a backslash

  // ---- What may stand in a scalar ----

  const BREAKS: seq<seq<byte>> := [[LF], [CR], [CR, LF], [0xC2, 0x85], [0xE2, 0x80, 0xA8], [0xE2, 0x80, 0xA9]]

  predicate AllBlank(s: seq<byte>) {
    forall i :: 0 <= i < |s| ==> s[i] == SPACE || s[i] == TAB
  }

  predicate LinesOk(ls: seq<Line>) {
    ls != [] && (forall i :: 0 <= i < |ls| ==> ls[i].br in BREAKS && AllBlank(ls[i].indent)) &&
    forall i :: 0 <= i < |ls| - 1 && ls[i] == Line([CR], []) ==> ls[i + 1].br != [LF]
  }

  predicate Proper(single: bool, p: Piece) {
    match p
    case Char(c) =>
      OneChar(c) && !IsBlankz(c) && (if single then c[0] != SINGLE_QUOTE else c[0] != DOUBLE_QUOTE && c[0] != BACKSLASH)
    case TwoQuotes => single
    case Named(b) => !single && b in ESCAPES
    case Coded(b, digits, v) =>
      !single && Scalar(v) && Spells(digits, v) &&
      ((b == 0x78 && |digits| == 2) || (b == 0x75 && |digits| == 4) || (b == 0x55 && |digits| == 8))
    case Blank(s) => AllBlank(s) && s != []
    case Folded(s, ls) => AllBlank(s) && LinesOk(ls)
    case Joined(ls) => !single && LinesOk(ls)
  }

  function LinesText(ls: seq<Line>): seq<byte> {
    if ls == [] then [] else ls[0].br + (ls[0].indent + LinesText(ls[1..]))
  }

  function Text(p: Piece): seq<byte> {
    match p
    case Char(c) => c
    case TwoQuotes => [SINGLE_QUOTE, SINGLE_QUOTE]
    case Named(b) => [BACKSLASH, b]
    case Coded(b, digits, _) => [BACKSLASH, b] + digits
    case Blank(s) => s
    case Folded(s, ls) => s + LinesText(ls)
    case Joined(ls) => [BACKSLASH] + LinesText(ls)
  }

  // ---- What it means ----

  /** A break is a line feed, but the line and paragraph separators stay. */
  function BreakMeans(br: seq<byte>): seq<byte> {
    if |br| == 3 then br else [LF]
  }

  function LinesMean(ls: seq<Line>): seq<byte> {
    if ls == [] then [] else BreakMeans(ls[0].br) + LinesMean(ls[1..])
  }

  /** A single break is a space, and of several the first is dropped, unless it is a
      separator; behind a backslash the first is dropped in any case. */
  function Means(single: bool, p: Piece): seq<byte>
    requires Proper(single, p)
  {
    match p
    case Char(c) => c
    case TwoQuotes => [SINGLE_QUOTE]
    case Named(b) => Encode(ESCAPES[b])
    case Coded(_, _, v) => Encode(v)
    case Blank(s) => s
    case Folded(_, ls) =>
      if |ls[0].br| == 3 then LinesMean(ls) else if |ls| == 1 then [SPACE] else LinesMean(ls[1..])
    case Joined(ls) => LinesMean(ls[1..])
  }

  function TextAll(ps: seq<Piece>): seq<byte> {
    if ps == [] then [] else Text(ps[0]) + TextAll(ps[1..])
  }

  function MeansAll(single: bool, ps: seq<Piece>): seq<byte>
    requires forall i :: 0 <= i < |ps| ==> Proper(single, ps[i])
  {
    if ps == [] then [] else Means(single, ps[0]) + MeansAll(single, ps[1..])
  }

  predicate Lined(p: Piece) {
    p.Folded? || p.Joined?
  }

  /** Blanks and breaks that stand together are one piece, and no line begins as a document
      indicator. `t` comes behind the pieces. */
  predicate Apart(ps: seq<Piece>, t: seq<byte>) {
    ps == [] || (
      && (ps[0].Blank? || Lined(ps[0]) ==> ps[1..] == [] || (!ps[1].Blank? && !ps[1].Folded?))
      && (Lined(ps[0]) && ps[0].lines != [] && ps[0].lines[|ps[0].lines| - 1].indent == [] ==>
            !DocumentIndicator(TextAll(ps[1..]) + t))
      && Apart(ps[1..], t))
  }

  // ---- Escapes ----

  lemma NamedRead(b: byte, t: seq<byte>)
    requires b in ESCAPES
    ensures TakeEscape([BACKSLASH, b] + t) == Took(Encode(ESCAPES[b]), t)
    ensures !IsBreak([b] + t)
  {
    var u := [BACKSLASH, b] + t;
    assert u[2..] == t;
  }

  lemma {:induction false} SpellsRead(digits: seq<byte>, v: nat, t: seq<byte>)
    requires Spells(digits, v)
    ensures ParseHex(digits + t, |digits|) == Some(v)
    decreases |digits|
  {
    if digits != [] {
      var k := |digits| - 1;
      DigitRead(digits[k], v % 16);
      SpellsRead(digits[..k], v / 16, [digits[k]] + t);
      assert digits[..k] + ([digits[k]] + t) == digits + t;
    }
  }

  lemma CodedRead(b: byte, digits: seq<byte>, v: nat, t: seq<byte>)
    requires Proper(false, Coded(b, digits, v))
    ensures TakeEscape([BACKSLASH, b] + digits + t) == Took(Encode(v), t)
    ensures !IsBreak([b] + (digits + t))
  {
    hide Spells, Encode, ParseHex, Scalar;
    var u := [BACKSLASH, b] + digits + t;
    assert u[2..] == digits + t && u[2 + |digits|..] == t;
    SpellsRead(digits, v, t);
  }

  predicate IsEscape(p: Piece) {
    (p.Named? || p.Coded?) && Proper(false, p)
  }

  /** An escape is read from a text if and only if it is one of these. */
  lemma EscapesExactly(t: seq<byte>, text: seq<byte>, rest: seq<byte>)
    requires t != [] && t[0] == BACKSLASH
    ensures TakeEscape(t) == Took(text, rest) <==>
            exists p: Piece :: IsEscape(p) && t == Text(p) + rest && text == Means(false, p)
  {
    hide TakeEscape, Text, Means, Encode, Spells, Scalar;
    if p: Piece :| IsEscape(p) && t == Text(p) + rest && text == Means(false, p) { EscapeTaken(p, rest); }
    if TakeEscape(t) == Took(text, rest) { var p := EscapeIn(t); }
  }

  lemma EscapeTaken(p: Piece, rest: seq<byte>)
    requires IsEscape(p)
    ensures TakeEscape(Text(p) + rest) == Took(Means(false, p), rest)
  {
    hide TakeEscape, Encode, Spells, Scalar;
    if p.Named? { NamedRead(p.letter, rest); } else { CodedRead(p.letter, p.digits, p.value, rest); }
  }

  lemma EscapeIn(t: seq<byte>) returns (p: Piece)
    requires t != [] && t[0] == BACKSLASH && TakeEscape(t).Took?
    ensures IsEscape(p) && Took(Means(false, p), TakeEscape(t).rest) == TakeEscape(t)
    ensures t == Text(p) + TakeEscape(t).rest
  {
    hide EscapeOf, Encode, Spells, ParseHex, Scalar;
    var b := At(t, 1);
    LettersOnly(b);
    if b in ESCAPES {
      NamedRead(b, t[2..]);
      p := Named(b);
      assert t == Text(p) + t[2..];
    } else {
      var n := EscapeOf(b).digits;
      var v := ParseHex(t[2..], n).value;
      ReadSpells(t[2..], n);
      p := Coded(b, t[2..][..n], v);
      assert Drop(t, 2) == t[2..] && t[2..][n..] == t[2 + n..];
      assert t[..2] == [BACKSLASH, b] && t == t[..2] + t[2..];
      assert t[2..] == p.digits + t[2 + n..];
    }
  }

  lemma LettersOnly(b: byte)
    ensures b in ESCAPES ==> EscapeOf(b).Stands?
    ensures b !in ESCAPES ==> EscapeOf(b) == if b == 0x78 then Code(2) else if b == 0x75 then Code(4)
                                             else if b == 0x55 then Code(8) else Unknown
  {
  }

  lemma {:induction false} ReadSpells(t: seq<byte>, n: nat)
    requires ParseHex(t, n).Some?
    ensures n <= |t| && Spells(t[..n], ParseHex(t, n).value)
  {
    if n > 0 {
      ReadSpells(t, n - 1);
      var w, b := ParseHex(t, n - 1).value, At(t, n - 1);
      assert t[..n][..n - 1] == t[..n - 1] && t[..n][n - 1] == b;
      LastSpells(t[..n], w, AsHex(b));
    }
  }

  lemma LastSpells(digits: seq<byte>, w: nat, d: nat)
    requires digits != [] && Spells(digits[..|digits| - 1], w) && IsHex(digits[|digits| - 1])
    requires d == AsHex(digits[|digits| - 1])
    ensures Spells(digits, w * 16 + d)
  {
    DigitRead(digits[|digits| - 1], d);
    assert (w * 16 + d) / 16 == w && (w * 16 + d) % 16 == d;
  }

  // ---- Steps of the scanner ----

  /** Text that goes on in its line with something but blanks. */
  predicate Solid(t: seq<byte>) {
    t != [] && !IsBlankz(t)
  }

  /** The beginning of a line matters for nothing but a document indicator. */
  lemma {:induction false} LineBegins(single: bool, t: seq<byte>, s: seq<byte>)
    requires Solid(t) && !DocumentIndicator(t)
    ensures Scan(single, t, s, true) == Scan(single, t, s, false)
  {
    hide TakeEscape, TakeChar, DocumentIndicator, BreakWidth;
    if t[0] == Quote(single) && !(single && At(t, 1) == SINGLE_QUOTE) {
      assert NonBlank(single, t, s, true) == Part(s, t, false, true);
      assert NonBlank(single, t, s, false) == Part(s, t, false, false);
    } else {
      assert NonBlank(single, t, s, true) == NonBlank(single, t, s, false);
    }
  }

  /** A character or an escape is taken, and the scanner goes on behind it. */
  lemma {:induction false} SolidStep(single: bool, t: seq<byte>, text: seq<byte>, rest: seq<byte>, s: seq<byte>)
    requires Solid(t) && |rest| < |t| && rest != [] && !IsZ(rest)
    requires single ==> t[0] != SINGLE_QUOTE
    requires !single ==> t[0] != DOUBLE_QUOTE
    requires !single && t[0] == BACKSLASH ==> !IsBreak(t[1..]) && TakeEscape(t) == Took(text, rest)
    requires single || t[0] != BACKSLASH ==> TakeChar(t) == Took(text, rest)
    ensures Scan(single, t, s, false) == Scan(single, rest, s + text, false)
  {
    hide TakeEscape, TakeChar, DocumentIndicator;
    assert NonBlank(single, t, s, false) == NonBlank(single, rest, s + text, false);
  }

  lemma {:induction false} CharStep(single: bool, c: seq<byte>, t: seq<byte>, s: seq<byte>)
    requires Proper(single, Char(c)) && t != [] && !IsZ(t)
    ensures Scan(single, c + t, s, false) == Scan(single, t, s + c, false) && Solid(c + t)
  {
    var u := c + t;
    assert forall i :: 0 <= i < |c| ==> At(u, i) == At(c, i);
    assert u[..|c|] == c && u[|c|..] == t;
    SolidStep(single, u, c, t, s);
  }

  lemma {:induction false} QuoteStep(t: seq<byte>, s: seq<byte>)
    requires t != [] && !IsZ(t)
    ensures Scan(true, [SINGLE_QUOTE, SINGLE_QUOTE] + t, s, false) == Scan(true, t, s + [SINGLE_QUOTE], false)
    ensures Solid([SINGLE_QUOTE, SINGLE_QUOTE] + t)
  {
    hide TakeEscape, TakeChar, DocumentIndicator;
    var u := [SINGLE_QUOTE, SINGLE_QUOTE] + t;
    assert u[2..] == t;
    assert NonBlank(true, u, s, false) == NonBlank(true, t, s + [SINGLE_QUOTE], false);
  }

  lemma {:induction false} EscapeStep(p: Piece, t: seq<byte>, s: seq<byte>)
    requires (p.Named? || p.Coded?) && Proper(false, p) && t != [] && !IsZ(t)
    ensures Scan(false, Text(p) + t, s, false) == Scan(false, t, s + Means(false, p), false)
    ensures Solid(Text(p) + t)
  {
    hide Spells, Encode, TakeEscape, Scan;
    var u := Text(p) + t;
    if p.Named? {
      NamedRead(p.letter, t);
      assert u[1..] == [p.letter] + t;
    } else {
      CodedRead(p.letter, p.digits, p.value, t);
      assert u[1..] == [p.letter] + (p.digits + t);
    }
    SolidStep(false, u, Means(false, p), t, s);
  }

  // ---- Gaps ----

  lemma {:induction false} BlanksTaken(s: seq<byte>, t: seq<byte>, g: Gap)
    requires AllBlank(s) && g.rest == s + t
    ensures Blanks(g) == Blanks(Gap(t, g.leading, if g.leading then g.spaces else g.spaces + s, g.first, g.more,
                                    g.bol && s == []))
    decreases |s|
  {
    if s == [] {
      assert s + t == t && g.spaces + s == g.spaces;
    } else {
      assert IsBlank(g.rest) && g.rest[1..] == s[1..] + t;
      var g' := g.(rest := s[1..] + t, spaces := if g.leading then g.spaces else g.spaces + [s[0]], bol := false);
      BlanksTaken(s[1..], t, g');
      assert g.spaces + [s[0]] + s[1..] == g.spaces + s;
    }
  }

  lemma BreakRead(br: seq<byte>, t: seq<byte>)
    requires br in BREAKS && (br == [CR] ==> At(t, 0) != LF)
    ensures IsBreak(br + t) && BreakWidth(br + t) == |br| && BreakText(br + t) == BreakMeans(br)
    ensures (br + t)[|br|..] == t && !IsBlank(br + t) && !IsZ(br + t)
  {
    var u := br + t;
    assert forall i :: 0 <= i < |br| ==> At(u, i) == br[i];
    assert |br| == 1 ==> At(u, 1) == At(t, 0);
    if |br| == 3 { assert u[..3] == br; }
  }

  lemma {:induction false} LinesSplit(ls: seq<Line>, t: seq<byte>)
    requires ls != []
    ensures LinesText(ls) + t == ls[0].br + (ls[0].indent + (LinesText(ls[1..]) + t))
  {
  }

  lemma OtherBreaks(br: seq<byte>)
    requires br in BREAKS && br != [LF]
    ensures br != [] && br[0] != LF
  {
  }

  /** What follows a break does not make it another. */
  lemma LinesFront(ls: seq<Line>, t: seq<byte>)
    requires LinesOk(ls) && At(t, 0) != LF
    ensures ls[0].br == [CR] ==> At(ls[0].indent + (LinesText(ls[1..]) + t), 0) != LF
    ensures ls != [] && ls[0].br in BREAKS && AllBlank(ls[0].indent) && (ls[1..] == [] || LinesOk(ls[1..]))
  {
    hide LinesText;
    var more := LinesText(ls[1..]) + t;
    var u := ls[0].indent + more;
    if ls[0].indent != [] {
      assert u[0] == ls[0].indent[0];
    } else if |ls| == 1 {
      NoLines();
      assert u == t;
    } else {
      LinesSplit(ls[1..], t);
      if ls[0].br == [CR] {
        assert ls[0] == Line([CR], []);
        OtherBreaks(ls[1].br);
        assert u == more && more[0] == ls[1].br[0];
      }
    }
  }

  lemma NoLines()
    ensures LinesText([]) == []
  {
  }

  /** The lines behind the first. */
  lemma {:induction false} LinesTaken(ls: seq<Line>, t: seq<byte>, g: Gap)
    requires ls == [] || LinesOk(ls)
    requires !IsBlank(t) && !IsBreak(t) && At(t, 0) != LF && g.leading && g.rest == LinesText(ls) + t
    ensures Blanks(g) == Gap(t, true, g.spaces, g.first, g.more + LinesMean(ls),
                             if ls == [] then g.bol else ls[|ls| - 1].indent == [])
    decreases |ls|
  {
    hide IsBreak, BreakMeans, BreakText, LinesOk;
    if ls == [] {
      assert LinesText(ls) + t == t && g.more + [] == g.more;
    } else {
      LinesFront(ls, t);
      LinesSplit(ls, t);
      var u := ls[0].indent + (LinesText(ls[1..]) + t);
      BreakRead(ls[0].br, u);
      var g' := g.(rest := u, more := g.more + BreakMeans(ls[0].br), bol := true);
      assert Blanks(g) == Blanks(g');
      BlanksTaken(ls[0].indent, LinesText(ls[1..]) + t, g');
      LinesTaken(ls[1..], t, g'.(rest := LinesText(ls[1..]) + t, bol := ls[0].indent == []));
      assert g.more + BreakMeans(ls[0].br) + LinesMean(ls[1..]) == g.more + LinesMean(ls);
    }
  }

  /** Where the scanner stands behind lines. */
  predicate AtMargin(ls: seq<Line>) {
    ls != [] && ls[|ls| - 1].indent == []
  }

  /** The first break and the lines behind it. */
  lemma {:induction false} FirstTaken(ls: seq<Line>, t: seq<byte>, spaces: seq<byte>, bol: bool)
    requires LinesOk(ls) && !IsBlank(t) && !IsBreak(t) && At(t, 0) != LF
    ensures Blanks(Gap(LinesText(ls) + t, false, spaces, [], [], bol)) ==
            Gap(t, true, [], BreakMeans(ls[0].br), LinesMean(ls[1..]), AtMargin(ls))
    ensures IsBreak(LinesText(ls) + t) && !IsBlank(LinesText(ls) + t) && !IsZ(LinesText(ls) + t)
  {
    hide IsBreak, BreakMeans, BreakText, LinesOk;
    LinesFront(ls, t);
    LinesSplit(ls, t);
    var u := ls[0].indent + (LinesText(ls[1..]) + t);
    BreakRead(ls[0].br, u);
    assert [] + BreakMeans(ls[0].br) == BreakMeans(ls[0].br) && [] + LinesMean(ls[1..]) == LinesMean(ls[1..]);
    var g := Gap(u, true, [], BreakMeans(ls[0].br), [], true);
    BlanksTaken(ls[0].indent, LinesText(ls[1..]) + t, g);
    LinesTaken(ls[1..], t, g.(rest := LinesText(ls[1..]) + t, bol := ls[0].indent == []));
  }

  /** Scanning goes on behind a gap. */
  lemma {:induction false} GapStep(single: bool, u: seq<byte>, s: seq<byte>, g: Gap)
    requires u != [] && (IsBlank(u) || IsBreak(u)) && u[0] != Quote(single) && !IsZ(u)
    requires Blanks(Gap(u, false, [], [], [], false)) == g
    ensures Scan(single, u, s, false) == Scan(single, g.rest, s + Fold(g), g.bol)
  {
    hide TakeEscape, TakeChar, DocumentIndicator;
    assert NonBlank(single, u, s, false) == Part(s, u, false, false);
  }

  lemma NoQuotes(u: seq<byte>)
    requires u != [] && (IsBlank(u) || IsBreak(u))
    ensures u[0] != SINGLE_QUOTE && u[0] != DOUBLE_QUOTE && !IsZ(u)
  {
  }

  lemma {:induction false} BlankStep(single: bool, b: seq<byte>, t: seq<byte>, s: seq<byte>)
    requires Proper(single, Blank(b)) && Solid(t)
    ensures Scan(single, b + t, s, false) == Scan(single, t, s + b, false)
  {
    hide Scan, DocumentIndicator;
    var u := b + t;
    assert u[0] == b[0] && IsBlank(u);
    NoQuotes(u);
    BlanksTaken(b, t, Gap(u, false, [], [], [], false));
    assert [] + b == b;
    GapStep(single, u, s, Gap(t, false, b, [], [], false));
  }

  /** The gap that a fold makes. */
  lemma FoldedGap(p: Piece, t: seq<byte>) returns (g: Gap)
    requires p.Folded? && Proper(false, p) && Solid(t)
    ensures var u := Text(p) + t;
            u != [] && (IsBlank(u) || IsBreak(u)) && Blanks(Gap(u, false, [], [], [], false)) == g
    ensures g == Gap(t, true, [], BreakMeans(p.lines[0].br), LinesMean(p.lines[1..]), AtMargin(p.lines))
  {
    hide IsBreak, IsBlank, LinesText, LinesOk, BreakMeans, LinesMean, DocumentIndicator;
    var ls, u := p.lines, Text(p) + t;
    LinesProper(false, p);
    SolidFront(t);
    FirstTaken(ls, t, p.blanks, false);
    assert u == p.blanks + (LinesText(ls) + t) && [] + p.blanks == p.blanks;
    BlankFront(p.blanks, LinesText(ls) + t);
    BlanksTaken(p.blanks, LinesText(ls) + t, Gap(u, false, [], [], [], false));
    g := Gap(t, true, [], BreakMeans(ls[0].br), LinesMean(ls[1..]), AtMargin(ls));
  }

  lemma {:induction false} FoldedStep(single: bool, p: Piece, t: seq<byte>, s: seq<byte>)
    requires p.Folded? && Proper(single, p) && Solid(t)
    ensures Scan(single, Text(p) + t, s, false) == Scan(single, t, s + Means(single, p), AtMargin(p.lines))
  {
    hide Scan, DocumentIndicator, IsBreak, IsBlank, LinesOk, BreakMeans, LinesMean, Text;
    var g := FoldedGap(p, t);
    NoQuotes(Text(p) + t);
    GapStep(single, Text(p) + t, s, g);
    FoldMeans(single, p);
  }

  lemma BlankFront(s: seq<byte>, t: seq<byte>)
    requires AllBlank(s) && t != []
    ensures s != [] ==> IsBlank(s + t)
    ensures s == [] ==> s + t == t
  {
    if s != [] { assert (s + t)[0] == s[0]; }
  }

  lemma SolidFront(t: seq<byte>)
    requires Solid(t)
    ensures !IsBlank(t) && !IsBreak(t) && At(t, 0) != LF && !IsZ(t)
  {
  }

  /** The breaks are folded as they should. */
  lemma FoldMeans(single: bool, p: Piece)
    requires p.Folded? && Proper(single, p)
    ensures forall t, bol ::
              Fold(Gap(t, true, [], BreakMeans(p.lines[0].br), LinesMean(p.lines[1..]), bol)) == Means(single, p)
  {
    hide DocumentIndicator;
    var ls := p.lines;
    assert ls[0].br in BREAKS;
    if |ls| > 1 { assert LinesMean(ls[1..]) != []; }
  }

  /** The gap that a break behind a backslash makes. */
  lemma JoinedGap(p: Piece, t: seq<byte>) returns (v: seq<byte>, g: Gap)
    requires p.Joined? && Proper(false, p) && Solid(t)
    ensures var u := Text(p) + t;
            u != [] && u[0] == BACKSLASH && IsBreak(u[1..]) && u[1 + BreakWidth(u[1..])..] == v && |v| < |u|
    ensures v == p.lines[0].indent + (LinesText(p.lines[1..]) + t) && v != []
    ensures g == Blanks(Gap(v, true, [], [], [], true))
    ensures g == Gap(t, true, [], [], LinesMean(p.lines[1..]), AtMargin(p.lines))
  {
    hide DocumentIndicator, IsBreak, LinesText, LinesOk, BreakWidth, BreakMeans, LinesMean;
    var ls := p.lines;
    LinesProper(false, p);
    SolidFront(t);
    LinesFront(ls, t);
    LinesSplit(ls, t);
    v := ls[0].indent + (LinesText(ls[1..]) + t);
    var u := [BACKSLASH] + (ls[0].br + v);
    assert Text(p) + t == u && u[1..] == ls[0].br + v;
    BreakRead(ls[0].br, v);
    assert u[1 + |ls[0].br|..] == v;
    g := Gap(v, true, [], [], [], true);
    BlanksTaken(ls[0].indent, LinesText(ls[1..]) + t, g);
    LinesTaken(ls[1..], t, g.(rest := LinesText(ls[1..]) + t, bol := ls[0].indent == []));
    assert [] + LinesMean(ls[1..]) == LinesMean(ls[1..]);
    g := Gap(t, true, [], [], LinesMean(ls[1..]), AtMargin(ls));
  }

  lemma {:induction false} JoinedStep(p: Piece, t: seq<byte>, s: seq<byte>)
    requires p.Joined? && Proper(false, p) && Solid(t)
    ensures Scan(false, Text(p) + t, s, false) == Scan(false, t, s + Means(false, p), AtMargin(p.lines))
    ensures Solid(Text(p) + t)
  {
    hide Scan, DocumentIndicator, IsBreak, LinesText, LinesOk, BreakWidth, Text;
    var v, g := JoinedGap(p, t);
    SolidBackslash(Text(p) + t);
    JoinScan(Text(p) + t, v, s, g);
    LinesProper(false, p);
    if v[0] == DOUBLE_QUOTE { NothingJoined(p.lines, v, t, s); }
    assert s + [] == s && [] + LinesMean(p.lines[1..]) == LinesMean(p.lines[1..]);
  }

  lemma SolidBackslash(u: seq<byte>)
    requires u != [] && u[0] == BACKSLASH
    ensures Solid(u)
  {
  }

  lemma {:induction false} JoinScan(u: seq<byte>, v: seq<byte>, s: seq<byte>, g: Gap)
    requires u != [] && u[0] == BACKSLASH && IsBreak(u[1..]) && u[1 + BreakWidth(u[1..])..] == v && |v| < |u|
    requires v != [] && g == Blanks(Gap(v, true, [], [], [], true))
    ensures Scan(false, u, s, false) == if v[0] == DOUBLE_QUOTE then Token(s, v[1..])
                                        else Scan(false, g.rest, s + Fold(g), g.bol)
  {
    hide TakeEscape, TakeChar, DocumentIndicator, IsBreak, BreakWidth;
    SolidBackslash(u);
    NoBlank(u);
    assert NonBlank(false, u, s, false) == Part(s, v, true, true);
  }

  lemma NoBlank(u: seq<byte>)
    requires u != [] && u[0] == BACKSLASH
    ensures !IsBlankz(u) && !IsZ(u)
  {
  }

  lemma BreakFront(br: seq<byte>)
    requires br in BREAKS
    ensures br != [] && br[0] != DOUBLE_QUOTE
  {
  }

  lemma NoQuoteAhead(ls: seq<Line>, t: seq<byte>)
    requires LinesOk(ls) && t != []
    ensures var v := ls[0].indent + (LinesText(ls[1..]) + t);
            v != [] && (v[0] == DOUBLE_QUOTE ==> v == t && |ls| == 1)
  {
    hide LinesText;
    var u := LinesText(ls[1..]) + t;
    var v := ls[0].indent + u;
    if ls[0].indent != [] {
      assert v[0] == ls[0].indent[0];
    } else {
      assert v == u;
      if |ls| > 1 {
        LinesSplit(ls[1..], t);
        BreakFront(ls[1].br);
        assert u[0] == ls[1].br[0];
      } else {
        NoLines();
        assert ls[1..] == [] && [] + t == t;
      }
    }
  }

  /** Where the closing quote follows a break at once. */
  lemma {:induction false} NothingJoined(ls: seq<Line>, v: seq<byte>, t: seq<byte>, s: seq<byte>)
    requires LinesOk(ls) && v == ls[0].indent + (LinesText(ls[1..]) + t) && v != [] && v[0] == DOUBLE_QUOTE && Solid(t)
    ensures v == t && |ls| == 1 && LinesMean(ls[1..]) == []
    ensures forall bol :: Scan(false, t, s, bol) == Token(s, v[1..])
  {
    hide DocumentIndicator, TakeEscape, TakeChar;
    NoQuoteAhead(ls, t);
    NoLines();
    NoIndicator(t);
    assert forall bol :: NonBlank(false, t, s, bol) == Part(s, t, false, bol);
  }

  lemma NoIndicator(t: seq<byte>)
    requires At(t, 0) == DOUBLE_QUOTE
    ensures !DocumentIndicator(t)
  {
  }

  // ---- The whole scalar ----

  lemma {:induction false} PieceStep(single: bool, p: Piece, t: seq<byte>, s: seq<byte>)
    requires Proper(single, p) && t != [] && !IsZ(t)
    requires p.Blank? || Lined(p) ==> Solid(t)
    requires Lined(p) && AtMargin(p.lines) ==> !DocumentIndicator(t)
    ensures Scan(single, Text(p) + t, s, false) == Scan(single, t, s + Means(single, p), false)
    ensures Text(p) + t != [] && !IsZ(Text(p) + t) && (!p.Blank? && !p.Folded? ==> Solid(Text(p) + t))
  {
    hide Scan, DocumentIndicator, Spells, LinesOk, Encode, LinesText, LinesMean;
    match p
    case Char(c) => CharStep(single, c, t, s);
    case TwoQuotes => QuoteStep(t, s);
    case Named(_) => EscapeStep(p, t, s);
    case Coded(_, _, _) => EscapeStep(p, t, s);
    case Blank(b) =>
      assert (b + t)[0] == b[0];
      BlankStep(single, b, t, s);
    case Folded(b, ls) =>
      FoldedFront(p, t);
      FoldedStep(single, p, t, s);
      if AtMargin(ls) { LineBegins(single, t, s + Means(single, p)); }
    case Joined(ls) =>
      JoinedStep(p, t, s);
      if AtMargin(ls) { LineBegins(false, t, s + Means(false, p)); }
  }

  /** A line that begins as a document indicator ends the scanning. */
  lemma {:induction false} IndicatorStops(single: bool, p: Piece, t: seq<byte>, s: seq<byte>)
    requires Lined(p) && Proper(single, p) && AtMargin(p.lines) && DocumentIndicator(t)
    ensures Scan(single, Text(p) + t, s, false) == Failed(UnexpectedDocumentIndicator)
  {
    hide LinesOk, LinesText, LinesMean, TakeEscape, TakeChar;
    assert Solid(t);
    if p.Folded? { FoldedStep(single, p, t, s); } else { JoinedStep(p, t, s); }
    assert Scan(single, t, s + Means(single, p), true) == Failed(UnexpectedDocumentIndicator);
  }

  lemma FoldedFront(p: Piece, t: seq<byte>)
    requires p.Folded? && AllBlank(p.blanks) && LinesOk(p.lines) && Solid(t)
    ensures Text(p) + t != [] && !IsZ(Text(p) + t)
  {
    hide LinesText, LinesOk, IsBreak;
    SolidFront(t);
    FirstTaken(p.lines, t, [], false);
    if p.blanks == [] {
      assert Text(p) + t == LinesText(p.lines) + t;
    } else {
      assert (Text(p) + t)[0] == p.blanks[0];
    }
  }

  /** The pieces of a scalar, and the quote behind them. */
  function Quoted(single: bool, ps: seq<Piece>, t: seq<byte>): seq<byte> {
    TextAll(ps) + ([Quote(single)] + t)
  }

  lemma QuotedFirst(single: bool, ps: seq<Piece>, t: seq<byte>)
    requires ps != []
    ensures Quoted(single, ps, t) == Text(ps[0]) + Quoted(single, ps[1..], t)
  {
  }

  /** Scanning a quoted scalar, behind its opening quote, gives what its pieces mean, and
      leaves what is behind the closing one. */
  lemma {:induction false} PiecesScanned(single: bool, ps: seq<Piece>, t: seq<byte>, s: seq<byte>)
    requires (forall i :: 0 <= i < |ps| ==> Proper(single, ps[i])) && Apart(ps, [Quote(single)] + t)
    requires single ==> At(t, 0) != SINGLE_QUOTE
    ensures Scan(single, Quoted(single, ps, t), s, false) == Token(s + MeansAll(single, ps), t)
    ensures Quoted(single, ps, t) != [] && !IsZ(Quoted(single, ps, t))
    ensures ps == [] || (!ps[0].Blank? && !ps[0].Folded?) ==> Solid(Quoted(single, ps, t))
    decreases |ps|
  {
    hide Scan, DocumentIndicator, Proper, Means, Text;
    if ps == [] {
      QuoteEnds(single, t, s);
      assert [] + ([Quote(single)] + t) == [Quote(single)] + t && s + [] == s;
    } else {
      var u := Quoted(single, ps[1..], t);
      QuotedFirst(single, ps, t);
      PiecesScanned(single, ps[1..], t, s + Means(single, ps[0]));
      LinesProper(single, ps[0]);
      assert ps[1..] != [] ==> ps[1..][0] == ps[1];
      PieceStep(single, ps[0], u, s);
      assert s + Means(single, ps[0]) + MeansAll(single, ps[1..]) == s + MeansAll(single, ps);
    }
  }

  lemma LinesProper(single: bool, p: Piece)
    requires Proper(single, p)
    ensures Lined(p) ==> p.lines != []
  {
  }

  lemma {:induction false} QuoteEnds(single: bool, t: seq<byte>, s: seq<byte>)
    requires single ==> At(t, 0) != SINGLE_QUOTE
    ensures Scan(single, [Quote(single)] + t, s, false) == Token(s, t) && Solid([Quote(single)] + t)
  {
    hide DocumentIndicator, TakeEscape, TakeChar;
    var u := [Quote(single)] + t;
    assert u[1..] == t && At(u, 1) == At(t, 0);
    assert NonBlank(single, u, s, false) == Part(s, u, false, false);
  }
}
