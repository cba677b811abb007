/** Block scalars as anyone may write them, by section 8.1 of the YAML specification: the
    hints in either order, a comment, indentation that is given or found, empty lines, and
    what literal and folded lines and the chomping make of it. */
module YamlBlockText {
  import opened Octets
  import opened Utf8
  import opened YamlBytes
  import opened YamlFlowScanner
  import opened YamlBlockScanner
  import F = YamlFlowText

  // ---- The header ----

  datatype Chomp = Strip | Clip | Keep

  /** The hints, blanks, a comment perhaps, and the break. An indentation of 0 is not given. */
  datatype HeaderText = HeaderText(chomp: Chomp, chompFirst: bool, indent: nat, blanks: seq<byte>,
                                   comment: seq<seq<byte>>, br: seq<byte>)

  /** A character that does not end the line. */
  predicate InLine(c: seq<byte>) {
    OneChar(c) && !IsBreakz(c)
  }

  predicate HeaderOk(h: HeaderText) {
    && h.indent <= 9 && F.AllBlank(h.blanks) && h.br in F.BREAKS
    && (h.comment == [] || (h.comment[0] == [HASH] && forall i :: 0 <= i < |h.comment| ==> InLine(h.comment[i])))
  }

  function ChompText(c: Chomp): seq<byte> {
    match c
    case Strip => [MINUS]
    case Clip => []
    case Keep => [PLUS]
  }

  function Chars(cs: seq<seq<byte>>): seq<byte> {
    if cs == [] then [] else cs[0] + Chars(cs[1..])
  }

  function HintsText(h: HeaderText): seq<byte>
    requires HeaderOk(h)
  {
    var digit: seq<byte> := if h.indent == 0 then [] else [0x30 + h.indent];
    if h.chompFirst then ChompText(h.chomp) + digit else digit + ChompText(h.chomp)
  }

  function Text(h: HeaderText): seq<byte>
    requires HeaderOk(h)
  {
    HintsText(h) + (h.blanks + (Chars(h.comment) + h.br))
  }

  function Chomps(c: Chomp): int {
    match c
    case Strip => -1
    case Clip => 0
    case Keep => 1
  }

  lemma HintsRead(h: HeaderText, t: seq<byte>, column: nat)
    requires HeaderOk(h) && t != [] && !IsChomping(t[0]) && !IsDigit(t[0])
    ensures TakeHints(HintsText(h) + t, column) ==
            Header(Chomps(h.chomp), h.indent, t, column + |HintsText(h)|)
  {
    var u := HintsText(h) + t;
    assert u[|HintsText(h)|..] == t;
    assert forall i :: 0 <= i < |HintsText(h)| ==> u[i] == HintsText(h)[i];
    assert |HintsText(h)| < 2 ==> u[|HintsText(h)|] == t[0];
  }

  lemma {:induction false} BlanksSkipped(s: seq<byte>, t: seq<byte>, column: nat)
    requires F.AllBlank(s) && !IsBlank(t)
    ensures SkipBlanks(s + t, column) == (t, column + |s|)
    decreases |s|
  {
    if s == [] {
      assert s + t == t;
    } else {
      assert (s + t)[1..] == s[1..] + t;
      BlanksSkipped(s[1..], t, column + 1);
    }
  }

  lemma {:induction false} CommentSkipped(cs: seq<seq<byte>>, t: seq<byte>, column: nat)
    requires (forall i :: 0 <= i < |cs| ==> InLine(cs[i])) && IsBreakz(t)
    ensures SkipComment(Chars(cs) + t, column).0 == t
    decreases |cs|
  {
    hide IsBreakz, OneChar;
    if cs == [] {
      assert Chars(cs) + t == t;
    } else {
      var u := Chars(cs[1..]) + t;
      assert Chars(cs) + t == cs[0] + u;
      LineChar(cs[0], u);
      CommentSkipped(cs[1..], t, column + 1);
    }
  }

  lemma LineChar(c: seq<byte>, t: seq<byte>)
    requires InLine(c)
    ensures var u := c + t;
            u != [] && u[0] == c[0] && u[..|c|] == c && u[|c|..] == t && Width(u[0]) == |c| && !IsBreakz(u) && |c| > 0
  {
    var u := c + t;
    assert forall i :: 0 <= i < |c| ==> At(u, i) == At(c, i);
  }

  lemma BreakFront(br: seq<byte>, t: seq<byte>)
    requires br in F.BREAKS
    ensures var u := br + t;
            u != [] && !IsChomping(u[0]) && !IsDigit(u[0]) && u[0] != HASH && !IsBlank(u)
  {
    assert (br + t)[0] == br[0];
  }

  /** The header is read as what it says. */
  lemma {:induction false} HeaderRead(h: HeaderText, t: seq<byte>, column: nat)
    requires HeaderOk(h) && (h.br == [CR] ==> At(t, 0) != LF)
    ensures TakeHeader(Text(h) + t, column) == Header(Chomps(h.chomp), h.indent, t, 0)
  {
    hide TakeHints, SkipBlanks, SkipComment, IsBreak, IsBlank, HintsText, BreakWidth, IsZ, InLine;
    var w := h.br + t;
    var v := Chars(h.comment) + w;
    var u := h.blanks + v;
    assert Text(h) + t == HintsText(h) + u;
    F.BreakRead(h.br, t);
    BreakFront(h.br, t);
    CommentFront(h.comment, w);
    BlankFront(h.blanks, v);
    HintsRead(h, u, column);
    BlanksSkipped(h.blanks, v, column + |HintsText(h)|);
    CommentSkipped(h.comment, w, column + |HintsText(h)| + |h.blanks|);
    if h.comment == [] { assert v == w; }
  }

  lemma {:induction false} CommentFront(cs: seq<seq<byte>>, t: seq<byte>)
    requires t != [] && !IsBlank(t) && !IsChomping(t[0]) && !IsDigit(t[0])
    requires cs == [] || cs[0] == [HASH]
    ensures var u := Chars(cs) + t; u != [] && !IsBlank(u) && !IsChomping(u[0]) && !IsDigit(u[0])
    ensures cs != [] ==> (Chars(cs) + t)[0] == HASH
  {
    if cs == [] { assert Chars(cs) + t == t; } else { assert (Chars(cs) + t)[0] == HASH; }
  }

  lemma BlankFront(s: seq<byte>, t: seq<byte>)
    requires F.AllBlank(s) && t != [] && !IsChomping(t[0]) && !IsDigit(t[0])
    ensures var u := s + t; u != [] && !IsChomping(u[0]) && !IsDigit(u[0])
  {
    if s == [] { assert s + t == t; } else { assert (s + t)[0] == s[0]; }
  }

  // ---- The content ----

  /** A line with nothing but spaces. */
  datatype Empty = Empty(spaces: nat, br: seq<byte>)

  /** Empty lines, and a line behind its indentation. */
  datatype TextLine = TextLine(empties: seq<Empty>, chars: seq<seq<byte>>, br: seq<byte>)

  function Spaces(n: nat): (r: seq<byte>)
    ensures |r| == n && forall i :: 0 <= i < n ==> r[i] == SPACE
  {
    seq(n, i => SPACE)
  }

  function EmptiesText(es: seq<Empty>): seq<byte> {
    if es == [] then [] else Spaces(es[0].spaces) + (es[0].br + EmptiesText(es[1..]))
  }

  function LinesText(ls: seq<TextLine>, n: nat): seq<byte> {
    if ls == [] then []
    else EmptiesText(ls[0].empties) + (Spaces(n) + (Chars(ls[0].chars) + (ls[0].br + LinesText(ls[1..], n))))
  }

  /** No empty line is wider than the indentation. */
  predicate EmptiesOk(es: seq<Empty>, n: nat) {
    (forall i :: 0 <= i < |es| ==> es[i].br in F.BREAKS && es[i].spaces <= n) &&
    forall i :: 0 <= i < |es| - 1 && es[i].br == [CR] && es[i + 1].spaces == 0 ==> es[i + 1].br != [LF]
  }

  predicate LineOk(l: TextLine, n: nat) {
    && EmptiesOk(l.empties, n) && l.br in F.BREAKS && l.chars != []
    && forall i :: 0 <= i < |l.chars| ==> InLine(l.chars[i])
  }

  /** A carriage return and the line feed of an empty line behind it would be one break. */
  predicate Apart(br: seq<byte>, es: seq<Empty>) {
    br == [CR] && es != [] && es[0].spaces == 0 ==> es[0].br != [LF]
  }

  predicate LinesOk(ls: seq<TextLine>, n: nat) {
    (forall i :: 0 <= i < |ls| ==> LineOk(ls[i], n)) &&
    forall i :: 0 <= i < |ls| - 1 ==> Apart(ls[i].br, ls[i + 1].empties)
  }

  // ---- What it means ----

  function EmptiesMean(es: seq<Empty>): seq<byte> {
    if es == [] then [] else F.BreakMeans(es[0].br) + EmptiesMean(es[1..])
  }

  predicate StartsBlank(l: TextLine) {
    l.chars != [] && (l.chars[0] == [SPACE] || l.chars[0] == [TAB])
  }

  /** What stands between a line and the next. In folded style a line feed between lines
      that begin with no blank is dropped, and a space is there if no empty lines are. */
  function Joint(literal: bool, a: TextLine, b: TextLine): seq<byte> {
    var es := EmptiesMean(b.empties);
    if literal || StartsBlank(a) || StartsBlank(b) || F.BreakMeans(a.br) != [LF] then F.BreakMeans(a.br) + es
    else if es == [] then [SPACE] else es
  }

  /** The lines behind the first. */
  function More(literal: bool, a: TextLine, ls: seq<TextLine>): seq<byte>
    decreases |ls|
  {
    if ls == [] then [] else Joint(literal, a, ls[0]) + (Chars(ls[0].chars) + More(literal, ls[0], ls[1..]))
  }

  /** The value: the breaks behind the last line are dropped, or the first is kept, or all. */
  function Means(literal: bool, chomp: Chomp, ls: seq<TextLine>, trail: seq<Empty>): seq<byte> {
    var end := EmptiesMean(trail);
    if ls == [] then if chomp.Keep? then end else []
    else
      var text := EmptiesMean(ls[0].empties) + (Chars(ls[0].chars) + More(literal, ls[0], ls[1..]));
      match chomp
      case Strip => text
      case Clip => text + F.BreakMeans(ls[|ls| - 1].br)
      case Keep => text + F.BreakMeans(ls[|ls| - 1].br) + end
  }

  // ---- Reading ----

  /** Spaces are skipped up to the indentation. */
  lemma {:induction false} SpacesSkipped(k: nat, t: seq<byte>, column: nat, indent: nat)
    requires indent == 0 || column + k <= indent
    requires !IsSpace(t) || (indent > 0 && column + k == indent)
    ensures SkipSpaces(Spaces(k) + t, column, indent) == (t, column + k)
    decreases k
  {
    var u := Spaces(k) + t;
    if k == 0 {
      assert u == t;
    } else {
      assert u[0] == SPACE && u[1..] == Spaces(k - 1) + t;
      SpacesSkipped(k - 1, t, column + 1, indent);
    }
  }

  /** How wide the widest of some empty lines is. */
  function Widest(es: seq<Empty>, least: nat): nat {
    if es == [] then least else Widest(es[1..], Max(least, es[0].spaces))
  }

  lemma FirstSpace(k: nat, t: seq<byte>)
    ensures At(Spaces(k) + t, 0) == if k > 0 then SPACE else At(t, 0)
  {
    if k == 0 { assert Spaces(k) + t == t; } else { assert (Spaces(k) + t)[0] == SPACE; }
  }

  /** What follows a break does not make it another. */
  lemma {:induction false} EmptiesFront(br: seq<byte>, es: seq<Empty>, k: nat, t: seq<byte>)
    requires Apart(br, es) && (forall i :: 0 <= i < |es| ==> es[i].br in F.BREAKS)
    requires At(t, 0) != LF
    ensures br == [CR] ==> At(EmptiesText(es) + (Spaces(k) + t), 0) != LF
  {
    hide EmptiesText;
    var w := Spaces(k) + t;
    FirstSpace(k, t);
    if es == [] {
      NoEmpties();
      assert [] + w == w;
    } else {
      EmptiesSplit(es, w);
      var v := es[0].br + (EmptiesText(es[1..]) + w);
      FirstSpace(es[0].spaces, v);
      if br == [CR] && es[0].spaces == 0 {
        F.OtherBreaks(es[0].br);
        assert v[0] == es[0].br[0];
      }
    }
  }

  lemma NoEmpties()
    ensures EmptiesText([]) == []
  {
  }

  lemma {:induction false} EmptiesSplit(es: seq<Empty>, w: seq<byte>)
    requires es != []
    ensures EmptiesText(es) + w == Spaces(es[0].spaces) + (es[0].br + (EmptiesText(es[1..]) + w))
  {
  }

  /** Empty lines, and the spaces at the beginning of the next. */
  lemma {:induction false} BreaksTaken(es: seq<Empty>, k: nat, t: seq<byte>, indent: nat, text: seq<byte>, widest: nat)
    requires (forall i :: 0 <= i < |es| ==> es[i].br in F.BREAKS && (indent > 0 ==> es[i].spaces <= indent))
    requires forall i :: 0 <= i < |es| - 1 && es[i].br == [CR] && es[i + 1].spaces == 0 ==> es[i + 1].br != [LF]
    requires !IsBreak(t) && At(t, 0) != LF && (indent > 0 ==> k <= indent)
    requires indent == 0 || k < indent ==> !IsSpace(t) && At(t, 0) != TAB
    ensures TakeBreaks(EmptiesText(es) + (Spaces(k) + t), 0, indent, text, widest) ==
            Breaks(t, k, text + EmptiesMean(es), Max(Widest(es, widest), k))
    decreases |es|
  {
    hide IsBreak, BreakWidth, BreakText, F.BreakMeans;
    var u := EmptiesText(es) + (Spaces(k) + t);
    if es == [] {
      assert u == Spaces(k) + t && text + [] == text;
      SpacesSkipped(k, t, 0, indent);
    } else {
      var more := EmptiesText(es[1..]) + (Spaces(k) + t);
      var v := es[0].br + more;
      EmptiesSplit(es, Spaces(k) + t);
      EmptiesFront(es[0].br, es[1..], k, t);
      F.BreakRead(es[0].br, more);
      NoSpace(es[0].br, more);
      SpacesSkipped(es[0].spaces, v, 0, indent);
      BreaksTaken(es[1..], k, t, indent, text + F.BreakMeans(es[0].br), Max(widest, es[0].spaces));
      assert text + F.BreakMeans(es[0].br) + EmptiesMean(es[1..]) == text + EmptiesMean(es);
    }
  }

  lemma NoSpace(br: seq<byte>, t: seq<byte>)
    requires br in F.BREAKS
    ensures !IsSpace(br + t) && At(br + t, 0) != TAB
  {
    assert (br + t)[0] == br[0];
  }

  lemma {:induction false} LineTaken(cs: seq<seq<byte>>, t: seq<byte>, s: seq<byte>, column: nat)
    requires (forall i :: 0 <= i < |cs| ==> InLine(cs[i])) && IsBreakz(t)
    ensures TakeLine(Chars(cs) + t, s, column) == Line(s + Chars(cs), t, column + |cs|)
    decreases |cs|
  {
    hide IsBreakz, OneChar, Width;
    if cs == [] {
      assert Chars(cs) + t == t && s + [] == s;
    } else {
      var u := Chars(cs[1..]) + t;
      assert Chars(cs) + t == cs[0] + u;
      LineChar(cs[0], u);
      LineTaken(cs[1..], t, s + cs[0], column + 1);
      assert s + cs[0] + Chars(cs[1..]) == s + Chars(cs);
    }
  }

  /** Text behind the scalar, at the beginning of a line, `k` spaces in: it is less indented
      and no break, or there is none. */
  predicate Ends(t: seq<byte>, k: nat, n: nat) {
    !IsBreak(t) && At(t, 0) != LF && (IsZ(t) || k < n) && (k < n ==> !IsSpace(t) && At(t, 0) != TAB) && k <= n
  }

  /** The lines at the indentation, from the text of one on. */
  function Rest(l: TextLine, ls: seq<TextLine>, n: nat, trail: seq<Empty>, k: nat, t: seq<byte>): seq<byte> {
    Chars(l.chars) + (l.br + (LinesText(ls, n) + (EmptiesText(trail) + (Spaces(k) + t))))
  }

  lemma CharsBlank(l: TextLine, n: nat, t: seq<byte>)
    requires LineOk(l, n)
    ensures var u := Chars(l.chars) + t; !IsBreakz(u) && At(u, 0) != LF && (IsBlank(u) <==> StartsBlank(l))
  {
    var v := Chars(l.chars[1..]) + t;
    assert Chars(l.chars) + t == l.chars[0] + v;
    LineChar(l.chars[0], v);
    var c := l.chars[0];
    assert c[0] == SPACE || c[0] == TAB ==> |c| == 1 && c == [c[0]];
  }

  lemma {:induction false} Weave(ls: seq<TextLine>, n: nat, w: seq<byte>)
    requires ls != []
    ensures LinesText(ls, n) + w ==
            EmptiesText(ls[0].empties) + (Spaces(n) + (Chars(ls[0].chars) + (ls[0].br + (LinesText(ls[1..], n) + w))))
  {
  }

  lemma BetweenIsJoint(literal: bool, a: TextLine, b: TextLine)
    requires a.br in F.BREAKS
    ensures Between(literal, StartsBlank(a), StartsBlank(b), F.BreakMeans(a.br), EmptiesMean(b.empties)) ==
            Joint(literal, a, b)
  {
    var br, es := F.BreakMeans(a.br), EmptiesMean(b.empties);
    assert [] + es == es;
    assert [SPACE] + [] == [SPACE];
  }

  /** From the text of the last line on. */
  lemma {:induction false} LastScanned(literal: bool, l: TextLine, n: nat, trail: seq<Empty>, k: nat, t: seq<byte>,
                                       s: seq<byte>, lead: seq<byte>, tr: seq<byte>, blank: bool)
    requires n > 0 && LineOk(l, n) && EmptiesOk(trail, n) && Ends(t, k, n) && Apart(l.br, trail)
    ensures Lines(literal, Chars(l.chars) + (l.br + (EmptiesText(trail) + (Spaces(k) + t))), n, n, s, lead, tr,
              blank) ==
            Body(s + Between(literal, blank, StartsBlank(l), lead, tr) + Chars(l.chars), F.BreakMeans(l.br),
                 EmptiesMean(trail), t)
  {
    hide IsBreak, IsBreakz, IsBlank, BreakWidth, BreakText, TakeBreaks, TakeLine, Lines, Between, F.BreakMeans;
    var v := EmptiesText(trail) + (Spaces(k) + t);
    EmptiesFront(l.br, trail, k, t);
    F.BreakRead(l.br, v);
    BreaksTaken(trail, k, t, n, [], 0);
    assert [] + EmptiesMean(trail) == EmptiesMean(trail);
    OneLine(literal, l, v, n, s, lead, tr, blank, t, k, EmptiesMean(trail));
    LinesEnd(literal, t, k, n, s + Between(literal, blank, StartsBlank(l), lead, tr) + Chars(l.chars),
      F.BreakMeans(l.br), EmptiesMean(trail), StartsBlank(l));
  }

  /** From the text of a line to that of the next, b. */
  lemma {:induction false} NextScanned(literal: bool, l: TextLine, b: TextLine, n: nat, more: seq<byte>,
                                       s: seq<byte>, lead: seq<byte>, tr: seq<byte>, blank: bool)
    requires n > 0 && LineOk(l, n) && LineOk(b, n) && Apart(l.br, b.empties)
    requires !IsBreakz(more) && At(more, 0) != LF
    ensures Lines(literal, Chars(l.chars) + (l.br + (EmptiesText(b.empties) + (Spaces(n) + more))), n, n,
                  s, lead, tr, blank) ==
            Lines(literal, more, n, n, s + Between(literal, blank, StartsBlank(l), lead, tr) + Chars(l.chars),
                  F.BreakMeans(l.br), EmptiesMean(b.empties), StartsBlank(l))
  {
    hide IsBreak, IsBreakz, IsBlank, BreakWidth, BreakText, TakeBreaks, TakeLine, Lines, Between, F.BreakMeans;
    var v := EmptiesText(b.empties) + (Spaces(n) + more);
    BreakzParts(more);
    EmptiesFront(l.br, b.empties, n, more);
    F.BreakRead(l.br, v);
    BreaksTaken(b.empties, n, more, n, [], 0);
    assert [] + EmptiesMean(b.empties) == EmptiesMean(b.empties);
    OneLine(literal, l, v, n, s, lead, tr, blank, more, n, EmptiesMean(b.empties));
  }

  /** From the text of a line on, scanning goes through the lines behind it. */
  lemma {:induction false} LinesScanned(literal: bool, l: TextLine, ls: seq<TextLine>, n: nat, trail: seq<Empty>,
                                        k: nat,
                                        t: seq<byte>, s: seq<byte>, lead: seq<byte>, tr: seq<byte>, blank: bool)
    requires n > 0 && LineOk(l, n) && LinesOk(ls, n) && EmptiesOk(trail, n) && Ends(t, k, n)
    requires Apart(l.br, if ls == [] then trail else ls[0].empties)
    requires ls != [] ==> Apart(ls[|ls| - 1].br, trail)
    ensures var last := if ls == [] then l else ls[|ls| - 1];
            Lines(literal, Rest(l, ls, n, trail, k, t), n, n, s, lead, tr, blank) ==
            Body(s + Between(literal, blank, StartsBlank(l), lead, tr) + (Chars(l.chars) + More(literal, l, ls)),
                 F.BreakMeans(last.br), EmptiesMean(trail), t)
    decreases |ls|
  {
    hide IsBreakz, Lines, Between, F.BreakMeans, LinesText, Joint, LineOk, EmptiesOk, Ends, Apart, EmptiesText, Chars;
    var w := EmptiesText(trail) + (Spaces(k) + t);
    var s' := s + Between(literal, blank, StartsBlank(l), lead, tr);
    if ls == [] {
      NoLines(n, w);
      LastScanned(literal, l, n, trail, k, t, s, lead, tr, blank);
      assert Chars(l.chars) + [] == Chars(l.chars);
    } else {
      var b, more := ls[0], Rest(ls[0], ls[1..], n, trail, k, t);
      Weave(ls, n, w);
      LineFront(b, n, b.br + (LinesText(ls[1..], n) + w));
      NextScanned(literal, l, b, n, more, s, lead, tr, blank);
      assert ls[1..] != [] ==> ls[1..][0] == ls[1] && ls[1..][|ls[1..]| - 1] == ls[|ls| - 1];
      LinesScanned(literal, b, ls[1..], n, trail, k, t, s' + Chars(l.chars), F.BreakMeans(l.br),
        EmptiesMean(b.empties), StartsBlank(l));
      LineBreak(l, n);
      BetweenIsJoint(literal, l, b);
      MoreJoins(s', Chars(l.chars), Joint(literal, l, b), Chars(b.chars) + More(literal, b, ls[1..]));
    }
  }

  lemma MoreJoins(s: seq<byte>, a: seq<byte>, b: seq<byte>, c: seq<byte>)
    ensures s + a + b + c == s + (a + (b + c))
  {
  }

  lemma LineBreak(l: TextLine, n: nat)
    requires LineOk(l, n)
    ensures l.br in F.BREAKS
  {
  }

  lemma LineFront(l: TextLine, n: nat, t: seq<byte>)
    requires LineOk(l, n)
    ensures !IsBreakz(Chars(l.chars) + t) && At(Chars(l.chars) + t, 0) != LF
  {
    CharsBlank(l, n, t);
  }

  lemma {:induction false} NoLines(n: nat, w: seq<byte>)
    ensures LinesText([], n) + w == w
  {
    assert [] + w == w;
  }

  lemma BreakzParts(t: seq<byte>)
    requires !IsBreakz(t)
    ensures !IsBreak(t) && !IsZ(t)
  {
  }

  /** One line, and the breaks behind it. */
  lemma {:induction false} OneLine(literal: bool, l: TextLine, v: seq<byte>, n: nat, s: seq<byte>, lead: seq<byte>,
                                   tr: seq<byte>, blank: bool, t: seq<byte>, k: nat, trail: seq<byte>)
    requires n > 0 && LineOk(l, n)
    requires IsBreak(l.br + v) && !IsZ(l.br + v) && BreakWidth(l.br + v) == |l.br| && (l.br + v)[|l.br|..] == v
    requires BreakText(l.br + v) == F.BreakMeans(l.br)
    requires exists w :: TakeBreaks(v, 0, n, [], 0) == Breaks(t, k, trail, w)
    ensures Lines(literal, Chars(l.chars) + (l.br + v), n, n, s, lead, tr, blank) ==
            Lines(literal, t, k, n, s + Between(literal, blank, StartsBlank(l), lead, tr) + Chars(l.chars),
                  F.BreakMeans(l.br), trail, StartsBlank(l))
  {
    hide IsBlank, BreakWidth, BreakText, TakeBreaks, TakeLine, Between, F.BreakMeans, IsBreak, IsZ;
    var u := l.br + v;
    CharsBlank(l, n, u);
    BreakzParts(Chars(l.chars) + u);
    LineTaken(l.chars, u, s + Between(literal, blank, StartsBlank(l), lead, tr), n);
  }

  lemma {:induction false} LinesEnd(literal: bool, t: seq<byte>, k: nat, n: nat, s: seq<byte>, lead: seq<byte>,
                                    trail: seq<byte>, blank: bool)
    requires n > 0 && (k != n || IsZ(t))
    ensures Lines(literal, t, k, n, s, lead, trail, blank) == Body(s, lead, trail, t)
  {
  }

  // ---- The whole scalar ----

  /** A block scalar from behind its indicator on, and what stands behind it. */
  function Scalar(h: HeaderText, ls: seq<TextLine>, n: nat, trail: seq<Empty>, k: nat, t: seq<byte>): seq<byte>
    requires HeaderOk(h)
  {
    Text(h) + (LinesText(ls, n) + (EmptiesText(trail) + (Spaces(k) + t)))
  }

  /** The indentation is what is given, or else that of the first line, which begins with
      no blank then, no less than that of the block and its empty lines. */
  predicate Indented(h: HeaderText, ls: seq<TextLine>, n: nat, parent: int) {
    n > 0 &&
    if h.indent > 0 then n == if parent >= 0 then parent + h.indent else h.indent
    else ls != [] && n > parent && ls[0].chars != [] && !StartsBlank(ls[0])
  }

  lemma {:induction false} WidestBound(es: seq<Empty>, n: nat, least: nat)
    requires EmptiesOk(es, n) && least <= n
    ensures Widest(es, least) <= n
  {
    if es != [] { WidestBound(es[1..], n, Max(least, es[0].spaces)); }
  }

  lemma FrontOf(l: TextLine, n: nat, t: seq<byte>)
    requires LineOk(l, n) && !StartsBlank(l)
    ensures !IsSpace(Chars(l.chars) + t) && At(Chars(l.chars) + t, 0) != TAB
  {
    CharsBlank(l, n, t);
  }

  /** What the scanner makes of the beginning: it is at the first line, at the indentation. */
  lemma {:induction false} BeginScanned(h: HeaderText, l: TextLine, more: seq<byte>, n: nat, parent: int)
    requires HeaderOk(h) && Indented(h, [l], n, parent) && LineOk(l, n)
    requires |Chars(l.chars)| <= |more| && more == Chars(l.chars) + more[|Chars(l.chars)|..]
    ensures var given := Given(h.indent, parent);
            exists widest ::
              TakeBreaks(EmptiesText(l.empties) + (Spaces(n) + more), 0, given, [], 0) ==
              Breaks(more, n, EmptiesMean(l.empties), widest) &&
              Determined(given, widest, parent) == n
  {
    hide IsBreak, BreakWidth, BreakText, TakeBreaks, F.BreakMeans, Chars;
    var given := Given(h.indent, parent);
    LineFront(l, n, more[|Chars(l.chars)|..]);
    BreakzParts(more);
    if given == 0 { FrontOf(l, n, more[|Chars(l.chars)|..]); }
    BreaksTaken(l.empties, n, more, given, [], 0);
    WidestBound(l.empties, n, 0);
    assert [] + EmptiesMean(l.empties) == EmptiesMean(l.empties);
  }

  /** Scanning a block scalar that has lines gives what they mean, and leaves what is behind. */
  lemma {:induction false} BlockScanned(literal: bool, h: HeaderText, ls: seq<TextLine>, n: nat, trail: seq<Empty>,
                                        k: nat, t: seq<byte>, column: nat, parent: int)
    requires HeaderOk(h) && ls != [] && LinesOk(ls, n) && Indented(h, ls, n, parent)
    requires EmptiesOk(trail, n) && Ends(t, k, n) && Apart(h.br, ls[0].empties) && Apart(ls[|ls| - 1].br, trail)
    ensures ScanBlock(literal, Scalar(h, ls, n, trail, k, t), column, parent) ==
            Token(Means(literal, h.chomp, ls, trail), t)
  {
    hide TakeHeader, TakeBreaks, Lines, LinesText, EmptiesText, Chars, More, F.BreakMeans, EmptiesMean, Text, LineOk;
    var w := EmptiesText(trail) + (Spaces(k) + t);
    var more := Rest(ls[0], ls[1..], n, trail, k, t);
    Weave(ls, n, w);
    var u := EmptiesText(ls[0].empties) + (Spaces(n) + more);
    LineFront(ls[0], n, ls[0].br + (LinesText(ls[1..], n) + w));
    LineEmpties(ls[0], n);
    EmptiesFront(h.br, ls[0].empties, n, more);
    HeaderRead(h, u, column);
    assert more[|Chars(ls[0].chars)|..] == ls[0].br + (LinesText(ls[1..], n) + w);
    BeginScanned(h, ls[0], more, n, parent);
    assert ls[1..] != [] ==> ls[1..][0] == ls[1] && ls[1..][|ls[1..]| - 1] == ls[|ls| - 1];
    var first := EmptiesMean(ls[0].empties);
    LinesScanned(literal, ls[0], ls[1..], n, trail, k, t, [], [], first, false);
    FirstBetween(literal, StartsBlank(ls[0]), first);
    ChompMeans(h.chomp, [] + first + (Chars(ls[0].chars) + More(literal, ls[0], ls[1..])),
      F.BreakMeans(ls[|ls| - 1].br), EmptiesMean(trail), t);
    assert [] + first == first;
  }

  lemma LineEmpties(l: TextLine, n: nat)
    requires LineOk(l, n)
    ensures forall i :: 0 <= i < |l.empties| ==> l.empties[i].br in F.BREAKS
  {
  }

  lemma FirstBetween(literal: bool, next: bool, trail: seq<byte>)
    ensures Between(literal, false, next, [], trail) == trail
  {
    assert [] + trail == trail;
  }

  lemma ChompMeans(c: Chomp, s: seq<byte>, lead: seq<byte>, trail: seq<byte>, t: seq<byte>)
    ensures Chomped(Chomps(c), Body(s, lead, trail, t)) ==
            Token(match c case Strip => s case Clip => s + lead case Keep => s + lead + trail, t)
  {
    assert s + [] == s && s + lead + [] == s + lead;
  }

  lemma EmptiesTaken(br: seq<byte>, es: seq<Empty>, k: nat, t: seq<byte>, n: nat) returns (widest: nat)
    requires n > 0 && EmptiesOk(es, n) && Ends(t, k, n) && Apart(br, es)
    ensures var u := EmptiesText(es) + (Spaces(k) + t);
            (br == [CR] ==> At(u, 0) != LF) && TakeBreaks(u, 0, n, [], 0) == Breaks(t, k, EmptiesMean(es), widest)
    ensures k != n || IsZ(t)
  {
    EmptiesFront(br, es, k, t);
    BreaksTaken(es, k, t, n, [], 0);
    assert [] + EmptiesMean(es) == EmptiesMean(es);
    widest := Max(Widest(es, 0), k);
  }

  /** Where there are only empty lines, they are kept or there is nothing. */
  lemma {:induction false} NothingScanned(literal: bool, h: HeaderText, n: nat, trail: seq<Empty>, k: nat, t: seq<byte>,
                                          column: nat, parent: int)
    requires HeaderOk(h) && h.indent > 0 && Indented(h, [], n, parent)
    requires EmptiesOk(trail, n) && Ends(t, k, n) && Apart(h.br, trail)
    ensures ScanBlock(literal, Scalar(h, [], n, trail, k, t), column, parent) ==
            Token(Means(literal, h.chomp, [], trail), t)
  {
    hide TakeHeader, TakeBreaks, Lines, EmptiesText, F.BreakMeans, EmptiesMean, Text, IsBreak, Determined, EmptiesOk;
    hide Apart;
    var u := EmptiesText(trail) + (Spaces(k) + t);
    NoLines(n, u);
    var widest := EmptiesTaken(h.br, trail, k, t, n);
    HeaderRead(h, u, column);
    LinesEnd(literal, t, k, n, [], [], EmptiesMean(trail), false);
    ChompMeans(h.chomp, [], [], EmptiesMean(trail), t);
    var nothing: seq<byte> := [];
    assert nothing + [] == nothing;
  }
}
