/** The single-quoted scalar writer, and the round trip with the flow scalar scanner. */
module YamlSingleQuoted {
  import opened Octets
  import opened Utf8
  import opened YamlBytes
  import opened YamlFlowScanner
  import opened YamlAnalysis
  import Q = YamlQuoted

  const LS: seq<byte> := [0xE2, 0x80, 0xA8]
  const PS: seq<byte> := [0xE2, 0x80, 0xA9]

  /** A printable line break. */
  predicate BreakChar(c: seq<byte>) {
    c == [LF] || c == LS || c == PS
  }

  /** A line break as it is written: LF becomes the break in use. */
  function BreakOut(c: seq<byte>, br: Q.Break): seq<byte> {
    if c == [LF] then Q.BreakBytes(br) else c
  }

  function BreaksOut(cs: seq<seq<byte>>, br: Q.Break): seq<byte> {
    if cs == [] then [] else BreaksOut(cs[..|cs| - 1], br) + BreakOut(cs[|cs| - 1], br)
  }

  /** A run of breaks as it is written: the scanner folds the first one away if it is LF. */
  function RunOut(cs: seq<seq<byte>>, br: Q.Break): seq<byte> {
    if cs == [] then [] else (if cs[0] == [LF] then Q.BreakBytes(br) else []) + BreaksOut(cs, br)
  }

  // ---- What the writer may produce ----

  datatype Piece =
    | Raw(bytes: seq<byte>)
    | Apostrophe
    | Blank
    | Folded(br: Q.Break, indent: nat)
    | Lines(breaks: seq<seq<byte>>, br: Q.Break, indent: nat)

  predicate Plain(c: seq<byte>) {
    OneChar(c) && !IsBlankz(c) && c[0] != SINGLE_QUOTE
  }

  predicate BreakChars(cs: seq<seq<byte>>) {
    forall k | 0 <= k < |cs| :: BreakChar(cs[k])
  }

  predicate Proper(p: Piece) {
    match p
    case Raw(c) => Plain(c)
    case Folded(_, n) => n >= 1
    case Lines(cs, _, n) => cs != [] && BreakChars(cs) && n >= 1
    case _ => true
  }

  predicate Follows(p: Piece, q: Piece) {
    (p.Folded? || p.Lines? ==> q.Raw? || q.Apostrophe?) && (p.Blank? ==> !q.Folded? && !q.Lines?)
  }

  predicate ProperAll(ps: seq<Piece>) {
    (forall i | 0 <= i < |ps| :: Proper(ps[i])) &&
    (forall i | 0 <= i < |ps| - 1 :: Follows(ps[i], ps[i + 1]))
  }

  function Text(p: Piece): seq<byte> {
    match p
    case Raw(c) => c
    case Apostrophe => [SINGLE_QUOTE, SINGLE_QUOTE]
    case Blank => [SPACE]
    case Folded(br, n) => Q.BreakBytes(br) + Q.Spaces(n)
    case Lines(cs, br, n) => RunOut(cs, br) + Q.Spaces(n)
  }

  function Meaning(p: Piece): seq<byte> {
    match p
    case Raw(c) => c
    case Apostrophe => [SINGLE_QUOTE]
    case Lines(cs, _, _) => Join(cs)
    case _ => [SPACE]
  }

  function TextAll(ps: seq<Piece>): seq<byte> {
    if ps == [] then [] else TextAll(ps[..|ps| - 1]) + Text(ps[|ps| - 1])
  }

  function MeaningAll(ps: seq<Piece>): seq<byte> {
    if ps == [] then [] else MeaningAll(ps[..|ps| - 1]) + Meaning(ps[|ps| - 1])
  }

  // ---- The scanner undoes each piece ----

  lemma {:induction false} TakeStep(t: seq<byte>, text: seq<byte>, rest: seq<byte>, s: seq<byte>)
    requires Q.Continues(t) && !IsBlankz(t) && Q.Continues(rest) && |rest| < |t|
    requires if t[0] == SINGLE_QUOTE then At(t, 1) == SINGLE_QUOTE && text == [SINGLE_QUOTE] && rest == t[2..]
             else TakeChar(t) == Took(text, rest)
    ensures Scan(true, t, s, false) == Scan(true, rest, s + text, false)
  {
    hide TakeEscape, TakeChar, DocumentIndicator;
    assert NonBlank(true, t, s, false) == NonBlank(true, rest, s + text, false);
  }

  lemma {:induction false} RawStep(c: seq<byte>, t: seq<byte>, s: seq<byte>)
    requires Plain(c) && Q.Continues(t)
    ensures Scan(true, c + t, s, false) == Scan(true, t, s + c, false)
  {
    var u := c + t;
    assert u[..|c|] == c && u[|c|..] == t;
    StaysPlain(c, t);
    TakeStep(u, c, t, s);
  }

  lemma StaysPlain(c: seq<byte>, t: seq<byte>)
    requires Plain(c)
    ensures !IsBlankz(c + t) && Width((c + t)[0]) == |c|
  {
    assert forall i | 0 <= i < |c| :: At(c + t, i) == At(c, i);
  }

  lemma {:induction false} ApostropheStep(t: seq<byte>, s: seq<byte>)
    requires Q.Continues(t)
    ensures Scan(true, [SINGLE_QUOTE, SINGLE_QUOTE] + t, s, false) == Scan(true, t, s + [SINGLE_QUOTE], false)
  {
    var u := [SINGLE_QUOTE, SINGLE_QUOTE] + t;
    assert u[2..] == t;
    TakeStep(u, [SINGLE_QUOTE], t, s);
  }

  /** One break as written is read as the break it stands for. A CR must not stand
      before an LF. */
  lemma OneBreak(c: seq<byte>, br: Q.Break, t: seq<byte>)
    requires BreakChar(c) && At(t, 0) != LF
    ensures var u := BreakOut(c, br) + t;
            IsBreak(u) && BreakWidth(u) == |BreakOut(c, br)| && BreakText(u) == c && u[BreakWidth(u)..] == t
  {
    var u := BreakOut(c, br) + t;
    assert forall i | 0 <= i < |BreakOut(c, br)| :: u[i] == BreakOut(c, br)[i];
    assert |BreakOut(c, br)| == 1 ==> At(u, 1) == At(t, 0);
    assert u[|BreakOut(c, br)|..] == t;
    if c != [LF] { assert u[..3] == c; }
  }

  /** The same for a break before another, where a CR is one of its own, too. */
  lemma BreakBeforeBreak(c: seq<byte>, d: seq<byte>, br: Q.Break, t: seq<byte>)
    requires BreakChar(c) && BreakChar(d)
    ensures var u := BreakOut(c, br) + (BreakOut(d, br) + t);
            IsBreak(u) && BreakWidth(u) == |BreakOut(c, br)| && BreakText(u) == c &&
            u[BreakWidth(u)..] == BreakOut(d, br) + t
  {
    var v := BreakOut(d, br) + t;
    var u := BreakOut(c, br) + v;
    assert v[0] == BreakOut(d, br)[0];
    assert forall i | 0 <= i < |BreakOut(c, br)| :: u[i] == BreakOut(c, br)[i];
    assert |BreakOut(c, br)| == 1 ==> At(u, 1) == v[0];
    assert u[|BreakOut(c, br)|..] == v;
    if c != [LF] { assert u[..3] == c; }
  }

  lemma {:induction false} BreaksOutCons(c: seq<byte>, cs: seq<seq<byte>>, br: Q.Break)
    ensures BreaksOut([c] + cs, br) == BreakOut(c, br) + BreaksOut(cs, br)
  {
    hide BreakOut;
    if cs == [] {
      assert [c] + cs == [c] && [c][..0] == [];
    } else {
      BreaksOutCons(c, cs[..|cs| - 1], br);
      assert ([c] + cs)[..|cs|] == [c] + cs[..|cs| - 1];
    }
  }

  /** What follows a run of breaks: an indent, or the text at once. */
  predicate AfterBreaks(t: seq<byte>) {
    !IsBreak(t)
  }

  lemma {:induction false} HeadBreak(cs: seq<seq<byte>>, br: Q.Break, t: seq<byte>)
    requires cs != [] && BreakChars(cs) && AfterBreaks(t)
    ensures var u := BreaksOut(cs, br) + t;
            IsBreak(u) && BreakText(u) == cs[0] && u[BreakWidth(u)..] == BreaksOut(cs[1..], br) + t
  {
    hide BreakOut, BreakWidth, BreakText, IsBreak;
    BreaksOutCons(cs[0], cs[1..], br);
    assert cs == [cs[0]] + cs[1..];
    if |cs| == 1 {
      NoBreaksOut(br);
      NotLf(t);
      OneBreak(cs[0], br, t);
      assert BreaksOut(cs, br) == BreakOut(cs[0], br) && BreaksOut(cs[1..], br) + t == t;
    } else {
      var ds := cs[1..];
      BreaksOutCons(ds[0], ds[1..], br);
      assert ds == [ds[0]] + ds[1..];
      BreakBeforeBreak(cs[0], ds[0], br, BreaksOut(ds[1..], br) + t);
      assert BreaksOut(ds, br) + t == BreakOut(ds[0], br) + (BreaksOut(ds[1..], br) + t);
      assert BreaksOut(cs, br) + t == BreakOut(cs[0], br) + (BreaksOut(ds, br) + t);
    }
  }

  lemma {:induction false} NoBreaksOut(br: Q.Break)
    ensures BreaksOut([], br) == []
  {
  }

  lemma NotLf(t: seq<byte>)
    requires !IsBreak(t)
    ensures At(t, 0) != LF
  {
  }

  /** Further breaks are gathered one by one. */
  lemma {:induction false} GatherBreaks(cs: seq<seq<byte>>, br: Q.Break, t: seq<byte>, first: seq<byte>,
                                        more: seq<byte>, bol: bool)
    requires BreakChars(cs) && AfterBreaks(t)
    ensures Blanks(Gap(BreaksOut(cs, br) + t, true, [], first, more, bol))
         == Blanks(Gap(t, true, [], first, more + Join(cs), bol || cs != []))
    decreases |cs|
  {
    hide BreakWidth, BreakText;
    if cs == [] {
      assert BreaksOut(cs, br) + t == t && more + Join(cs) == more;
    } else {
      HeadBreak(cs, br, t);
      GatherBreaks(cs[1..], br, t, first, more + cs[0], true);
      JoinCons(cs[0], cs[1..]);
      assert cs == [cs[0]] + cs[1..];
      assert more + Join(cs) == (more + cs[0]) + Join(cs[1..]);
      BreakIsNotBlank(BreaksOut(cs, br) + t);
    }
  }

  lemma BreakIsNotBlank(t: seq<byte>)
    requires IsBreak(t)
    ensures !IsBlank(t) && !IsZ(t) && At(t, 0) != SINGLE_QUOTE && t != []
  {
  }

  lemma {:induction false} SkipIndent(n: nat, t: seq<byte>, first: seq<byte>, more: seq<byte>, bol: bool)
    requires !IsBlank(t) && !IsBreak(t)
    ensures Blanks(Gap(Q.Spaces(n) + t, true, [], first, more, bol)) == Gap(t, true, [], first, more, bol && n == 0)
  {
    if n == 0 {
      assert Q.Spaces(0) + t == t;
    } else {
      assert (Q.Spaces(n) + t)[1..] == Q.Spaces(n - 1) + t;
      SkipIndent(n - 1, t, first, more, false);
    }
  }

  /** A run of breaks and the indent behind it leave a gap that folds into the run. */
  lemma {:induction false} RunGap(cs: seq<seq<byte>>, br: Q.Break, n: nat, t: seq<byte>)
    requires cs != [] && BreakChars(cs) && !IsBlank(t) && !IsBreak(t)
    ensures var u := RunOut(cs, br) + (Q.Spaces(n) + t);
            var g := Blanks(Gap(u, false, [], [], [], false));
            IsBreak(u) && g.rest == t && Fold(g) == Join(cs) && g.bol == (n == 0)
  {
    hide BreakWidth, BreakText, Blanks, Fold, RunOut;
    var v := Q.Spaces(n) + t;
    if n == 0 { assert v == t; } else { assert v[0] == SPACE; }
    if cs[0] == [LF] { RunGapLf(cs, br, n, t); } else { RunGapOther(cs, br, n, t); }
  }

  lemma {:induction false} RunGapLf(cs: seq<seq<byte>>, br: Q.Break, n: nat, t: seq<byte>)
    requires cs != [] && BreakChars(cs) && cs[0] == [LF] && !IsBlank(t) && !IsBreak(t) && AfterBreaks(Q.Spaces(n) + t)
    ensures var u := RunOut(cs, br) + (Q.Spaces(n) + t);
            var g := Blanks(Gap(u, false, [], [], [], false));
            IsBreak(u) && g.rest == t && Fold(g) == Join(cs) && g.bol == (n == 0)
  {
    hide BreakWidth, BreakText, Blanks, IsBreak, IsBlank, BreaksOut, Join;
    var v := Q.Spaces(n) + t;
    var u := RunOut(cs, br) + v;
    var ds := [[LF]] + cs;
    BreaksOutCons([LF], cs, br);
    assert u == BreaksOut(ds, br) + v;
    HeadBreak(ds, br, v);
    assert ds[1..] == cs;
    FirstBreak(u, [LF]);
    GatherBreaks(cs, br, v, [LF], [], true);
    SkipIndent(n, t, [LF], Join(cs), true);
    JoinNonempty(cs);
    assert [] + Join(cs) == Join(cs);
  }

  lemma {:induction false} RunGapOther(cs: seq<seq<byte>>, br: Q.Break, n: nat, t: seq<byte>)
    requires cs != [] && BreakChars(cs) && cs[0] != [LF] && !IsBlank(t) && !IsBreak(t) && AfterBreaks(Q.Spaces(n) + t)
    ensures var u := RunOut(cs, br) + (Q.Spaces(n) + t);
            var g := Blanks(Gap(u, false, [], [], [], false));
            IsBreak(u) && g.rest == t && Fold(g) == Join(cs) && g.bol == (n == 0)
  {
    hide BreakWidth, BreakText, Blanks, IsBreak, IsBlank, BreaksOut, Join, Fold, AfterBreaks;
    var v := Q.Spaces(n) + t;
    var u := RunOut(cs, br) + v;
    assert u == BreaksOut(cs, br) + v;
    HeadBreak(cs, br, v);
    FirstBreak(u, cs[0]);
    GatherBreaks(cs[1..], br, v, cs[0], [], true);
    SkipIndent(n, t, cs[0], Join(cs[1..]), true);
    assert [] + Join(cs[1..]) == Join(cs[1..]);
    OtherFolds(cs, t, n == 0);
  }

  lemma {:induction false} OtherFolds(cs: seq<seq<byte>>, t: seq<byte>, bol: bool)
    requires cs != [] && BreakChars(cs) && cs[0] != [LF]
    ensures Fold(Gap(t, true, [], cs[0], Join(cs[1..]), bol)) == Join(cs)
  {
    hide Join;
    JoinCons(cs[0], cs[1..]);
    assert cs == [cs[0]] + cs[1..];
    assert cs[0][0] == 0xE2;
  }

  lemma FirstBreak(u: seq<byte>, c: seq<byte>)
    requires IsBreak(u) && BreakText(u) == c
    ensures Blanks(Gap(u, false, [], [], [], false)) == Blanks(Gap(u[BreakWidth(u)..], true, [], c, [], true))
  {
    hide BreakWidth, BreakText;
    BreakIsNotBlank(u);
    assert [] + c == c;
  }

  lemma {:induction false} JoinNonempty(cs: seq<seq<byte>>)
    requires cs != [] && BreakChars(cs)
    ensures Join(cs) != []
  {
  }

  lemma {:induction false} LinesStep(cs: seq<seq<byte>>, br: Q.Break, n: nat, t: seq<byte>, s: seq<byte>)
    requires cs != [] && BreakChars(cs) && Q.Continues(t) && !IsBlankz(t)
    ensures Scan(true, RunOut(cs, br) + (Q.Spaces(n) + t), s, false) == Scan(true, t, s + Join(cs), n == 0)
  {
    hide RunOut, Blanks, Fold, DocumentIndicator, TakeEscape, TakeChar, Join;
    var u := RunOut(cs, br) + (Q.Spaces(n) + t);
    RunGap(cs, br, n, t);
    BreakIsNotBlank(u);
    assert NonBlank(true, u, s, false) == Part(s, u, false, false);
  }

  /** How the text after a piece starts. */
  predicate Fits(p: Piece, t: seq<byte>) {
    Q.Continues(t) && (p.Folded? || p.Lines? ==> !IsBlankz(t)) && (p.Blank? ==> Q.NoFoldAhead(t))
  }

  lemma {:induction false} PieceStep(p: Piece, t: seq<byte>, s: seq<byte>)
    requires Proper(p) && Fits(p, t)
    ensures Scan(true, Text(p) + t, s, false) == Scan(true, t, s + Meaning(p), false)
  {
    hide Scan, RunOut, Join;
    match p
    case Raw(c) => RawStep(c, t, s);
    case Apostrophe => ApostropheStep(t, s);
    case Blank => Q.BlankStep(true, t, s);
    case Folded(br, n) => Q.FoldStep(true, br, n, t, s);
    case Lines(cs, br, n) =>
      LinesStep(cs, br, n, t, s);
      assert RunOut(cs, br) + Q.Spaces(n) + t == RunOut(cs, br) + (Q.Spaces(n) + t);
  }

  /** The text from piece p on, as the piece before it needs it. */
  lemma {:induction false} PieceFits(p: Piece, t: seq<byte>)
    requires Proper(p) && Fits(p, t)
    ensures Q.Continues(Text(p) + t)
    ensures p.Raw? || p.Apostrophe? ==> !IsBlankz(Text(p) + t)
    ensures !p.Folded? && !p.Lines? ==> Q.NoFoldAhead(Text(p) + t)
  {
    hide RunOut;
    match p
    case Raw(c) => StaysPlain(c, t);
    case Blank => assert ([SPACE] + t)[1..] == t;
    case Lines(cs, br, n) =>
      RunGap(cs, br, n, t);
      assert RunOut(cs, br) + Q.Spaces(n) + t == RunOut(cs, br) + (Q.Spaces(n) + t);
      BreakIsNotBlank(Text(p) + t);
    case _ =>
  }

  lemma {:induction false} TextRoundTrip(ps: seq<Piece>, t: seq<byte>, s: seq<byte>)
    requires ProperAll(ps) && (ps != [] ==> Fits(ps[|ps| - 1], t)) && Q.Continues(t)
    ensures Scan(true, TextAll(ps) + t, s, false) == Scan(true, t, s + MeaningAll(ps), false)
    decreases |ps|
  {
    hide Scan, Text, Meaning, Q.NoFoldAhead;
    if ps == [] {
      assert TextAll(ps) + t == t && s + MeaningAll(ps) == s;
    } else {
      var init, p := ps[..|ps| - 1], ps[|ps| - 1];
      PieceFits(p, t);
      if init != [] { assert Follows(init[|init| - 1], p); }
      TextRoundTrip(init, Text(p) + t, s);
      assert TextAll(ps) + t == TextAll(init) + (Text(p) + t);
      PieceStep(p, t, s + MeaningAll(init));
      assert s + MeaningAll(ps) == (s + MeaningAll(init)) + Meaning(p);
    }
  }

  /** The closing quote ends the scalar unless another follows. */
  lemma {:induction false} CloseStep(rest: seq<byte>, s: seq<byte>, bol: bool)
    requires At(rest, 0) != SINGLE_QUOTE
    ensures Scan(true, [SINGLE_QUOTE] + rest, s, bol) == Token(s, rest)
  {
    var t := [SINGLE_QUOTE] + rest;
    assert t[1..] == rest && At(t, 1) == At(rest, 0);
    assert NonBlank(true, t, s, bol) == Part(s, t, false, bol);
  }

  /** The whole scalar, which may end in line breaks, in any surroundings. */
  lemma {:induction false} QuotedRoundTrip(ps: seq<Piece>, run: seq<seq<byte>>, br: Q.Break, rest: seq<byte>)
    requires ProperAll(ps) && BreakChars(run) && At(rest, 0) != SINGLE_QUOTE
    requires ps != [] ==> !ps[|ps| - 1].Folded? && !ps[|ps| - 1].Lines?
    requires ps != [] && run != [] ==> !ps[|ps| - 1].Blank?
    ensures Scan(true, TextAll(ps) + RunOut(run, br) + [SINGLE_QUOTE] + rest, [], false)
         == Token(MeaningAll(ps) + Join(run), rest)
  {
    hide Scan, TextAll, MeaningAll, RunOut, Join;
    var t := [SINGLE_QUOTE] + rest;
    var m := MeaningAll(ps);
    var u := RunOut(run, br) + t;
    assert [] + m == m;
    assert TextAll(ps) + RunOut(run, br) + [SINGLE_QUOTE] + rest == TextAll(ps) + u;
    assert Q.Spaces(0) + t == t;
    if run == [] {
      NoRun(br);
      assert u == t && m + Join(run) == m;
      TextRoundTrip(ps, t, []);
      CloseStep(rest, m, false);
    } else {
      RunGap(run, br, 0, t);
      BreakIsNotBlank(u);
      TextRoundTrip(ps, u, []);
      LinesStep(run, br, 0, t, m);
      CloseStep(rest, m + Join(run), true);
    }
  }

  lemma NoRun(br: Q.Break)
    ensures RunOut([], br) == [] && Join([]) == []
  {
  }

  lemma {:induction false} PieceAdded(ps: seq<Piece>, p: Piece)
    requires ProperAll(ps) && Proper(p) && (ps != [] ==> Follows(ps[|ps| - 1], p))
    ensures ProperAll(ps + [p])
    ensures TextAll(ps + [p]) == TextAll(ps) + Text(p)
    ensures MeaningAll(ps + [p]) == MeaningAll(ps) + Meaning(p)
  {
    hide Text, Meaning, Proper, Follows;
    var qs := ps + [p];
    assert forall i | 0 <= i < |ps| :: qs[i] == ps[i];
    assert qs[..|ps|] == ps && qs[|ps|] == p;
  }

  lemma {:induction false} RunAdded(run: seq<seq<byte>>, c: seq<byte>, br: Q.Break)
    requires BreakChars(run) && BreakChar(c)
    ensures BreakChars(run + [c]) && Join(run + [c]) == Join(run) + c
    ensures RunOut(run + [c], br)
         == RunOut(run, br) + (if run == [] && c == [LF] then Q.BreakBytes(br) else []) + BreakOut(c, br)
  {
    hide BreakOut, BreakChar, BreaksOut, Join;
    Snoc(run, c, br);
    var out := BreaksOut(run, br);
    if run == [] {
      NoBreaksOut(br);
      Regroup(if c == [LF] then Q.BreakBytes(br) else [], [], BreakOut(c, br));
    } else {
      Regroup(if run[0] == [LF] then Q.BreakBytes(br) else [], out, BreakOut(c, br));
    }
  }

  lemma Regroup(a: seq<byte>, b: seq<byte>, c: seq<byte>)
    ensures a + (b + c) == a + b + [] + c
    ensures a + ([] + c) == [] + a + c
  {
  }

  lemma {:induction false} Snoc(run: seq<seq<byte>>, c: seq<byte>, br: Q.Break)
    ensures BreaksOut(run + [c], br) == BreaksOut(run, br) + BreakOut(c, br) && Join(run + [c]) == Join(run) + c
  {
    hide BreakOut;
    assert (run + [c])[..|run|] == run && (run + [c])[|run|] == c;
  }

  // ---- The writer ----

  /** Text behind an opening quote that the scanner reads as `value`, whatever follows
      but another quote. */
  ghost predicate Reads(text: seq<byte>, value: seq<byte>) {
    forall rest: seq<byte> :: At(rest, 0) != SINGLE_QUOTE ==> Scan(true, text + rest, [], false) == Token(value, rest)
  }

  lemma {:induction false} PrintableBreak(t: seq<byte>, unicode: bool)
    requires t != [] && ValidUtf8(t) && IsBreak(t) && !Special(t[..CharLength(t)], unicode)
    ensures BreakChar(t[..CharLength(t)])
  {
    SameClass(t);
  }

  lemma {:induction false} PrintableOther(t: seq<byte>, unicode: bool)
    requires t != [] && ValidUtf8(t) && !IsBreak(t) && !IsSpace(t) && !Special(t[..CharLength(t)], unicode)
    ensures OneChar(t[..CharLength(t)]) && !IsBlankz(t[..CharLength(t)])
    ensures t[0] == SINGLE_QUOTE ==> t[..CharLength(t)] == [SINGLE_QUOTE]
  {
    FirstChar(t);
    SameClass(t);
  }

  /** Half way through `value`: the pieces and the run of breaks written stand for value[..i]. */
  ghost predicate Progress(em: Q.Emitter, start: seq<byte>, value: seq<byte>, i: nat,
                           ps: seq<Piece>, run: seq<seq<byte>>, spaces: bool)
    reads em
  {
    && i <= |value| && ValidUtf8(value[i..]) && em.indent >= 1
    && SingleQuotable(Chars(value[i..]), em.unicode)
    && ProperAll(ps) && BreakChars(run) && MeaningAll(ps) + Join(run) == value[..i]
    && em.output == start + TextAll(ps) + RunOut(run, em.lineBreak)
    && (run != [] ==> em.indention && em.column == 0 && !spaces && (i < |value| ==> !IsSpace(value[i..])))
    && (if ps == [] then !spaces else LastFits(em, value, i, ps[|ps| - 1], run, spaces))
  }

  ghost predicate LastFits(em: Q.Emitter, value: seq<byte>, i: nat, p: Piece, run: seq<seq<byte>>, spaces: bool)
    requires i <= |value|
    reads em
  {
    && !p.Lines?
    && (p.Folded? ==> spaces && run == [] && i < |value| && !IsSpace(value[i..]) && !IsBreak(value[i..]))
    && (p.Blank? ==> spaces && run == [] && (i < |value| ==> !IsBreak(value[i..])))
    && (p.Raw? || p.Apostrophe? ==> !spaces && (run == [] ==> !em.indention))
  }

  /** The character at i, and what is known of the rest. */
  lemma {:induction false} AtChar(value: seq<byte>, i: nat, unicode: bool)
    requires i < |value| && ValidUtf8(value[i..]) && SingleQuotable(Chars(value[i..]), unicode)
    ensures var t := value[i..];
            var w := CharLength(t);
            && w == Width(value[i]) > 0 && i + w <= |value| && ValidUtf8(value[i + w..])
            && SingleQuotable(Chars(value[i + w..]), unicode) && !Special(t[..w], unicode)
            && value[..i + w] == value[..i] + t[..w]
            && (i + w < |value| && IsSpace(t) ==> !IsBreak(value[i + w..]))
            && (i + w < |value| && IsBreak(t) ==> !IsSpace(value[i + w..]))
            && (IsSpace(t) ==> t[..w] == [SPACE])
  {
    hide Chars, Special, IsBreak, NoSpecial, NoSpaceBreak, NoBreakSpace;
    Q.NextChar(value, i);
    AfterChar(value[i..], unicode);
    Slices(value, i, CharLength(value[i..]));
  }

  method WriteSpace(em: Q.Emitter, value: seq<byte>, i: nat, allowBreaks: bool, spaces: bool,
                    ghost start: seq<byte>, ghost ps: seq<Piece>, ghost run: seq<seq<byte>>)
    returns (i': nat, ghost ps': seq<Piece>)
    requires Progress(em, start, value, i, ps, run, spaces) && i < |value| && IsSpace(value[i..])
    modifies em
    ensures Progress(em, start, value, i', ps', run, true) && i < i'
  {
    hide TextAll, MeaningAll, ProperAll, CharLength, Chars, SingleQuotable, RunOut, Join, IsBreak, ValidUtf8;
    AtChar(value, i, em.unicode);
    NoRun(em.lineBreak);
    assert MeaningAll(ps) + Join(run) == MeaningAll(ps);
    assert start + TextAll(ps) + RunOut(run, em.lineBreak) == start + TextAll(ps);
    i' := i + Width(value[i]);
    ghost var p;
    if allowBreaks && !spaces && em.column > em.bestWidth && i > 0 && i < |value| - 1 && !IsSpace(value[i + 1..]) {
      NonemptyPieces(ps, value[..i]);
      p := Folded(em.lineBreak, em.indent);
      PieceAdded(ps, p);
      em.WriteIndent();
    } else {
      p := Blank;
      PieceAdded(ps, p);
      em.Write(value[i..]);
    }
    ps' := ps + [p];
    assert MeaningAll(ps') + Join(run) == MeaningAll(ps');
    assert start + TextAll(ps') + RunOut(run, em.lineBreak) == start + TextAll(ps');
  }

  lemma {:induction false} NonemptyPieces(ps: seq<Piece>, s: seq<byte>)
    requires MeaningAll(ps) == s && s != []
    ensures ps != []
  {
  }

  lemma NoMeaning()
    ensures MeaningAll([]) == [] && TextAll([]) == [] && ProperAll([])
  {
  }

  method WriteBreak(em: Q.Emitter, t: seq<byte>)
    requires CharLength(t) > 0 && BreakChar(t[..CharLength(t)])
    modifies em`output, em`column
    ensures em.output == old(em.output) + BreakOut(t[..CharLength(t)], em.lineBreak) && em.column == 0
  {
    if t[0] == LF {
      em.PutBreak();
    } else {
      em.Write(t);
      em.column := 0;
    }
  }

  method WriteLineBreak(em: Q.Emitter, value: seq<byte>, i: nat, breaks: bool, ghost spaces: bool,
                        ghost start: seq<byte>, ghost ps: seq<Piece>, ghost run: seq<seq<byte>>)
    returns (i': nat, ghost run': seq<seq<byte>>)
    requires Progress(em, start, value, i, ps, run, spaces) && breaks == (run != [])
    requires i < |value| && IsBreak(value[i..])
    modifies em
    ensures Progress(em, start, value, i', ps, run', spaces) && i < i' && run' != []
  {
    hide TextAll, MeaningAll, ProperAll, CharLength, Chars, SingleQuotable, RunOut, Join, IsBreak, ValidUtf8;
    hide BreakChars, BreakOut;
    AtChar(value, i, em.unicode);
    PrintableBreak(value[i..], em.unicode);
    ghost var c := value[i..][..CharLength(value[i..])];
    RunAdded(run, c, em.lineBreak);
    run' := run + [c];
    i' := i + Width(value[i]);
    NoMeaning();
    FrontByte(value[i..]);
    if !breaks && value[i] == LF { em.PutBreak(); }
    WriteBreak(em, value[i..]);
    em.indention := true;
    assert MeaningAll(ps) + Join(run') == MeaningAll(ps) + Join(run) + c;
  }

  lemma FrontByte(t: seq<byte>)
    requires CharLength(t) > 0 && BreakChar(t[..CharLength(t)])
    ensures t[0] == LF <==> t[..CharLength(t)] == [LF]
  {
  }

  /** No run of breaks is open, and text may follow the last piece. */
  ghost predicate AtText(em: Q.Emitter, start: seq<byte>, value: seq<byte>, i: nat, ps: seq<Piece>)
    reads em
  {
    && i < |value| && ValidUtf8(value[i..]) && em.indent >= 1
    && SingleQuotable(Chars(value[i..]), em.unicode)
    && ProperAll(ps) && MeaningAll(ps) == value[..i] && em.output == start + TextAll(ps)
  }

  /** After breaks the next line is indented. */
  method StartText(em: Q.Emitter, value: seq<byte>, i: nat, breaks: bool, ghost spaces: bool,
                   ghost start: seq<byte>, ghost ps: seq<Piece>, ghost run: seq<seq<byte>>)
    returns (ghost ps': seq<Piece>)
    requires Progress(em, start, value, i, ps, run, spaces) && breaks == (run != []) && i < |value|
    modifies em
    ensures AtText(em, start, value, i, ps')
  {
    hide TextAll, MeaningAll, ProperAll, CharLength, Chars, SingleQuotable, RunOut, Join, IsBreak, ValidUtf8;
    hide BreakChars;
    NoRun(em.lineBreak);
    ps' := ps;
    if breaks {
      PieceAdded(ps, Lines(run, em.lineBreak, em.indent));
      ps' := ps + [Lines(run, em.lineBreak, em.indent)];
      em.WriteIndent();
    } else {
      assert MeaningAll(ps) + [] == MeaningAll(ps);
      assert em.output + [] == em.output;
    }
  }

  method WriteText(em: Q.Emitter, value: seq<byte>, i: nat, ghost start: seq<byte>, ghost ps: seq<Piece>)
    returns (i': nat, ghost ps': seq<Piece>)
    requires AtText(em, start, value, i, ps) && !IsSpace(value[i..]) && !IsBreak(value[i..])
    modifies em
    ensures Progress(em, start, value, i', ps', [], false) && i < i'
  {
    hide TextAll, MeaningAll, ProperAll, CharLength, Chars, SingleQuotable, RunOut, Join, IsBreak, ValidUtf8;
    AtChar(value, i, em.unicode);
    PrintableOther(value[i..], em.unicode);
    NoRun(em.lineBreak);
    ghost var c := value[i..][..CharLength(value[i..])];
    ghost var p := if value[i] == SINGLE_QUOTE then Apostrophe else Raw(c);
    PieceAdded(ps, p);
    ps' := ps + [p];
    i' := i + Width(value[i]);
    if value[i] == SINGLE_QUOTE {
      em.Put(SINGLE_QUOTE);
      em.Write(value[i..]);
      assert [SINGLE_QUOTE] + [SINGLE_QUOTE] == Text(p);
    } else {
      em.Write(value[i..]);
    }
    em.indention := false;
    assert MeaningAll(ps') + [] == MeaningAll(ps');
    assert em.output == start + TextAll(ps') + [];
  }

  /** Writes `value` in single quotes, folding long lines at single spaces and doubling
      the first LF of a run of breaks. What the analysis allowed is read back as `value`. */
  method WriteSingleQuotedScalar(em: Q.Emitter, value: seq<byte>, allowBreaks: bool) returns (ghost text: seq<byte>)
    requires ValidUtf8(value) && em.indent >= 1 && SingleQuotable(Chars(value), em.unicode)
    modifies em
    ensures em.output == old(em.output) + (if old(em.whitespace) then [] else [SPACE]) + [SINGLE_QUOTE] + text
    ensures Reads(text, value)
    ensures !em.whitespace && !em.indention
  {
    hide TextAll, MeaningAll, ProperAll, CharLength, Chars, SingleQuotable, RunOut, Join, IsBreak, ValidUtf8;
    hide BreakChars, Reads;
    em.WriteIndicator(SINGLE_QUOTE, true, false, false);
    ghost var start := em.output;
    ghost var ps: seq<Piece> := [];
    ghost var run: seq<seq<byte>> := [];
    NoMeaning();
    NoRun(em.lineBreak);
    NoBreakChars();
    assert value[0..] == value;
    var spaces, breaks, i: nat := false, false, 0;
    while i < |value|
      invariant Progress(em, start, value, i, ps, run, spaces) && breaks == (run != [])
      decreases |value| - i
    {
      if IsSpace(value[i..]) {
        i, ps := WriteSpace(em, value, i, allowBreaks, spaces, start, ps, run);
        spaces := true;
      } else if IsBreak(value[i..]) {
        i, run := WriteLineBreak(em, value, i, breaks, spaces, start, ps, run);
        breaks := true;
      } else {
        ps := StartText(em, value, i, breaks, spaces, start, ps, run);
        i, ps := WriteText(em, value, i, start, ps);
        run, spaces, breaks := [], false, false;
      }
    }
    assert value[..i] == value;
    em.WriteIndicator(SINGLE_QUOTE, false, false, false);
    text := TextAll(ps) + RunOut(run, em.lineBreak) + [SINGLE_QUOTE];
    TextReads(ps, run, em.lineBreak, value);
    em.whitespace, em.indention := false, false;
  }

  lemma {:induction false} TextReads(ps: seq<Piece>, run: seq<seq<byte>>, br: Q.Break, value: seq<byte>)
    requires ProperAll(ps) && BreakChars(run) && MeaningAll(ps) + Join(run) == value
    requires ps != [] ==> !ps[|ps| - 1].Folded? && !ps[|ps| - 1].Lines?
    requires ps != [] && run != [] ==> !ps[|ps| - 1].Blank?
    ensures Reads(TextAll(ps) + RunOut(run, br) + [SINGLE_QUOTE], value)
  {
    hide ProperAll, BreakChars, TextAll, RunOut, Scan, Join, MeaningAll;
    var text := TextAll(ps) + RunOut(run, br) + [SINGLE_QUOTE];
    forall rest: seq<byte> | At(rest, 0) != SINGLE_QUOTE ensures Scan(true, text + rest, [], false) ==
      Token(value, rest) {
      QuotedRoundTrip(ps, run, br, rest);
    }
  }

  lemma NoBreakChars()
    ensures BreakChars([])
  {
  }
}
