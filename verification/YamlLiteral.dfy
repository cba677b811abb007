/** The literal scalar writer, and the round trip with the block scalar scanner. */
module YamlLiteral {
  import opened Octets
  import opened Utf8
  import opened YamlBytes
  import opened YamlFlowScanner
  import opened YamlBlockScanner
  import opened YamlAnalysis
  import Q = YamlQuoted
  import S = YamlSingleQuoted

  /** A character that a block scalar can carry. */
  predicate Clean(c: seq<byte>) {
    OneChar(c) && !IsZ(c) && c[0] != TAB && (IsBreak(c) ==> S.BreakChar(c))
  }

  predicate AllClean(cs: seq<seq<byte>>) {
    forall k | 0 <= k < |cs| :: Clean(cs[k])
  }

  /** The characters as they are written in lines indented by `n`; `bol` at the
      beginning of a line. */
  function Content(cs: seq<seq<byte>>, n: nat, br: Q.Break, bol: bool): seq<byte> {
    if cs == [] then []
    else if IsBreak(cs[0]) then S.BreakOut(cs[0], br) + Content(cs[1..], n, br, true)
    else (if bol then Q.Spaces(n) else []) + cs[0] + Content(cs[1..], n, br, false)
  }

  /** How many breaks there are at the end. */
  function Trailing(cs: seq<seq<byte>>): (k: nat)
    ensures k <= |cs| && forall i | |cs| - k <= i < |cs| :: IsBreak(cs[i])
    ensures k < |cs| ==> !IsBreak(cs[|cs| - k - 1])
  {
    if cs != [] && IsBreak(cs[|cs| - 1]) then 1 + Trailing(cs[..|cs| - 1]) else 0
  }

  /** What follows is indented less than `n`, and is no empty line. */
  predicate Outdented(t: seq<byte>, n: nat) {
    n > 0 && (if IsSpace(t) then Outdented(t[1..], n - 1) else At(t, 0) != TAB && !IsBreak(t))
  }

  /** What may follow the content: after a line that has not ended, a line break or
      the end of the stream comes first. */
  predicate Ends(t: seq<byte>, n: nat, ended: bool) {
    if ended then Outdented(t, n)
    else IsZ(t) || (IsBreak(t) && Outdented(t[BreakWidth(t)..], n))
  }

  // ---- Indentation and breaks ----

  lemma {:induction false} SkipsOutdented(t: seq<byte>, column: nat, n: nat)
    requires column < n && Outdented(t, n - column)
    ensures var (u, c) := SkipSpaces(t, column, n);
            c < n && At(u, 0) != TAB && !IsBreak(u)
    decreases |t|
  {
    if IsSpace(t) { SkipsOutdented(t[1..], column + 1, n); }
  }

  lemma {:induction false} SkipsIndent(t: seq<byte>, column: nat, n: nat)
    requires column <= n && n > 0
    ensures SkipSpaces(Q.Spaces(n - column) + t, column, n) == (t, n)
    decreases n - column
  {
    var u := Q.Spaces(n - column) + t;
    if column == n {
      assert u == t;
    } else {
      assert u[1..] == Q.Spaces(n - column - 1) + t;
      SkipsIndent(t, column + 1, n);
    }
  }

  /** With the indentation still open, all spaces are skipped. */
  lemma {:induction false} SkipsAll(t: seq<byte>, column: nat, n: nat)
    requires !IsSpace(t)
    ensures SkipSpaces(Q.Spaces(n) + t, column, 0) == (t, column + n)
    decreases n
  {
    var u := Q.Spaces(n) + t;
    if n == 0 {
      assert u == t;
    } else {
      assert u[1..] == Q.Spaces(n - 1) + t;
      SkipsAll(t, column + 1, n - 1);
    }
  }

  /** Text at the beginning of a line is not taken for LF behind a CR. */
  lemma {:induction false} BeginsWell(cs: seq<seq<byte>>, n: nat, br: Q.Break, t: seq<byte>)
    requires AllClean(cs) && n > 0 && (cs == [] ==> Outdented(t, n)) && (cs != [] ==> !IsBreak(cs[0]))
    ensures At(Content(cs, n, br, true) + t, 0) != LF
  {
    if cs == [] { assert Content(cs, n, br, true) + t == t; }
    else { assert (Content(cs, n, br, true) + t)[0] == SPACE; }
  }

  /** The break at the front is read as itself. */
  lemma {:induction false} FrontBreak(cs: seq<seq<byte>>, n: nat, br: Q.Break, t: seq<byte>, bol: bool)
    requires AllClean(cs) && n > 0 && cs != [] && IsBreak(cs[0])
    requires |cs| == Trailing(cs) ==> Outdented(t, n)
    ensures var u := Content(cs, n, br, bol) + t;
            IsBreak(u) && BreakText(u) == cs[0] && u[BreakWidth(u)..] == Content(cs[1..], n, br, true) + t
  {
    hide IsBreak, BreakWidth, BreakText, S.BreakOut, Outdented;
    var ds := cs[1..];
    var v := Content(ds, n, br, true) + t;
    assert Content(cs, n, br, bol) + t == S.BreakOut(cs[0], br) + v;
    if ds != [] && IsBreak(ds[0]) {
      var w := Content(ds[1..], n, br, true) + t;
      assert v == S.BreakOut(ds[0], br) + w;
      S.BreakBeforeBreak(cs[0], ds[0], br, w);
    } else {
      if ds == [] { LoneBreak(cs); }
      BeginsWell(ds, n, br, t);
      S.OneBreak(cs[0], br, v);
    }
  }

  lemma {:induction false} LoneBreak(cs: seq<seq<byte>>)
    requires |cs| == 1 && IsBreak(cs[0])
    ensures Trailing(cs) == 1
  {
    assert cs[..0] == [];
  }

  lemma {:induction false} TrailingTail(cs: seq<seq<byte>>)
    requires cs != []
    ensures Trailing(cs) == if Trailing(cs[1..]) == |cs| - 1 && IsBreak(cs[0]) then |cs| else Trailing(cs[1..])
    decreases |cs|
  {
    hide IsBreak;
    if |cs| == 1 {
      assert cs[..0] == [] && cs[1..] == [];
    } else {
      assert cs[1..][..|cs| - 2] == cs[..|cs| - 1][1..] && cs[1..][|cs| - 2] == cs[|cs| - 1];
      if IsBreak(cs[|cs| - 1]) { TrailingTail(cs[..|cs| - 1]); }
    }
  }

  /** How many breaks there are at the front. */
  function Leading(cs: seq<seq<byte>>): (k: nat)
    ensures k <= |cs| && forall i | 0 <= i < k :: IsBreak(cs[i])
    ensures k < |cs| ==> !IsBreak(cs[k])
  {
    if cs != [] && IsBreak(cs[0]) then 1 + Leading(cs[1..]) else 0
  }

  /** Breaks at the front are gathered; then comes a line at the indentation, or the end. */
  lemma {:induction false} Gathers(cs: seq<seq<byte>>, n: nat, br: Q.Break, t: seq<byte>, text: seq<byte>, widest: nat)
    requires AllClean(cs) && n > 0 && (|cs| == Trailing(cs) ==> Outdented(t, n))
    ensures var k := Leading(cs);
            var r := TakeBreaks(Content(cs, n, br, true) + t, 0, n, text, widest);
            && r.Breaks? && r.text == text + Join(cs[..k])
            && (if k < |cs| then r.column == n && r.rest == Content(cs[k..], n, br, false) + t
                else r.column < n && r.rest == SkipSpaces(t, 0, n).0)
    decreases |cs|
  {
    hide IsBreak, BreakWidth, BreakText, Outdented, Clean, Content, SkipSpaces, Trailing, Join;
    var u := Content(cs, n, br, true) + t;
    NoContent(n, br, true, t, text);
    if cs == [] {
      SkipsOutdented(t, 0, n);
    } else if IsBreak(cs[0]) {
      FrontBreak(cs, n, br, t, true);
      TrailingTail(cs);
      Gathers(cs[1..], n, br, t, text + cs[0], Max(widest, 0));
      JoinFront(text, cs, Leading(cs[1..]));
      NoSpaces(u, n);
    } else {
      LineFront(cs, n, br, t);
      assert cs[0..] == cs && cs[..0] == [];
      var v := Content(cs, n, br, false) + t;
      SkipsIndent(v, 0, n);
      assert Q.Spaces(n - 0) + v == u;
    }
  }

  lemma {:induction false} NoContent(n: nat, br: Q.Break, bol: bool, t: seq<byte>, s: seq<byte>)
    ensures Content([], n, br, bol) + t == t && s + Join([]) == s && Trailing([]) == 0
  {
  }

  lemma JoinFront(s: seq<byte>, cs: seq<seq<byte>>, k: nat)
    requires cs != [] && k <= |cs| - 1
    ensures s + Join(cs[..k + 1]) == (s + cs[0]) + Join(cs[1..][..k]) && cs[1..][k..] == cs[k + 1..]
  {
    hide Join;
    assert cs[..k + 1] == [cs[0]] + cs[1..][..k];
    JoinCons(cs[0], cs[1..][..k]);
  }

  lemma {:induction false} NoSpaces(t: seq<byte>, n: nat)
    requires IsBreak(t)
    ensures SkipSpaces(t, 0, n) == (t, 0) && At(t, 0) != TAB && t != []
  {
  }

  /** A line that is not empty begins with its first character. */
  lemma {:induction false} LineFront(cs: seq<seq<byte>>, n: nat, br: Q.Break, t: seq<byte>)
    requires cs != [] && AllClean(cs) && !IsBreak(cs[0])
    ensures Content(cs, n, br, true) + t == Q.Spaces(n) + (Content(cs, n, br, false) + t)
    ensures var v := Content(cs, n, br, false) + t;
            !IsBreak(v) && !IsZ(v) && At(v, 0) != TAB && IsSpace(v) == IsSpace(cs[0]) &&
            v == cs[0] + (Content(cs[1..], n, br, false) + t) && TakeChar(v) == Took(cs[0], v[|cs[0]|..]) &&
            v[|cs[0]|..] == Content(cs[1..], n, br, false) + t
  {
    hide Content, IsBreak, IsZ, IsSpace, TakeChar;
    var rest := Content(cs[1..], n, br, false) + t;
    var v := Content(cs, n, br, false) + t;
    ContentText(cs, n, br);
    assert v == cs[0] + rest;
    assert Content(cs, n, br, true) + t == Q.Spaces(n) + v;
    CharThen(cs[0], rest);
  }

  lemma {:induction false} ContentText(cs: seq<seq<byte>>, n: nat, br: Q.Break)
    requires cs != [] && !IsBreak(cs[0])
    ensures Content(cs, n, br, false) == cs[0] + Content(cs[1..], n, br, false)
    ensures Content(cs, n, br, true) == Q.Spaces(n) + Content(cs, n, br, false)
  {
    hide IsBreak;
    var x := Content(cs[1..], n, br, false);
    assert [] + cs[0] + x == cs[0] + x;
    assert Q.Spaces(n) + cs[0] + x == Q.Spaces(n) + (cs[0] + x);
  }

  lemma CharThen(c: seq<byte>, t: seq<byte>)
    requires Clean(c) && !IsBreak(c)
    ensures !IsBreak(c + t) && !IsZ(c + t) && At(c + t, 0) != TAB && IsSpace(c + t) == IsSpace(c)
    ensures TakeChar(c + t) == Took(c, t) && (c + t)[|c|..] == t
  {
    assert forall i | 0 <= i < |c| :: At(c + t, i) == At(c, i);
    assert (c + t)[..|c|] == c;
  }

  // ---- Lines ----

  /** The length of the line at the front. */
  function LineLength(cs: seq<seq<byte>>): (k: nat)
    ensures k <= |cs|
    ensures k < |cs| ==> IsBreak(cs[k])
    ensures forall i | 0 <= i < k :: !IsBreak(cs[i])
  {
    if cs != [] && !IsBreak(cs[0]) then 1 + LineLength(cs[1..]) else 0
  }

  lemma {:induction false} TakesLine(cs: seq<seq<byte>>, n: nat, br: Q.Break, t: seq<byte>, s: seq<byte>, column: nat)
    requires AllClean(cs) && n > 0 && Ends(t, n, Trailing(cs) > 0)
    ensures var k := LineLength(cs);
            var r := TakeLine(Content(cs, n, br, false) + t, s, column);
            r.Line? && r.text == s + Join(cs[..k]) && r.rest == Content(cs[k..], n, br, false) + t
    decreases |cs|
  {
    hide IsBreak, IsZ, TakeChar, Ends, Clean, Content, Trailing, Join;
    NoContent(n, br, false, t, s);
    assert cs[0..] == cs && cs[..0] == [];
    if cs == [] {
      EndsLine(t, n);
    } else if IsBreak(cs[0]) {
      BreakEndsLine(cs, n, br, t);
    } else {
      LineFront(cs, n, br, t);
      TrailingTail(cs);
      TakesLine(cs[1..], n, br, t, s + cs[0], column + 1);
      JoinFront(s, cs, LineLength(cs[1..]));
    }
  }

  lemma EndsLine(t: seq<byte>, n: nat)
    requires Ends(t, n, false)
    ensures IsBreakz(t)
  {
  }

  lemma {:induction false} BreakEndsLine(cs: seq<seq<byte>>, n: nat, br: Q.Break, t: seq<byte>)
    requires AllClean(cs) && n > 0 && cs != [] && IsBreak(cs[0]) && Ends(t, n, Trailing(cs) > 0)
    ensures IsBreakz(Content(cs, n, br, false) + t)
  {
    hide IsBreak;
    FrontBreak(cs, n, br, t, false);
  }

  /** The content up to the breaks at the end, the first of these, and the others. */
  function BodyOf(cs: seq<seq<byte>>): seq<byte> {
    Join(cs[..|cs| - Trailing(cs)])
  }

  function LeadOf(cs: seq<seq<byte>>): seq<byte> {
    if Trailing(cs) == 0 then [] else cs[|cs| - Trailing(cs)]
  }

  function TrailOf(cs: seq<seq<byte>>): seq<byte> {
    if Trailing(cs) == 0 then [] else Join(cs[|cs| - Trailing(cs) + 1..])
  }

  /** What is left once the content is scanned: the text behind it, without its indentation. */
  function Left(t: seq<byte>, n: nat, ended: bool): seq<byte> {
    if ended then SkipSpaces(t, 0, n).0
    else if IsBreak(t) then SkipSpaces(t[BreakWidth(t)..], 0, n).0 else t
  }

  lemma {:induction false} JoinAppend(a: seq<seq<byte>>, b: seq<seq<byte>>)
    ensures Join(a + b) == Join(a) + Join(b)
  {
    if b == [] {
      assert a + b == a;
    } else {
      assert (a + b)[..|a + b| - 1] == a + b[..|b| - 1];
      JoinAppend(a, b[..|b| - 1]);
    }
  }

  lemma {:induction false} Parts(cs: seq<seq<byte>>)
    ensures BodyOf(cs) + LeadOf(cs) + TrailOf(cs) == Join(cs)
    ensures Trailing(cs) == 0 ==> BodyOf(cs) == Join(cs)
    ensures Trailing(cs) == 1 ==> TrailOf(cs) == []
  {
    hide IsBreak, Trailing, Join;
    var k := |cs| - Trailing(cs);
    JoinAppend(cs[..k], cs[k..]);
    assert cs == cs[..k] + cs[k..];
    NothingJoined();
    if k < |cs| {
      JoinCons(cs[k], cs[k + 1..]);
      assert cs[k..] == [cs[k]] + cs[k + 1..];
      assert Trailing(cs) == 1 ==> cs[k + 1..] == [];
    } else {
      assert cs[..k] == cs && Join(cs) + [] + [] == Join(cs);
    }
  }

  lemma NothingJoined()
    ensures Join([]) == []
  {
  }

  /** After a character that is no break, the breaks at the end are those of the rest. */
  lemma {:induction false} TrailingAfter(cs: seq<seq<byte>>, k: nat)
    requires 0 < k <= |cs|
    requires !IsBreak(cs[k - 1]) || (k < |cs| && !IsBreak(cs[k]))
    ensures Trailing(cs[k..]) == Trailing(cs)
  {
    hide IsBreak;
    var ds, m := cs[k..], Trailing(cs);
    assert forall i | 0 <= i < |ds| :: ds[i] == cs[k + i];
    TrailingIs(ds, m);
  }

  lemma {:induction false} TrailingIs(cs: seq<seq<byte>>, m: nat)
    requires m <= |cs| && (forall i | |cs| - m <= i < |cs| :: IsBreak(cs[i]))
    requires m < |cs| ==> !IsBreak(cs[|cs| - m - 1])
    ensures Trailing(cs) == m
    decreases m
  {
    hide IsBreak;
    if m > 0 { TrailingIs(cs[..|cs| - 1], m - 1); }
  }

  lemma {:induction false} SplitAt(cs: seq<seq<byte>>, k: nat)
    requires k <= |cs| - Trailing(cs) && Trailing(cs[k..]) == Trailing(cs)
    ensures BodyOf(cs) == Join(cs[..k]) + BodyOf(cs[k..])
    ensures LeadOf(cs) == LeadOf(cs[k..]) && TrailOf(cs) == TrailOf(cs[k..])
  {
    hide IsBreak, Trailing, Join;
    var ds, m := cs[k..], Trailing(cs);
    assert cs[..|cs| - m] == cs[..k] + ds[..|ds| - m];
    JoinAppend(cs[..k], ds[..|ds| - m]);
    if m > 0 { assert cs[|cs| - m] == ds[|ds| - m] && cs[|cs| - m + 1..] == ds[|ds| - m + 1..]; }
  }

  lemma {:induction false} NoneTrailing(cs: seq<seq<byte>>)
    requires cs != [] && LineLength(cs) == |cs|
    ensures Trailing(cs) == 0
  {
    hide IsBreak;
    assert !IsBreak(cs[|cs| - 1]);
  }

  /** After a line that ends the content nothing is at its indentation. */
  lemma {:induction false} StopsAfterLine(t: seq<byte>, n: nat, column: nat)
    requires n > 0 && Ends(t, n, false)
    ensures IsBreak(t) ==>
              var r := TakeBreaks(t[BreakWidth(t)..], 0, n, [], 0);
              r.Breaks? && r.column < n && r.rest == Left(t, n, false)
    ensures !IsBreak(t) ==>
              var r := TakeBreaks(t, column, n, [], 0);
              IsZ(t) && r.Breaks? && r.rest == t == Left(t, n, false)
  {
    hide IsBreak, BreakWidth, Outdented, TakeBreaks;
    if IsBreak(t) {
      BreakIsText(t);
      S.BreakIsNotBlank(t);
      var u := t[BreakWidth(t)..];
      NoContent(n, Q.LnBreak, true, u, []);
      Gathers([], n, Q.LnBreak, u, [], 0);
    } else {
      AtEnd(t, n, column);
    }
  }

  lemma {:induction false} AtEnd(t: seq<byte>, n: nat, column: nat)
    requires IsZ(t)
    ensures TakeBreaks(t, column, n, [], 0).Breaks? && TakeBreaks(t, column, n, [], 0).rest == t
  {
  }

  /** The break after a line, and the empty lines that follow. */
  lemma {:induction false} NextLine(cs: seq<seq<byte>>, k: nat, n: nat, br: Q.Break, t: seq<byte>)
    requires AllClean(cs) && n > 0 && 0 < k < |cs| && k == LineLength(cs) && Ends(t, n, Trailing(cs) > 0)
    ensures var u := Content(cs[k..], n, br, false) + t;
            var ds := cs[k + 1..];
            var r := TakeBreaks(u[BreakWidth(u)..], 0, n, [], 0);
            var j := Leading(ds);
            && IsBreak(u) && BreakText(u) == cs[k] && r.Breaks? && r.text == Join(ds[..j])
            && (if j < |ds| then r.column == n && r.rest == Content(ds[j..], n, br, false) + t
                else r.column < n && r.rest == SkipSpaces(t, 0, n).0)
  {
    hide IsBreak, BreakWidth, BreakText, Outdented, Clean, Content, TakeBreaks, SkipSpaces, Join, Trailing, Leading;
    var es, ds := cs[k..], cs[k + 1..];
    assert es[1..] == ds && es[0] == cs[k];
    TrailingAfter(cs, k);
    TrailingTail(es);
    FrontBreak(es, n, br, t, false);
    Gathers(ds, n, br, t, [], 0);
    assert [] + Join(ds[..Leading(ds)]) == Join(ds[..Leading(ds)]);
  }

  lemma {:induction false} Rejoin(cs: seq<seq<byte>>, k: nat, j: nat)
    requires k < |cs| && j < |cs| - k - 1 && !IsBreak(cs[k + 1 + j])
    ensures var ds := cs[k + 1..];
            var es := ds[j..];
            && es[0] == cs[k + 1 + j] && Trailing(es) == Trailing(cs)
            && BodyOf(cs) == Join(cs[..k]) + cs[k] + Join(ds[..j]) + BodyOf(es)
            && LeadOf(cs) == LeadOf(es) && TrailOf(cs) == TrailOf(es)
  {
    hide IsBreak, BodyOf, LeadOf, TrailOf, Join;
    var ds, m := cs[k + 1..], k + 1 + j;
    assert ds[j..] == cs[m..];
    TrailingAfter(cs, m);
    SplitAt(cs, m);
    assert cs[..m] == cs[..k] + ([cs[k]] + ds[..j]);
    JoinAppend(cs[..k], [cs[k]] + ds[..j]);
    JoinCons(cs[k], ds[..j]);
    assert Join(cs[..m]) == Join(cs[..k]) + cs[k] + Join(ds[..j]);
  }

  lemma {:induction false} LastBreaks(cs: seq<seq<byte>>, k: nat)
    requires k < |cs| && (k > 0 ==> !IsBreak(cs[k - 1])) && forall i | k <= i < |cs| :: IsBreak(cs[i])
    ensures Trailing(cs) == |cs| - k
    ensures BodyOf(cs) == Join(cs[..k]) && LeadOf(cs) == cs[k] && TrailOf(cs) == Join(cs[k + 1..])
  {
    hide IsBreak, Join;
    TrailingIs(cs, |cs| - k);
  }

  /** Scanning the lines of the content gives its body, and the breaks at its end apart. */
  lemma {:induction false} LinesRoundTrip(cs: seq<seq<byte>>, n: nat, br: Q.Break, t: seq<byte>,
                                          s: seq<byte>, lead: seq<byte>, trail: seq<byte>, blank: bool)
    requires AllClean(cs) && n > 0 && cs != [] && !IsBreak(cs[0]) && Ends(t, n, Trailing(cs) > 0)
    ensures var r := Lines(true, Content(cs, n, br, false) + t, n, n, s, lead, trail, blank);
            && r.Body? && r.value == s + lead + trail + BodyOf(cs) && r.rest == Left(t, n, Trailing(cs) > 0)
            && (Trailing(cs) > 0 ==> r.lead == LeadOf(cs) && r.trail == TrailOf(cs))
    decreases |cs|
  {
    hide IsBreak, IsZ, IsBlank, Ends, Clean, Content, Trailing, Join, TakeLine, TakeBreaks, BodyOf, LeadOf, TrailOf;
    hide LineLength, Lines, Between;
    var k := LineLength(cs);
    var u := Content(cs, n, br, false) + t;
    NothingFolds(blank, IsBlank(u), s, lead, trail);
    if k == |cs| {
      LinesEnd(true, cs, n, br, t, s, lead, trail, blank);
      Parts(cs);
    } else {
      var s' := s + lead + trail + Join(cs[..k]);
      var ds := cs[k + 1..];
      var j := Leading(ds);
      LinesGoOn(true, cs, k, n, br, t, s, lead, trail, blank);
      if j < |ds| {
        Rejoin(cs, k, j);
        LinesRoundTrip(ds[j..], n, br, t, s', cs[k], Join(ds[..j]), IsBlank(u));
        Associate(s + lead + trail, Join(cs[..k]), cs[k], Join(ds[..j]), BodyOf(ds[j..]));
      } else {
        LastBreaks(cs, k);
        assert ds[..j] == ds;
      }
    }
  }

  lemma NothingFolds(blank: bool, next: bool, s: seq<byte>, lead: seq<byte>, trail: seq<byte>)
    ensures s + Between(true, blank, next, lead, trail) == s + lead + trail
  {
  }

  lemma Associate(a: seq<byte>, b: seq<byte>, c: seq<byte>, d: seq<byte>, e: seq<byte>)
    ensures a + b + c + d + e == a + (b + c + d + e)
  {
  }

  /** The last line of a content that does not end in a break. */
  lemma {:induction false} LinesEnd(literal: bool, cs: seq<seq<byte>>, n: nat, br: Q.Break, t: seq<byte>,
                                    s: seq<byte>, lead: seq<byte>, trail: seq<byte>, blank: bool)
    requires AllClean(cs) && n > 0 && cs != [] && !IsBreak(cs[0]) && Ends(t, n, Trailing(cs) > 0)
    requires LineLength(cs) == |cs|
    ensures var u := Content(cs, n, br, false) + t;
            var r := Lines(literal, u, n, n, s, lead, trail, blank);
            && r.Body? && r.value == s + Between(literal, blank, IsBlank(u), lead, trail) + Join(cs)
            && r.rest == Left(t, n, false) && Trailing(cs) == 0
  {
    hide IsBreak, IsZ, Ends, Clean, Content, Trailing, Join, TakeLine, TakeBreaks, LineLength, Lines, Left, Between;
    hide IsBlank;
    var u := Content(cs, n, br, false) + t;
    var s' := s + Between(literal, blank, IsBlank(u), lead, trail);
    LineFront(cs, n, br, t);
    TakesLine(cs, n, br, t, s', n);
    NoneTrailing(cs);
    assert cs[|cs|..] == [] && cs[..|cs|] == cs;
    NoContent(n, br, false, t, []);
    StopsAfterLine(t, n, TakeLine(u, s', n).column);
    LinesStep(literal, u, n, s, lead, trail, blank);
  }

  /** A line that a break ends, and the next one, if there is one. */
  lemma {:induction false} LinesGoOn(literal: bool, cs: seq<seq<byte>>, k: nat, n: nat, br: Q.Break, t: seq<byte>,
                                     s: seq<byte>, lead: seq<byte>, trail: seq<byte>, blank: bool)
    requires AllClean(cs) && n > 0 && 0 < k < |cs| && k == LineLength(cs) && Ends(t, n, Trailing(cs) > 0)
    ensures var u := Content(cs, n, br, false) + t;
            var s' := s + Between(literal, blank, IsBlank(u), lead, trail) + Join(cs[..k]);
            var ds := cs[k + 1..];
            var j := Leading(ds);
            Lines(literal, u, n, n, s, lead, trail, blank) ==
            if j < |ds| then Lines(literal, Content(ds[j..], n, br, false) + t, n, n, s', cs[k], Join(ds[..j]),
              IsBlank(u))
            else Body(s', cs[k], Join(ds[..j]), SkipSpaces(t, 0, n).0)
  {
    hide IsBreak, IsZ, Ends, Clean, Content, Trailing, Join, TakeLine, TakeBreaks, Lines, SkipSpaces, IsBlank, Between;
    var u := Content(cs, n, br, false) + t;
    var s' := s + Between(literal, blank, IsBlank(u), lead, trail);
    assert !IsBreak(cs[0]);
    LineFront(cs, n, br, t);
    TakesLine(cs, n, br, t, s', n);
    NextLine(cs, k, n, br, t);
    LinesStep(literal, u, n, s, lead, trail, blank);
    var ds := cs[k + 1..];
    var j := Leading(ds);
    if j < |ds| { LineFront(ds[j..], n, br, t); }
  }

  /** One line, and what the scanner goes on with; it stops where the indentation ends. */
  lemma {:induction false} LinesStep(literal: bool, t: seq<byte>, n: nat, s: seq<byte>, lead: seq<byte>,
                                     trail: seq<byte>, blank: bool)
    requires n > 0 && !IsZ(t) && TakeLine(t, s + Between(literal, blank, IsBlank(t), lead, trail), n).Line?
    ensures var line := TakeLine(t, s + Between(literal, blank, IsBlank(t), lead, trail), n);
            var u := line.rest;
            var next := if IsBreak(u) then TakeBreaks(u[BreakWidth(u)..], 0, n, [], 0)
              else TakeBreaks(u, line.column, n, [], 0);
            next.Breaks? ==>
              var lead' := if IsBreak(u) then BreakText(u) else [];
              Lines(literal, t, n, n, s, lead, trail, blank) ==
              if next.column != n || IsZ(next.rest) then Body(line.text, lead', next.text, next.rest)
              else Lines(literal, next.rest, next.column, n, line.text, lead', next.text, IsBlank(t))
  {
    hide IsBreak, IsBlank, IsZ, TakeLine, TakeBreaks, BreakText, BreakWidth, Between;
  }

  // ---- The whole scalar ----

  function HintBytes(cs: seq<seq<byte>>, bestIndent: nat): seq<byte>
    requires cs != [] && bestIndent <= 9
  {
    if IsSpace(cs[0]) || IsBreak(cs[0]) then [0x30 + bestIndent] else []
  }

  /** Strip, clip or keep, by the number of breaks at the end. */
  function ChompBytes(cs: seq<seq<byte>>): seq<byte> {
    if Trailing(cs) == 0 then [MINUS] else if Trailing(cs) == 1 && |cs| > 1 then [] else [PLUS]
  }

  function ChompingOf(cs: seq<seq<byte>>): int {
    if Trailing(cs) == 0 then -1 else if Trailing(cs) == 1 && |cs| > 1 then 0 else 1
  }

  /** The header of a scalar `cs`, and the characters `ws` written for it. */
  function Text(cs: seq<seq<byte>>, ws: seq<seq<byte>>, bestIndent: nat, n: nat, br: Q.Break): seq<byte>
    requires cs != [] && bestIndent <= 9
  {
    HintBytes(cs, bestIndent) + ChompBytes(cs) + Q.BreakBytes(br) + Content(ws, n, br, true)
  }

  lemma HintsRead(hint: seq<byte>, chomp: seq<byte>, v: seq<byte>, column: nat)
    requires IsBreak(v) && |hint| <= 1 && |chomp| <= 1
    requires hint != [] ==> 0x31 <= hint[0] <= 0x39
    requires chomp != [] ==> IsChomping(chomp[0])
    ensures TakeHints(hint + chomp + v, column) ==
            Header(if chomp == [] then 0 else Chomping(chomp[0]), if hint == [] then 0 else hint[0] - 0x30, v,
                   column + |hint| + |chomp|)
  {
    var u := hint + chomp + v;
    S.BreakIsNotBlank(v);
    assert u[|hint| + |chomp|..] == v;
    if hint == [] && chomp == [] { assert u == v; }
  }

  lemma {:induction false} BreakEndsHeader(v: seq<byte>, column: nat)
    requires IsBreak(v)
    ensures SkipBlanks(v, column) == (v, column) && At(v, 0) != HASH
  {
  }

  lemma {:induction false} HeaderRead(cs: seq<seq<byte>>, ws: seq<seq<byte>>, bestIndent: nat, n: nat, br: Q.Break,
                                      t: seq<byte>, column: nat)
    requires AllClean(ws) && ws != [] && cs != [] && 1 <= bestIndent <= 9 && n > 0 && Ends(t, n, Trailing(ws) > 0)
    ensures TakeHeader(Text(cs, ws, bestIndent, n, br) + t, column) ==
            Header(ChompingOf(cs), if IsSpace(cs[0]) || IsBreak(cs[0]) then bestIndent else 0,
              Content(ws, n, br, true) + t, 0)
  {
    hide IsBreak, BreakWidth, BreakText, Content, Trailing, TakeHints, SkipBlanks, Outdented, IsSpace;
    var ds := [[LF]] + ws;
    var x := Content(ws, n, br, true) + t;
    var v := Q.BreakBytes(br) + x;
    LfIsClean();
    assert ds[1..] == ws;
    TrailingTail(ds);
    FrontBreak(ds, n, br, t, true);
    LfContent(ws, n, br);
    assert Content(ds, n, br, true) + t == v;
    var hint, chomp := HintBytes(cs, bestIndent), ChompBytes(cs);
    Grouped(hint + chomp, Q.BreakBytes(br), Content(ws, n, br, true), t);
    HintsRead(hint, chomp, v, column);
    BreakEndsHeader(v, column + |hint| + |chomp|);
  }

  lemma Grouped(a: seq<byte>, b: seq<byte>, c: seq<byte>, d: seq<byte>)
    ensures a + b + c + d == a + (b + (c + d))
  {
  }

  lemma LfIsClean()
    ensures Clean([LF]) && IsBreak([LF])
  {
  }

  lemma {:induction false} LfContent(cs: seq<seq<byte>>, n: nat, br: Q.Break)
    ensures Content([[LF]] + cs, n, br, true) == Q.BreakBytes(br) + Content(cs, n, br, true)
  {
    assert ([[LF]] + cs)[1..] == cs;
  }

  /** The lines, once the indentation is known. */
  lemma {:induction false} ContentRead(cs: seq<seq<byte>>, n: nat, br: Q.Break, t: seq<byte>)
    requires AllClean(cs) && cs != [] && n > 0 && Ends(t, n, Trailing(cs) > 0)
    ensures var r := TakeBreaks(Content(cs, n, br, true) + t, 0, n, [], 0);
            r.Breaks? && Chomped(ChompingOf(cs), Lines(true, r.rest, r.column, n, [], [], r.text, false))
                      == Token(Join(cs), Left(t, n, Trailing(cs) > 0))
  {
    hide IsBreak, Content, Trailing, Join, Lines, TakeBreaks, BodyOf, LeadOf, TrailOf, Outdented, Clean, SkipSpaces;
    var k := Leading(cs);
    Gathers(cs, n, br, t, [], 0);
    assert [] + Join(cs[..k]) == Join(cs[..k]);
    if k < |cs| {
      if k > 0 { TrailingAfter(cs, k); } else { assert cs[k..] == cs; }
      NotInTrailing(cs, k);
      SplitAt(cs, k);
      LinesRoundTrip(cs[k..], n, br, t, [], [], Join(cs[..k]), false);
      assert [] + [] + Join(cs[..k]) + BodyOf(cs[k..]) == BodyOf(cs);
      Parts(cs);
      assert ChompingOf(cs) == 1 ==> Trailing(cs) > 1 || |cs| == 1;
      if |cs| == 1 { OnlyChar(cs); }
      assert BodyOf(cs) + [] + [] == BodyOf(cs) && BodyOf(cs) + LeadOf(cs) + [] == BodyOf(cs) + LeadOf(cs);
    } else {
      LastBreaks(cs, 0);
      assert cs[..k] == cs;
      LinesStop(true, SkipSpaces(t, 0, n).0, TakeBreaks(Content(cs, n, br, true) + t, 0, n, [], 0).column, n, Join(cs));
      assert [] + [] + Join(cs) == Join(cs);
    }
  }

  lemma {:induction false} LinesStop(literal: bool, t: seq<byte>, column: nat, n: nat, trail: seq<byte>)
    requires column < n
    ensures Lines(literal, t, column, n, [], [], trail, false) == Body([], [], trail, t)
  {
  }

  lemma {:induction false} NotInTrailing(cs: seq<seq<byte>>, k: nat)
    requires k < |cs| && !IsBreak(cs[k])
    ensures k < |cs| - Trailing(cs)
  {
    hide IsBreak;
  }

  lemma {:induction false} OnlyChar(cs: seq<seq<byte>>)
    requires |cs| == 1 && !IsBreak(cs[0])
    ensures Trailing(cs) == 0
  {
  }

  /** Scanning a literal scalar as it is written gives back its characters, whatever
      the block it stands in and whatever less indented text follows. */
  lemma {:induction false} ScalarRoundTrip(cs: seq<seq<byte>>, bestIndent: nat, n: nat, br: Q.Break,
                                           parent: int, t: seq<byte>, column: nat)
    requires AllClean(cs) && cs != [] && 2 <= bestIndent <= 9 && parent >= -1
    requires n == (if parent >= 0 then parent else 0) + bestIndent
    requires Ends(t, n, Trailing(cs) > 0)
    ensures ScanBlock(true, Text(cs, cs, bestIndent, n, br) + t, column, parent)
         == Token(Join(cs), Left(t, n, Trailing(cs) > 0))
  {
    hide TakeHeader, IsBreak, IsSpace, Content, Trailing, Join, Lines, TakeBreaks, Text, Ends, Left, Chomped, AllClean;
    hide ChompingOf;
    HeaderRead(cs, cs, bestIndent, n, br, t, column);
    ContentRead(cs, n, br, t);
    if !IsSpace(cs[0]) && !IsBreak(cs[0]) {
      AutoDetected(cs, n, br, t);
    }
  }

  /** Without a hint the first line shows the indentation. */
  lemma {:induction false} AutoDetected(cs: seq<seq<byte>>, n: nat, br: Q.Break, t: seq<byte>)
    requires AllClean(cs) && cs != [] && n > 0 && !IsSpace(cs[0]) && !IsBreak(cs[0])
    ensures var u := Content(cs, n, br, true) + t;
            var r := TakeBreaks(u, 0, n, [], 0);
            r.Breaks? && TakeBreaks(u, 0, 0, [], 0) == Breaks(r.rest, r.column, r.text, n)
  {
    hide IsBreak, IsSpace, Content, SkipSpaces;
    var v := Content(cs, n, br, false) + t;
    LineFront(cs, n, br, t);
    SkipsIndent(v, 0, n);
    assert Q.Spaces(n - 0) == Q.Spaces(n);
    SkipsAll(v, 0, n);
  }

  // ---- The writer ----

  lemma {:induction false} CharsAreChars(t: seq<byte>)
    requires ValidUtf8(t)
    ensures forall k | 0 <= k < |Chars(t)| :: OneChar(Chars(t)[k])
  {
    if t != [] {
      FirstChar(t);
      CharsAreChars(t[CharLength(t)..]);
    }
  }

  lemma {:induction false} WritableIsClean(cs: seq<seq<byte>>, unicode: bool)
    requires NoSpecial(cs, unicode) && forall k | 0 <= k < |cs| :: OneChar(cs[k])
    ensures AllClean(cs)
  {
    hide OneChar;
    forall k | 0 <= k < |cs| ensures Clean(cs[k]) {
      PrintableIsClean(cs[k], unicode);
    }
  }

  lemma PrintableIsClean(c: seq<byte>, unicode: bool)
    requires OneChar(c) && !Special(c, unicode)
    ensures Clean(c)
  {
  }

  /** Only the first byte of a character is no continuation byte. */
  lemma CharBytes(c: seq<byte>)
    requires OneChar(c)
    ensures !Tail(c[0]) && forall i | 1 <= i < |c| :: Tail(c[i])
  {
  }

  /** Steps back over continuation bytes to where the last character before `end` starts. */
  method CharStart(value: seq<byte>, end: nat, ghost cs: seq<seq<byte>>) returns (i: nat)
    requires end <= |value| && cs != [] && value[..end] == Join(cs) && OneChar(cs[|cs| - 1])
    ensures i == |Join(cs[..|cs| - 1])| < end && value[..i] == Join(cs[..|cs| - 1])
    ensures IsBreak(value[i..]) == IsBreak(cs[|cs| - 1])
  {
    hide IsBreak, OneChar, CharLength;
    ghost var c, before := cs[|cs| - 1], Join(cs[..|cs| - 1]);
    CharBytes(c);
    assert value[..end] == before + c;
    assert forall j | 0 <= j < |c| :: value[..end][|before| + j] == c[j];
    OneCharNonempty(c);
    i := end - 1;
    while Tail(value[i])
      invariant |before| <= i < end
      decreases i
    {
      assert value[..end][|before|] == value[|before|];
      i := i - 1;
    }
    assert value[..end][i] == value[i];
    AtStart(c, i - |before|);
    assert value[..i] == value[..end][..i] == before;
    assert value[i..] == c + value[end..];
    BreakOfChar(c, value[end..]);
  }

  lemma AtStart(c: seq<byte>, k: nat)
    requires OneChar(c) && k < |c| && !Tail(c[k])
    ensures k == 0
  {
  }

  lemma OneCharNonempty(c: seq<byte>)
    requires OneChar(c)
    ensures |c| > 0
  {
  }

  lemma BreakOfChar(c: seq<byte>, t: seq<byte>)
    requires OneChar(c)
    ensures IsBreak(c + t) == IsBreak(c) && IsSpace(c + t) == IsSpace(c)
  {
    assert forall i | 0 <= i < |c| :: At(c + t, i) == At(c, i);
  }

  /** The hints behind the indicator. */
  method WriteHints(em: Q.Emitter, value: seq<byte>, bestIndent: nat)
    requires ValidUtf8(value) && value != [] && bestIndent <= 9
    modifies em
    ensures Chars(value) != [] &&
            em.output == old(em.output) + HintBytes(Chars(value), bestIndent) + ChompBytes(Chars(value))
    ensures em.indention ==> old(em.indention)
  {
    hide IsBreak, IsSpace, CharLength, ValidUtf8, Join, Trailing;
    ghost var cs := Chars(value);
    CharsAreChars(value);
    CharsJoin(value);
    assert value[..|value|] == value;
    FirstOfChars(value);
    if IsSpace(value) || IsBreak(value) {
      em.WriteIndicator(0x30 + bestIndent, false, false, false);
    }
    em.openEnded := false;
    var hint: byte := 0;
    var i := CharStart(value, |value|, cs);
    LastTrailing(cs);
    if !IsBreak(value[i..]) {
      hint := MINUS;
    } else if i == 0 {
      FirstAtZero(cs);
      hint := PLUS;
      em.openEnded := true;
    } else {
      ghost var ds := cs[..|cs| - 1];
      assert ds != [] by { if ds == [] { NothingJoined(); } }
      i := CharStart(value, i, ds);
      LastTrailing(ds);
      if IsBreak(value[i..]) {
        hint := PLUS;
        em.openEnded := true;
      }
    }
    if hint != 0 {
      em.WriteIndicator(hint, false, false, false);
    }
  }

  lemma {:induction false} FirstOfChars(t: seq<byte>)
    requires t != [] && ValidUtf8(t)
    ensures Chars(t) != [] && IsSpace(t) == IsSpace(Chars(t)[0]) && IsBreak(t) == IsBreak(Chars(t)[0])
  {
    SameClass(t);
  }

  lemma {:induction false} LastTrailing(cs: seq<seq<byte>>)
    requires cs != []
    ensures Trailing(cs) == if IsBreak(cs[|cs| - 1]) then 1 + Trailing(cs[..|cs| - 1]) else 0
  {
  }

  lemma {:induction false} FirstAtZero(cs: seq<seq<byte>>)
    requires cs != [] && |Join(cs[..|cs| - 1])| == 0 && forall k | 0 <= k < |cs| :: OneChar(cs[k])
    ensures |cs| == 1 && Trailing([]) == 0 && cs[..0] == []
  {
    if |cs| > 1 { JoinPositive(cs[..|cs| - 1]); }
  }

  lemma {:induction false} JoinPositive(cs: seq<seq<byte>>)
    requires cs != [] && OneChar(cs[|cs| - 1])
    ensures |Join(cs)| > 0
  {
  }

  /** Text behind the indicator that the scanner reads as `value` in a block at `parent`,
      if what follows is indented less than `n`. */
  ghost predicate Reads(text: seq<byte>, value: seq<byte>, n: nat, parent: int)
    requires ValidUtf8(value)
  {
    var ended := Trailing(Chars(value)) > 0;
    forall t: seq<byte>, column: nat :: Ends(t, n, ended) ==>
      ScanBlock(true, text + t, column, parent) == Token(value, Left(t, n, ended))
  }

  /** Writes `value` as a literal scalar. What the analysis allowed is read back as `value`. */
  method WriteLiteralScalar(em: Q.Emitter, value: seq<byte>, bestIndent: nat, ghost parent: int)
    returns (ghost text: seq<byte>)
    requires ValidUtf8(value) && BlockWritable(Chars(value), em.unicode)
    requires 2 <= bestIndent <= 9 && parent >= -1
    requires em.indent == (if parent >= 0 then parent else 0) + bestIndent
    modifies em
    ensures em.output == old(em.output) + (if old(em.whitespace) then [] else [SPACE]) + [0x7C] + text
    ensures Reads(text, value, em.indent, parent)
  {
    hide IsBreak, IsSpace, CharLength, ValidUtf8, Content, Trailing, Join, NoSpecial, NoSpaceBreak, Ends, Left;
    hide ScanBlock, Chars;
    ghost var cs := Chars(value);
    NonemptyChars(value);
    CharsAreChars(value);
    WritableIsClean(cs, em.unicode);
    CharsJoin(value);
    em.WriteIndicator(0x7C, true, false, false);
    ghost var start := em.output;
    WriteHints(em, value, bestIndent);
    em.PutBreak();
    em.indention, em.whitespace := true, true;
    ghost var head := em.output;
    WriteLines(em, value);
    text := Text(cs, cs, bestIndent, em.indent, em.lineBreak);
    assert em.output == start + text;
    forall t: seq<byte>, column: nat | Ends(t, em.indent, Trailing(cs) > 0)
      ensures ScanBlock(true, text + t, column, parent) == Token(value, Left(t, em.indent, Trailing(cs) > 0))
    {
      ScalarRoundTrip(cs, bestIndent, em.indent, em.lineBreak, parent, t, column);
    }
  }

  lemma {:induction false} NonemptyChars(t: seq<byte>)
    requires ValidUtf8(t)
    ensures t == [] <==> Chars(t) == []
  {
  }

  /** One character of the content. */
  method WriteChar(em: Q.Emitter, value: seq<byte>, i: nat, breaks: bool) returns (i': nat, breaks': bool)
    requires i < |value| && ValidUtf8(value[i..]) && NoSpecial(Chars(value[i..]), em.unicode)
    requires em.indent > 0 && (breaks ==> em.indention && em.column == 0)
    modifies em
    ensures i < i' <= |value| && ValidUtf8(value[i'..]) && NoSpecial(Chars(value[i'..]), em.unicode)
    ensures breaks' ==> em.indention && em.column == 0
    ensures em.output + Content(Chars(value[i'..]), em.indent, em.lineBreak, breaks')
         == old(em.output) + Content(Chars(value[i..]), em.indent, em.lineBreak, breaks)
  {
    hide IsBreak, IsSpace, CharLength, ValidUtf8, Content, NoSpecial, NoSpaceBreak, NoBreakSpace, Special, Chars;
    hide OneChar, S.BreakOut, S.BreakChar;
    ghost var t := value[i..];
    ghost var w := CharLength(t);
    Q.NextChar(value, i);
    AfterChar(t, em.unicode);
    Slices(value, i, w);
    ContentChar(t, em.indent, em.lineBreak, breaks);
    i' := i + Width(value[i]);
    if IsBreak(value[i..]) {
      S.PrintableBreak(value[i..], em.unicode);
      S.WriteBreak(em, value[i..]);
      em.indention := true;
      breaks' := true;
      Regrouped(old(em.output), [], S.BreakOut(t[..w], em.lineBreak),
        Content(Chars(value[i'..]), em.indent, em.lineBreak, true));
    } else {
      if breaks { em.WriteIndent(); }
      em.Write(value[i..]);
      em.indention := false;
      breaks' := false;
      Regrouped(old(em.output), if breaks then Q.Spaces(em.indent) else [], t[..w],
                Content(Chars(value[i'..]), em.indent, em.lineBreak, false));
    }
  }

  method WriteLines(em: Q.Emitter, value: seq<byte>)
    requires ValidUtf8(value) && NoSpecial(Chars(value), em.unicode)
    requires em.indention && em.column == 0 && em.indent > 0
    modifies em
    ensures em.output == old(em.output) + Content(Chars(value), em.indent, em.lineBreak, true)
  {
    hide IsBreak, IsSpace, CharLength, ValidUtf8, Content, NoSpecial, Chars, S.BreakOut;
    var breaks, i: nat := true, 0;
    assert value[0..] == value;
    while i < |value|
      invariant i <= |value| && ValidUtf8(value[i..]) && NoSpecial(Chars(value[i..]), em.unicode)
      invariant em.output + Content(Chars(value[i..]), em.indent, em.lineBreak, breaks)
             == old(em.output) + Content(Chars(value), em.indent, em.lineBreak, true)
      invariant breaks ==> em.indention && em.column == 0
      decreases |value| - i
    {
      i, breaks := WriteChar(em, value, i, breaks);
    }
    assert value[i..] == [];
    NonemptyChars([]);
    NoContent(em.indent, em.lineBreak, breaks, [], []);
    assert em.output + [] == em.output;
  }

  lemma Regrouped(a: seq<byte>, b: seq<byte>, c: seq<byte>, d: seq<byte>)
    ensures (a + b + c) + d == a + (b + c + d) &&
            (b == [] ==> (a + c) + d == a + (c + d) && a + b == a && b + c + d == c + d)
  {
  }

  /** The content of a text, by its first character. */
  lemma {:induction false} ContentChar(t: seq<byte>, n: nat, br: Q.Break, bol: bool)
    requires t != [] && ValidUtf8(t)
    ensures var w := CharLength(t);
            w <= |t| && ValidUtf8(t[w..]) &&
            Content(Chars(t), n, br, bol) ==
            if IsBreak(t) then S.BreakOut(t[..w], br) + Content(Chars(t[w..]), n, br, true)
            else (if bol then Q.Spaces(n) else []) + t[..w] + Content(Chars(t[w..]), n, br, false)
  {
    hide IsBreak, CharLength, ValidUtf8, Chars;
    CharsCons(t);
    SameClass(t);
    assert Chars(t)[1..] == Chars(t[CharLength(t)..]);
  }
}
