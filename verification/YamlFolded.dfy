/** The folded scalar writer, what the block scanner makes of what it writes, and which
    texts come back. */
module YamlFolded {
  import opened Octets
  import opened Utf8
  import opened YamlBytes
  import opened YamlFlowScanner
  import opened YamlBlockScanner
  import opened YamlAnalysis
  import opened YamlLiteral
  import Q = YamlQuoted
  import S = YamlSingleQuoted

  // ---- What is written ----

  /** Whether a break behind a line is doubled: the writer looks at the first character of
      the text that is no break, wherever the break is. */
  predicate Doubles(cs: seq<seq<byte>>) {
    Leading(cs) < |cs| && !IsBlank(cs[Leading(cs)])
  }

  /** A line is broken at a single space behind the width. */
  predicate BreaksAt(cs: seq<seq<byte>>, width: int, column: nat) {
    |cs| > 1 && IsSpace(cs[0]) && !IsSpace(cs[1]) && !IsBreak(cs[1]) && column > width
  }

  /** The characters written for `cs`, as lines indented by `n`. `breaks` is between two
      lines, `blank` says that the line before began with a blank. */
  function Fold(cs: seq<seq<byte>>, n: nat, width: int, doubles: bool, breaks: bool, blank: bool,
                column: nat): seq<seq<byte>> {
    if cs == [] then []
    else if IsBreak(cs[0]) then
      (if !breaks && !blank && cs[0] == [LF] && doubles then [[LF]] else []) + [cs[0]] +
        Fold(cs[1..], n, width, doubles, true, blank, 0)
    else if breaks then [cs[0]] + Fold(cs[1..], n, width, doubles, false, IsBlank(cs[0]), n + 1)
    else if BreaksAt(cs, width, column) then [[LF]] + Fold(cs[1..], n, width, doubles, false, blank, n)
    else [cs[0]] + Fold(cs[1..], n, width, doubles, false, blank, column + 1)
  }

  function Folded(cs: seq<seq<byte>>, n: nat, width: int): seq<seq<byte>> {
    Fold(cs, n, width, Doubles(cs), true, true, 0)
  }

  // ---- What is read ----

  /** A run of breaks as it is read before a line. */
  function Gap(run: seq<seq<byte>>, blank: bool, next: bool): seq<seq<byte>>
    requires run != []
  {
    if !blank && !next && run[0] == [LF] then if |run| == 1 then [[SPACE]] else run[1..] else run
  }

  /** The breaks at the end, by the chomping. */
  function Chomp(run: seq<seq<byte>>, chomping: int): seq<seq<byte>> {
    if run == [] || chomping == -1 then [] else if chomping == 1 then run else [run[0]]
  }

  /** What is read of the characters written, within a line or, behind the breaks `run`,
      between two. */
  function Unfold(ws: seq<seq<byte>>, run: seq<seq<byte>>, blank: bool, chomping: int): seq<seq<byte>> {
    if ws == [] then Chomp(run, chomping)
    else if IsBreak(ws[0]) then Unfold(ws[1..], run + [ws[0]], blank, chomping)
    else (if run == [] then [] else Gap(run, blank, IsBlank(ws[0]))) + [ws[0]] +
         Unfold(ws[1..], [], if run == [] then blank else IsBlank(ws[0]), chomping)
  }

  /** Breaks in front of all lines are read as they are. */
  function Unfolded(ws: seq<seq<byte>>, chomping: int): seq<seq<byte>> {
    var k := Leading(ws);
    if k == |ws| then ws else ws[..k] + [ws[k]] + Unfold(ws[k + 1..], [], IsBlank(ws[k]), chomping)
  }

  /** The characters that are read back for `cs`. */
  function Refolded(cs: seq<seq<byte>>, n: nat, width: int): seq<seq<byte>> {
    Unfolded(Folded(cs, n, width), ChompingOf(cs))
  }

  // ---- Which texts come back ----

  /** From a place in a line, or behind the breaks `run`: the break behind a line that does
      not begin with a blank must be doubled exactly if the next line does not either, at
      most one break that is doubled may end the text, and no line that begins with a
      blank may be broken. */
  predicate KeptFrom(cs: seq<seq<byte>>, run: seq<seq<byte>>, n: nat, width: int, doubles: bool, blank: bool,
                     column: nat) {
    if cs == [] then run == [] || blank || run[0] != [LF] || !doubles || |run| == 1
    else if IsBreak(cs[0]) then KeptFrom(cs[1..], run + [cs[0]], n, width, doubles, blank, 0)
    else if run != [] then
      && (blank || run[0] != [LF] || doubles == !IsBlank(cs[0]))
      && KeptFrom(cs[1..], [], n, width, doubles, IsBlank(cs[0]), n + 1)
    else if BreaksAt(cs, width, column) then
      !blank && !IsBlank(cs[1]) && KeptFrom(cs[1..], [], n, width, doubles, blank, n)
    else KeptFrom(cs[1..], [], n, width, doubles, blank, column + 1)
  }

  predicate Kept(cs: seq<seq<byte>>, n: nat, width: int) {
    var k := Leading(cs);
    k == |cs| || KeptFrom(cs[k + 1..], [], n, width, !IsBlank(cs[k]), IsBlank(cs[k]), n + 1)
  }

  /** What has been written of the breaks `run`. */
  function Doubled(run: seq<seq<byte>>, doubles: bool, blank: bool): seq<seq<byte>> {
    if run != [] && !blank && run[0] == [LF] && doubles then [[LF]] + run else run
  }

  /** The chomping, by what stands behind a character that is no break. */
  function ChompingBehind(cs: seq<seq<byte>>): int {
    if Trailing(cs) == 0 then -1 else if Trailing(cs) == 1 then 0 else 1
  }

  predicate AllChars(cs: seq<seq<byte>>) {
    forall k | 0 <= k < |cs| :: OneChar(cs[k])
  }

  predicate AllBreaks(cs: seq<seq<byte>>) {
    forall k | 0 <= k < |cs| :: IsBreak(cs[k])
  }

  /** What is read from a place on is what stands there exactly if it is kept. */
  lemma {:induction false} UnfoldFold(cs: seq<seq<byte>>, run: seq<seq<byte>>, n: nat, width: int, doubles: bool,
                                      blank: bool, column: nat, chomping: int)
    requires AllChars(cs) && AllBreaks(run) && chomping == ChompingBehind(run + cs)
    ensures Unfold(Fold(cs, n, width, doubles, run != [], blank, column), Doubled(run, doubles, blank), blank,
              chomping) == run + cs
            <==> KeptFrom(cs, run, n, width, doubles, blank, column)
    decreases |cs|
  {
    hide IsBreak, OneChar, Trailing, Gap, BreaksAt;
    if cs == [] {
      EndKept(run, doubles, blank);
    } else if IsBreak(cs[0]) {
      assert run + cs == (run + [cs[0]]) + cs[1..];
      BreakFolds(cs, run, n, width, doubles, blank, column, chomping);
      UnfoldFold(cs[1..], run + [cs[0]], n, width, doubles, blank, 0, chomping);
    } else {
      ChompingAfter(run, cs);
      if run != [] {
        LineKept(cs, run, n, width, doubles, blank, column, chomping);
      } else if BreaksAt(cs, width, column) {
        SpaceKept(cs, n, width, doubles, blank, column, chomping);
      } else {
        UnfoldFold(cs[1..], [], n, width, doubles, blank, column + 1, chomping);
        CharKept(cs, n, width, doubles, blank, column, chomping);
      }
    }
  }

  lemma {:induction false} EndKept(run: seq<seq<byte>>, doubles: bool, blank: bool)
    requires AllBreaks(run)
    ensures Chomp(Doubled(run, doubles, blank), ChompingBehind(run + [])) == run <==>
            run == [] || blank || run[0] != [LF] || !doubles || |run| == 1
  {
    hide IsBreak;
    assert run + [] == run;
    TrailingIs(run, |run|);
    if |run| == 1 { assert [run[0]] == run; }
  }

  lemma {:induction false} ChompingAfter(run: seq<seq<byte>>, cs: seq<seq<byte>>)
    requires cs != [] && !IsBreak(cs[0])
    ensures ChompingBehind(run + cs) == ChompingBehind([] + cs[1..])
  {
    hide IsBreak, Trailing;
    TrailingBehind(run, cs);
  }

  /** A break joins the run before it. */
  lemma {:induction false} BreakFolds(cs: seq<seq<byte>>, run: seq<seq<byte>>, n: nat, width: int, doubles: bool,
                                      blank: bool, column: nat, chomping: int)
    requires cs != [] && IsBreak(cs[0])
    ensures Unfold(Fold(cs, n, width, doubles, run != [], blank, column), Doubled(run, doubles, blank), blank,
              chomping) ==
            Unfold(Fold(cs[1..], n, width, doubles, true, blank, 0), Doubled(run + [cs[0]], doubles, blank), blank,
              chomping)
  {
    hide IsBreak;
    LfIsClean();
    var ws := Fold(cs[1..], n, width, doubles, true, blank, 0);
    var us := [cs[0]] + ws;
    var rs := Doubled(run, doubles, blank);
    assert us[1..] == ws;
    if run == [] && !blank && cs[0] == [LF] && doubles {
      var vs := [[LF]] + [cs[0]] + ws;
      assert vs[1..] == us && vs[0] == [LF] && rs + [[LF]] == [[LF]];
      assert [[LF]] + [cs[0]] == Doubled(run + [cs[0]], doubles, blank);
    } else {
      assert [] + [cs[0]] + ws == us;
      assert rs + [cs[0]] == Doubled(run + [cs[0]], doubles, blank);
    }
  }

  lemma {:induction false} CharKept(cs: seq<seq<byte>>, n: nat, width: int, doubles: bool, blank: bool, column: nat,
                                    chomping: int)
    requires cs != [] && !IsBreak(cs[0]) && !BreaksAt(cs, width, column)
    ensures var ws := Fold(cs[1..], n, width, doubles, false, blank, column + 1);
            Unfold(Fold(cs, n, width, doubles, false, blank, column), [], blank, chomping) == [] + cs <==>
            Unfold(ws, [], blank, chomping) == [] + cs[1..]
  {
    hide IsBreak, BreaksAt;
    var ws := Fold(cs[1..], n, width, doubles, false, blank, column + 1);
    var u := Unfold(ws, [], blank, chomping);
    assert ([cs[0]] + ws)[1..] == ws;
    assert [] + [cs[0]] + u == [cs[0]] + u && ([cs[0]] + u)[1..] == u;
    assert [] + cs == [cs[0]] + cs[1..] && [] + cs[1..] == cs[1..];
  }

  /** The first character of a line behind breaks. */
  lemma {:induction false} LineKept(cs: seq<seq<byte>>, run: seq<seq<byte>>, n: nat, width: int, doubles: bool,
                                    blank: bool, column: nat, chomping: int)
    requires AllChars(cs) && AllBreaks(run) && run != [] && cs != [] && !IsBreak(cs[0]) &&
             chomping == ChompingBehind([] + cs[1..])
    ensures Unfold(Fold(cs, n, width, doubles, true, blank, column), Doubled(run, doubles, blank), blank, chomping) ==
            run + cs
            <==> KeptFrom(cs, run, n, width, doubles, blank, column)
    decreases |cs|, 0
  {
    hide IsBreak, OneChar, Trailing, Gap, BreaksAt;
    var next := IsBlank(cs[0]);
    var ws := Fold(cs[1..], n, width, doubles, false, next, n + 1);
    var u := Unfold(ws, [], next, chomping);
    UnfoldFold(cs[1..], [], n, width, doubles, next, n + 1, chomping);
    assert ([cs[0]] + ws)[1..] == ws && [] + cs[1..] == cs[1..];
    GapKept(run, doubles, blank, next, cs[0], u, cs[1..]);
    assert [cs[0]] + cs[1..] == cs;
  }

  /** A run of breaks before a line is read as itself, or what is read differs. */
  lemma {:induction false} GapKept(run: seq<seq<byte>>, doubles: bool, blank: bool, next: bool, c: seq<byte>,
                                   u: seq<seq<byte>>, v: seq<seq<byte>>)
    requires run != [] && AllBreaks(run) && !IsBreak(c)
    ensures Gap(Doubled(run, doubles, blank), blank, next) + [c] + u == run + ([c] + v) <==>
            (blank || run[0] != [LF] || doubles == !next) && u == v
  {
    hide IsBreak;
    var g := Gap(Doubled(run, doubles, blank), blank, next);
    var a, b := g + [c] + u, run + ([c] + v);
    assert b[|run|] == c && b[|run| + 1..] == v && a[|g|] == c && a[|g| + 1..] == u;
    assert forall k | 0 <= k < |run| :: b[k] == run[k];
    if blank || run[0] != [LF] || doubles == !next {
      assert g == run;
    } else if doubles {
      assert g == [[LF]] + run && a[|run|] == run[|run| - 1];
    } else if |run| == 1 {
      assert a[0] == [SPACE] && b[0] == [LF];
    } else {
      assert g == run[1..] && a[|run| - 1] == c && b[|run| - 1] == run[|run| - 1];
    }
  }

  /** A line broken at a space. */
  lemma {:induction false} SpaceKept(cs: seq<seq<byte>>, n: nat, width: int, doubles: bool, blank: bool, column: nat,
                                     chomping: int)
    requires AllChars(cs) && BreaksAt(cs, width, column) && chomping == ChompingBehind([] + cs[1..])
    ensures Unfold(Fold(cs, n, width, doubles, false, blank, column), [], blank, chomping) == [] + cs
            <==> KeptFrom(cs, [], n, width, doubles, blank, column)
    decreases |cs|, 0
  {
    hide IsBreak, OneChar, Trailing;
    UnfoldFold(cs[1..], [], n, width, doubles, blank, n, chomping);
    SpaceIsNoBreak(cs[0]);
    LfIsClean();
    var next := IsBlank(cs[1]);
    var ws := Fold(cs[2..], n, width, doubles, false, blank, n + 1);
    assert cs[1..][0] == cs[1] && cs[1..][1..] == cs[2..];
    assert Fold(cs[1..], n, width, doubles, false, blank, n) == [cs[1]] + ws;
    assert ([[LF]] + ([cs[1]] + ws))[1..] == [cs[1]] + ws && ([cs[1]] + ws)[1..] == ws;
    var u := Unfold([cs[1]] + ws, [[LF]], blank, chomping);
    assert [] + [[LF]] == [[LF]];
    assert Unfold(Fold(cs, n, width, doubles, false, blank, column), [], blank, chomping) == u;
    var v := Unfold([cs[1]] + ws, [], blank, chomping);
    assert [] + cs == [cs[0]] + cs[1..] && [] + cs[1..] == cs[1..];
    if !blank && !next {
      assert u == [[SPACE]] + v;
      assert u[1..] == v && ([cs[0]] + cs[1..])[1..] == cs[1..];
    } else {
      assert u[0] == [LF] && cs[0] == [SPACE];
    }
  }

  lemma SpaceIsNoBreak(c: seq<byte>)
    requires OneChar(c) && IsSpace(c)
    ensures c == [SPACE] && !IsBreak(c)
  {
  }

  /** Before the first line nothing is doubled or broken. */
  lemma {:induction false} FoldLeading(cs: seq<seq<byte>>, n: nat, width: int, doubles: bool)
    ensures var k := Leading(cs);
            Fold(cs, n, width, doubles, true, true, 0) ==
            if k == |cs| then cs
              else cs[..k] + [cs[k]] + Fold(cs[k + 1..], n, width, doubles, false, IsBlank(cs[k]), n + 1)
    ensures Leading(Fold(cs, n, width, doubles, true, true, 0)) == Leading(cs)
    decreases |cs|
  {
    hide IsBreak, Fold, IsBlank;
    if cs != [] && IsBreak(cs[0]) {
      FoldLeading(cs[1..], n, width, doubles);
      LeadingBreak(cs, n, width, doubles);
    } else {
      NoLeadingBreak(cs, n, width, doubles);
    }
  }

  lemma {:induction false} LeadingBreak(cs: seq<seq<byte>>, n: nat, width: int, doubles: bool)
    requires cs != [] && IsBreak(cs[0])
    ensures var ws := Fold(cs[1..], n, width, doubles, true, true, 0);
            && Fold(cs, n, width, doubles, true, true, 0) == [cs[0]] + ws
            && Leading([cs[0]] + ws) == 1 + Leading(ws) && Leading(cs) == 1 + Leading(cs[1..])
    ensures var k := Leading(cs);
            && [cs[0]] + cs[1..] == cs
            && (k < |cs| ==>
                 [cs[0]] + cs[1..][..k - 1] == cs[..k] && cs[1..][k - 1] == cs[k] && cs[1..][k..] == cs[k + 1..])
  {
    hide IsBreak, IsBlank;
    var ws := Fold(cs[1..], n, width, doubles, true, true, 0);
    assert [] + [cs[0]] + ws == [cs[0]] + ws && ([cs[0]] + ws)[1..] == ws;
  }

  lemma {:induction false} NoLeadingBreak(cs: seq<seq<byte>>, n: nat, width: int, doubles: bool)
    requires cs == [] || !IsBreak(cs[0])
    ensures Leading(cs) == 0 && Leading(Fold(cs, n, width, doubles, true, true, 0)) == 0
    ensures Fold(cs, n, width, doubles, true, true, 0) ==
            if cs == [] then cs else cs[..0] + [cs[0]] + Fold(cs[1..], n, width, doubles, false, IsBlank(cs[0]), n + 1)
  {
    hide IsBreak, IsBlank;
  }

  /** A text that is written as a folded scalar comes back exactly if it is kept. */
  lemma {:induction false} RefoldedKept(cs: seq<seq<byte>>, n: nat, width: int)
    requires AllChars(cs)
    ensures Refolded(cs, n, width) == cs <==> Kept(cs, n, width)
  {
    hide IsBreak, OneChar, Trailing, Fold, Unfold, KeptFrom, AllChars, IsBlank, Leading, ChompingOf, ChompingBehind;
    var k, d := Leading(cs), Doubles(cs);
    FoldLeading(cs, n, width, d);
    if k < |cs| {
      var b, ds := IsBlank(cs[k]), cs[k + 1..];
      var ws := Fold(ds, n, width, d, false, b, n + 1);
      ChompingAfter(cs[..k], cs[k..]);
      Parted(cs, k, ws);
      CharsAfter(cs, k + 1);
      HasLine(cs, k);
      UnfoldFold(ds, [], n, width, d, b, n + 1, ChompingOf(cs));
      Parted(cs, k, Unfold(ws, [], b, ChompingOf(cs)));
    }
  }

  lemma CharsAfter(cs: seq<seq<byte>>, k: nat)
    requires k <= |cs| && AllChars(cs)
    ensures AllChars(cs[k..])
  {
  }

  lemma Parted<T>(cs: seq<T>, k: nat, u: seq<T>)
    requires k < |cs|
    ensures var a := cs[..k] + [cs[k]] + u;
            && |a| > k && a[..k] == cs[..k] && a[k] == cs[k] && a[k + 1..] == u
            && (a == cs <==> u == [] + cs[k + 1..])
    ensures cs[..k] + cs[k..] == cs && cs[k..][0] == cs[k] && cs[k..][1..] == cs[k + 1..] &&
            [] + cs[k + 1..] == cs[k + 1..]
  {
    var a := cs[..k] + [cs[k]] + u;
    assert a[k + 1..] == u;
    assert cs == cs[..k] + [cs[k]] + cs[k + 1..];
  }

  lemma {:induction false} HasLine(cs: seq<seq<byte>>, k: nat)
    requires k < |cs| && !IsBreak(cs[k])
    ensures ChompingOf(cs) == ChompingBehind(cs)
  {
    hide IsBreak;
  }

  /** No line begins with a blank; `start` is at the beginning of one. */
  predicate Flush(cs: seq<seq<byte>>, start: bool) {
    cs == [] || (cs[0] != [TAB] && (start ==> !IsBlank(cs[0])) && Flush(cs[1..], IsBreak(cs[0])))
  }

  /** A text without such lines that ends in no more than one break always comes back. */
  lemma {:induction false} FlushIsKept(cs: seq<seq<byte>>, n: nat, width: int)
    requires AllChars(cs) && Flush(cs, true) && Trailing(cs) <= 1
    ensures Kept(cs, n, width)
  {
    hide IsBreak, OneChar, KeptFrom, IsBlank, Leading, Flush, Trailing, AllChars;
    var k := Leading(cs);
    FlushLeading(cs);
    if k < |cs| {
      Parted(cs, k, []);
      TrailingBehind(cs[..k], cs[k..]);
      CharsAfter(cs, k + 1);
      FlushFrom(cs[k + 1..], [], n, width, !IsBlank(cs[k]), IsBlank(cs[k]), n + 1);
    }
  }

  lemma {:induction false} FlushLeading(cs: seq<seq<byte>>)
    requires Flush(cs, true)
    ensures var k := Leading(cs); k < |cs| ==> !IsBlank(cs[k]) && Flush(cs[k + 1..], false)
  {
    hide IsBreak, IsBlank;
    if cs != [] && IsBreak(cs[0]) {
      FlushLeading(cs[1..]);
      var k := Leading(cs);
      if k < |cs| { assert cs[1..][k - 1] == cs[k] && cs[1..][k..] == cs[k + 1..]; }
    }
  }

  lemma {:induction false} FlushFrom(cs: seq<seq<byte>>, run: seq<seq<byte>>, n: nat, width: int, doubles: bool,
                                     blank: bool, column: nat)
    requires AllChars(cs) && AllBreaks(run) && Flush(cs, run != []) && Trailing(run + cs) <= 1 && doubles && !blank
    ensures KeptFrom(cs, run, n, width, doubles, blank, column)
    decreases |cs|
  {
    hide IsBreak, OneChar, IsBlank, Trailing, BreaksAt;
    if cs == [] {
      AllTrail(run);
    } else if IsBreak(cs[0]) {
      assert run + cs == (run + [cs[0]]) + cs[1..];
      FlushFrom(cs[1..], run + [cs[0]], n, width, doubles, blank, 0);
    } else {
      TrailingBehind(run, cs);
      if run != [] {
        FlushFrom(cs[1..], [], n, width, doubles, IsBlank(cs[0]), n + 1);
      } else if BreaksAt(cs, width, column) {
        BreaksInside(cs, width, column);
        NoBlankButSpace(cs[1]);
        FlushFrom(cs[1..], [], n, width, doubles, blank, n);
      } else {
        FlushFrom(cs[1..], [], n, width, doubles, blank, column + 1);
      }
    }
  }

  lemma {:induction false} TrailingBehind(run: seq<seq<byte>>, cs: seq<seq<byte>>)
    requires cs != [] && !IsBreak(cs[0])
    ensures Trailing([] + cs[1..]) == Trailing(run + cs)
  {
    hide IsBreak, Trailing;
    TrailingAfter(run + cs, |run| + 1);
    assert (run + cs)[|run| + 1..] == cs[1..] == [] + cs[1..];
  }

  lemma {:induction false} AllTrail(run: seq<seq<byte>>)
    requires AllBreaks(run)
    ensures Trailing(run + []) == |run|
  {
    hide IsBreak;
    assert run + [] == run;
    TrailingIs(run, |run|);
  }

  lemma NoBlankButSpace(c: seq<byte>)
    requires OneChar(c)
    ensures IsBlank(c) ==> IsSpace(c) || c == [TAB]
  {
  }

  // ---- What is written is scanned as that ----

  lemma {:induction false} LineUnfolds(ws: seq<seq<byte>>, blank: bool, chomping: int)
    ensures var k := LineLength(ws);
            Unfold(ws, [], blank, chomping) == ws[..k] + Unfold(ws[k..], [], blank, chomping)
    decreases |ws|
  {
    hide IsBreak, Chomp, Gap;
    var k := LineLength(ws);
    if k == 0 {
      assert ws[..0] + Unfold(ws, [], blank, chomping) == Unfold(ws, [], blank, chomping);
    } else {
      LineUnfolds(ws[1..], blank, chomping);
      assert ws[1..][k - 1..] == ws[k..] && [] + [ws[0]] + ws[1..][..k - 1] == ws[..k];
      var u := Unfold(ws[k..], [], blank, chomping);
      assert [] + [ws[0]] + (ws[1..][..k - 1] + u) == ws[..k] + u;
    }
  }

  lemma {:induction false} BreaksUnfold(ws: seq<seq<byte>>, run: seq<seq<byte>>, blank: bool, chomping: int)
    ensures var k := Leading(ws);
            Unfold(ws, run, blank, chomping) == Unfold(ws[k..], run + ws[..k], blank, chomping)
    decreases |ws|
  {
    hide IsBreak, Chomp, Gap;
    var k := Leading(ws);
    if k == 0 {
      assert run + ws[..0] == run && ws[0..] == ws;
    } else {
      BreaksUnfold(ws[1..], run + [ws[0]], blank, chomping);
      assert ws[1..][k - 1..] == ws[k..] && run + [ws[0]] + ws[1..][..k - 1] == run + ws[..k];
    }
  }

  /** What a run of breaks is read as, in bytes. */
  lemma {:induction false} GapBytes(run: seq<seq<byte>>, blank: bool, next: bool)
    requires run != [] && AllClean(run) && AllBreaks(run)
    ensures Join(Gap(run, blank, next)) == Between(false, blank, next, run[0], Join(run[1..]))
    ensures Join(run) == run[0] + Join(run[1..])
  {
    hide Join, IsBreak;
    CleanBreak(run[0]);
    JoinCons(run[0], run[1..]);
    assert run == [run[0]] + run[1..];
    if |run| == 1 {
      NothingJoined();
      OneJoined([SPACE]);
      assert run[1..] == [];
    } else {
      CleanBreak(run[1]);
      JoinCons(run[1], run[2..]);
      assert run[1..] == [run[1]] + run[2..];
    }
  }

  lemma CleanBreak(c: seq<byte>)
    requires Clean(c) && IsBreak(c)
    ensures c != [] && (c[0] == LF <==> c == [LF])
  {
  }

  lemma {:induction false} OneJoined(c: seq<byte>)
    ensures Join([c]) == c
  {
    assert [c][..0] == [] && [] + c == c;
  }

  /** The lines as they are scanned, from the first character of one on. */
  lemma {:induction false} LinesUnfold(ws: seq<seq<byte>>, n: nat, br: Q.Break, t: seq<byte>,
                                       s: seq<byte>, lead: seq<byte>, trail: seq<byte>, blank: bool, chomping: int)
    requires AllClean(ws) && n > 0 && ws != [] && !IsBreak(ws[0]) && Ends(t, n, Trailing(ws) > 0)
    requires -1 <= chomping <= 1 && (chomping == -1 <==> Trailing(ws) == 0)
    ensures Chomped(chomping, Lines(false, Content(ws, n, br, false) + t, n, n, s, lead, trail, blank)) ==
            Token(s + Between(false, blank, IsBlank(ws[0]), lead, trail) +
              Join([ws[0]] + Unfold(ws[1..], [], IsBlank(ws[0]), chomping)),
                  Left(t, n, Trailing(ws) > 0))
    decreases |ws|
  {
    hide IsBreak, IsZ, IsBlank, Ends, Clean, Content, Trailing, Join, Left, LineLength, Leading, Lines, Between, Unfold;
    hide Gap, Chomp;
    hide SkipSpaces, BodyOf, LeadOf, TrailOf, Chomped;
    var k, b := LineLength(ws), IsBlank(ws[0]);
    var u := Content(ws, n, br, false) + t;
    var s' := s + Between(false, blank, b, lead, trail);
    FirstBlank(ws, n, br, t);
    LineUnfolds(ws[1..], b, chomping);
    LengthAfter(ws);
    if k == |ws| {
      LinesEnd(false, ws, n, br, t, s, lead, trail, blank);
      LastLine(ws, b, chomping);
      Stripped(Lines(false, u, n, n, s, lead, trail, blank));
    } else {
      var ds := ws[k + 1..];
      var j := Leading(ds);
      LinesGoOn(false, ws, k, n, br, t, s, lead, trail, blank);
      LineThenBreaks(ws, k, b, chomping);
      if j < |ds| {
        var es, run := ds[j..], [ws[k]] + ds[..j];
        Rejoin(ws, k, j);
        LinesUnfold(es, n, br, t, s' + Join(ws[..k]), ws[k], Join(ds[..j]), b, chomping);
        NextJoined(ws, k, j, b, chomping, s');
      } else {
        LastBreaks(ws, k);
        EndJoined(ws, k, b, chomping, s');
        LeftEnded(t, n, chomping, s' + Join(ws[..k]), ws[k], Join(ds[..j]));
      }
    }
  }

  lemma Stripped(b: Body)
    requires b.Body?
    ensures Chomped(-1, b) == Token(b.value, b.rest)
  {
    assert b.value + [] + [] == b.value;
  }

  lemma {:induction false} LeftEnded(t: seq<byte>, n: nat, chomping: int, s: seq<byte>, lead: seq<byte>,
                                     trail: seq<byte>)
    requires 0 <= chomping <= 1
    ensures Chomped(chomping, Body(s, lead, trail, SkipSpaces(t, 0, n).0)) ==
            Token(s + lead + (if chomping == 1 then trail else []), Left(t, n, true))
  {
    hide SkipSpaces;
  }

  lemma {:induction false} FirstBlank(ws: seq<seq<byte>>, n: nat, br: Q.Break, t: seq<byte>)
    requires AllClean(ws) && ws != [] && !IsBreak(ws[0])
    ensures IsBlank(Content(ws, n, br, false) + t) == IsBlank(ws[0])
  {
    hide Content, IsBreak;
    LineFront(ws, n, br, t);
    var v := Content(ws, n, br, false) + t;
    assert Clean(ws[0]) && v[0] == ws[0][0];
  }

  lemma {:induction false} LengthAfter(ws: seq<seq<byte>>)
    requires ws != [] && !IsBreak(ws[0])
    ensures LineLength(ws) == 1 + LineLength(ws[1..])
  {
  }

  lemma {:induction false} LastLine(ws: seq<seq<byte>>, blank: bool, chomping: int)
    requires ws != [] && LineLength(ws) == |ws| && LineLength(ws[1..]) == |ws| - 1
    requires Unfold(ws[1..], [], blank, chomping) ==
             ws[1..][..|ws| - 1] + Unfold(ws[1..][|ws| - 1..], [], blank, chomping)
    ensures [ws[0]] + Unfold(ws[1..], [], blank, chomping) == ws
  {
    assert ws[1..][|ws| - 1..] == [] && ws[1..][..|ws| - 1] == ws[1..];
    assert ws == [ws[0]] + ws[1..] + [];
  }

  /** A line, the break behind it, and further breaks. */
  lemma {:induction false} LineThenBreaks(ws: seq<seq<byte>>, k: nat, blank: bool, chomping: int)
    requires 0 < k < |ws| && k == LineLength(ws) && k == 1 + LineLength(ws[1..])
    requires Unfold(ws[1..], [], blank, chomping) == ws[1..][..k - 1] + Unfold(ws[1..][k - 1..], [], blank, chomping)
    ensures var ds := ws[k + 1..];
            var j := Leading(ds);
            [ws[0]] + Unfold(ws[1..], [], blank, chomping) ==
              ws[..k] + Unfold(ds[j..], [ws[k]] + ds[..j], blank, chomping)
  {
    hide IsBreak, Unfold, LineLength, Leading;
    var us, ds := ws[k..], ws[k + 1..];
    assert ws[1..][k - 1..] == us && us[0] == ws[k] && us[1..] == ds;
    BreakUnfolds(us, blank, chomping);
    BreaksUnfold(ds, [ws[k]], blank, chomping);
    assert ws[..k] == [ws[0]] + ws[1..][..k - 1];
    var u := Unfold(us, [], blank, chomping);
    assert [ws[0]] + (ws[1..][..k - 1] + u) == ws[..k] + u;
  }

  lemma {:induction false} BreakUnfolds(ws: seq<seq<byte>>, blank: bool, chomping: int)
    requires ws != [] && IsBreak(ws[0])
    ensures Unfold(ws, [], blank, chomping) == Unfold(ws[1..], [ws[0]], blank, chomping)
  {
    hide IsBreak;
    assert [] + [ws[0]] == [ws[0]];
  }

  lemma {:induction false} NextJoined(ws: seq<seq<byte>>, k: nat, j: nat, blank: bool, chomping: int, s: seq<byte>)
    requires AllClean(ws) && 0 < k < |ws| && IsBreak(ws[k]) && j == Leading(ws[k + 1..]) < |ws| - k - 1
    ensures var ds := ws[k + 1..];
            var es := ds[j..];
            s + Join(ws[..k] + Unfold(es, [ws[k]] + ds[..j], blank, chomping)) ==
            s + Join(ws[..k]) + Between(false, blank, IsBlank(es[0]), ws[k], Join(ds[..j])) +
            Join([es[0]] + Unfold(es[1..], [], IsBlank(es[0]), chomping))
  {
    hide IsBreak, IsBlank, Join, Gap, Between, Clean;
    var ds := ws[k + 1..];
    var es, run := ds[j..], [ws[k]] + ds[..j];
    var next := IsBlank(es[0]);
    var v := [es[0]] + Unfold(es[1..], [], next, chomping);
    assert run[1..] == ds[..j];
    GapBytes(run, blank, next);
    var g := Gap(run, blank, next);
    assert Unfold(es, run, blank, chomping) == g + v;
    JoinAppend(ws[..k], g + v);
    JoinAppend(g, v);
    Associate(s, Join(ws[..k]), Join(g), Join(v), []);
    assert s + Join(ws[..k]) + Join(g) + Join(v) == s + (Join(ws[..k]) + (Join(g) + Join(v)));
  }

  lemma {:induction false} EndJoined(ws: seq<seq<byte>>, k: nat, blank: bool, chomping: int, s: seq<byte>)
    requires AllClean(ws) && 0 < k < |ws| && (forall i | k <= i < |ws| :: IsBreak(ws[i])) &&
             Leading(ws[k + 1..]) == |ws| - k - 1
    requires 0 <= chomping <= 1
    ensures var ds := ws[k + 1..];
            var j := Leading(ds);
            s + Join(ws[..k] + Unfold(ds[j..], [ws[k]] + ds[..j], blank, chomping)) ==
            s + Join(ws[..k]) + ws[k] + if chomping == 1 then Join(ds[..j]) else []
  {
    hide IsBreak, IsBlank, Join, Clean;
    var ds := ws[k + 1..];
    var run := [ws[k]] + ds;
    assert ds[..|ds|] == ds && ds[|ds|..] == [] && run[1..] == ds;
    GapBytes(run, blank, blank);
    OneJoined(ws[k]);
    JoinAppend(ws[..k], Chomp(run, chomping));
  }

  // ---- The whole scalar ----

  lemma {:induction false} FoldIsClean(cs: seq<seq<byte>>, n: nat, width: int, doubles: bool, breaks: bool, blank: bool,
                                       column: nat)
    requires AllClean(cs)
    ensures AllClean(Fold(cs, n, width, doubles, breaks, blank, column))
    ensures cs != [] ==>
              var ws := Fold(cs, n, width, doubles, breaks, blank, column);
              ws != [] && IsBreak(ws[|ws| - 1]) == IsBreak(cs[|cs| - 1])
    decreases |cs|
  {
    hide IsBreak, Clean, BreaksAt;
    LfIsClean();
    if cs != [] {
      var ds := cs[1..];
      assert ds != [] ==> ds[|ds| - 1] == cs[|cs| - 1];
      if IsBreak(cs[0]) {
        FoldIsClean(ds, n, width, doubles, true, blank, 0);
      } else if breaks {
        FoldIsClean(ds, n, width, doubles, false, IsBlank(cs[0]), n + 1);
      } else if BreaksAt(cs, width, column) {
        BreaksInside(cs, width, column);
        FoldIsClean(ds, n, width, doubles, false, blank, n);
      } else {
        FoldIsClean(ds, n, width, doubles, false, blank, column + 1);
      }
    }
  }

  lemma BreaksInside(cs: seq<seq<byte>>, width: int, column: nat)
    requires BreaksAt(cs, width, column)
    ensures |cs| > 1 && !IsBreak(cs[1]) && !IsSpace(cs[1])
  {
  }

  /** The lines, once the indentation is known. */
  lemma {:induction false} FoldedContent(ws: seq<seq<byte>>, n: nat, br: Q.Break, t: seq<byte>, chomping: int)
    requires AllClean(ws) && ws != [] && n > 0 && Ends(t, n, Trailing(ws) > 0)
    requires -1 <= chomping <= 1 && (chomping == -1 <==> Trailing(ws) == 0) && (Leading(ws) == |ws| ==> chomping == 1)
    ensures var r := TakeBreaks(Content(ws, n, br, true) + t, 0, n, [], 0);
            r.Breaks? && Chomped(chomping, Lines(false, r.rest, r.column, n, [], [], r.text, false))
                      == Token(Join(Unfolded(ws, chomping)), Left(t, n, Trailing(ws) > 0))
  {
    hide IsBreak, IsBlank, Content, Trailing, Join, Lines, TakeBreaks, Outdented, Clean, SkipSpaces, Unfold, Left;
    hide BodyOf, LeadOf, TrailOf, Ends;
    var k := Leading(ws);
    if k == |ws| {
      LastBreaks(ws, 0);
      EndedOutdented(t, n);
    }
    AllTrailing(ws, t, n);
    Gathers(ws, n, br, t, [], 0);
    assert [] + Join(ws[..k]) == Join(ws[..k]);
    if k < |ws| {
      if k > 0 { TrailingAfter(ws, k); } else { assert ws[k..] == ws; }
      var es := ws[k..];
      LinesUnfold(es, n, br, t, [], [], Join(ws[..k]), false, chomping);
      assert es[1..] == ws[k + 1..] && es[0] == ws[k];
      NoLead(false, IsBlank(ws[k]), Join(ws[..k]));
      JoinAppend(ws[..k], [ws[k]] + Unfold(ws[k + 1..], [], IsBlank(ws[k]), chomping));
      assert ws[..k] + [ws[k]] + Unfold(ws[k + 1..], [], IsBlank(ws[k]), chomping) ==
             ws[..k] + ([ws[k]] + Unfold(ws[k + 1..], [], IsBlank(ws[k]), chomping));
    } else {
      assert ws[..k] == ws;
      LinesStop(false, SkipSpaces(t, 0, n).0, TakeBreaks(Content(ws, n, br, true) + t, 0, n, [], 0).column, n,
        Join(ws));
      LeftEnded(t, n, 1, [], [], Join(ws));
      assert [] + [] + Join(ws) == Join(ws);
    }
  }

  lemma {:induction false} EndedOutdented(t: seq<byte>, n: nat)
    ensures Ends(t, n, true) ==> Outdented(t, n)
  {
  }

  lemma {:induction false} AllTrailing(ws: seq<seq<byte>>, t: seq<byte>, n: nat)
    requires ws != [] && Ends(t, n, Trailing(ws) > 0)
    ensures |ws| == Trailing(ws) ==> Outdented(t, n)
  {
  }

  lemma NoLead(blank: bool, next: bool, trail: seq<byte>)
    ensures [] + Between(false, blank, next, [], trail) == trail
  {
  }

  /** Scanning a folded scalar as it is written gives its characters refolded, whatever
      the block it stands in and whatever less indented text follows. */
  lemma {:induction false} ScalarRefolds(cs: seq<seq<byte>>, width: int, bestIndent: nat, n: nat, br: Q.Break,
                                         parent: int, t: seq<byte>, column: nat)
    requires AllClean(cs) && cs != [] && 2 <= bestIndent <= 9 && parent >= -1
    requires n == (if parent >= 0 then parent else 0) + bestIndent
    requires Ends(t, n, Trailing(cs) > 0)
    ensures ScanBlock(false, Text(cs, Folded(cs, n, width), bestIndent, n, br) + t, column, parent)
         == Token(Join(Refolded(cs, n, width)), Left(t, n, Trailing(cs) > 0))
  {
    hide TakeHeader, IsBreak, IsSpace, Content, Trailing, Join, Lines, TakeBreaks, Text, Ends, Left, Chomped, AllClean;
    hide ChompingOf, Fold, Leading, Unfolded;
    var ws := Folded(cs, n, width);
    FoldIsClean(cs, n, width, Doubles(cs), true, true, 0);
    SameEnds(cs, n, width);
    HeaderRead(cs, ws, bestIndent, n, br, t, column);
    FoldedContent(ws, n, br, t, ChompingOf(cs));
    if !IsSpace(cs[0]) && !IsBreak(cs[0]) {
      AutoDetected(ws, n, br, t);
    }
  }

  /** What is written begins and ends as the text does. */
  lemma {:induction false} SameEnds(cs: seq<seq<byte>>, n: nat, width: int)
    requires AllClean(cs) && cs != []
    ensures var ws := Folded(cs, n, width);
            && ws != [] && ws[0] == cs[0] && (Trailing(ws) > 0 <==> Trailing(cs) > 0)
            && (ChompingOf(cs) == -1 <==> Trailing(ws) == 0) && (Leading(ws) == |ws| ==> ChompingOf(cs) == 1)
            && -1 <= ChompingOf(cs) <= 1
  {
    hide IsBreak, Fold;
    var ws := Folded(cs, n, width);
    FoldIsClean(cs, n, width, Doubles(cs), true, true, 0);
    FoldLeading(cs, n, width, Doubles(cs));
    if Leading(cs) == |cs| { TrailingIs(cs, |cs|); }
  }

  // ---- The writer ----

  /** What is left to write. */
  ghost predicate Unwritten(value: seq<byte>, i: nat, unicode: bool) {
    i <= |value| && ValidUtf8(value[i..]) && (i < |value| ==> BlockWritable(Chars(value[i..]), unicode))
  }

  /** The first character of what is left, and what is left behind it. */
  lemma {:induction false} NextLeft(value: seq<byte>, i: nat, unicode: bool)
    requires Unwritten(value, i, unicode) && i < |value|
    ensures var t := value[i..];
            var c, cs, i' := t[..CharLength(t)], Chars(t), i + CharLength(t);
            && i' <= |value| && Unwritten(value, i', unicode) && CharLength(t) == Width(value[i]) > 0
            && cs == [c] + Chars(value[i'..]) && Clean(c) && (IsBreak(c) ==> S.BreakChar(c))
            && IsBreak(t) == IsBreak(c) && IsSpace(t) == IsSpace(c) && IsBlank(t) == IsBlank(c) &&
                 (c == [LF] <==> value[i] == LF)
            && (IsSpace(c) ==> i' == i + 1 < |value| && !IsBreak(value[i'..]))
  {
    hide IsSpace, IsBreak, IsPrintable, IsAscii, Chars, ValidUtf8, CharLength, OneChar, NoSpecial, NoSpaceBreak;
    hide NoBreakSpace;
    var t := value[i..];
    var c := t[..CharLength(t)];
    Q.NextChar(value, i);
    AfterChar(t, unicode);
    SameClass(t);
    CharsCons(t);
    Slices(value, i, CharLength(t));
    FrontOf(t, c);
    SpecialOf(Chars(t), unicode);
    PrintableIsClean(c, unicode);
    if IsBreak(t) { S.PrintableBreak(t, unicode); }
    NonemptyChars(value[i + CharLength(t)..]);
    SpaceOne(c);
  }

  lemma FrontOf(t: seq<byte>, c: seq<byte>)
    requires t != [] && c != [] && c <= t && OneChar(c)
    ensures IsBlank(t) == IsBlank(c) && (c == [LF] <==> t[0] == LF)
  {
  }

  lemma SpaceOne(c: seq<byte>)
    requires OneChar(c)
    ensures IsSpace(c) ==> |c| == 1
  {
  }

  lemma SpecialOf(cs: seq<seq<byte>>, unicode: bool)
    requires NoSpecial(cs, unicode) && cs != []
    ensures !Special(cs[0], unicode)
  {
  }

  /** The break is doubled if the first character of the text that is no break is no blank. */
  method MustDouble(value: seq<byte>, unicode: bool) returns (doubles: bool)
    requires Unwritten(value, 0, unicode) && Leading(Chars(value)) < |Chars(value)|
    ensures doubles == Doubles(Chars(value))
  {
    hide IsSpace, IsBreak, IsBlank, Chars, CharLength, OneChar, BlockWritable;
    var k: nat := 0;
    assert value[0..] == value;
    while IsBreak(value[k..])
      invariant Unwritten(value, k, unicode) && Leading(Chars(value[k..])) < |Chars(value[k..])|
      invariant Doubles(Chars(value[k..])) == Doubles(Chars(value))
      decreases |value| - k
    {
      LeadingText(value, k);
      NextLeft(value, k, unicode);
      LeadingCons(Chars(value[k..]));
      assert Chars(value[k..])[1..] == Chars(value[k + CharLength(value[k..])..]);
      k := k + Width(value[k]);
    }
    LeadingText(value, k);
    NextLeft(value, k, unicode);
    LeadingCons(Chars(value[k..]));
    NotEnd(value[k..], Chars(value[k..])[0]);
    doubles := !IsBlankz(value[k..]);
  }

  lemma {:induction false} LeadingText(value: seq<byte>, k: nat)
    requires k <= |value| && ValidUtf8(value[k..]) && Leading(Chars(value[k..])) < |Chars(value[k..])|
    ensures k < |value|
  {
  }

  lemma {:induction false} LeadingCons(cs: seq<seq<byte>>)
    requires cs != []
    ensures IsBreak(cs[0]) ==>
              Leading(cs) == 1 + Leading(cs[1..]) &&
              (Leading(cs[1..]) < |cs| - 1 ==> cs[1..][Leading(cs[1..])] == cs[Leading(cs)])
    ensures !IsBreak(cs[0]) ==> Leading(cs) == 0
  {
    hide IsBreak;
  }

  lemma NotEnd(t: seq<byte>, c: seq<byte>)
    requires c != [] && c <= t && Clean(c) && IsBreak(t) == IsBreak(c)
    ensures IsBlankz(t) == (IsBlank(c) || IsBreak(c))
  {
  }

  /** Some character is no break. */
  ghost predicate HasText(t: seq<byte>)
    requires ValidUtf8(t)
  {
    Leading(Chars(t)) < |Chars(t)|
  }

  lemma {:induction false} TextBehind(cs: seq<seq<byte>>, c: seq<byte>, ds: seq<seq<byte>>)
    requires cs == [c] + ds
    ensures !IsBreak(c) || Leading(ds) < |ds| ==> Leading(cs) < |cs|
  {
    assert cs[1..] == ds;
    LeadingCons(cs);
  }

  /** Where the writer is: what is written, and what is still to come. */
  ghost predicate Writing(em: Q.Emitter, all: seq<byte>, value: seq<byte>, i: nat, doubles: bool, breaks: bool,
                          blank: bool)
    reads em
  {
    && Unwritten(value, i, em.unicode) && em.indent > 0 &&
         (if breaks then em.indention && em.column == 0 else !em.indention)
    && em.output +
         Content(Fold(Chars(value[i..]), em.indent, em.bestWidth, doubles, breaks, blank, em.column), em.indent,
         em.lineBreak, breaks) == all
  }

  /** A break, doubled if need be. */
  method WriteFoldedBreak(em: Q.Emitter, value: seq<byte>, i: nat, breaks: bool, blank: bool, ghost all: seq<byte>)
    returns (i': nat)
    requires Unwritten(value, 0, em.unicode) && Writing(em, all, value, i, Doubles(Chars(value)), breaks, blank)
    requires i < |value| && IsBreak(value[i..]) && (!breaks ==> HasText(value))
    modifies em
    ensures i < i' && Writing(em, all, value, i', Doubles(Chars(value)), true, blank)
    ensures HasText(value[i'..]) ==> HasText(value[i..])
  {
    hide IsSpace, IsBreak, IsBlank, Chars, CharLength, OneChar, BlockWritable, Fold, Content, ValidUtf8, Doubles;
    hide Leading;
    ghost var d, c := Doubles(Chars(value)), value[i..][..CharLength(value[i..])];
    NextLeft(value, i, em.unicode);
    i' := i + Width(value[i]);
    TextBehind(Chars(value[i..]), c, Chars(value[i'..]));
    BreakWritten(Chars(value[i..]), Chars(value[i'..]), c, em.indent, em.bestWidth, d, breaks, blank, em.column,
      em.lineBreak);
    var twice := false;
    if !breaks && !blank && value[i] == LF { twice := MustDouble(value, em.unicode); }
    if twice { em.PutBreak(); }
    S.WriteBreak(em, value[i..]);
    em.indention := true;
    assert em.output ==
           old(em.output) + ((if twice then Q.BreakBytes(em.lineBreak) else []) + S.BreakOut(c, em.lineBreak));
    Onward(old(em.output), (if twice then Q.BreakBytes(em.lineBreak) else []) + S.BreakOut(c, em.lineBreak),
           Content(Fold(Chars(value[i'..]), em.indent, em.bestWidth, d, true, blank, 0), em.indent, em.lineBreak,
             true));
  }

  lemma {:induction false} BreakWritten(cs: seq<seq<byte>>, ds: seq<seq<byte>>, c: seq<byte>, n: nat, width: int,
                                        doubles: bool, breaks: bool, blank: bool,
                                        column: nat, br: Q.Break)
    requires cs == [c] + ds && IsBreak(c)
    ensures Content(Fold(cs, n, width, doubles, breaks, blank, column), n, br, breaks) ==
            (if !breaks && !blank && c == [LF] && doubles then Q.BreakBytes(br) else []) + S.BreakOut(c, br) +
            Content(Fold(ds, n, width, doubles, true, blank, 0), n, br, true)
  {
    hide IsBreak, S.BreakOut, Content;
    var ws, twice := Fold(ds, n, width, doubles, true, blank, 0), !breaks && !blank && c == [LF] && doubles;
    assert cs[1..] == ds;
    BreakContent(c, ws, n, br, breaks);
    if twice {
      LfIsClean();
      LfOut(br);
      BreakContent([LF], [c] + ws, n, br, breaks);
      BreakContent(c, ws, n, br, true);
      assert [[LF]] + [c] + ws == [[LF]] + ([c] + ws);
    } else {
      assert [] + [c] + ws == [c] + ws && [] + S.BreakOut(c, br) == S.BreakOut(c, br);
    }
  }

  lemma {:induction false} BreakContent(c: seq<byte>, ws: seq<seq<byte>>, n: nat, br: Q.Break, bol: bool)
    requires IsBreak(c)
    ensures Content([c] + ws, n, br, bol) == S.BreakOut(c, br) + Content(ws, n, br, true)
  {
    hide IsBreak, S.BreakOut;
    assert ([c] + ws)[1..] == ws;
  }

  lemma Onward(a: seq<byte>, b: seq<byte>, x: seq<byte>)
    ensures (a + b) + x == a + (b + x)
  {
  }

  lemma LfOut(br: Q.Break)
    ensures S.BreakOut([LF], br) == Q.BreakBytes(br)
  {
  }

  /** A character of a line; a single space behind the width breaks the line. */
  method WriteFoldedChar(em: Q.Emitter, value: seq<byte>, i: nat, breaks: bool, blank: bool, ghost doubles: bool,
                         ghost all: seq<byte>)
    returns (i': nat, blank': bool)
    requires Writing(em, all, value, i, doubles, breaks, blank) && i < |value| && !IsBreak(value[i..])
    modifies em
    ensures i < i' && Writing(em, all, value, i', doubles, false, blank')
    ensures HasText(value[i..])
  {
    hide IsSpace, IsBreak, IsBlank, Chars, CharLength, OneChar, BlockWritable, Fold, Content, ValidUtf8, Leading, Clean;
    hide BreaksAt;
    ghost var c, n, column := value[i..][..CharLength(value[i..])], em.indent, em.column;
    NextLeft(value, i, em.unicode);
    i' := i + Width(value[i]);
    TextBehind(Chars(value[i..]), c, Chars(value[i'..]));
    blank' := blank;
    if breaks {
      em.WriteIndent();
      blank' := IsBlank(value[i..]);
    }
    BreaksHere(value, i, em.unicode, em.bestWidth, column);
    CharWritten(Chars(value[i..]), Chars(value[i'..]), c, n, em.bestWidth, doubles, breaks, blank, column,
      em.lineBreak);
    ghost var text := if breaks then Q.Spaces(n) + c else c;
    if !breaks && IsSpace(value[i..]) && !IsSpace(value[i + 1..]) && em.column > em.bestWidth {
      em.WriteIndent();
      text := Q.BreakBytes(em.lineBreak) + Q.Spaces(n);
    } else {
      em.Write(value[i..]);
    }
    em.indention := false;
    assert em.output == old(em.output) + text;
    Onward(old(em.output), text,
      Content(Fold(Chars(value[i'..]), n, em.bestWidth, doubles, false, blank', em.column), n, em.lineBreak, false));
  }

  lemma {:induction false} BreaksHere(value: seq<byte>, i: nat, unicode: bool, width: int, column: nat)
    requires Unwritten(value, i, unicode) && i < |value|
    ensures BreaksAt(Chars(value[i..]), width, column) <==>
            IsSpace(value[i..]) && i + 1 < |value| && !IsSpace(value[i + 1..]) && column > width
    ensures IsSpace(value[i..]) ==> i + 1 < |value|
  {
    hide IsSpace, IsBreak, IsBlank, Chars, CharLength, OneChar, BlockWritable, Clean, ValidUtf8;
    NextLeft(value, i, unicode);
    var i' := i + CharLength(value[i..]);
    if i' < |value| { FirstOfChars(value[i'..]); }
  }

  lemma {:induction false} CharWritten(cs: seq<seq<byte>>, ds: seq<seq<byte>>, c: seq<byte>, n: nat, width: int,
                                       doubles: bool, breaks: bool, blank: bool,
                                       column: nat, br: Q.Break)
    requires cs == [c] + ds && !IsBreak(c)
    ensures Content(Fold(cs, n, width, doubles, breaks, blank, column), n, br, breaks) ==
            if !breaks && BreaksAt(cs, width, column)
              then Q.BreakBytes(br) + Q.Spaces(n) + Content(Fold(ds, n, width, doubles, false, blank, n), n, br, false)
            else (if breaks then Q.Spaces(n) + c else c) +
                 Content(Fold(ds, n, width, doubles, false, if breaks then IsBlank(c) else blank,
                   (if breaks then n else column) + 1), n, br, false)
  {
    hide IsBreak, BreaksAt;
    assert cs[1..] == ds;
    if !breaks && BreaksAt(cs, width, column) {
      var ws := Fold(ds, n, width, doubles, false, blank, n);
      BreaksInside(cs, width, column);
      assert ws[0] == ds[0] by { assert !BreaksAt(ds, width, n) by { SpaceFirst(ds, width, n); } }
      LfIsClean();
      LfOut(br);
      BreakContent([LF], ws, n, br, false);
      ContentText(ws, n, br);
    } else {
      var ws := Fold(ds, n, width, doubles, false, if breaks then IsBlank(c) else blank,
        (if breaks then n else column) + 1);
      assert ([c] + ws)[1..] == ws;
    }
  }

  lemma SpaceFirst(cs: seq<seq<byte>>, width: int, column: nat)
    requires cs != [] && !IsSpace(cs[0])
    ensures !BreaksAt(cs, width, column)
  {
  }

  lemma {:induction false} CharsOfJoin(cs: seq<seq<byte>>)
    requires AllChars(cs)
    ensures ValidUtf8(Join(cs)) && Chars(Join(cs)) == cs
  {
    hide Join;
    if cs == [] {
      NothingJoined();
    } else {
      var c, t := cs[0], Join(cs[1..]);
      CharsOfJoin(cs[1..]);
      JoinCons(c, cs[1..]);
      assert cs == [c] + cs[1..];
      assert OneChar(c) && forall i | 0 <= i < |c| :: (c + t)[i] == c[i];
      assert (c + t)[..|c|] == c && (c + t)[|c|..] == t;
    }
  }

  /** What the scanner reads for the text behind the indicator in a block at `parent`, if
      what follows is indented less than `n`. */
  ghost predicate ReadsAs(text: seq<byte>, read: seq<byte>, ended: bool, n: nat, parent: int) {
    forall t: seq<byte>, column: nat :: Ends(t, n, ended) ==>
      ScanBlock(false, text + t, column, parent) == Token(read, YamlLiteral.Left(t, n, ended))
  }

  /** The value is read back exactly if it is kept. */
  lemma {:induction false} ReadsAsItself(value: seq<byte>, unicode: bool, n: nat, width: int)
    requires ValidUtf8(value)
    ensures Join(Refolded(Chars(value), n, width)) == value <==> Kept(Chars(value), n, width)
  {
    hide Refolded, Kept, Join, Chars, OneChar;
    var cs := Chars(value);
    CharsAreChars(value);
    CharsJoin(value);
    RefoldedKept(cs, n, width);
    RefoldedChars(cs, n, width);
    CharsOfJoin(Refolded(cs, n, width));
  }

  lemma {:induction false} FoldChars(cs: seq<seq<byte>>, n: nat, width: int, doubles: bool, breaks: bool, blank: bool,
                                     column: nat)
    requires AllChars(cs)
    ensures AllChars(Fold(cs, n, width, doubles, breaks, blank, column))
    decreases |cs|
  {
    hide IsBreak, IsBlank, OneChar, BreaksAt;
    LfChar();
    if cs != [] {
      FoldChars(cs[1..], n, width, doubles, true, blank, 0);
      FoldChars(cs[1..], n, width, doubles, false, IsBlank(cs[0]), n + 1);
      FoldChars(cs[1..], n, width, doubles, false, blank, n);
      FoldChars(cs[1..], n, width, doubles, false, blank, column + 1);
    }
  }

  lemma LfChar()
    ensures OneChar([LF]) && OneChar([SPACE])
  {
  }

  lemma {:induction false} UnfoldChars(ws: seq<seq<byte>>, run: seq<seq<byte>>, blank: bool, chomping: int)
    requires AllChars(ws) && AllChars(run)
    ensures AllChars(Unfold(ws, run, blank, chomping))
    decreases |ws|
  {
    hide IsBreak, IsBlank, OneChar;
    LfChar();
    if ws != [] {
      if IsBreak(ws[0]) { UnfoldChars(ws[1..], run + [ws[0]], blank, chomping); }
      else { UnfoldChars(ws[1..], [], if run == [] then blank else IsBlank(ws[0]), chomping); }
    }
  }

  lemma {:induction false} RefoldedChars(cs: seq<seq<byte>>, n: nat, width: int)
    requires AllChars(cs)
    ensures AllChars(Refolded(cs, n, width))
  {
    hide OneChar, Fold, Unfold, Doubles, IsBlank;
    var ws := Folded(cs, n, width);
    FoldChars(cs, n, width, Doubles(cs), true, true, 0);
    var k := Leading(ws);
    if k < |ws| { UnfoldChars(ws[k + 1..], [], IsBlank(ws[k]), ChompingOf(cs)); }
  }

  /** Writes `value` as a folded scalar. It is read back refolded: as itself exactly if
      it is kept. */
  method WriteFoldedScalar(em: Q.Emitter, value: seq<byte>, bestIndent: nat, ghost parent: int)
    returns (ghost text: seq<byte>)
    requires ValidUtf8(value) && BlockWritable(Chars(value), em.unicode)
    requires 2 <= bestIndent <= 9 && parent >= -1
    requires em.indent == (if parent >= 0 then parent else 0) + bestIndent
    modifies em
    ensures em.output == old(em.output) + (if old(em.whitespace) then [] else [SPACE]) + [0x3E] + text
    ensures ReadsAs(text, Join(Refolded(Chars(value), em.indent, em.bestWidth)), Trailing(Chars(value)) > 0, em.indent,
              parent)
    ensures Join(Refolded(Chars(value), em.indent, em.bestWidth)) == value <==>
              Kept(Chars(value), em.indent, em.bestWidth)
  {
    hide IsBreak, IsSpace, CharLength, ValidUtf8, Content, Trailing, Join, NoSpecial, NoSpaceBreak, Ends, ScanBlock;
    hide Chars;
    hide YamlLiteral.Left, Kept, Refolded, Fold, Doubles;
    ghost var cs := Chars(value);
    NonemptyChars(value);
    CharsAreChars(value);
    WritableIsClean(cs, em.unicode);
    ReadsAsItself(value, em.unicode, em.indent, em.bestWidth);
    em.WriteIndicator(0x3E, true, false, false);
    ghost var start := em.output;
    WriteHints(em, value, bestIndent);
    em.PutBreak();
    em.indention, em.whitespace := true, true;
    WriteFoldedLines(em, value);
    text := Text(cs, Folded(cs, em.indent, em.bestWidth), bestIndent, em.indent, em.lineBreak);
    assert em.output == start + text;
    forall t: seq<byte>, column: nat | Ends(t, em.indent, Trailing(cs) > 0)
      ensures ScanBlock(false, text + t, column, parent) ==
              Token(Join(Refolded(cs, em.indent, em.bestWidth)), YamlLiteral.Left(t, em.indent, Trailing(cs) > 0))
    {
      ScalarRefolds(cs, em.bestWidth, bestIndent, em.indent, em.lineBreak, parent, t, column);
    }
  }

  method WriteFoldedLines(em: Q.Emitter, value: seq<byte>)
    requires ValidUtf8(value) && BlockWritable(Chars(value), em.unicode)
    requires em.indention && em.column == 0 && em.indent > 0
    modifies em
    ensures em.output ==
            old(em.output) + Content(Folded(Chars(value), em.indent, em.bestWidth), em.indent, em.lineBreak, true)
  {
    hide IsBreak, IsSpace, IsBlank, CharLength, ValidUtf8, BlockWritable, Content, Fold, Chars, Doubles, Leading;
    ghost var d := Doubles(Chars(value));
    ghost var all := em.output + Content(Folded(Chars(value), em.indent, em.bestWidth), em.indent, em.lineBreak, true);
    var breaks, leadingSpaces, i: nat := true, true, 0;
    assert value[0..] == value;
    while i < |value|
      invariant Writing(em, all, value, i, d, breaks, leadingSpaces)
      invariant (HasText(value[i..]) || !breaks) ==> HasText(value)
      decreases |value| - i
    {
      if IsBreak(value[i..]) {
        i := WriteFoldedBreak(em, value, i, breaks, leadingSpaces, all);
        breaks := true;
      } else {
        i, leadingSpaces := WriteFoldedChar(em, value, i, breaks, leadingSpaces, d, all);
        breaks := false;
      }
    }
    assert value[i..] == [];
    NonemptyChars([]);
    NoneFold(em.indent, em.bestWidth, d, breaks, leadingSpaces, em.column);
    NoContent(em.indent, em.lineBreak, breaks, [], []);
    assert em.output + [] == em.output;
  }

  lemma {:induction false} NoneFold(n: nat, width: int, doubles: bool, breaks: bool, blank: bool, column: nat)
    ensures Fold([], n, width, doubles, breaks, blank, column) == []
  {
  }

  // ---- Texts as strings ----

  lemma EncodedChar(v: nat)
    requires Utf8.Scalar(v)
    ensures OneChar(Encode(v)) && Decode(Encode(v)) == v
  {
    if v <= 0x7F {
    } else if v <= 0x7FF { Encoded2(v);
    } else if v <= 0xFFFF { Encoded3(v);
    } else { Encoded4(v); }
  }

  lemma Encoded2(v: nat)
    requires 0x80 <= v <= 0x7FF
    ensures OneChar(Encode(v)) && Decode(Encode(v)) == v
  {
    var x, y := v / 64, v % 64;
    assert (0xC0 + x) % 32 == x && (0x80 + y) % 64 == y;
  }

  lemma Encoded3(v: nat)
    requires 0x800 <= v <= 0xFFFF && Utf8.Scalar(v)
    ensures OneChar(Encode(v)) && Decode(Encode(v)) == v
  {
    var x, y, z := v / 4096, v / 64 % 64, v % 64;
    assert v / 64 == x * 64 + y && v == (x * 64 + y) * 64 + z;
    assert (0xE0 + x) % 16 == x && (0x80 + y) % 64 == y && (0x80 + z) % 64 == z;
  }

  lemma Encoded4(v: nat)
    requires 0x10000 <= v <= 0x10FFFF
    ensures OneChar(Encode(v)) && Decode(Encode(v)) == v
  {
    var x, y, z, u := v / 262144, v / 4096 % 64, v / 64 % 64, v % 64;
    assert v / 4096 == x * 64 + y && v / 64 == (x * 64 + y) * 64 + z && v == ((x * 64 + y) * 64 + z) * 64 + u;
    assert (0xF0 + x) % 8 == x && (0x80 + y) % 64 == y && (0x80 + z) % 64 == z && (0x80 + u) % 64 == u;
  }

  /** The characters of a string in UTF-8. */
  function Encoded(s: string): (cs: seq<seq<byte>>)
    ensures AllChars(cs)
  {
    if s == [] then []
    else
      EncodedChar(s[0] as int);
      [Encode(s[0] as int)] + Encoded(s[1..])
  }

  function Decoded(cs: seq<seq<byte>>): string
    requires AllChars(cs)
  {
    if cs == [] then []
    else
      EncodeDecode(cs[0]);
      [Decode(cs[0]) as char] + Decoded(cs[1..])
  }

  lemma {:induction false} DecodedEncoded(s: string)
    ensures Decoded(Encoded(s)) == s
  {
    hide Decode, Encode, OneChar;
    if s != [] {
      EncodedChar(s[0] as int);
      DecodedEncoded(s[1..]);
      assert Encoded(s)[1..] == Encoded(s[1..]);
    }
  }

  lemma {:induction false} EncodedDecoded(cs: seq<seq<byte>>)
    requires AllChars(cs)
    ensures Encoded(Decoded(cs)) == cs
  {
    hide Decode, Encode, OneChar;
    if cs != [] {
      EncodeDecode(cs[0]);
      EncodedDecoded(cs[1..]);
      assert Decoded(cs)[1..] == Decoded(cs[1..]);
    }
  }

  /** The string that is read back for one written in folded style. */
  function RefoldedText(s: string, n: nat, width: int): string {
    RefoldedChars(Encoded(s), n, width);
    Decoded(Refolded(Encoded(s), n, width))
  }

  predicate KeptText(s: string, n: nat, width: int) {
    Kept(Encoded(s), n, width)
  }

  lemma {:induction false} RefoldedTextKept(s: string, n: nat, width: int)
    ensures RefoldedText(s, n, width) == s <==> KeptText(s, n, width)
  {
    hide Encoded, Decoded, Refolded, Kept, OneChar;
    RefoldedChars(Encoded(s), n, width);
    RefoldedKept(Encoded(s), n, width);
    DecodedEncoded(s);
    EncodedDecoded(Refolded(Encoded(s), n, width));
  }

  /** An "a" and a line that begins with a space: the break between them is doubled, and
      read as two. */
  lemma {:induction false} SpaceBehindBreak(n: nat, width: int)
    ensures RefoldedText("a\n b", n, width) == "a\n\n b" && !KeptText("a\n b", n, width)
  {
    hide RefoldedText, KeptText, Encoded, Decoded, OneChar, Decode;
    var s, r := "a\n b", "a\n\n b";
    var a, nl, sp, b: seq<byte> := [0x61], [LF], [SPACE], [0x62];
    FourChars(s, a, nl, sp, b);
    FiveChars(r, a, nl, sp, b);
    ThisIsRefolded(Encoded(s), Encoded(r), a, nl, sp, b, n, width);
    RefoldedIs(s, r, n, width);
    RefoldedTextKept(s, n, width);
  }

  lemma {:induction false} RefoldedIs(s: string, r: string, n: nat, width: int)
    requires Refolded(Encoded(s), n, width) == Encoded(r)
    ensures RefoldedText(s, n, width) == r
  {
    hide Refolded, Encoded, Decoded, OneChar;
    DecodedEncoded(r);
  }

  lemma {:induction false} FourChars(s: string, a: seq<byte>, b: seq<byte>, c: seq<byte>, d: seq<byte>)
    requires |s| == 4 && Encode(s[0] as int) == a && Encode(s[1] as int) == b && Encode(s[2] as int) == c &&
             Encode(s[3] as int) == d
    ensures Encoded(s) == [a, b, c, d]
  {
    hide Encode;
    assert Encoded(s[4..]) == [] && s[3..][1..] == s[4..] && s[2..][1..] == s[3..] && s[1..][1..] == s[2..];
    assert Encoded(s[3..]) == [d] + Encoded(s[4..]);
    assert Encoded(s[2..]) == [c] + Encoded(s[3..]);
    assert Encoded(s[1..]) == [b] + Encoded(s[2..]);
  }

  lemma {:induction false} FiveChars(s: string, a: seq<byte>, nl: seq<byte>, sp: seq<byte>, b: seq<byte>)
    requires |s| == 5 && Encode(s[0] as int) == a && Encode(s[1] as int) == nl && Encode(s[2] as int) == nl
    requires Encode(s[3] as int) == sp && Encode(s[4] as int) == b
    ensures Encoded(s) == [a, nl, nl, sp, b]
  {
    hide Encode;
    FourChars(s[1..], nl, nl, sp, b);
  }

  lemma {:induction false} ThisIsRefolded(cs: seq<seq<byte>>, r: seq<seq<byte>>, a: seq<byte>, nl: seq<byte>,
                                          sp: seq<byte>, b: seq<byte>, n: nat, width: int)
    requires cs == [a, nl, sp, b] && r == [a, nl, nl, sp, b] && a == [0x61] && nl == [LF] && sp == [SPACE] &&
             b == [0x62]
    ensures Refolded(cs, n, width) == r
  {
    assert Leading(cs) == 0 && Doubles(cs) && cs[1..] == [nl, sp, b] && cs[1..][1..] == [sp, b] &&
           cs[1..][1..][1..] == [b] && [b][1..] == [];
    assert Fold([b], n, width, true, false, true, n + 1) == [b];
    assert Fold([sp, b], n, width, true, true, false, 0) == [sp, b];
    assert Fold([nl, sp, b], n, width, true, false, false, n + 1) == [nl, nl, sp, b];
    assert Folded(cs, n, width) == r;
    assert Trailing(cs) == 0;
    assert r[1..] == [nl, nl, sp, b] && r[1..][1..] == [nl, sp, b] && [] + [nl] == [nl] && [nl] + [nl] == [nl, nl];
    assert Unfold([b], [], true, -1) == [b];
    assert Unfold([sp, b], [nl, nl], false, -1) == [nl, nl, sp, b];
    assert Unfold([nl, sp, b], [nl], false, -1) == [nl, nl, sp, b];
    assert Unfold([nl, nl, sp, b], [], false, -1) == [nl, nl, sp, b];
  }
}
