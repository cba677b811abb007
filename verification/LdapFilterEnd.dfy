/** When the filter compiler runs past the end of its text. */
module LdapFilterEnd {
  import opened Octets
  import opened Utf8
  import opened LdapFilter

  // ---- What is read once stays as it is ----

  /** A pattern that cannot reach beyond the text behind which more is written. */
  lemma PatternStays(p: seq<byte>, t: seq<byte>, b: byte, c: seq<byte>)
    requires b !in p && b in t
    ensures p <= t + c <==> p <= t
  {
    var i :| 0 <= i < |t| && t[i] == b;
    assert (t + c)[i] == b;
    if p <= t + c && |p| <= |t| { assert p == (t + c)[..|p|] == t[..|p|]; }
    if p <= t { assert p == t[..|p|] == (t + c)[..|p|]; }
  }

  lemma PatternEnds(p: seq<byte>, t: seq<byte>, b: byte)
    requires b !in p
    ensures p <= t + [b] <==> p <= t
  {
    assert (t + [b])[|t|] == b;
    if p <= t + [b] && |p| <= |t| { assert p == (t + [b])[..|p|] == t[..|p|]; }
    if p <= t { assert p == t[..|p|] == (t + [b])[..|p|]; }
  }

  /** Two texts at which an item goes on in the same way. */
  predicate SameStep(t: seq<byte>, u: seq<byte>)
    requires t != [] && u != []
  {
    && t[0] == u[0] && RuneWidth(t) == RuneWidth(u) && t[..RuneWidth(t)] == u[..RuneWidth(u)]
    && ([COLON] + DN + [COLON, EQUAL] <= t <==> [COLON] + DN + [COLON, EQUAL] <= u)
    && ([COLON] + DN + [COLON] <= t <==> [COLON] + DN + [COLON] <= u)
    && ([COLON, EQUAL] <= t <==> [COLON, EQUAL] <= u) && ([GREATER, EQUAL] <= t <==> [GREATER, EQUAL] <= u)
    && ([LESS, EQUAL] <= t <==> [LESS, EQUAL] <= u) && ([TILDE, EQUAL] <= t <==> [TILDE, EQUAL] <= u)
  }

  lemma StepBeforeClose(t: seq<byte>, b: byte, c: seq<byte>)
    requires RuneWidth(t) > 0 && b in t && (b == CLOSE || b == 0xFF)
    ensures SameStep(t, t + c)
  {
    hide RuneWidth;
    RuneStays(t, c);
    assert t[..RuneWidth(t)] == (t + c)[..RuneWidth(t)];
    PatternStays([COLON] + DN + [COLON, EQUAL], t, b, c);
    PatternStays([COLON] + DN + [COLON], t, b, c);
    PatternStays([COLON, EQUAL], t, b, c);
    PatternStays([GREATER, EQUAL], t, b, c);
    PatternStays([LESS, EQUAL], t, b, c);
    PatternStays([TILDE, EQUAL], t, b, c);
  }

  lemma StepBeforeInvalid(t: seq<byte>, c: seq<byte>)
    requires RuneWidth(t) > 0
    ensures SameStep(t, t + ([0xFF] + c))
  {
    hide RuneWidth;
    var u := t + [0xFF];
    assert u[|t|] == 0xFF;
    RuneStays(t, [0xFF]);
    assert t[..RuneWidth(t)] == u[..RuneWidth(t)];
    PatternEnds([COLON] + DN + [COLON, EQUAL], t, 0xFF);
    PatternEnds([COLON] + DN + [COLON], t, 0xFF);
    PatternEnds([COLON, EQUAL], t, 0xFF);
    PatternEnds([GREATER, EQUAL], t, 0xFF);
    PatternEnds([LESS, EQUAL], t, 0xFF);
    PatternEnds([TILDE, EQUAL], t, 0xFF);
    StepBeforeClose(u, 0xFF, c);
    assert u + c == t + ([0xFF] + c);
  }

  lemma StepSame(it: Item, t: seq<byte>, u: seq<byte>)
    requires t != [] && u != [] && RuneWidth(t) > 0 && SameStep(t, u)
    ensures ItemStep(it, u) == ItemStep(it, t)
  {
    hide RuneWidth;
  }

  /** An item that is closed. */
  lemma {:induction false} ItemStays(t: seq<byte>, it: Item, c: seq<byte>)
    requires ReadItem(t, it).Ok? && ReadItem(t, it).value.1 < |t|
    ensures ReadItem(t + c, it) == ReadItem(t, it)
    decreases |t|
  {
    hide RuneWidth, ItemStep;
    if t[0] == CLOSE {
      AtClose(t + c, it);
    } else {
      var (it', w) := ItemStep(it, t);
      var n := ReadItem(t, it).value.1;
      assert t[n] == CLOSE && CLOSE in t;
      StepBeforeClose(t, CLOSE, c);
      StepSame(it, t, t + c);
      assert (t + c)[w..] == t[w..] + c;
      ItemStays(t[w..], it', c);
    }
  }

  /** One that is not, before a byte that is no character. */
  lemma {:induction false} ItemBreaks(t: seq<byte>, it: Item, c: seq<byte>)
    requires ReadItem(t, it).Err? || ReadItem(t, it).value.1 == |t|
    ensures ReadItem(t + ([0xFF] + c), it).Err?
    decreases |t|
  {
    hide RuneWidth, ItemStep;
    var u := t + ([0xFF] + c);
    if t == [] || RuneWidth(t) == 0 {
      NoRune(t, c);
    } else {
      var (it', w) := ItemStep(it, t);
      StepBeforeInvalid(t, c);
      StepSame(it, t, u);
      assert u[w..] == t[w..] + ([0xFF] + c);
      ItemBreaks(t[w..], it', c);
    }
  }

  lemma NoRune(t: seq<byte>, c: seq<byte>)
    requires RuneWidth(t) == 0
    ensures var u := t + ([0xFF] + c); RuneWidth(u) == 0 && u[0] != CLOSE && (t != [] ==> u[0] == t[0])
  {
    var u := t + ([0xFF] + c);
    assert forall i | 0 <= i < |t| :: u[i] == t[i];
    assert u[|t|] == 0xFF;
    if |t| >= 3 { assert t[..3] == u[..3]; }
    if [0xEF, 0xBF, 0xBD] <= t { assert u[..3] == t[..3]; }
  }

  // ---- Filters and sets ----

  /** A filter that ends within the text does not depend on what follows. */
  lemma {:induction false} Stays(t: seq<byte>, c: seq<byte>)
    requires Compile(t).Ok? && Compile(t).value.1 <= |t|
    ensures Compile(t + c) == Compile(t)
    decreases |t|, 0
  {
    hide RuneWidth, ReadItem, Finish;
    RuneStays(t, c);
    assert (t + c)[1..] == t[1..] + c;
    if t[0] == OPEN || t[0] == NOT {
      Stays(t[1..], c);
    } else if t[0] == AND || t[0] == OR {
      SetStays(t[1..], [], c);
    } else {
      ItemStays(t, START, c);
    }
  }

  /** A set goes on behind a filter. */
  lemma {:induction false} SetGoesOnBehind(t: seq<byte>, fs: seq<Filter>, c: seq<byte>)
    requires t != [] && t[0] == OPEN && Compile(t[1..]).Ok? && 1 + Compile(t[1..]).value.1 <= |t|
    ensures var (f, n) := Compile(t[1..]).value;
            && CompileSet(t, fs) == Skipped(1 + n, CompileSet(t[1 + n..], fs + [f]))
            && CompileSet(t + c, fs) == Skipped(1 + n, CompileSet(t[1 + n..] + c, fs + [f]))
    decreases |t|, 1
  {
    hide Compile;
    var (f, n) := Compile(t[1..]).value;
    assert (t + c)[1..] == t[1..] + c && (t + c)[1 + n..] == t[1 + n..] + c;
    Stays(t[1..], c);
  }

  lemma {:induction false} SetStays(t: seq<byte>, fs: seq<Filter>, c: seq<byte>)
    requires CompileSet(t, fs).Ok? && CompileSet(t, fs).value.1 <= |t|
    ensures CompileSet(t + c, fs) == CompileSet(t, fs)
    decreases |t|, 2
  {
    hide Compile;
    if t[0] == OPEN {
      var (f, n) := Compile(t[1..]).value;
      SetGoesOnBehind(t, fs, c);
      SetStays(t[1 + n..], fs + [f], c);
    }
  }

  function Closings(k: nat): seq<byte> {
    seq(k, _ => CLOSE)
  }

  /** A filter that ends beyond the text: it compiles when closing parentheses are added,
      and in place of the first of them any byte will do. */
  lemma {:induction false} Completed(t: seq<byte>, x: byte, k: nat)
    requires Compile(t).Ok? && Compile(t).value.1 == |t| + 1 + k
    ensures Compile(t + ([x] + Closings(k))) == Compile(t)
    decreases |t|, 0
  {
    hide RuneWidth, ReadItem, Finish;
    var c := [x] + Closings(k);
    RuneStays(t, c);
    assert (t + c)[1..] == t[1..] + c;
    if t[0] == OPEN {
      if k == 0 { Stays(t[1..], c); } else { CompletedInside(t[1..], x, k); }
    } else if t[0] == NOT {
      Completed(t[1..], x, k);
    } else if t[0] == AND || t[0] == OR {
      SetCompleted(t[1..], [], x, k);
    }
  }

  lemma {:induction false} CompletedInside(t: seq<byte>, x: byte, k: nat)
    requires k > 0 && Compile(t).Ok? && Compile(t).value.1 == |t| + k
    ensures Compile(t + ([x] + Closings(k))) == Compile(t)
    decreases |t|, 1
  {
    hide Compile;
    Completed(t, x, k - 1);
    assert t + ([x] + Closings(k)) == t + ([x] + Closings(k - 1)) + [CLOSE];
    Stays(t + ([x] + Closings(k - 1)), [CLOSE]);
  }

  lemma {:induction false} SetCompleted(t: seq<byte>, fs: seq<Filter>, x: byte, k: nat)
    requires CompileSet(t, fs).Ok? && CompileSet(t, fs).value.1 == |t| + 1 + k
    ensures CompileSet(t + ([x] + Closings(k)), fs) == CompileSet(t, fs)
    decreases |t|, 2
  {
    hide Compile;
    var c := [x] + Closings(k);
    var (f, n) := Compile(t[1..]).value;
    assert (t + c)[1..] == t[1..] + c;
    if 1 + n > |t| {
      CompletedInside(t[1..], x, k);
      assert (t + c)[1 + n..] == [CLOSE];
    } else {
      Stays(t[1..], c);
      assert (t + c)[1 + n..] == t[1 + n..] + c;
      SetCompleted(t[1 + n..], fs + [f], x, k);
    }
  }

  /** No filter starts with a closing parenthesis. */
  lemma {:induction false} NothingCloses(k: nat)
    ensures Compile(Closings(k)).Err?
  {
    if k > 0 { AtClose(Closings(k), START); }
  }

  /** A filter that fails cannot be completed whatever the next byte is. */
  lemma {:induction false} Fails(t: seq<byte>, k: nat)
    requires Compile(t).Err?
    ensures Compile(t + ([0xFF] + Closings(k))).Err? || Compile(t + ([OPEN] + Closings(k))).Err?
    decreases |t|, 0
  {
    hide RuneWidth, ReadItem, Finish;
    var c, d := [0xFF] + Closings(k), [OPEN] + Closings(k);
    if t == [] {
      assert t + d == d && d[1..] == Closings(k);
      NothingCloses(k);
      OpenRune(d);
    } else if RuneWidth(t) == 0 {
      NoRune(t, Closings(k));
    } else {
      RuneStays(t, c);
      RuneStays(t, d);
      assert (t + c)[1..] == t[1..] + c && (t + d)[1..] == t[1..] + d;
      if t[0] == OPEN || t[0] == NOT {
        Fails(t[1..], k);
      } else if t[0] == AND || t[0] == OR {
        SetFails(t[1..], [], k);
      } else if ReadItem(t, START).Err? || ReadItem(t, START).value.1 == |t| {
        ItemBreaks(t, START, Closings(k));
      } else {
        ItemStays(t, START, c);
      }
    }
  }

  lemma {:induction false} SetFails(t: seq<byte>, fs: seq<Filter>, k: nat)
    requires CompileSet(t, fs).Err?
    ensures CompileSet(t + ([0xFF] + Closings(k)), fs).Err? || CompileSet(t + ([OPEN] + Closings(k)), fs).Err?
    decreases |t|, 1
  {
    hide Compile, CompileSet, Closings;
    var c, d := [0xFF] + Closings(k), [OPEN] + Closings(k);
    SetErrs(t, fs);
    if t == [] {
      assert t + d == d && d[1..] == Closings(k);
      NothingCloses(k);
      SetErrs(d, fs);
    } else {
      assert (t + c)[1..] == t[1..] + c && (t + d)[1..] == t[1..] + d;
      SetErrs(t + c, fs);
      SetErrs(t + d, fs);
      if Compile(t[1..]).Err? {
        Fails(t[1..], k);
      } else {
        var (f, n) := Compile(t[1..]).value;
        SetGoesOnBehind(t, fs, c);
        SetGoesOnBehind(t, fs, d);
        SetFails(t[1 + n..], fs + [f], k);
      }
    }
  }

  lemma {:induction false} SetErrs(t: seq<byte>, fs: seq<Filter>)
    ensures t != [] && t[0] == OPEN && Compile(t[1..]).Err? ==> CompileSet(t, fs).Err?
    ensures CompileSet(t, fs).Err? ==>
              t == [] || (t[0] == OPEN && (Compile(t[1..]).Err? || 1 + Compile(t[1..]).value.1 <= |t|))
  {
    hide Compile;
  }

  // ---- When compiling crashes ----

  /** Closing parentheses are missing, and the first of them would be skipped unread. */
  ghost predicate MissesUnread(t: seq<byte>, k: nat, f: Filter) {
    forall x: byte :: Compiled(t + ([x] + Closings(k))) == Made(f)
  }

  lemma {:induction false} CrashesWhenUnread(t: seq<byte>)
    ensures Compiled(t).Crashed? <==> exists k, f :: MissesUnread(t, k, f)
  {
    hide Compile, Closings;
    if Compiled(t).Crashed? {
      var (f, n) := Compile(t[1..]).value;
      var k := n - |t|;
      forall x: byte ensures Compiled(t + ([x] + Closings(k))) == Made(f) {
        assert (t + ([x] + Closings(k)))[1..] == t[1..] + ([x] + Closings(k));
        Completed(t[1..], x, k);
        CountClosings(k);
      }
      assert MissesUnread(t, k, f);
    } else if exists k, f :: MissesUnread(t, k, f) {
      var k, f :| MissesUnread(t, k, f);
      NotCompleted(t, k, f);
    }
  }

  lemma CountClosings(k: nat)
    ensures |Closings(k)| == k
  {
  }

  lemma {:induction false} NotCompleted(t: seq<byte>, k: nat, f: Filter)
    requires !Compiled(t).Crashed?
    ensures !MissesUnread(t, k, f)
  {
    hide Compile, Closings;
    var c, d := [0xFF] + Closings(k), [OPEN] + Closings(k);
    CountClosings(k);
    if t == [] {
      assert t + c == c;
    } else {
      assert (t + c)[1..] == t[1..] + c && (t + d)[1..] == t[1..] + d;
      if Compile(t[1..]).Err? { Fails(t[1..], k); }
      else if t[0] == OPEN { Stays(t[1..], c); }
    }
    assert Compiled(t + c) != Made(f) || Compiled(t + d) != Made(f);
  }

  /** A filter behind a parenthesis that is never closed, as "((a=b)" and "(!(a=b)". */
  lemma {:induction false} NeverClosed(f: Filter)
    requires Writable(f)
    ensures Compiled([OPEN] + Decompile(f)) == Crashed && Compiled([OPEN, NOT] + Decompile(f)) == Crashed
  {
    hide Body, Compile, Writable;
    var t := Decompile(f);
    BodyRoundTrip(f, []);
    assert t[1..] == Body(f) + [] && ([OPEN] + t)[1..] == t && ([OPEN, NOT] + t)[1..] == [NOT] + t &&
           ([NOT] + t)[1..] == t;
    OpensTwice(t);
    NotAhead(t);
  }

  lemma {:induction false} OpensTwice(t: seq<byte>)
    requires t != [] && t[0] == OPEN && Compile(t[1..]).Ok?
    ensures Compile(t) == Ok((Compile(t[1..]).value.0, Compile(t[1..]).value.1 + 2))
  {
    AsciiRune(t);
  }

  lemma {:induction false} NotAhead(t: seq<byte>)
    requires Compile(t).Ok?
    ensures Compile([NOT] + t) == Ok((Not(Compile(t).value.0), Compile(t).value.1 + 1))
  {
    AsciiRune([NOT] + t);
    assert ([NOT] + t)[1..] == t;
  }
}
