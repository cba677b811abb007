/** What the emitter finds out about a scalar before it chooses a style. */
module YamlAnalysis {
  import opened Octets
  import opened Utf8
  import opened YamlBytes

  /** The characters of a text. */
  function Chars(t: seq<byte>): seq<seq<byte>>
    requires ValidUtf8(t)
  {
    if t == [] then [] else [t[..CharLength(t)]] + Chars(t[CharLength(t)..])
  }

  lemma {:induction false} CharsJoin(t: seq<byte>)
    requires ValidUtf8(t)
    ensures Join(Chars(t)) == t
  {
    if t != [] {
      CharsJoin(t[CharLength(t)..]);
      JoinCons(t[..CharLength(t)], Chars(t[CharLength(t)..]));
    }
  }

  /** The class of the character at the front does not depend on what follows. */
  lemma {:induction false} SameClass(t: seq<byte>)
    requires t != [] && ValidUtf8(t)
    ensures var c := t[..CharLength(t)];
            IsSpace(t) == IsSpace(c) && IsBreak(t) == IsBreak(c) && IsPrintable(t) == IsPrintable(c) &&
            IsAscii(t) == IsAscii(c) && IsBlankz(t) == IsBlankz(c)
  {
    hide ValidUtf8;
    FirstChar(t);
    var c := t[..CharLength(t)];
    assert forall i | 0 <= i < |c| :: At(c, i) == At(t, i);
  }

  predicate Special(c: seq<byte>, unicode: bool) {
    !IsPrintable(c) || (!IsAscii(c) && !unicode)
  }

  ghost predicate NoSpecial(cs: seq<seq<byte>>, unicode: bool) {
    forall k :: 0 <= k < |cs| ==> !Special(cs[k], unicode)
  }

  ghost predicate NoSpaceBreak(cs: seq<seq<byte>>) {
    forall k :: 0 <= k < |cs| - 1 ==> !(IsSpace(cs[k]) && IsBreak(cs[k + 1]))
  }

  ghost predicate NoBreakSpace(cs: seq<seq<byte>>) {
    forall k :: 0 <= k < |cs| - 1 ==> !(IsBreak(cs[k]) && IsSpace(cs[k + 1]))
  }

  ghost predicate HasBreak(cs: seq<seq<byte>>) {
    exists k :: 0 <= k < |cs| && IsBreak(cs[k])
  }

  ghost predicate SingleQuotable(cs: seq<seq<byte>>, unicode: bool) {
    NoSpecial(cs, unicode) && NoSpaceBreak(cs) && NoBreakSpace(cs)
  }

  ghost predicate BlockWritable(cs: seq<seq<byte>>, unicode: bool) {
    NoSpecial(cs, unicode) && NoSpaceBreak(cs) && cs != [] && !IsSpace(cs[|cs| - 1])
  }

  /** What holds of a text holds of the rest after a character. */
  lemma {:induction false} AfterChar(t: seq<byte>, unicode: bool)
    requires t != [] && ValidUtf8(t)
    ensures var u := t[CharLength(t)..];
            && ValidUtf8(u)
            && (NoSpecial(Chars(t), unicode) ==> !Special(t[..CharLength(t)], unicode) && NoSpecial(Chars(u), unicode))
            && (NoSpaceBreak(Chars(t)) ==> NoSpaceBreak(Chars(u)) && (u != [] && IsSpace(t) ==> !IsBreak(u)))
            && (NoBreakSpace(Chars(t)) ==> NoBreakSpace(Chars(u)) && (u != [] && IsBreak(t) ==> !IsSpace(u)))
            && (u != [] ==> Chars(u)[|Chars(u)| - 1] == Chars(t)[|Chars(t)| - 1])
  {
    hide IsSpace, IsBreak, Special;
    FirstChar(t);
    SameClass(t);
    var w := CharLength(t);
    var u := t[w..];
    var cs, ds := Chars(t), Chars(u);
    assert cs[0] == t[..w] && forall k :: 0 <= k < |ds| ==> cs[k + 1] == ds[k];
    if u != [] {
      SameClass(u);
      assert ds[0] == u[..CharLength(u)];
    }
  }

  /** The flags that the choice between quoted and block styles rests on. */
  method AnalyzeScalar(value: seq<byte>, unicode: bool)
    returns (multiline: bool, singleQuotedAllowed: bool, blockAllowed: bool)
    requires ValidUtf8(value)
    ensures multiline <==> HasBreak(Chars(value))
    ensures singleQuotedAllowed <==> SingleQuotable(Chars(value), unicode)
    ensures blockAllowed <==> BlockWritable(Chars(value), unicode)
  {
    hide IsSpace, IsBreak, IsPrintable, IsAscii, CharLength, HasBreak, NoSpecial, NoSpaceBreak, NoBreakSpace, ValidUtf8;
    hide Chars, Width;
    NoChars(unicode);
    if |value| == 0 { return false, true, false; }
    var lineBreaks, specialCharacters, trailingSpace, breakSpace, spaceBreak := false, false, false, false, false;
    var previousSpace, previousBreak := false, false;
    var i: nat := 0;
    ghost var cs: seq<seq<byte>> := [];
    assert value[0..] == value && [] + Chars(value) == Chars(value);
    while i < |value|
      invariant i <= |value| && ValidUtf8(value[i..])
      invariant Chars(value) == cs + Chars(value[i..])
      invariant lineBreaks == HasBreak(cs)
      invariant specialCharacters == !NoSpecial(cs, unicode)
      invariant spaceBreak == !NoSpaceBreak(cs) && breakSpace == !NoBreakSpace(cs)
      invariant previousSpace == (cs != [] && IsSpace(cs[|cs| - 1]))
      invariant previousBreak == (cs != [] && IsBreak(cs[|cs| - 1]))
      invariant i == 0 <==> cs == []
      invariant trailingSpace == (i == |value| && previousSpace)
      decreases |value| - i
    {
      ghost var c := value[i..][..CharLength(value[i..])];
      Stepped(value, i, cs);
      SpaceOrBreak(c);
      Appended(cs, c, unicode);
      cs := cs + [c];
      if !IsPrintable(value[i..]) || (!IsAscii(value[i..]) && !unicode) { specialCharacters := true; }
      if IsSpace(value[i..]) {
        if i + Width(value[i]) == |value| { trailingSpace := true; }
        if previousBreak { breakSpace := true; }
        previousSpace, previousBreak := true, false;
      } else if IsBreak(value[i..]) {
        lineBreaks := true;
        if previousSpace { spaceBreak := true; }
        previousSpace, previousBreak := false, true;
      } else {
        previousSpace, previousBreak := false, false;
      }
      i := i + Width(value[i]);
    }
    assert value[i..] == [] && cs + Chars([]) == cs;
    multiline, singleQuotedAllowed, blockAllowed := lineBreaks, true, true;
    if trailingSpace { blockAllowed := false; }
    if breakSpace { singleQuotedAllowed := false; }
    if spaceBreak || specialCharacters { singleQuotedAllowed, blockAllowed := false, false; }
  }

  lemma NoChars(unicode: bool)
    ensures ValidUtf8([]) && Chars([]) == [] && !HasBreak([]) && NoSpecial([], unicode) && NoSpaceBreak([]) &&
            NoBreakSpace([])
  {
  }

  lemma {:induction false} Stepped(value: seq<byte>, i: nat, cs: seq<seq<byte>>)
    requires i < |value| && ValidUtf8(value) && ValidUtf8(value[i..]) && Chars(value) == cs + Chars(value[i..])
    ensures var t := value[i..];
            var w, c := CharLength(t), t[..CharLength(t)];
            && w == Width(value[i]) > 0 && i + w <= |value| && ValidUtf8(value[i + w..])
            && Chars(value) == (cs + [c]) + Chars(value[i + w..])
            && IsSpace(t) == IsSpace(c) && IsBreak(t) == IsBreak(c)
            && IsPrintable(t) == IsPrintable(c) && IsAscii(t) == IsAscii(c)
  {
    hide IsSpace, IsBreak, IsPrintable, IsAscii, Width, Chars, ValidUtf8, CharLength, OneChar;
    var t := value[i..];
    FirstChar(t);
    SameClass(t);
    CharsCons(t);
    Regroup(cs, t[..CharLength(t)], Chars(t[CharLength(t)..]));
    Slices(value, i, CharLength(t));
  }

  lemma Slices(s: seq<byte>, i: nat, w: nat)
    requires i + w <= |s|
    ensures s[i..][w..] == s[i + w..]
  {
  }

  lemma Regroup(a: seq<seq<byte>>, c: seq<byte>, b: seq<seq<byte>>)
    ensures a + ([c] + b) == (a + [c]) + b
  {
  }

  lemma {:induction false} CharsCons(t: seq<byte>)
    requires t != [] && ValidUtf8(t)
    ensures CharLength(t) > 0 && ValidUtf8(t[CharLength(t)..])
    ensures Chars(t) == [t[..CharLength(t)]] + Chars(t[CharLength(t)..])
  {
  }

  lemma SpaceOrBreak(c: seq<byte>)
    ensures !(IsSpace(c) && IsBreak(c))
  {
  }

  lemma Appended(cs: seq<seq<byte>>, c: seq<byte>, unicode: bool)
    ensures HasBreak(cs + [c]) <==> HasBreak(cs) || IsBreak(c)
    ensures NoSpecial(cs + [c], unicode) <==> NoSpecial(cs, unicode) && !Special(c, unicode)
    ensures NoSpaceBreak(cs + [c]) <==> NoSpaceBreak(cs) && !(cs != [] && IsSpace(cs[|cs| - 1]) && IsBreak(c))
    ensures NoBreakSpace(cs + [c]) <==> NoBreakSpace(cs) && !(cs != [] && IsBreak(cs[|cs| - 1]) && IsSpace(c))
  {
    hide IsSpace, IsBreak, Special;
    var ds := cs + [c];
    assert ds[|cs|] == c && forall k :: 0 <= k < |cs| ==> ds[k] == cs[k];
    if HasBreak(cs) {
      var k :| 0 <= k < |cs| && IsBreak(cs[k]);
      assert IsBreak(ds[k]);
    }
    if cs != [] {
      var k := |cs| - 1;
      assert ds[k] == cs[k] && ds[k + 1] == c;
    }
  }
}
