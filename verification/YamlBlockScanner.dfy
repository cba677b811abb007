/** Scanning of block scalars: a specification on the remaining text, and the
    scanner's loops proved against it. */
module YamlBlockScanner {
  import opened Octets
  import opened Utf8
  import opened YamlBytes
  import opened YamlFlowScanner

  const PLUS: byte := 0x2B
  const MINUS: byte := 0x2D
  const HASH: byte := 0x23

  // ---- The header ----

  /** What stands behind the indicator: the chomping, -1, 0 or 1, and the indentation, 0 if not given. */
  datatype Header = Header(chomping: int, increment: nat, rest: seq<byte>, column: nat) | BadHeader(error: ScanError)

  predicate IsDigit(b: byte) { 0x30 <= b <= 0x39 }

  predicate IsChomping(b: byte) { b == PLUS || b == MINUS }

  function Chomping(b: byte): int { if b == PLUS then 1 else -1 }

  predicate IsBreakz(t: seq<byte>) { IsBreak(t) || IsZ(t) }

  function TakeHints(t: seq<byte>, column: nat): Header {
    var b, c := At(t, 0), At(t, 1);
    if IsChomping(b) then
      if !IsDigit(c) then Header(Chomping(b), 0, Drop(t, 1), column + 1)
      else if c == 0x30 then BadHeader(ZeroIndentation)
      else Header(Chomping(b), c - 0x30, Drop(t, 2), column + 2)
    else if IsDigit(b) then
      if b == 0x30 then BadHeader(ZeroIndentation)
      else if IsChomping(c) then Header(Chomping(c), b - 0x30, Drop(t, 2), column + 2)
      else Header(0, b - 0x30, Drop(t, 1), column + 1)
    else Header(0, 0, t, column)
  }

  function SkipBlanks(t: seq<byte>, column: nat): (r: (seq<byte>, nat))
    ensures |r.0| <= |t|
    decreases |t|
  {
    if IsBlank(t) then SkipBlanks(t[1..], column + 1) else (t, column)
  }

  /** One character is skipped at a time, which takes valid text for granted. */
  function SkipComment(t: seq<byte>, column: nat): (r: (seq<byte>, nat))
    ensures |r.0| <= |t|
    decreases |t|
  {
    if IsBreakz(t) then (t, column)
    else SkipComment(t[(if 1 <= Width(t[0]) <= |t| then Width(t[0]) else 1)..], column + 1)
  }

  function TakeHeader(t: seq<byte>, column: nat): Header {
    match TakeHints(t, column)
    case BadHeader(e) => BadHeader(e)
    case Header(chomping, increment, u, c) =>
      var (v, d) := SkipBlanks(u, c);
      var (w, e) := if At(v, 0) == HASH then SkipComment(v, d) else (v, d);
      if !IsBreakz(w) then BadHeader(ExpectedCommentOrBreak)
      else if IsBreak(w) then Header(chomping, increment, w[BreakWidth(w)..], 0)
      else Header(chomping, increment, w, e)
  }

  // ---- Breaks and indentation ----

  datatype Breaks = Breaks(rest: seq<byte>, column: nat, text: seq<byte>, widest: nat) | TabFound

  function SkipSpaces(t: seq<byte>, column: nat, indent: nat): (r: (seq<byte>, nat))
    ensures |r.0| <= |t|
    decreases |t|
  {
    if (indent == 0 || column < indent) && IsSpace(t) then SkipSpaces(t[1..], column + 1, indent) else (t, column)
  }

  function Max(a: nat, b: nat): nat { if a > b then a else b }

  /** Takes indentation and line breaks up to a line that is not empty. */
  function TakeBreaks(t: seq<byte>, column: nat, indent: nat, text: seq<byte>, widest: nat): (r: Breaks)
    ensures r.Breaks? ==> |r.rest| <= |t|
    decreases |t|
  {
    var (u, c) := SkipSpaces(t, column, indent);
    if (indent == 0 || c < indent) && At(u, 0) == TAB then TabFound
    else if !IsBreak(u) then Breaks(u, c, text, Max(widest, c))
    else TakeBreaks(u[BreakWidth(u)..], 0, indent, text + BreakText(u), Max(widest, c))
  }

  /** The indentation of the content: as given, or that of the widest line so far. */
  function Determined(indent: nat, widest: nat, parent: int): (n: nat)
    ensures indent > 0 ==> n == indent
    ensures n >= 1
  {
    if indent > 0 then indent else Max(Max(widest, if parent + 1 > 0 then parent + 1 else 0), 1)
  }

  // ---- The content ----

  datatype Line = Line(text: seq<byte>, rest: seq<byte>, column: nat) | BadLine

  function TakeLine(t: seq<byte>, s: seq<byte>, column: nat): (r: Line)
    ensures r.Line? ==> |r.rest| <= |t| && (!IsBreakz(t) ==> |r.rest| < |t|) && IsBreakz(r.rest)
    decreases |t|
  {
    if IsBreakz(t) then Line(s, t, column)
    else match TakeChar(t)
      case Refused(_) => BadLine
      case Took(c, rest) => TakeLine(rest, s + c, column + 1)
  }

  datatype Body = Body(value: seq<byte>, lead: seq<byte>, trail: seq<byte>, rest: seq<byte>) | BadBody(error: ScanError)

  /** What stands for the break `lead` of a line and the empty lines `trail` behind it,
      before a line; a folded LF becomes a space where there is no empty line. */
  function Between(literal: bool, blank: bool, next: bool, lead: seq<byte>, trail: seq<byte>): seq<byte> {
    (if !literal && !blank && !next && lead != [] && lead[0] == LF then if trail == [] then [SPACE] else [] else lead) +
      trail
  }

  /** The lines at the indentation. `lead` is the break of the line before, `trail` are
      the empty lines since, and `blank` says whether that line began with a blank. */
  function Lines(literal: bool, t: seq<byte>, column: nat, indent: nat,
                 s: seq<byte>, lead: seq<byte>, trail: seq<byte>, blank: bool): Body
    requires indent > 0
    decreases |t|
  {
    if column != indent || IsZ(t) then Body(s, lead, trail, t)
    else
      match TakeLine(t, s + Between(literal, blank, IsBlank(t), lead, trail), column)
      case BadLine => BadBody(InvalidCharacterSequence)
      case Line(s'', u, c) =>
        var next := if IsBreak(u) then TakeBreaks(u[BreakWidth(u)..], 0, indent, [], 0)
                    else TakeBreaks(u, c, indent, [], 0);
        match next
        case TabFound => BadBody(TabIndentation)
        case Breaks(v, d, trail', _) =>
          Lines(literal, v, d, indent, s'', if IsBreak(u) then BreakText(u) else [], trail', IsBlank(t))
  }

  function Chomped(chomping: int, b: Body): Scanned {
    match b
    case BadBody(e) => Failed(e)
    case Body(s, lead, trail, rest) =>
      Token(s + (if chomping != -1 then lead else []) + (if chomping == 1 then trail else []), rest)
  }

  /** Scans from behind the indicator, in a block at indentation `parent`. */
  function ScanBlock(literal: bool, t: seq<byte>, column: nat, parent: int): Scanned {
    match TakeHeader(t, column)
    case BadHeader(e) => Failed(e)
    case Header(chomping, increment, u, c) =>
      match TakeBreaks(u, c, Given(increment, parent), [], 0)
      case TabFound => Failed(TabIndentation)
      case Breaks(v, d, trail, widest) =>
        Chomped(chomping,
          Lines(literal, v, d, Determined(Given(increment, parent), widest, parent), [], [], trail, false))
  }

  function Given(increment: nat, parent: int): nat {
    if increment == 0 then 0 else if parent >= 0 then parent + increment else increment
  }

  // ---- The scanner ----

  method ScanHints(sc: Scanner) returns (ok: bool, chomping: int, increment: nat)
    requires sc.Valid()
    modifies sc
    ensures sc.Valid()
    ensures match TakeHints(old(sc.Rest()), old(sc.column))
            case BadHeader(e) => !ok && sc.error == e
            case Header(h, i, rest, column) =>
              ok && chomping == h && increment == i && sc.Rest() == rest && sc.column == column
  {
    ghost var t := sc.Rest();
    chomping, increment := 0, 0;
    if IsChomping(At(sc.Rest(), 0)) {
      chomping := Chomping(At(sc.Rest(), 0));
      sc.Skip(1);
      if IsDigit(At(sc.Rest(), 0)) {
        if At(sc.Rest(), 0) == 0x30 {
          sc.error := ZeroIndentation;
          return false, chomping, increment;
        }
        increment := At(sc.Rest(), 0) - 0x30;
        sc.Skip(1);
        assert sc.Rest() == Drop(t, 2);
      }
    } else if IsDigit(At(sc.Rest(), 0)) {
      if At(sc.Rest(), 0) == 0x30 {
        sc.error := ZeroIndentation;
        return false, chomping, increment;
      }
      increment := At(sc.Rest(), 0) - 0x30;
      sc.Skip(1);
      if IsChomping(At(sc.Rest(), 0)) {
        chomping := Chomping(At(sc.Rest(), 0));
        sc.Skip(1);
        assert sc.Rest() == Drop(t, 2);
      }
    }
    return true, chomping, increment;
  }

  method ScanHeader(sc: Scanner) returns (ok: bool, chomping: int, increment: nat)
    requires sc.Valid()
    modifies sc
    ensures sc.Valid()
    ensures match TakeHeader(old(sc.Rest()), old(sc.column))
            case BadHeader(e) => !ok && sc.error == e
            case Header(h, i, rest, column) =>
              ok && chomping == h && increment == i && sc.Rest() == rest && sc.column == column
  {
    hide TakeHints, IsBreak, IsBlank, BreakWidth;
    ok, chomping, increment := ScanHints(sc);
    if !ok { return; }
    ghost var u, c := sc.Rest(), sc.column;
    while IsBlank(sc.Rest())
      invariant sc.Valid() && SkipBlanks(u, c) == SkipBlanks(sc.Rest(), sc.column)
      decreases |sc.Rest()|
    {
      BlankIsText(sc.Rest());
      sc.Skip(1);
    }
    ghost var v, d := sc.Rest(), sc.column;
    if At(sc.Rest(), 0) == HASH {
      while !IsBreakz(sc.Rest())
        invariant sc.Valid() && SkipComment(v, d) == SkipComment(sc.Rest(), sc.column)
        decreases |sc.Rest()|
      {
        var w := Width(sc.Rest()[0]);
        sc.Skip(if 1 <= w <= |sc.Rest()| then w else 1);
      }
    }
    if !IsBreakz(sc.Rest()) {
      sc.error := ExpectedCommentOrBreak;
      return false, chomping, increment;
    }
    if IsBreak(sc.Rest()) { sc.SkipLine(); }
    return true, chomping, increment;
  }

  lemma BlankIsText(t: seq<byte>)
    requires IsBlank(t)
    ensures t != []
  {
  }

  method ScanBreaks(sc: Scanner, indent: nat, breaks: seq<byte>) returns (ok: bool, breaks': seq<byte>, widest: nat)
    requires sc.Valid()
    modifies sc
    ensures sc.Valid()
    ensures match TakeBreaks(old(sc.Rest()), old(sc.column), indent, breaks, 0)
            case TabFound => !ok && sc.error == TabIndentation
            case Breaks(rest, column, text, w) =>
              ok && sc.Rest() == rest && sc.column == column && breaks' == text && widest == w
  {
    hide IsBreak, BreakWidth, BreakText;
    breaks', widest := breaks, 0;
    while true
      invariant sc.Valid()
      invariant TakeBreaks(old(sc.Rest()), old(sc.column), indent, breaks, 0)
             == TakeBreaks(sc.Rest(), sc.column, indent, breaks', widest)
      decreases |sc.Rest()|
    {
      ghost var t, c := sc.Rest(), sc.column;
      while (indent == 0 || sc.column < indent) && IsSpace(sc.Rest())
        invariant sc.Valid() && SkipSpaces(t, c, indent) == SkipSpaces(sc.Rest(), sc.column, indent)
        invariant |sc.Rest()| <= |t|
        decreases |sc.Rest()|
      {
        sc.Skip(1);
      }
      if sc.column > widest { widest := sc.column; }
      if (indent == 0 || sc.column < indent) && At(sc.Rest(), 0) == TAB {
        sc.error := TabIndentation;
        return false, breaks', widest;
      }
      if !IsBreak(sc.Rest()) { break; }
      BreakIsText(sc.Rest());
      breaks' := sc.ReadLine(breaks');
    }
    ok := true;
  }

  lemma BreakIsText(t: seq<byte>)
    requires IsBreak(t)
    ensures t != [] && 1 <= BreakWidth(t) <= |t|
  {
  }

  /** The lines at the indentation, one after the other. */
  method ScanLines(sc: Scanner, literal: bool, indent: nat, trail: seq<byte>)
    returns (ok: bool, s: seq<byte>, leadingBreak: seq<byte>, trailingBreaks: seq<byte>)
    requires sc.Valid() && indent > 0
    modifies sc
    ensures sc.Valid()
    ensures match Lines(literal, old(sc.Rest()), old(sc.column), indent, [], [], trail, false)
            case BadBody(e) => !ok && sc.error == e
            case Body(value, l, t, rest) =>
              ok && s == value && leadingBreak == l && trailingBreaks == t && sc.Rest() == rest
  {
    hide IsBreak, IsBlank, BreakWidth, BreakText, TakeBreaks, TakeChar;
    s, leadingBreak, trailingBreaks := [], [], trail;
    var leadingBlank := false;
    while sc.column == indent && !IsZ(sc.Rest())
      invariant sc.Valid()
      invariant Lines(literal, old(sc.Rest()), old(sc.column), indent, [], [], trail, false)
             == Lines(literal, sc.Rest(), sc.column, indent, s, leadingBreak, trailingBreaks, leadingBlank)
      decreases |sc.Rest()|
    {
      ghost var before, done := |sc.Rest()|, s;
      ghost var between := Between(literal, leadingBlank, IsBlank(sc.Rest()), leadingBreak, trailingBreaks);
      var trailingBlank := IsBlank(sc.Rest());
      if !literal && !leadingBlank && !trailingBlank && |leadingBreak| > 0 && leadingBreak[0] == LF {
        if |trailingBreaks| == 0 { s := s + [SPACE]; }
      } else {
        s := s + leadingBreak;
      }
      s := s + trailingBreaks;
      assert s == done + between;
      leadingBreak, trailingBreaks, leadingBlank := [], [], trailingBlank;
      ok, s := ScanLine(sc, s);
      if !ok { return; }
      if IsBreak(sc.Rest()) {
        BreakIsText(sc.Rest());
        assert [] + BreakText(sc.Rest()) == BreakText(sc.Rest());
        leadingBreak := sc.ReadLine(leadingBreak);
      }
      var widest;
      ok, trailingBreaks, widest := ScanBreaks(sc, indent, trailingBreaks);
      if !ok { return; }
      assert |sc.Rest()| < before;
    }
    ok := true;
  }

  method ScanLine(sc: Scanner, s: seq<byte>) returns (ok: bool, s': seq<byte>)
    requires sc.Valid()
    modifies sc
    ensures sc.Valid()
    ensures match TakeLine(old(sc.Rest()), s, old(sc.column))
            case BadLine => !ok && sc.error == InvalidCharacterSequence
            case Line(text, rest, column) => ok && s' == text && sc.Rest() == rest && sc.column == column
  {
    hide IsBreak;
    s' := s;
    while !IsBreakz(sc.Rest())
      invariant sc.Valid() && TakeLine(old(sc.Rest()), s, old(sc.column)) == TakeLine(sc.Rest(), s', sc.column)
      decreases |sc.Rest()|
    {
      ok, s' := sc.Read(s');
      if !ok {
        sc.error := InvalidCharacterSequence;
        return;
      }
    }
    ok := true;
  }

  /** Scans a block scalar from its indicator on. */
  method ScanBlockScalar(sc: Scanner, literal: bool, parent: int) returns (ok: bool, value: seq<byte>)
    requires sc.Valid() && sc.Rest() != []
    modifies sc
    ensures sc.Valid()
    ensures match ScanBlock(literal, old(sc.Rest())[1..], old(sc.column) + 1, parent)
            case Failed(e) => !ok && sc.error == e
            case Token(v, rest) => ok && value == v && sc.Rest() == rest
  {
    hide TakeHeader, TakeBreaks, Lines;
    value := [];
    sc.Skip(1);
    var chomping, increment;
    ok, chomping, increment := ScanHeader(sc);
    if !ok { return; }
    var indent: nat := 0;
    if increment > 0 { indent := if parent >= 0 then parent + increment else increment; }
    var trailingBreaks, widest;
    ok, trailingBreaks, widest := ScanBreaks(sc, indent, []);
    if !ok { return; }
    indent := Determined(indent, widest, parent);
    var leadingBreak;
    ok, value, leadingBreak, trailingBreaks := ScanLines(sc, literal, indent, trailingBreaks);
    if !ok { return; }
    if chomping != -1 { value := value + leadingBreak; }
    if chomping == 1 { value := value + trailingBreaks; }
  }
}
