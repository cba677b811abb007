/** Scanning of quoted scalars: a specification on the remaining text, and the
    scanner's loops proved against it. */
module YamlFlowScanner {
  import opened Octets
  import opened Utf8
  import opened YamlBytes
  import opened Wrappers

  datatype ScanError =
    | NoError | UnexpectedDocumentIndicator | UnexpectedEndOfStream
    | UnknownEscape | ExpectedHexNumber | InvalidCharacterCode | InvalidCharacterSequence
    | ZeroIndentation | ExpectedCommentOrBreak | TabIndentation

  const TAB: byte := 0x09
  const LF: byte := 0x0A
  const CR: byte := 0x0D
  const SPACE: byte := 0x20
  const DOUBLE_QUOTE: byte := 0x22
  const SINGLE_QUOTE: byte := 0x27
  const BACKSLASH: byte := 0x5C

  function Drop(t: seq<byte>, n: nat): seq<byte> {
    if n <= |t| then t[n..] else []
  }

  // ---- Line breaks ----

  function BreakWidth(t: seq<byte>): nat
    requires IsBreak(t)
  {
    if At(t, 0) == CR && At(t, 1) == LF then 2
    else if At(t, 0) == CR || At(t, 0) == LF then 1
    else if At(t, 0) == 0xC2 then 2 else 3
  }

  /** What a line break is read as: LF, except that LS and PS stay. */
  function BreakText(t: seq<byte>): seq<byte>
    requires IsBreak(t)
  {
    if At(t, 0) == 0xE2 then t[..3] else [LF]
  }

  // ---- Escapes ----

  datatype Escape = Unknown | Stands(text: seq<byte>) | Code(digits: nat)

  function EscapeOf(b: byte): Escape {
    if b == 0x30 then Stands([0])
    else if b == 0x61 then Stands([0x07])
    else if b == 0x62 then Stands([0x08])
    else if b == 0x74 || b == TAB then Stands([TAB])
    else if b == 0x6E then Stands([LF])
    else if b == 0x76 then Stands([0x0B])
    else if b == 0x66 then Stands([0x0C])
    else if b == 0x72 then Stands([CR])
    else if b == 0x65 then Stands([0x1B])
    else if b == SPACE || b == DOUBLE_QUOTE || b == SINGLE_QUOTE || b == BACKSLASH then Stands([b])
    else if b == 0x4E then Stands([0xC2, 0x85])
    else if b == 0x5F then Stands([0xC2, 0xA0])
    else if b == 0x4C then Stands([0xE2, 0x80, 0xA8])
    else if b == 0x50 then Stands([0xE2, 0x80, 0xA9])
    else if b == 0x78 then Code(2)
    else if b == 0x75 then Code(4)
    else if b == 0x55 then Code(8)
    else Unknown
  }

  /** The value of the first `n` hexadecimal digits, if they are digits. */
  function ParseHex(t: seq<byte>, n: nat): Option<nat> {
    if n == 0 then Some(0)
    else match ParseHex(t, n - 1)
      case None => None
      case Some(v) => if IsHex(At(t, n - 1)) then Some(v * 16 + AsHex(At(t, n - 1))) else None
  }

  datatype Taken = Took(text: seq<byte>, rest: seq<byte>) | Refused(error: ScanError)

  /** An escape sequence, from its backslash on. */
  function TakeEscape(t: seq<byte>): Taken {
    match EscapeOf(At(t, 1))
    case Unknown => Refused(UnknownEscape)
    case Stands(text) => Took(text, Drop(t, 2))
    case Code(n) =>
      match ParseHex(Drop(t, 2), n)
      case None => Refused(ExpectedHexNumber)
      case Some(v) => if Scalar(v) then Took(Encode(v), Drop(t, 2 + n)) else Refused(InvalidCharacterCode)
  }

  /** One character, copied as it stands. */
  function TakeChar(t: seq<byte>): Taken {
    var w := Width(At(t, 0));
    if w == 0 || w > |t| then Refused(InvalidCharacterSequence) else Took(t[..w], t[w..])
  }

  // ---- The scalar ----

  /** A run without blanks: `leading` when it ended in an escaped line break,
      `bol` when the scanner is at the beginning of a line. */
  datatype Part = Part(s: seq<byte>, rest: seq<byte>, leading: bool, bol: bool) | Bad(error: ScanError)

  function NonBlank(single: bool, t: seq<byte>, s: seq<byte>, bol: bool): (p: Part)
    ensures p.Part? ==> |p.rest| <= |t| && (p.rest == t || |p.rest| < |t|)
    ensures p.Part? && p.rest == t ==> !p.leading
    decreases |t|
  {
    if IsBlankz(t) then Part(s, t, false, bol)
    else if single && t[0] == SINGLE_QUOTE then
      if At(t, 1) == SINGLE_QUOTE then NonBlank(single, t[2..], s + [SINGLE_QUOTE], false)
      else Part(s, t, false, bol)
    else if !single && t[0] == DOUBLE_QUOTE then Part(s, t, false, bol)
    else if !single && t[0] == BACKSLASH && IsBreak(t[1..]) then
      Part(s, t[1 + BreakWidth(t[1..])..], true, true)
    else
      match if !single && t[0] == BACKSLASH then TakeEscape(t) else TakeChar(t)
      case Refused(e) => Bad(e)
      case Took(text, rest) => if |rest| < |t| then NonBlank(single, rest, s + text, false) else Bad(NoError)
  }

  /** The blanks and breaks between two runs. */
  datatype Gap = Gap(rest: seq<byte>, leading: bool, spaces: seq<byte>, first: seq<byte>, more: seq<byte>, bol: bool)

  function Blanks(g: Gap): (r: Gap)
    ensures |r.rest| <= |g.rest|
    ensures IsBlank(g.rest) || IsBreak(g.rest) ==> |r.rest| < |g.rest|
    decreases |g.rest|
  {
    if IsBlank(g.rest) then
      Blanks(g.(rest := g.rest[1..], spaces := if g.leading then g.spaces else g.spaces + [g.rest[0]], bol := false))
    else if IsBreak(g.rest) then
      var text, rest := BreakText(g.rest), g.rest[BreakWidth(g.rest)..];
      if g.leading then Blanks(g.(rest := rest, more := g.more + text, bol := true))
      else Blanks(Gap(rest, true, [], g.first + text, g.more, true))
    else g
  }

  /** What a gap adds to the value: its spaces, or the folded line breaks. */
  function Fold(g: Gap): seq<byte> {
    if !g.leading then g.spaces
    else if g.first != [] && g.first[0] == LF then (if g.more == [] then [SPACE] else g.more)
    else g.first + g.more
  }

  predicate DocumentIndicator(t: seq<byte>) {
    ((At(t, 0) == 0x2D && At(t, 1) == 0x2D && At(t, 2) == 0x2D) ||
     (At(t, 0) == 0x2E && At(t, 1) == 0x2E && At(t, 2) == 0x2E)) && IsBlankz(Drop(t, 3))
  }

  function Quote(single: bool): byte {
    if single then SINGLE_QUOTE else DOUBLE_QUOTE
  }

  datatype Scanned = Token(value: seq<byte>, rest: seq<byte>) | Failed(error: ScanError)

  /** Scans from behind the opening quote; `s` is the value so far. */
  function Scan(single: bool, t: seq<byte>, s: seq<byte>, bol: bool): Scanned
    decreases |t|
  {
    if bol && DocumentIndicator(t) then Failed(UnexpectedDocumentIndicator)
    else if IsZ(t) then Failed(UnexpectedEndOfStream)
    else match NonBlank(single, t, s, bol)
      case Bad(e) => Failed(e)
      case Part(s', rest, leading, bol') =>
        if At(rest, 0) == Quote(single) then Token(s', rest[1..])
        else
          var g := Blanks(Gap(rest, leading, [], [], [], bol'));
          if |g.rest| < |t| then Scan(single, g.rest, s' + Fold(g), g.bol) else Failed(NoError)
  }

  class Scanner {
    const buffer: seq<byte>
    var pos: nat
    var column: nat
    var error: ScanError

    ghost predicate Valid() reads this {
      pos <= |buffer|
    }

    function Rest(): seq<byte>
      reads this
      requires Valid()
    {
      buffer[pos..]
    }

    constructor (buffer: seq<byte>)
      ensures Valid() && this.buffer == buffer && pos == 0 && column == 0 && Rest() == buffer
    {
      this.buffer := buffer;
      pos, column, error := 0, 0, NoError;
      new;
      assert buffer[0..] == buffer;
    }

    method Skip(w: nat)
      requires Valid() && pos + w <= |buffer|
      modifies this`pos, this`column
      ensures Valid() && pos == old(pos) + w && column == old(column) + 1
      ensures Rest() == old(Rest())[w..]
    {
      pos := pos + w;
      column := column + 1;
    }

    method SkipLine()
      requires Valid() && IsBreak(Rest())
      modifies this`pos, this`column
      ensures Valid() && column == 0 && Rest() == old(Rest())[BreakWidth(old(Rest()))..]
    {
      pos := pos + BreakWidth(Rest());
      column := 0;
    }

    /** Copies a character to `s`. */
    method Read(s: seq<byte>) returns (ok: bool, s': seq<byte>)
      requires Valid()
      modifies this`pos, this`column
      ensures Valid()
      ensures match TakeChar(old(Rest()))
              case Refused(_) => !ok
              case Took(text, rest) => ok && s' == s + text && Rest() == rest && column == old(column) + 1
    {
      var w := Width(At(Rest(), 0));
      s' := s;
      ok := w != 0 && w <= |Rest()|;
      if ok {
        s' := s + Rest()[..w];
        Skip(w);
      }
    }

    /** Copies a line break to `s`, normalised. */
    method ReadLine(s: seq<byte>) returns (s': seq<byte>)
      requires Valid() && IsBreak(Rest())
      modifies this`pos, this`column
      ensures Valid() && column == 0 && s' == s + BreakText(old(Rest()))
      ensures Rest() == old(Rest())[BreakWidth(old(Rest()))..]
    {
      s' := s + BreakText(Rest());
      SkipLine();
    }

    /** Scans the digits of an escape code and writes its character. */
    method ScanCode(digits: nat, s: seq<byte>) returns (ok: bool, s': seq<byte>)
      requires Valid()
      modifies this
      ensures Valid()
      ensures match ParseHex(old(Rest()), digits)
              case None => !ok && error == ExpectedHexNumber
              case Some(v) =>
                if Scalar(v) then ok && error == old(error) && s' == s + Encode(v) && digits <= |old(Rest())| &&
                  Rest() == old(Rest())[digits..]
                else !ok && error == InvalidCharacterCode
      ensures ok ==> column == old(column) + digits
    {
      s' := s;
      var value, k := 0, 0;
      while k < digits
        invariant 0 <= k <= digits && ParseHex(Rest(), k) == Some(value)
        invariant k <= |Rest()|
      {
        if !IsHex(At(Rest(), k)) {
          HexStops(Rest(), k, digits);
          error := ExpectedHexNumber;
          return false, s';
        }
        value := value * 16 + AsHex(At(Rest(), k));
        k := k + 1;
      }
      if (0xD800 <= value <= 0xDFFF) || value > 0x10FFFF {
        error := InvalidCharacterCode;
        return false, s';
      }
      s' := s + Encode(value);
      k := 0;
      while k < digits
        invariant 0 <= k <= digits <= |old(Rest())| && Valid()
        invariant Rest() == old(Rest())[k..] && column == old(column) + k && error == old(error)
      {
        Skip(1);
        k := k + 1;
      }
      return true, s';
    }

    method ScanEscape(s: seq<byte>) returns (ok: bool, s': seq<byte>)
      requires Valid() && Rest() != [] && Rest()[0] == BACKSLASH
      modifies this
      ensures Valid()
      ensures match TakeEscape(old(Rest()))
              case Refused(e) => !ok && error == e
              case Took(text, rest) => ok && error == old(error) && s' == s + text && Rest() == rest
      ensures ok ==> |Rest()| < |old(Rest())| && column > 0
    {
      ghost var t := Rest();
      var escape := EscapeOf(At(Rest(), 1));
      if escape.Unknown? {
        error := UnknownEscape;
        return false, s;
      }
      Skip(1);
      Skip(1);
      assert Rest() == Drop(t, 2);
      if escape.Stands? {
        return true, s + escape.text;
      }
      ok, s' := ScanCode(escape.digits, s);
    }

    /** Consumes non-blank characters. */
    method ScanRun(single: bool, s: seq<byte>) returns (ok: bool, s': seq<byte>, leadingBlanks: bool)
      requires Valid()
      modifies this
      ensures Valid()
      ensures match NonBlank(single, old(Rest()), s, old(column) == 0)
              case Bad(_) => !ok
              case Part(r, rest, leading, bol) =>
                ok && s' == r && Rest() == rest && leadingBlanks == leading && (column == 0 <==> bol)
    {
      s', leadingBlanks := s, false;
      while !IsBlankz(Rest())
        invariant Valid()
        invariant NonBlank(single, old(Rest()), s, old(column) == 0) == NonBlank(single, Rest(), s', column == 0)
        decreases |Rest()|
      {
        ghost var u := Rest();
        if single && Rest()[0] == SINGLE_QUOTE && At(Rest(), 1) == SINGLE_QUOTE {
          s' := s' + [SINGLE_QUOTE];
          Skip(1);
          Skip(1);
          assert Rest() == u[2..];
        } else if single && Rest()[0] == SINGLE_QUOTE {
          break;
        } else if !single && Rest()[0] == DOUBLE_QUOTE {
          break;
        } else if !single && Rest()[0] == BACKSLASH && IsBreak(Rest()[1..]) {
          Skip(1);
          SkipLine();
          assert Rest() == u[1 + BreakWidth(u[1..])..];
          return true, s', true;
        } else if !single && Rest()[0] == BACKSLASH {
          ok, s' := ScanEscape(s');
          if !ok { return; }
        } else {
          ok, s' := Read(s');
          if !ok {
            error := InvalidCharacterSequence;
            return;
          }
        }
      }
      return true, s', false;
    }

    /** Consumes blanks and breaks, and joins or folds them into the value. */
    method ScanGap(s: seq<byte>, leading: bool) returns (s': seq<byte>)
      requires Valid()
      modifies this
      ensures Valid()
      ensures var g := Blanks(Gap(old(Rest()), leading, [], [], [], old(column) == 0));
              Rest() == g.rest && s' == s + Fold(g) && (column == 0 <==> g.bol)
    {
      ghost var g := Gap(Rest(), leading, [], [], [], column == 0);
      var leadingBlanks := leading;
      var whitespaces, leadingBreak, trailingBreaks: seq<byte> := [], [], [];
      while IsBlank(Rest()) || IsBreak(Rest())
        invariant Valid()
        invariant Blanks(g) ==
                  Blanks(Gap(Rest(), leadingBlanks, whitespaces, leadingBreak, trailingBreaks, column == 0))
        decreases |Rest()|
      {
        if IsBlank(Rest()) {
          if !leadingBlanks {
            whitespaces := whitespaces + [Rest()[0]];
          }
          Skip(1);
        } else if !leadingBlanks {
          whitespaces := [];
          leadingBreak := ReadLine(leadingBreak);
          leadingBlanks := true;
        } else {
          trailingBreaks := ReadLine(trailingBreaks);
        }
      }
      s' := s;
      if leadingBlanks {
        if |leadingBreak| > 0 && leadingBreak[0] == LF {
          if |trailingBreaks| == 0 {
            s' := s' + [SPACE];
          } else {
            s' := s' + trailingBreaks;
          }
        } else {
          s' := s' + leadingBreak;
          s' := s' + trailingBreaks;
        }
      } else {
        s' := s' + whitespaces;
      }
    }

    /** Scans a quoted scalar from its opening quote on. */
    method ScanFlowScalar(single: bool) returns (ok: bool, value: seq<byte>)
      requires Valid() && Rest() != []
      modifies this
      ensures Valid()
      ensures match Scan(single, old(Rest())[1..], [], false)
              case Failed(_) => !ok
              case Token(v, rest) => ok && value == v && Rest() == rest
    {
      Skip(1);
      ghost var start := Rest();
      var s: seq<byte> := [];
      value := [];
      while true
        invariant Valid() && Scan(single, start, [], false) == Scan(single, Rest(), s, column == 0)
        decreases |Rest()|
      {
        // No document indicator at the beginning of the line.
        if column == 0 && DocumentIndicator(Rest()) {
          error := UnexpectedDocumentIndicator;
          return false, [];
        }
        if IsZ(Rest()) {
          error := UnexpectedEndOfStream;
          return false, [];
        }
        var leadingBlanks;
        ok, s, leadingBlanks := ScanRun(single, s);
        if !ok { return false, []; }
        if At(Rest(), 0) == Quote(single) {
          break;
        }
        s := ScanGap(s, leadingBlanks);
      }
      Skip(1);
      return true, s;
    }
  }

  lemma {:induction false} HexStops(t: seq<byte>, k: nat, n: nat)
    requires k < n && !IsHex(At(t, k))
    ensures ParseHex(t, n).None?
    decreases n
  {
    if n > k + 1 { HexStops(t, k, n - 1); }
  }
}
