/** The input buffer of the YAML parser: bytes come in pieces of any size, characters
    go out as UTF-8, and what they are does not depend on the pieces. */
module YamlReader {
  import opened Octets
  import opened Utf8
  import opened Wrappers

  datatype Encoding = AnyEncoding | Utf8Encoding | Utf16LE | Utf16BE

  datatype Problem =
    | InvalidLeadingOctet | IncompleteUtf8 | InvalidTrailingOctet | InvalidLength | InvalidCharacter
    | IncompleteUtf16 | UnexpectedLowSurrogate | IncompletePair | ExpectedLowSurrogate | ControlCharacter

  /** A problem and where in the input it is. */
  datatype Failure = Failure(problem: Problem, offset: nat)

  const RAW_SIZE := 512
  const BUFFER_SIZE := 3 * RAW_SIZE

  // ---- One character ----

  /** A character and the bytes it took; a problem some bytes on; or too few bytes. */
  datatype Outcome = Char(value: nat, width: nat) | Bad(problem: Problem, at: nat) | Short(problem: Problem)

  predicate Allowed(v: nat) {
    v == 0x09 || v == 0x0A || v == 0x0D || 0x20 <= v <= 0x7E || v == 0x85 ||
    0xA0 <= v <= 0xD7FF || 0xE000 <= v <= 0xFFFD || 0x10000 <= v <= 0x10FFFF
  }

  function Checked(v: nat, width: nat): Outcome {
    if Allowed(v) then Char(v, width) else Bad(ControlCharacter, 0)
  }

  function LeadValue(b: byte): nat {
    if Width(b) == 1 then b % 128 else if Width(b) == 2 then b % 32 else if Width(b) == 3 then b % 16 else b % 8
  }

  /** The value with the octets from the k-th on, or which of them is no trailing octet. */
  function Trail(a: seq<byte>, k: nat, w: nat, value: nat): Outcome
    requires w <= |a|
    decreases w - k
  {
    if k >= w then Char(value, w)
    else if !Tail(a[k]) then Bad(InvalidTrailingOctet, k)
    else Trail(a, k + 1, w, value * 64 + a[k] % 64)
  }

  predicate Shortest(v: nat, w: nat) {
    w == 1 || (w == 2 && v >= 0x80) || (w == 3 && v >= 0x800) || (w == 4 && v >= 0x10000)
  }

  function DecodeUtf8(a: seq<byte>): Outcome
    requires a != []
  {
    var w := Width(a[0]);
    if w == 0 then Bad(InvalidLeadingOctet, 0)
    else if w > |a| then Short(IncompleteUtf8)
    else match Trail(a, 1, w, LeadValue(a[0]))
      case Bad(p, k) => Bad(p, k)
      case Short(p) => Short(p)
      case Char(v, _) =>
        if !Shortest(v, w) then Bad(InvalidLength, 0)
        else if 0xD800 <= v <= 0xDFFF || v > 0x10FFFF then Bad(InvalidCharacter, 0)
        else Checked(v, w)
  }

  function Unit(a: seq<byte>, i: nat, little: bool): nat
    requires i + 1 < |a|
  {
    if little then a[i] as int + a[i + 1] as int * 256 else a[i + 1] as int + a[i] as int * 256
  }

  function DecodeUtf16(a: seq<byte>, little: bool): Outcome {
    if |a| < 2 then Short(IncompleteUtf16)
    else
      var u := Unit(a, 0, little);
      if 0xDC00 <= u <= 0xDFFF then Bad(UnexpectedLowSurrogate, 0)
      else if 0xD800 <= u <= 0xDBFF then
        if |a| < 4 then Short(IncompletePair)
        else
          var u' := Unit(a, 2, little);
          if !(0xDC00 <= u' <= 0xDFFF) then Bad(ExpectedLowSurrogate, 2)
          else Checked(0x10000 + (u - 0xD800) * 1024 + (u' - 0xDC00), 4)
      else Checked(u, 2)
  }

  function DecodeOne(e: Encoding, a: seq<byte>): Outcome
    requires a != [] && !e.AnyEncoding?
  {
    if e.Utf8Encoding? then DecodeUtf8(a) else DecodeUtf16(a, e.Utf16LE?)
  }

  lemma {:induction false} TrailPrefix(a: seq<byte>, b: seq<byte>, k: nat, w: nat, value: nat)
    requires w <= |a|
    ensures Trail(a + b, k, w, value) == Trail(a, k, w, value)
    decreases w - k
  {
    if k < w && Tail(a[k]) { TrailPrefix(a, b, k + 1, w, value * 64 + a[k] % 64); }
  }

  /** What is decoded from the bytes at hand is decoded from all that follow, too. */
  lemma DecodePrefix(e: Encoding, a: seq<byte>, b: seq<byte>)
    requires a != [] && !e.AnyEncoding? && !DecodeOne(e, a).Short?
    ensures DecodeOne(e, a + b) == DecodeOne(e, a)
  {
    hide Trail, Allowed, Width, LeadValue;
    if e.Utf8Encoding? {
      var w := Width(a[0]);
      if w != 0 { TrailPrefix(a, b, 1, w, LeadValue(a[0])); }
    } else {
      assert forall i | 0 <= i < |a| :: (a + b)[i] == a[i];
    }
  }

  lemma {:induction false} TrailWidth(a: seq<byte>, k: nat, w: nat, value: nat)
    requires w <= |a|
    ensures !Trail(a, k, w, value).Short? && (Trail(a, k, w, value).Char? ==> Trail(a, k, w, value).width == w)
    decreases w - k
  {
    if k < w && Tail(a[k]) { TrailWidth(a, k + 1, w, value * 64 + a[k] % 64); }
  }

  /** A character takes its width of the bytes, at most four, is a scalar value, and
      its UTF-8 form is at most half as long again. */
  lemma CharForm(e: Encoding, a: seq<byte>)
    requires a != [] && !e.AnyEncoding? && DecodeOne(e, a).Char?
    ensures var c := DecodeOne(e, a);
            && 1 <= c.width <= 4 && c.width <= |a| && Allowed(c.value) && c.value <= 0x10FFFF
            && 1 <= |Encode(c.value)| <= 4 && 2 * |Encode(c.value)| <= 3 * c.width
  {
    if e.Utf8Encoding? {
      var w := Width(a[0]);
      TrailWidth(a, 1, w, LeadValue(a[0]));
      TrailBound(a, 1, w, LeadValue(a[0]));
    }
  }

  function Power64(n: nat): nat {
    if n == 0 then 1 else 64 * Power64(n - 1)
  }

  lemma {:induction false} TrailBound(a: seq<byte>, k: nat, w: nat, value: nat)
    requires k <= w <= |a|
    ensures Trail(a, k, w, value).Char? ==> Trail(a, k, w, value).value < (value + 1) * Power64(w - k)
    decreases w - k
  {
    if k < w && Tail(a[k]) {
      TrailBound(a, k + 1, w, value * 64 + a[k] % 64);
      BoundStep(value, a[k] % 64, Power64(w - k - 1));
    }
  }

  lemma BoundStep(v: nat, d: nat, p: nat)
    requires d < 64
    ensures (v * 64 + d + 1) * p <= (v + 1) * (64 * p)
  {
    assert (v + 1) * (64 * p) == (v * 64 + 64) * p;
    assert (v * 64 + 64) * p - (v * 64 + d + 1) * p == (63 - d) * p;
  }

  lemma WidthOfEncode(v: nat)
    requires v <= 0x10FFFF
    ensures Encode(v) != [] && Width(Encode(v)[0]) == |Encode(v)|
  {
  }

  // ---- The whole input ----

  /** The characters of the input from an offset on, up to the first problem. */
  datatype Decoded = Decoded(chars: seq<seq<byte>>, failure: Option<Failure>)

  function DecodeFrom(e: Encoding, input: seq<byte>, offset: nat): Decoded
    requires !e.AnyEncoding? && offset <= |input|
    decreases |input| - offset
  {
    if offset == |input| then Decoded([], None)
    else match DecodeOne(e, input[offset..])
      case Short(p) => Decoded([], Some(Failure(p, offset)))
      case Bad(p, k) => Decoded([], Some(Failure(p, offset + k)))
      case Char(v, w) =>
        CharForm(e, input[offset..]);
        Before([Encode(v)], DecodeFrom(e, input, offset + w))
  }

  function Before(cs: seq<seq<byte>>, d: Decoded): Decoded {
    Decoded(cs + d.chars, d.failure)
  }

  /** The encoding, by the byte order mark, and where the text starts. */
  function Detect(input: seq<byte>): (r: (Encoding, nat))
    ensures !r.0.AnyEncoding? && r.1 <= |input|
  {
    if [0xFF, 0xFE] <= input then (Utf16LE, 2)
    else if [0xFE, 0xFF] <= input then (Utf16BE, 2)
    else if [0xEF, 0xBB, 0xBF] <= input then (Utf8Encoding, 3)
    else (Utf8Encoding, 0)
  }

  /** The characters of the input, and the problem it ends with, if any. */
  function DecodeInput(input: seq<byte>): Decoded {
    var (e, start) := Detect(input);
    DecodeFrom(e, input, start)
  }

  lemma BeforeTwice(a: seq<seq<byte>>, b: seq<seq<byte>>, d: Decoded)
    ensures Before(a, Before(b, d)) == Before(a + b, d)
  {
    assert a + (b + d.chars) == a + b + d.chars;
  }

  lemma {:induction false} JoinFront(cs: seq<seq<byte>>)
    requires cs != []
    ensures Join(cs) == cs[0] + Join(cs[1..])
  {
    JoinCons(cs[0], cs[1..]);
    assert [cs[0]] + cs[1..] == cs;
  }

  predicate AllChars(cs: seq<seq<byte>>) {
    forall i :: 0 <= i < |cs| ==> 1 <= |cs[i]| <= 4 && Width(cs[i][0]) == |cs[i]|
  }

  lemma {:induction false} JoinBound(cs: seq<seq<byte>>)
    requires AllChars(cs)
    ensures |cs| <= |Join(cs)| <= 4 * |cs|
  {
    if cs != [] { JoinBound(cs[..|cs| - 1]); }
  }

  lemma NothingBefore(d: Decoded)
    ensures Before([], d) == d
  {
    assert [] + d.chars == d.chars;
  }

  lemma Slices(s: seq<byte>, i: nat, j: nat, k: nat)
    requires i <= j <= k <= |s|
    ensures s[i..k] == s[i..j] + s[j..k]
  {
  }

  lemma {:induction false} WholeInput(input: seq<byte>)
    ensures DecodeInput(input) == DecodeFrom(Detect(input).0, input, Detect(input).1)
  {
    hide DecodeFrom, Detect;
  }

  lemma DetectByBytes(input: seq<byte>, avail: nat)
    requires avail <= |input| && (avail >= 3 || avail == |input|)
    ensures Detect(input) ==
            if avail >= 2 && input[0] == 0xFF && input[1] == 0xFE then (Utf16LE, 2)
            else if avail >= 2 && input[0] == 0xFE && input[1] == 0xFF then (Utf16BE, 2)
            else if avail >= 3 && input[0] == 0xEF && input[1] == 0xBB && input[2] == 0xBF then (Utf8Encoding, 3)
            else (Utf8Encoding, 0)
  {
  }

  // ---- The reader ----

  class Reader {
    const input: seq<byte>            // all that the read handler will deliver
    const raw: array<byte>
    const buffer: array<byte>
    var received: nat                 // bytes the read handler has delivered
    var rawLen: nat
    var rawPos: nat
    var bufferLen: nat
    var bufferPos: nat
    var unread: nat
    var offset: nat
    var eof: bool
    var encoding: Encoding
    var failure: Option<Failure>
    ghost var out: seq<seq<byte>>     // characters decoded so far, and the final NUL

    /** The raw buffer holds the input from `offset` to where it has been delivered. */
    ghost predicate RawIsInput()
      reads `rawLen, `rawPos, `received, `offset, `eof, raw
    {
      && raw.Length == RAW_SIZE && raw != buffer && rawPos <= rawLen <= RAW_SIZE
      && rawLen <= received <= |input| && raw[..rawLen] == input[received - rawLen..received]
      && offset == received - rawLen + rawPos && (eof ==> received == |input|)
    }

    /** The buffer holds the characters that are still unread. */
    ghost predicate Unread()
      reads `bufferLen, `bufferPos, `unread, `out, buffer
    {
      && buffer.Length == BUFFER_SIZE && bufferPos <= bufferLen <= BUFFER_SIZE
      && unread <= |out| && AllChars(out) && buffer[bufferPos..bufferLen] == Join(out[|out| - unread..])
    }

    /** What has come out and what is still to be decoded make up the input. */
    ghost predicate Faithful()
      reads `encoding, `out, `offset
    {
      if encoding.AnyEncoding? then out == [] && offset == 0
      else encoding == Detect(input).0 && offset <= |input| &&
           DecodeInput(input) == Before(out, DecodeFrom(encoding, input, offset))
    }

    /** All characters have come out, and one NUL after them. */
    ghost predicate Ended()
      reads `encoding, `out, `eof, `rawPos, `rawLen
    {
      !encoding.AnyEncoding? && DecodeInput(input).failure == None && out == DecodeInput(input).chars + [[0]] &&
      eof && rawPos == rawLen
    }

    ghost predicate Valid()
      reads this, raw, buffer
    {
      && RawIsInput() && Unread() && failure == None
      && (Ended() || (Faithful() && !(eof && rawPos == rawLen)))
    }

    constructor (input: seq<byte>)
      ensures Valid() && this.input == input && out == [] && fresh(raw) && fresh(buffer)
    {
      this.input := input;
      raw, buffer := new byte[RAW_SIZE](_ => 0), new byte[BUFFER_SIZE](_ => 0);
      rawLen, rawPos, bufferLen, bufferPos, unread, offset, eof := 0, 0, 0, 0, 0, 0, false;
      encoding, failure, received, out := AnyEncoding, None, 0, [];
    }

    /** The read handler delivers any number of bytes there is room for, but some if
        there are any; it may announce the end with the last or after them. */
    method ReadHandler(room: nat) returns (size: nat, atEnd: bool)
      requires received <= |input| && room > 0
      ensures size <= room && received + size <= |input|
      ensures received < |input| ==> size > 0
      ensures (atEnd ==> received + size == |input|) && (received == |input| ==> atEnd)
    {
      var left := |input| - received;
      size :| 0 <= size <= room && size <= left && (left > 0 ==> size > 0);
      atEnd :| (atEnd ==> size == left) && (left == 0 ==> atEnd);
    }

    /** Moves what is left to the front of the raw buffer and fills it up. */
    method UpdateRawBuffer()
      requires RawIsInput() && Unread()
      modifies `rawLen, `rawPos, `eof, `received, raw
      ensures RawIsInput() && Unread() && old(received) <= received && (old(eof) ==> eof)
      ensures !old(eof) && old(rawLen - rawPos) < RAW_SIZE ==> received > old(received) || eof
      ensures rawLen - rawPos == old(rawLen - rawPos) + (received - old(received))
    {
      hide Join, AllChars, RawIsInput, Unread;
      RawBounds();
      if rawPos == 0 && rawLen == raw.Length { return; }
      if eof { return; }
      Compact();
      Fill();
    }

    lemma RawBounds()
      requires RawIsInput()
      ensures raw.Length == RAW_SIZE && rawPos <= rawLen <= RAW_SIZE && received <= |input| && rawLen <= received
      ensures offset == received - rawLen + rawPos && raw != buffer && (eof ==> received == |input|)
    {
    }

    /** Moves the remaining bytes to the beginning. */
    method Compact()
      requires RawIsInput()
      modifies `rawLen, `rawPos, raw
      ensures RawIsInput() && rawPos == 0 && rawLen == old(rawLen - rawPos)
    {
      ghost var left := raw[rawPos..rawLen];
      assert left == input[offset..received];
      if 0 < rawPos < rawLen {
        forall i | 0 <= i < rawLen - rawPos { raw[i] := raw[i + rawPos]; }
      }
      rawLen, rawPos := rawLen - rawPos, 0;
      assert raw[..rawLen] == left;
    }

    /** Puts bytes behind those in the raw buffer. */
    method Append(bytes: seq<byte>)
      requires rawLen + |bytes| <= raw.Length
      modifies raw
      ensures raw[..rawLen + |bytes|] == old(raw[..rawLen]) + bytes
    {
      forall i | rawLen <= i < rawLen + |bytes| { raw[i] := bytes[i - rawLen]; }
    }

    /** Lets the read handler fill the rest. */
    method Fill()
      requires RawIsInput() && !eof && rawPos == 0 && rawLen < RAW_SIZE
      modifies `rawLen, `eof, `received, raw
      ensures RawIsInput() && received >= old(received) && (received > old(received) || eof)
      ensures rawLen == old(rawLen) + (received - old(received))
    {
      var size, atEnd := ReadHandler(raw.Length - rawLen);
      Append(input[received..received + size]);
      Slices(input, received - rawLen, received, received + size);
      rawLen, received := rawLen + size, received + size;
      if atEnd { eof := true; }
    }

    /** Looks for a byte order mark in the first three bytes, however they come. */
    method DetermineEncoding()
      requires RawIsInput() && Unread() && encoding.AnyEncoding? && offset == 0 && out == []
      modifies `rawLen, `rawPos, `eof, `received, `encoding, `offset, raw
      ensures RawIsInput() && Unread() && !encoding.AnyEncoding? && Faithful()
    {
      hide DecodeFrom, DecodeInput, Join, AllChars, RawIsInput, Unread, Detect, Before;
      EnsureThree();
      var mark;
      encoding, mark := ReadMark();
      Advance(mark);
      WholeInput(input);
      NothingBefore(DecodeInput(input));
    }

    /** The encoding by the byte order mark, and the length of that. */
    method ReadMark() returns (e: Encoding, mark: nat)
      requires RawIsInput() && offset == 0 && (rawLen - rawPos >= 3 || eof)
      ensures (e, mark) == Detect(input) && mark <= rawLen - rawPos
    {
      hide RawIsInput, Detect;
      RawBounds();
      var avail := rawLen - rawPos;
      FirstBytes(avail);
      DetectByBytes(input, avail);
      if avail >= 2 && raw[rawPos] == 0xFF && raw[rawPos + 1] == 0xFE { return Utf16LE, 2; }
      if avail >= 2 && raw[rawPos] == 0xFE && raw[rawPos + 1] == 0xFF { return Utf16BE, 2; }
      if avail >= 3 && raw[rawPos] == 0xEF && raw[rawPos + 1] == 0xBB && raw[rawPos + 2] == 0xBF {
        return Utf8Encoding, 3;
      }
      return Utf8Encoding, 0;
    }

    method EnsureThree()
      requires RawIsInput() && Unread() && offset == 0
      modifies `rawLen, `rawPos, `eof, `received, raw
      ensures RawIsInput() && Unread() && (rawLen - rawPos >= 3 || eof)
    {
      hide Join, AllChars, RawIsInput, Unread;
      RawBounds();
      while !eof && rawLen - rawPos < 3
        invariant RawIsInput() && Unread() && received <= |input|
        decreases |input| - received, !eof
      {
        UpdateRawBuffer();
        RawBounds();
      }
    }

    /** Moves the raw pointers. */
    method Advance(n: nat)
      requires RawIsInput() && n <= rawLen - rawPos
      modifies `rawPos, `offset
      ensures RawIsInput() && rawPos == old(rawPos) + n && offset == old(offset) + n
    {
      rawPos, offset := rawPos + n, offset + n;
    }

    lemma FirstBytes(avail: nat)
      requires RawIsInput() && avail == rawLen - rawPos
      ensures offset + avail <= |input| && raw[rawPos..rawLen] == input[offset..offset + avail]
      ensures avail > 0 ==> raw[rawPos] == input[offset]
      ensures avail > 1 ==> raw[rawPos + 1] == input[offset + 1]
      ensures avail > 2 ==> raw[rawPos + 2] == input[offset + 2]
    {
      var a, b := raw[rawPos..rawLen], input[offset..offset + avail];
      assert raw[..rawLen][rawPos..] == a && input[received - rawLen..received][rawPos..] == b;
      assert avail > 0 ==> a[0] == b[0];
      assert avail > 1 ==> a[1] == b[1];
      assert avail > 2 ==> a[2] == b[2];
    }

    /** The character at the front of the raw buffer. */
    method NextChar() returns (r: Outcome)
      requires RawIsInput() && rawPos < rawLen && !encoding.AnyEncoding?
      ensures r == DecodeOne(encoding, raw[rawPos..rawLen])
    {
      hide Trail, Allowed, Width, LeadValue;
      ghost var a := raw[rawPos..rawLen];
      var rawUnread := rawLen - rawPos;
      if encoding.Utf8Encoding? {
        var octet := raw[rawPos];
        var width := Width(octet);
        if width == 0 { return Bad(InvalidLeadingOctet, 0); }
        if width > rawUnread { return Short(IncompleteUtf8); }
        var ok, value, at := ReadTrail(width, LeadValue(octet));
        if !ok { return Bad(InvalidTrailingOctet, at); }
        if !Shortest(value, width) { return Bad(InvalidLength, 0); }
        if 0xD800 <= value <= 0xDFFF || value > 0x10FFFF { return Bad(InvalidCharacter, 0); }
        return Checked(value, width);
      }
      var low, high := 0, 1;
      if encoding.Utf16BE? { low, high := 1, 0; }
      if rawUnread < 2 { return Short(IncompleteUtf16); }
      var value := raw[rawPos + low] as int + raw[rawPos + high] as int * 256;
      if 0xDC00 <= value <= 0xDFFF { return Bad(UnexpectedLowSurrogate, 0); }
      var width := 2;
      if 0xD800 <= value <= 0xDBFF {
        width := 4;
        if rawUnread < 4 { return Short(IncompletePair); }
        var value2 := raw[rawPos + low + 2] as int + raw[rawPos + high + 2] as int * 256;
        if !(0xDC00 <= value2 <= 0xDFFF) { return Bad(ExpectedLowSurrogate, 2); }
        value := 0x10000 + (value - 0xD800) * 1024 + (value2 - 0xDC00);
      }
      return Checked(value, width);
    }

    method ReadTrail(width: nat, lead: nat) returns (ok: bool, value: nat, at: nat)
      requires RawIsInput() && 1 <= width <= rawLen - rawPos
      ensures Trail(raw[rawPos..rawLen], 1, width, lead) == if ok then Char(value, width)
                else Bad(InvalidTrailingOctet, at)
    {
      value, at := lead, 0;
      var k := 1;
      while k < width
        invariant 1 <= k <= width
        invariant Trail(raw[rawPos..rawLen], 1, width, lead) == Trail(raw[rawPos..rawLen], k, width, value)
      {
        var octet := raw[rawPos + k];
        if !Tail(octet) { return false, value, k; }
        value := value * 64 + octet as int % 64;
        k := k + 1;
      }
      return true, value, at;
    }

    /** Puts a character into the buffer as UTF-8. */
    method PutChar(v: nat)
      requires buffer.Length == BUFFER_SIZE && v <= 0x10FFFF && bufferLen + |Encode(v)| <= BUFFER_SIZE
      modifies `bufferLen, buffer
      ensures bufferLen == old(bufferLen) + |Encode(v)|
      ensures buffer[..bufferLen] == old(buffer[..bufferLen]) + Encode(v)
    {
      if v <= 0x7F {
        buffer[bufferLen] := v;
        bufferLen := bufferLen + 1;
      } else if v <= 0x7FF {
        buffer[bufferLen], buffer[bufferLen + 1] := 0xC0 + v / 64, 0x80 + v % 64;
        bufferLen := bufferLen + 2;
      } else if v <= 0xFFFF {
        buffer[bufferLen], buffer[bufferLen + 1], buffer[bufferLen + 2] :=
          0xE0 + v / 4096, 0x80 + v / 64 % 64, 0x80 + v % 64;
        bufferLen := bufferLen + 3;
      } else {
        buffer[bufferLen], buffer[bufferLen + 1], buffer[bufferLen + 2], buffer[bufferLen + 3] :=
          0xF0 + v / 262144, 0x80 + v / 4096 % 64, 0x80 + v / 64 % 64, 0x80 + v % 64;
        bufferLen := bufferLen + 4;
      }
    }

    // ---- Characters ----

    /** Between the steps of an update: everything fits, and the unread characters
        stand at the beginning of the buffer. */
    ghost predicate Updating()
      reads this, raw, buffer
    {
      RawIsInput() && Unread() && Faithful() && !encoding.AnyEncoding? && bufferPos == 0 && failure == None
    }

    /** Moves the unread characters to the beginning of the buffer. */
    method CompactBuffer()
      requires Unread() && raw != buffer
      modifies `bufferLen, `bufferPos, buffer
      ensures Unread() && bufferPos == 0
    {
      hide Join, AllChars;
      ghost var left := buffer[bufferPos..bufferLen];
      if 0 < bufferPos < bufferLen {
        forall i | 0 <= i < bufferLen - bufferPos { buffer[i] := buffer[i + bufferPos]; }
        bufferLen, bufferPos := bufferLen - bufferPos, 0;
      } else if bufferPos == bufferLen {
        bufferLen, bufferPos := 0, 0;
      }
      assert buffer[bufferPos..bufferLen] == left;
    }

    /** What the raw buffer holds decides the next character, unless it is too short. */
    lemma NextOfInput()
      requires RawIsInput() && rawPos < rawLen && !encoding.AnyEncoding?
      ensures offset < |input|
      ensures var r := DecodeOne(encoding, raw[rawPos..rawLen]);
              r == DecodeOne(encoding, input[offset..]) || (r.Short? && !eof)
    {
      hide DecodeOne;
      FirstBytes(rawLen - rawPos);
      var a := raw[rawPos..rawLen];
      assert input[offset..] == a + input[received..];
      if eof { assert input[received..] == [] && a + [] == a; }
      else if !DecodeOne(encoding, a).Short? { DecodePrefix(encoding, a, input[received..]); }
    }

    /** What decoding the rest of the input begins with. */
    lemma FaithfulStep(r: Outcome)
      requires Faithful() && !encoding.AnyEncoding? && offset < |input| && r == DecodeOne(encoding, input[offset..])
      ensures r.Bad? ==> DecodeInput(input).failure == Some(Failure(r.problem, offset + r.at))
      ensures r.Short? ==> DecodeInput(input).failure == Some(Failure(r.problem, offset))
      ensures r.Char? ==>
                offset + r.width <= |input| && r.value <= 0x10FFFF &&
                DecodeInput(input) == Before(out + [Encode(r.value)], DecodeFrom(encoding, input, offset + r.width))
    {
      hide DecodeOne, DecodeInput, Detect;
      if r.Char? {
        CharForm(encoding, input[offset..]);
        BeforeTwice(out, [Encode(r.value)], DecodeFrom(encoding, input, offset + r.width));
      }
    }

    /** Takes one character from the raw buffer into the buffer. */
    method TakeChar() returns (taken: bool)
      requires Updating() && rawPos < rawLen
      requires 2 * bufferLen + 3 * (rawLen - rawPos) <= 2 * BUFFER_SIZE
      modifies `rawPos, `offset, `bufferLen, `unread, `failure, `out, buffer
      ensures failure == None ==> Updating()
      ensures failure.Some? ==> !taken && failure == DecodeInput(input).failure
      ensures taken ==> rawPos > old(rawPos) && unread == old(unread) + 1 && old(out) <= out
      ensures taken ==> 2 * bufferLen + 3 * (rawLen - rawPos) <= old(2 * bufferLen + 3 * (rawLen - rawPos))
      ensures !taken && failure == None ==> !eof && rawLen - rawPos < 4 && out == old(out) && unread == old(unread) &&
                                            rawPos == old(rawPos) && bufferLen == old(bufferLen)
    {
      hide DecodeOne, DecodeInput, DecodeFrom, Before, Join, AllChars, Encode;
      var r := NextChar();
      NextOfInput();
      ShortIsShort(encoding, raw[rawPos..rawLen]);
      if r == DecodeOne(encoding, input[offset..]) { FaithfulStep(r); }
      match r {
        case Short(p) =>
          if eof { failure := Some(Failure(p, offset)); }
          return false;
        case Bad(p, at) =>
          failure := Some(Failure(p, offset + at));
          return false;
        case Char(v, w) =>
          CharForm(encoding, raw[rawPos..rawLen]);
          WidthOfEncode(v);
          UnreadGrows(out, unread, Encode(v));
          PutChar(v);
          rawPos, offset := rawPos + w, offset + w;
          unread := unread + 1;
          out := out + [Encode(v)];
          return true;
      }
    }

    /** Decodes the whole raw buffer, up to an incomplete character at its end. */
    method DecodeRaw()
      requires Updating() && 2 * bufferLen + 3 * (rawLen - rawPos) <= 2 * BUFFER_SIZE
      modifies `rawPos, `offset, `bufferLen, `unread, `failure, `out, buffer
      ensures failure == None ==> Updating() && (rawPos == rawLen || (!eof && rawLen - rawPos < 4))
      ensures failure == None ==> unread >= old(unread) && old(out) <= out && rawPos >= old(rawPos)
      ensures failure == None ==> 2 * bufferLen + 3 * (rawLen - rawPos) <= old(2 * bufferLen + 3 * (rawLen - rawPos))
      ensures failure.Some? ==> failure == DecodeInput(input).failure
    {
      hide RawIsInput, Unread, Faithful, DecodeInput;
      RawBounds();
      while rawPos != rawLen
        invariant Updating() && rawPos <= rawLen && rawPos >= old(rawPos) && unread >= old(unread) && old(out) <= out
        invariant 2 * bufferLen + 3 * (rawLen - rawPos) <= old(2 * bufferLen + 3 * (rawLen - rawPos))
        decreases rawLen - rawPos
      {
        var taken := TakeChar();
        if !taken { return; }
        RawBounds();
      }
    }

    /** Puts the NUL behind the last character. */
    method PutNul()
      requires Updating() && eof && rawPos == rawLen && bufferLen < BUFFER_SIZE
      modifies `bufferLen, `unread, `out, buffer
      ensures Valid() && Ended() && out == old(out) + [[0]] && unread == old(unread) + 1
    {
      hide DecodeInput, Before, Join, AllChars;
      UnreadGrows(out, unread, [0]);
      assert Encode(0) == [0];
      AtEnd(encoding, input, out);
      PutChar(0);
      unread := unread + 1;
      out := out + [[0]];
    }

    lemma NotEnded()
      requires Valid() && !(eof && rawPos == rawLen)
      ensures Faithful() && (encoding.AnyEncoding? ==> out == [] && offset == 0)
    {
    }

    /** The bytes of the unread characters are few. */
    lemma UnreadBound()
      requires Unread() && bufferPos == 0
      ensures bufferLen <= 4 * unread
    {
      JoinBound(out[|out| - unread..]);
    }

    /** Makes sure that there are `length` characters in the buffer, or else all that
        are left and the NUL behind them. The buffer is large enough for that. */
    method UpdateBuffer(length: nat) returns (ok: bool)
      requires Valid() && 1 <= length <= 192
      modifies this, raw, buffer
      ensures ok ==> Valid() && old(out) <= out && (unread >= length || Ended())
      ensures !ok ==> failure.Some? && failure == DecodeInput(input).failure
    {
      hide RawIsInput, Unread, Faithful, DecodeInput, Ended;
      RawBounds();
      if eof && rawPos == rawLen { return true; }
      if unread >= length { return true; }
      NotEnded();
      if encoding.AnyEncoding? {
        DetermineEncoding();
      }
      RawBounds();
      CompactBuffer();
      ok := FillBuffer(length);
    }

    /** Decodes until there are enough characters, or the input ends. */
    method FillBuffer(length: nat) returns (ok: bool)
      requires Updating() && unread < length <= 192
      modifies this, raw, buffer
      ensures ok ==> Valid() && old(out) <= out && (unread >= length || Ended())
      ensures !ok ==> failure.Some? && failure == DecodeInput(input).failure
    {
      hide DecodeInput, Ended, Updating, Valid, RawIsInput, Unread, Faithful;
      var first := true;
      Bounds();
      while unread < length
        invariant Updating() && old(out) <= out && received <= |input|
        invariant if first then unread < length else !eof && rawLen - rawPos < 4
        decreases |input| - received, !eof, first
      {
        Bounds();
        if !first || rawPos == rawLen { MoreRaw(); }
        first := false;
        Bounds();
        DecodeRaw();
        if failure.Some? { return false; }
        Bounds();
        if eof {
          PutNul();
          return true;
        }
      }
      StillValid();
      return true;
    }

    lemma Bounds()
      requires Updating()
      ensures rawPos <= rawLen <= RAW_SIZE && received <= |input| && bufferLen <= 4 * unread && bufferLen <= BUFFER_SIZE
      ensures failure == None
    {
      hide DecodeInput;
      UnreadBound();
    }

    lemma StillValid()
      requires Updating() && !eof
      ensures Valid()
    {
      hide RawIsInput, Unread, Faithful, Ended;
    }

    method MoreRaw()
      requires Updating()
      modifies `rawLen, `rawPos, `eof, `received, raw
      ensures Updating() && old(received) <= received && (old(eof) ==> eof)
      ensures !old(eof) && old(rawLen - rawPos) < RAW_SIZE ==> received > old(received) || eof
    {
      hide RawIsInput, Unread, Faithful;
      UpdateRawBuffer();
    }

    /** The next character is consumed. */
    method Skip()
      requires Valid() && unread > 0
      modifies `bufferPos, `unread
      ensures Valid() && unread == old(unread) - 1 && bufferPos <= bufferLen <= buffer.Length && old(unread) <= |out|
      ensures old(buffer[bufferPos..bufferLen]) == out[|out| - old(unread)] + buffer[bufferPos..bufferLen]
    {
      hide Join, DecodeInput, DecodeFrom, Before;
      ghost var cs := out[|out| - unread..];
      JoinFront(cs);
      assert cs[1..] == out[|out| - (unread - 1)..];
      ghost var t := buffer[bufferPos..bufferLen];
      assert t == cs[0] + Join(cs[1..]);
      assert t[0] == buffer[bufferPos] == cs[0][0];
      assert t[|cs[0]|..] == Join(cs[1..]);
      bufferPos := bufferPos + Width(buffer[bufferPos]);
      unread := unread - 1;
      assert buffer[bufferPos..bufferLen] == t[|cs[0]|..];
    }
  }

  lemma ShortIsShort(e: Encoding, a: seq<byte>)
    requires a != [] && !e.AnyEncoding?
    ensures DecodeOne(e, a).Short? ==> |a| < 4
  {
    if e.Utf8Encoding? && 1 <= Width(a[0]) <= |a| { TrailWidth(a, 1, Width(a[0]), LeadValue(a[0])); }
  }

  lemma UnreadGrows(out: seq<seq<byte>>, unread: nat, c: seq<byte>)
    requires unread <= |out|
    ensures Join((out + [c])[|out| + 1 - (unread + 1)..]) == Join(out[|out| - unread..]) + c
    ensures AllChars(out) && 1 <= |c| <= 4 && Width(c[0]) == |c| ==> AllChars(out + [c])
  {
    JoinSnoc(out[|out| - unread..], c);
    assert (out + [c])[|out| + 1 - (unread + 1)..] == out[|out| - unread..] + [c];
  }

  lemma {:induction false} AtEnd(e: Encoding, input: seq<byte>, out: seq<seq<byte>>)
    requires !e.AnyEncoding?
    ensures Before(out, DecodeFrom(e, input, |input|)) == Decoded(out, None)
  {
    assert out + [] == out;
  }

  /** Two readers of the same input that both came to its end have delivered the same
      characters, in whatever pieces the input came to them. */
  lemma SameCharacters(a: Reader, b: Reader)
    requires a.Ended() && b.Ended() && a.input == b.input
    ensures a.out == b.out
  {
    hide DecodeInput;
  }
}
