/** The incremental parser for git pkt-lines, and the writer it undoes. */
module PktLine {
  import opened Octets

  const PKT_LEN_SIZE := 4

  const MAX_PKT_LEN := 65524   // four digits of length and at most 65520 bytes of payload

  datatype Error = NoError | BadHexDigit | InvalidPktLen(n: nat)

  datatype State = Ready | ReadingLen | ReadingPayload | Done

  // ---- Lengths ----

  datatype Length = Bad(error: Error) | Len(n: nat)

  /** A 4-byte hexadecimal number. */
  function ParseHex(h: seq<byte>): Length
    requires |h| == 4
  {
    if forall i | 0 <= i < 4 :: IsHex(h[i])
    then Len(((AsHex(h[0]) * 16 + AsHex(h[1])) * 16 + AsHex(h[2])) * 16 + AsHex(h[3]))
    else Bad(BadHexDigit)
  }

  function ParsePktLen(b: seq<byte>): (r: Length)
    requires |b| == 4
    ensures r.Len? ==> r.n == 0 || PKT_LEN_SIZE <= r.n <= MAX_PKT_LEN
  {
    match ParseHex(b)
    case Bad(e) => Bad(e)
    case Len(n) => if 1 <= n < PKT_LEN_SIZE || n > MAX_PKT_LEN then Bad(InvalidPktLen(n)) else Len(n)
  }

  // ---- The machine, as a value ----

  /** `next` bytes are missing before `buf` can be processed. */
  datatype Machine = Machine(state: State, next: nat, buf: seq<byte>, lines: seq<seq<byte>>, error: Error)

  const START := Machine(Ready, 0, [], [], NoError)

  predicate Sound(m: Machine) {
    match m.state
    case Ready => m.next == 0 && m.buf == []
    case ReadingLen => 0 < m.next && m.next + |m.buf| == PKT_LEN_SIZE
    case ReadingPayload => m.next + |m.buf| <= MAX_PKT_LEN - PKT_LEN_SIZE
    case Done => true
  }

  predicate Full(m: Machine) {
    m.next == 0 &&
    match m.state
    case Ready => m.buf == []
    case ReadingLen => |m.buf| == PKT_LEN_SIZE
    case ReadingPayload => |m.buf| <= MAX_PKT_LEN - PKT_LEN_SIZE
    case Done => false
  }

  /** One transition, with everything it needs in `buf`. */
  function StepOnce(m: Machine): (r: Machine)
    requires Full(m)
    ensures Sound(r) && (r.state.Done? || r.next > 0 || m.state.ReadingLen?)
  {
    match m.state
    case Ready => m.(state := ReadingLen, next := PKT_LEN_SIZE)
    case ReadingLen =>
      (match ParsePktLen(m.buf)
       case Bad(e) => m.(state := Done, error := e)
       case Len(n) =>
         if n == 0 then m.(state := Done, next := 0, buf := [])
         else m.(state := ReadingPayload, next := n - PKT_LEN_SIZE, buf := []))
    case ReadingPayload => m.(state := ReadingLen, next := PKT_LEN_SIZE, lines := m.lines + [m.buf], buf := [])
  }

  /** Zero-byte steps still to come before input is needed. */
  function Idle(m: Machine): nat {
    if m.state.ReadingLen? then 0 else 1
  }

  /** The machine after `data`; once done it ignores what comes. */
  function Fed(m: Machine, data: seq<byte>): (r: Machine)
    requires Sound(m)
    ensures Sound(r)
    decreases |data|, Idle(m)
  {
    if m.state.Done? then m
    else if |data| < m.next then m.(buf := m.buf + data, next := m.next - |data|)
    else Fed(StepOnce(m.(buf := m.buf + data[..m.next], next := 0)), data[m.next..])
  }

  // ---- Chunks do not matter ----

  lemma {:induction false} ChunkIndependence(m: Machine, a: seq<byte>, b: seq<byte>)
    requires Sound(m)
    ensures Fed(Fed(m, a), b) == Fed(m, a + b)
    decreases |a|, Idle(m)
  {
    if m.state.Done? {
    } else if |a| < m.next {
      var m' := m.(buf := m.buf + a, next := m.next - |a|);
      if |a + b| < m.next {
        assert m.buf + (a + b) == m.buf + a + b;
      } else {
        var k := m.next;
        assert (a + b)[..k] == a + b[..k - |a|] && (a + b)[k..] == b[k - |a|..];
        assert m'.buf + b[..m'.next] == m.buf + (a + b)[..k];
      }
    } else {
      var k := m.next;
      assert (a + b)[..k] == a[..k] && (a + b)[k..] == a[k..] + b;
      ChunkIndependence(StepOnce(m.(buf := m.buf + a[..k], next := 0)), a[k..], b);
    }
  }

  function Concat(chunks: seq<seq<byte>>): seq<byte> {
    if chunks == [] then [] else chunks[0] + Concat(chunks[1..])
  }

  function FedAll(m: Machine, chunks: seq<seq<byte>>): Machine
    requires Sound(m)
    decreases |chunks|
  {
    if chunks == [] then m else FedAll(Fed(m, chunks[0]), chunks[1..])
  }

  /** However the data is cut up, an initial step apart, the outcome is the same. */
  lemma {:induction false} AnyChunking(m: Machine, chunks: seq<seq<byte>>)
    requires Sound(m) && chunks != []
    ensures FedAll(m, chunks) == Fed(m, Concat(chunks))
    decreases |chunks|
  {
    var c, rest := chunks[0], chunks[1..];
    if rest == [] {
      assert Concat(chunks) == c;
    } else {
      AnyChunking(Fed(m, c), rest);
      ChunkIndependence(m, c, Concat(rest));
    }
  }

  // ---- The writer ----

  /** A number in base 16, as strconv.FormatInt prints it. */
  function FormatHex(n: nat): (r: seq<byte>)
    ensures |r| > 0
  {
    if n < 16 then [HexChar(n)] else FormatHex(n / 16) + [HexChar(n % 16)]
  }

  function Zeros(n: nat): (r: seq<byte>)
    ensures |r| == n && forall i | 0 <= i < n :: r[i] == 0x30
  {
    seq(n, i => 0x30)
  }

  function PacketFlush(): seq<byte> {
    [0x30, 0x30, 0x30, 0x30]
  }

  /** The digits of a number, padded to a multiple of four. */
  function Padded(n: nat): (r: seq<byte>)
    ensures |r| >= 4
  {
    var s := FormatHex(n);
    if |s| % 4 != 0 then Zeros(4 - |s| % 4) + s else s
  }

  function PacketWrite(payload: seq<byte>): seq<byte> {
    Padded(|payload| + 4) + payload
  }

  // ---- The parser undoes the writer ----

  lemma FourDigits(n: nat)
    requires n < 65536
    ensures |Padded(n)| == 4 && ParseHex(Padded(n)) == Len(n)
  {
    hide Padded, ParseHex;
    var a, b, c, d := n / 4096, n / 256 % 16, n / 16 % 16, n % 16;
    FourDigitsForm(n);
    Radix(n);
    ParseFour(a, b, c, d);
  }

  lemma Radix(n: nat)
    requires n < 65536
    ensures n / 4096 < 16
    ensures (((n / 4096) * 16 + n / 256 % 16) * 16 + n / 16 % 16) * 16 + n % 16 == n
  {
    var x, y := n / 16, n / 256;
    assert x / 16 == y && y / 16 == n / 4096;
    assert n == x * 16 + n % 16 && x == y * 16 + x % 16 && y == (y / 16) * 16 + y % 16;
  }

  lemma ParseFour(a: nat, b: nat, c: nat, d: nat)
    requires a < 16 && b < 16 && c < 16 && d < 16
    ensures ParseHex([HexChar(a), HexChar(b), HexChar(c), HexChar(d)]) == Len(((a * 16 + b) * 16 + c) * 16 + d)
  {
    HexCharValue(a);
    HexCharValue(b);
    HexCharValue(c);
    HexCharValue(d);
  }

  lemma FourDigitsForm(n: nat)
    requires n < 65536
    ensures Padded(n) == [HexChar(n / 4096), HexChar(n / 256 % 16), HexChar(n / 16 % 16), HexChar(n % 16)]
  {
    var s := FormatHex(n);
    if n < 16 {
      assert s == [HexChar(n)];
    } else if n < 256 {
      assert s == FormatHex(n / 16) + [HexChar(n % 16)];
    } else if n < 4096 {
      assert s == FormatHex(n / 16) + [HexChar(n % 16)];
      assert FormatHex(n / 16) == FormatHex(n / 256) + [HexChar(n / 16 % 16)] by { assert n / 16 / 16 == n / 256; }
    } else {
      assert s == FormatHex(n / 16) + [HexChar(n % 16)];
      assert FormatHex(n / 16) == FormatHex(n / 256) + [HexChar(n / 16 % 16)] by { assert n / 16 / 16 == n / 256; }
      assert FormatHex(n / 256) == FormatHex(n / 4096) + [HexChar(n / 256 % 16)] by { assert n / 256 / 16 == n / 4096; }
    }
  }

  /** A machine between packets. */
  predicate Between(m: Machine) {
    Sound(m) && m.error.NoError? && m.buf == [] && (m.state.Ready? || (m.state.ReadingLen? && m.next == PKT_LEN_SIZE))
  }

  lemma {:induction false} ReadyIsReading(m: Machine, data: seq<byte>)
    requires Between(m)
    ensures Fed(m, data) == Fed(m.(state := ReadingLen, next := PKT_LEN_SIZE), data)
  {
    if m.state.Ready? {
      assert m.buf + data[..0] == [] && data[0..] == data;
      assert m.(buf := m.buf + data[..0], next := 0) == m;
    }
  }

  /** The four digits of a length are read first. */
  lemma {:induction false} ReadLength(m: Machine, digits: seq<byte>, rest: seq<byte>)
    requires Between(m) && |digits| == 4
    ensures Fed(m, digits + rest) == Fed(StepOnce(Machine(ReadingLen, 0, digits, m.lines, NoError)), rest)
  {
    ReadyIsReading(m, digits + rest);
    assert (digits + rest)[..4] == digits && (digits + rest)[4..] == rest;
    assert m.buf + digits == digits;
  }

  lemma {:induction false} ReadPayload(lines: seq<seq<byte>>, payload: seq<byte>, rest: seq<byte>)
    requires |payload| <= MAX_PKT_LEN - PKT_LEN_SIZE
    ensures Fed(Machine(ReadingPayload, |payload|, [], lines, NoError), payload + rest)
         == Fed(Machine(ReadingLen, PKT_LEN_SIZE, [], lines + [payload], NoError), rest)
  {
    var k := |payload|;
    assert (payload + rest)[..k] == payload && (payload + rest)[k..] == rest;
    assert [] + payload == payload;
  }

  lemma {:induction false} ReadPacket(m: Machine, payload: seq<byte>, rest: seq<byte>)
    requires Between(m) && |payload| <= 65520
    ensures Fed(m, PacketWrite(payload) + rest)
         == Fed(Machine(ReadingLen, PKT_LEN_SIZE, [], m.lines + [payload], NoError), rest)
  {
    var digits := Padded(|payload| + 4);
    FourDigits(|payload| + 4);
    assert PacketWrite(payload) + rest == digits + (payload + rest);
    ReadLength(m, digits, payload + rest);
    ReadPayload(m.lines, payload, rest);
  }

  lemma {:induction false} ReadFlush(m: Machine, rest: seq<byte>)
    requires Between(m)
    ensures Fed(m, PacketFlush() + rest) == Machine(Done, 0, [], m.lines, NoError)
  {
    ReadLength(m, PacketFlush(), rest);
  }

  function WriteAll(payloads: seq<seq<byte>>): seq<byte> {
    if payloads == [] then [] else PacketWrite(payloads[0]) + WriteAll(payloads[1..])
  }

  /** Writing payloads and a flush, then parsing, gives back the payloads and
      ignores whatever follows the flush. */
  lemma {:induction false} RoundTrip(m: Machine, payloads: seq<seq<byte>>, suffix: seq<byte>)
    requires Between(m) && forall p | p in payloads :: |p| <= 65520
    ensures Fed(m, WriteAll(payloads) + PacketFlush() + suffix) == Machine(Done, 0, [], m.lines + payloads, NoError)
    decreases |payloads|
  {
    hide Fed, PacketWrite, PacketFlush;
    if payloads == [] {
      assert WriteAll(payloads) + PacketFlush() + suffix == PacketFlush() + suffix;
      ReadFlush(m, suffix);
      assert m.lines + payloads == m.lines;
    } else {
      var p, rest := payloads[0], payloads[1..];
      var tail := WriteAll(rest) + PacketFlush() + suffix;
      assert WriteAll(payloads) + PacketFlush() + suffix == PacketWrite(p) + tail;
      ReadPacket(m, p, tail);
      RoundTrip(Machine(ReadingLen, PKT_LEN_SIZE, [], m.lines + [p], NoError), rest, suffix);
      assert m.lines + [p] + rest == m.lines + payloads;
    }
  }

  // ---- Longer payloads are lost ----

  /** The leading four digits of the length of a packet too large for four. */
  lemma LeadingDigits(n: nat)
    requires n >= 65536
    ensures ParseHex(Padded(n)[..4]).Len? && 1 <= ParseHex(Padded(n)[..4]).n < 65536
  {
    var s := FormatHex(n);
    var k := if |s| % 4 != 0 then 4 - |s| % 4 else 0;
    var h := Padded(n)[..4];
    AllHex(n);
    LeadingNonzero(n);
    assert forall i | 0 <= i < 4 :: IsHex(h[i]);
    assert h[k] == s[0];
  }

  lemma {:induction false} AllHex(n: nat)
    ensures forall i | 0 <= i < |FormatHex(n)| :: IsHex(FormatHex(n)[i])
  {
    if n >= 16 { AllHex(n / 16); }
  }

  lemma {:induction false} LeadingNonzero(n: nat)
    requires n > 0
    ensures FormatHex(n)[0] != 0x30
  {
    if n >= 16 { LeadingNonzero(n / 16); }
  }

  lemma {:induction false} LinesGrow(m: Machine, data: seq<byte>)
    requires Sound(m)
    ensures m.lines <= Fed(m, data).lines
    decreases |data|, Idle(m)
  {
    if !m.state.Done? && |data| >= m.next {
      var m' := StepOnce(m.(buf := m.buf + data[..m.next], next := 0));
      LinesGrow(m', data[m.next..]);
    }
  }

  lemma {:induction false} AfterBadLength(m: Machine, digits: seq<byte>, rest: seq<byte>)
    requires Between(m) && |digits| == 4 && ParsePktLen(digits).Bad?
    ensures Fed(m, digits + rest).state.Done? && !Fed(m, digits + rest).error.NoError?
  {
    ReadLength(m, digits, rest);
    assert !ParsePktLen(digits).error.NoError?;
  }

  /** A packet whose digits announce another length is not read back, whatever `others`
      come behind it. */
  lemma {:induction false} WrongLength(m: Machine, digits: seq<byte>, payload: seq<byte>, rest: seq<byte>,
                                       others: seq<seq<byte>>)
    requires Between(m) && |digits| == 4
    requires ParsePktLen(digits).Len? ==> ParsePktLen(digits).n != 0 && ParsePktLen(digits).n != |payload| + 4
    ensures Fed(m, digits + rest) != Machine(Done, 0, [], m.lines + ([payload] + others), NoError)
  {
    if ParsePktLen(digits).Bad? {
      AfterBadLength(m, digits, rest);
    } else {
      hide Fed, ParseHex;
      ReadLength(m, digits, rest);
      WrongLine(m.lines, ParsePktLen(digits).n - PKT_LEN_SIZE, payload, rest, others);
    }
  }

  lemma {:induction false} WrongLine(lines: seq<seq<byte>>, k: nat, payload: seq<byte>, rest: seq<byte>,
                                     others: seq<seq<byte>>)
    requires k <= MAX_PKT_LEN - PKT_LEN_SIZE && k != |payload|
    ensures Fed(Machine(ReadingPayload, k, [], lines, NoError), rest) != Machine(Done, 0, [],
              lines + ([payload] + others), NoError)
  {
    hide ParsePktLen;
    if |rest| >= k {
      var line, tail := rest[..k], rest[k..];
      assert rest == line + tail;
      ReadPayload(lines, line, tail);
      var r := Machine(ReadingLen, PKT_LEN_SIZE, [], lines + [line], NoError);
      LinesGrow(r, tail);
      assert Fed(r, tail).lines[|lines|] == line;
      assert (lines + ([payload] + others))[|lines|] == payload;
    }
  }

  /** The round trip works exactly for payloads of at most 65520 bytes: longer ones are
      refused or read back as something else. */
  lemma {:induction false} RoundTripExactly(payloads: seq<seq<byte>>, suffix: seq<byte>)
    ensures Fed(START, WriteAll(payloads) + PacketFlush() + suffix) == Machine(Done, 0, [], payloads, NoError)
            <==> forall p | p in payloads :: |p| <= 65520
  {
    hide Fed, WriteAll, PacketFlush;
    assert [] + payloads == payloads;
    if forall p | p in payloads :: |p| <= 65520 {
      RoundTrip(START, payloads, suffix);
    } else {
      OneTooLong(START, payloads, suffix);
    }
  }

  lemma {:induction false} OneTooLong(m: Machine, payloads: seq<seq<byte>>, suffix: seq<byte>)
    requires Between(m) && exists p :: p in payloads && |p| > 65520
    ensures Fed(m, WriteAll(payloads) + PacketFlush() + suffix) != Machine(Done, 0, [], m.lines + payloads, NoError)
    decreases |payloads|
  {
    hide Fed, PacketWrite, PacketFlush;
    var p, rest := payloads[0], payloads[1..];
    var tail := WriteAll(rest) + PacketFlush() + suffix;
    assert WriteAll(payloads) + PacketFlush() + suffix == PacketWrite(p) + tail;
    assert payloads == [p] + rest;
    if |p| > 65520 {
      Oversized(m, p, tail, rest);
    } else {
      ReadPacket(m, p, tail);
      var m' := Machine(ReadingLen, PKT_LEN_SIZE, [], m.lines + [p], NoError);
      OneTooLong(m', rest, suffix);
      assert m.lines + [p] + rest == m.lines + payloads;
    }
  }

  lemma {:induction false} Oversized(m: Machine, payload: seq<byte>, tail: seq<byte>, others: seq<seq<byte>>)
    requires Between(m) && |payload| > 65520
    ensures Fed(m, PacketWrite(payload) + tail) != Machine(Done, 0, [], m.lines + ([payload] + others), NoError)
  {
    hide Fed, ParseHex, Padded;
    var n := |payload| + 4;
    var digits := Padded(n)[..4];
    if n < 65536 { FourDigits(n); assert digits == Padded(n); } else { LeadingDigits(n); }
    var rest := Padded(n)[4..] + payload + tail;
    assert PacketWrite(payload) + tail == digits + rest;
    WrongLength(m, digits, payload, rest, others);
  }

  // ---- What any input is read as ----

  /** A packet as it stands in the input, its digits in either case. */
  datatype Packet = Packet(digits: seq<byte>, payload: seq<byte>)

  predicate Framed(p: Packet) {
    |p.digits| == 4 && |p.payload| <= 65520 && Spells(p.digits, |p.payload| + 4)
  }

  function Bytes(ps: seq<Packet>): seq<byte> {
    if ps == [] then [] else ps[0].digits + ps[0].payload + Bytes(ps[1..])
  }

  function Payloads(ps: seq<Packet>): seq<seq<byte>> {
    if ps == [] then [] else [ps[0].payload] + Payloads(ps[1..])
  }

  /** What stands behind the last whole packet: nothing but part of a length, part of a
      payload of n bytes, a flush, or four bytes that are no length. */
  datatype Tail =
    | Part(length: seq<byte>)
    | Missing(digits: seq<byte>, n: nat, part: seq<byte>)
    | Flush(digits: seq<byte>, rest: seq<byte>)
    | NoNumber(digits: seq<byte>, rest: seq<byte>)
    | NoLength(digits: seq<byte>, n: nat, rest: seq<byte>)

  predicate Stands(t: Tail) {
    match t
    case Part(l) => |l| < 4
    case Missing(ds, n, part) => |ds| == 4 && Spells(ds, n + 4) && |part| < n <= 65520
    case Flush(ds, _) => |ds| == 4 && Spells(ds, 0)
    case NoNumber(ds, _) => |ds| == 4 && exists i :: 0 <= i < 4 && !IsHex(ds[i])
    case NoLength(ds, n, _) => |ds| == 4 && Spells(ds, n) && (1 <= n < 4 || n > 65524)
  }

  function TailBytes(t: Tail): seq<byte> {
    match t
    case Part(l) => l
    case Missing(ds, _, part) => ds + part
    case Flush(ds, rest) => ds + rest
    case NoNumber(ds, rest) => ds + rest
    case NoLength(ds, _, rest) => ds + rest
  }

  /** The parser behind such a tail. */
  function Behind(t: Tail, lines: seq<seq<byte>>): Machine
    requires Stands(t)
  {
    match t
    case Part(l) => Machine(ReadingLen, 4 - |l|, l, lines, NoError)
    case Missing(_, n, part) => Machine(ReadingPayload, n - |part|, part, lines, NoError)
    case Flush(_, _) => Machine(Done, 0, [], lines, NoError)
    case NoNumber(ds, _) => Machine(Done, 0, ds, lines, BadHexDigit)
    case NoLength(ds, n, _) => Machine(Done, 0, ds, lines, InvalidPktLen(n))
  }

  /** Four bytes are parsed as the number that they spell. */
  lemma {:induction false} DigitsParsed(h: seq<byte>, n: nat)
    requires |h| == 4
    ensures ParseHex(h) == Len(n) <==> Spells(h, n)
  {
    hide Spells, DigitOf;
    var a, b, c := n / 16, n / 16 / 16, n / 16 / 16 / 16;
    LastDigit(h, n);
    LastDigit(h[..3], a);
    LastDigit(h[..3][..2], b);
    LastDigit(h[..3][..2][..1], c);
    assert Spells([], c / 16) <==> c / 16 == 0 by { NoDigit(c / 16); }
    assert h[..3][..2][..1][..0] == [];
    if forall i | 0 <= i < 4 :: IsHex(h[i]) {
      InBase16(AsHex(h[0]), AsHex(h[1]), AsHex(h[2]), AsHex(h[3]), n);
    }
  }

  lemma {:induction false} LastDigit(h: seq<byte>, n: nat)
    requires h != []
    ensures Spells(h, n) <==> IsHex(h[|h| - 1]) && AsHex(h[|h| - 1]) == n % 16 && Spells(h[..|h| - 1], n / 16)
  {
    DigitRead(h[|h| - 1], n % 16);
  }

  lemma {:induction false} NoDigit(n: nat)
    ensures Spells([], n) <==> n == 0
  {
  }

  lemma InBase16(a: nat, b: nat, c: nat, d: nat, n: nat)
    requires a < 16 && b < 16 && c < 16 && d < 16
    ensures ((a * 16 + b) * 16 + c) * 16 + d == n
       <==> d == n % 16 && c == n / 16 % 16 && b == n / 16 / 16 % 16 && a == n / 16 / 16 / 16 % 16
            && n / 16 / 16 / 16 / 16 == 0
  {
    var x, y, z := n / 16, n / 16 / 16, n / 16 / 16 / 16;
    assert n == 16 * x + n % 16 && x == 16 * y + x % 16 && y == 16 * z + y % 16 && z == 16 * (z / 16) + z % 16;
  }

  lemma {:induction false} TailRead(m: Machine, t: Tail)
    requires Between(m) && Stands(t)
    ensures Fed(m, TailBytes(t)) == Behind(t, m.lines)
  {
    hide ParseHex, Spells;
    match t
    case Part(l) =>
      ReadyIsReading(m, l);
      assert [] + l == l;
    case Missing(ds, n, part) =>
      DigitsParsed(ds, n + 4);
      ReadLength(m, ds, part);
      assert [] + part == part;
    case Flush(ds, rest) =>
      DigitsParsed(ds, 0);
      ReadLength(m, ds, rest);
    case NoNumber(ds, rest) =>
      NotAllDigits(ds);
      ReadLength(m, ds, rest);
    case NoLength(ds, n, rest) =>
      DigitsParsed(ds, n);
      ReadLength(m, ds, rest);
  }

  /** Whole packets give their payloads in order, and what stands behind them decides the rest. */
  lemma {:induction false} PacketsRead(m: Machine, ps: seq<Packet>, t: Tail)
    requires Between(m) && (forall p | p in ps :: Framed(p)) && Stands(t)
    ensures Fed(m, Bytes(ps) + TailBytes(t)) == Behind(t, m.lines + Payloads(ps))
    decreases |ps|
  {
    hide Fed, ParseHex, Spells, TailBytes, Behind, Stands;
    if ps == [] {
      assert Bytes(ps) + TailBytes(t) == TailBytes(t) && m.lines + Payloads(ps) == m.lines;
      TailRead(m, t);
    } else {
      var p := ps[0];
      assert Framed(p) && forall q | q in ps[1..] :: q in ps;
      var rest := Bytes(ps[1..]) + TailBytes(t);
      var m' := Machine(ReadingLen, PKT_LEN_SIZE, [], m.lines + [p.payload], NoError);
      assert Bytes(ps) + TailBytes(t) == p.digits + (p.payload + rest);
      DigitsParsed(p.digits, |p.payload| + 4);
      ReadLength(m, p.digits, p.payload + rest);
      ReadPayload(m.lines, p.payload, rest);
      PacketsRead(m', ps[1..], t);
      assert m.lines + [p.payload] + Payloads(ps[1..]) == m.lines + Payloads(ps);
    }
  }

  /** Every input is whole packets and such a tail. */
  lemma {:induction false} EveryInput(data: seq<byte>) returns (ps: seq<Packet>, t: Tail)
    ensures (forall p | p in ps :: Framed(p)) && Stands(t) && data == Bytes(ps) + TailBytes(t)
    decreases |data|
  {
    hide Stands, TailBytes, Bytes, ParseHex, Spells;
    if |data| >= 4 && AtPacket(data) {
      var n := ParseHex(data[..4]).n;
      var more;
      more, t := EveryInput(data[n..]);
      var p := Packet(data[..4], data[4..n]);
      DigitsParsed(p.digits, n);
      FirstPacket(p, more, TailBytes(t));
      ps := [p] + more;
      assert data == p.digits + (p.payload + data[n..]);
    } else {
      ps := [];
      t := TailOf(data);
      NoPacket(TailBytes(t));
    }
  }

  /** Whether a whole packet comes first. */
  predicate AtPacket(data: seq<byte>)
    requires |data| >= 4
  {
    var h := ParseHex(data[..4]);
    h.Len? && 4 <= h.n <= 65524 && h.n <= |data|
  }

  lemma TailOf(data: seq<byte>) returns (t: Tail)
    requires |data| < 4 || !AtPacket(data)
    ensures Stands(t) && data == TailBytes(t)
  {
    hide Spells, ParseHex;
    if |data| < 4 {
      t := Part(data);
      return;
    }
    var ds, rest := data[..4], data[4..];
    assert data == ds + rest;
    match ParseHex(ds) {
      case Bad(_) =>
        NotAllDigits(ds);
        t := NoNumber(ds, rest);
      case Len(n) =>
        DigitsParsed(ds, n);
        t := if n == 0 then Flush(ds, rest)
             else if n < 4 || n > 65524 then NoLength(ds, n, rest)
             else Missing(ds, n - 4, rest);
    }
  }

  lemma {:induction false} FirstPacket(p: Packet, ps: seq<Packet>, tail: seq<byte>)
    ensures Bytes([p] + ps) + tail == p.digits + (p.payload + (Bytes(ps) + tail))
  {
    assert ([p] + ps)[1..] == ps;
  }

  lemma NoPacket(tail: seq<byte>)
    ensures Bytes([]) + tail == tail
  {
  }

  lemma NotAllDigits(h: seq<byte>)
    requires |h| == 4
    ensures ParseHex(h) == Bad(BadHexDigit) <==> exists i :: 0 <= i < 4 && !IsHex(h[i])
    ensures ParseHex(h).Bad? ==> ParseHex(h) == Bad(BadHexDigit)
  {
  }

  // ---- The parser object ----

  class PktLineParser {
    var lines: seq<seq<byte>>
    var error: Error
    var state: State
    var next: nat
    var buf: seq<byte>

    constructor ()
      ensures Value() == START
    {
      lines, error, state, next, buf := [], NoError, Ready, 0, [];
    }

    function Value(): Machine reads this {
      Machine(state, next, buf, lines, error)
    }

    /** Accumulates and parses data, up to the flush or the first error. */
    method Feed(data: seq<byte>)
      requires Sound(Value()) && !state.Done?
      modifies this
      ensures Value() == Fed(old(Value()), data) && Sound(Value())
    {
      var rest := data;
      while true
        invariant Sound(Value()) && !state.Done?
        invariant Fed(Value(), rest) == Fed(old(Value()), data)
        decreases |rest|, Idle(Value())
      {
        if |rest| < next {
          buf := buf + rest;
          next := next - |rest|;
          return;
        }
        buf := buf + rest[..next];
        rest := rest[next..];
        next := 0;
        var err := Step();
        if !err.NoError? {
          state := Done;
          error := err;
          return;
        }
        if state.Done? {
          return;
        }
      }
    }

    /** Moves to the next state; on an error nothing changes yet. */
    method Step() returns (err: Error)
      requires Full(Value())
      modifies this
      ensures err.NoError? ==> Value() == StepOnce(old(Value()))
      ensures !err.NoError? ==> Value().(state := Done, error := err) == StepOnce(old(Value()))
      ensures state.ReadingPayload? || state.ReadingLen? || state.Done?
    {
      err := NoError;
      match state {
        case Ready =>
          state := ReadingLen;
          next := PKT_LEN_SIZE;
        case ReadingLen =>
          match ParsePktLen(buf) {
            case Bad(e) =>
              return e;
            case Len(n) =>
              if n == 0 {
                state, next, buf := Done, 0, [];
              } else {
                state, next, buf := ReadingPayload, n - PKT_LEN_SIZE, [];
              }
          }
        case ReadingPayload =>
          state := ReadingLen;
          next := PKT_LEN_SIZE;
          lines := lines + [buf];
          buf := [];
      }
    }

    /** Relays data that was read, as the scanning reader does: nothing more
        after the parser is done. */
    method Scan(data: seq<byte>)
      requires Sound(Value())
      modifies this
      ensures Value() == Fed(old(Value()), data) && Sound(Value())
    {
      if state.Done? { return; }
      Feed(data);
    }
  }
}
