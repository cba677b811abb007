/** LDAP search filters: their text (RFC 4515), its compiler and the printer it undoes. */
module LdapFilter {
  import opened Octets
  import opened Utf8

  const OPEN: byte := 0x28
  const CLOSE: byte := 0x29
  const STAR: byte := 0x2A
  const AND: byte := 0x26
  const OR: byte := 0x7C
  const NOT: byte := 0x21
  const COLON: byte := 0x3A
  const LESS: byte := 0x3C
  const EQUAL: byte := 0x3D
  const GREATER: byte := 0x3E
  const TILDE: byte := 0x7E
  const BACKSLASH: byte := 0x5C
  const DN: seq<byte> := [0x64, 0x6E]

  datatype Error =
    | NoOpenParenthesis | ExtraAtEnd | UnexpectedEnd | BadRune | NoCondition
    | MissingEscape | InvalidEscape | Panicked

  datatype Result<+T> = Ok(value: T) | Err(error: Error)

  datatype Place = Initial | Any | Final

  datatype Part = Part(place: Place, value: seq<byte>)

  datatype Filter =
    | And(filters: seq<Filter>)
    | Or(filters: seq<Filter>)
    | Not(filter: Filter)
    | Equality(attribute: seq<byte>, value: seq<byte>)
    | Substrings(attribute: seq<byte>, parts: seq<Part>)
    | GreaterOrEqual(attribute: seq<byte>, value: seq<byte>)
    | LessOrEqual(attribute: seq<byte>, value: seq<byte>)
    | Present(attribute: seq<byte>)
    | Approx(attribute: seq<byte>, value: seq<byte>)
    | Extensible(attribute: seq<byte>, dn: bool, rule: seq<byte>, value: seq<byte>)

  // ---- Escaping ----

  predicate MustEscape(c: byte) {
    c > 0x7F || c == OPEN || c == CLOSE || c == BACKSLASH || c == STAR || c == 0
  }

  function EscapeByte(c: byte): seq<byte> {
    if MustEscape(c) then [BACKSLASH, HexChar(c / 16), HexChar(c % 16)] else [c]
  }

  function Escape(v: seq<byte>): seq<byte> {
    if v == [] then [] else Escape(v[..|v| - 1]) + EscapeByte(v[|v| - 1])
  }

  /** The width of the character at the front, 0 for what reads as U+FFFD. */
  function RuneWidth(t: seq<byte>): (w: nat)
    ensures w <= |t|
  {
    if [0xEF, 0xBF, 0xBD] <= t then 0 else CharLength(t)
  }

  function Unescape(s: seq<byte>): Result<seq<byte>>
    decreases |s|
  {
    if s == [] then Ok([])
    else if RuneWidth(s) == 0 then Err(BadRune)
    else if s[0] == BACKSLASH then
      if |s| < 2 then Err(MissingEscape)
      else if |s| < 3 then Err(Panicked)
      else if !IsHex(s[1]) || !IsHex(s[2]) then Err(InvalidEscape)
      else Prepend([AsHex(s[1]) * 16 + AsHex(s[2])], Unescape(s[3..]))
    else Prepend(s[..RuneWidth(s)], Unescape(s[RuneWidth(s)..]))
  }

  function Prepend(a: seq<byte>, r: Result<seq<byte>>): Result<seq<byte>> {
    match r
    case Err(e) => Err(e)
    case Ok(v) => Ok(a + v)
  }

  lemma {:induction false} EscapeCons(c: byte, v: seq<byte>)
    ensures Escape([c] + v) == EscapeByte(c) + Escape(v)
  {
    hide EscapeByte;
    if v == [] {
      assert [c] + v == [c] && [c][..0] == [];
    } else {
      EscapeCons(c, v[..|v| - 1]);
      assert ([c] + v)[..|v|] == [c] + v[..|v| - 1];
    }
  }

  lemma {:induction false} UnescapeByte(c: byte, t: seq<byte>)
    ensures Unescape(EscapeByte(c) + t) == Prepend([c], Unescape(t))
  {
    var u := EscapeByte(c) + t;
    if MustEscape(c) {
      HexCharValue(c / 16);
      HexCharValue(c % 16);
      assert u[0] == BACKSLASH && u[1] == HexChar(c / 16) && u[2] == HexChar(c % 16) && u[3..] == t;
    } else {
      assert u[0] == c && u[..1] == [c] && u[1..] == t;
    }
  }

  /** Unescaping an escaped value, of any bytes whatever, gives it back. */
  lemma {:induction false} EscapeRoundTrip(v: seq<byte>)
    ensures Unescape(Escape(v)) == Ok(v)
  {
    hide EscapeByte, Unescape;
    if v == [] {
      NothingToUnescape();
    } else {
      assert v == [v[0]] + v[1..];
      EscapeCons(v[0], v[1..]);
      UnescapeByte(v[0], Escape(v[1..]));
      EscapeRoundTrip(v[1..]);
    }
  }

  lemma NothingToUnescape()
    ensures Unescape([]) == Ok([])
  {
  }

  /** A byte that an escaped value can contain. */
  predicate Escaped(b: byte) {
    0 < b < 0x80 && b != OPEN && b != CLOSE && b != STAR
  }

  lemma {:induction false} EscapeIsEscaped(v: seq<byte>)
    ensures forall b | b in Escape(v) :: Escaped(b)
    ensures v != [] ==> Escape(v) != []
  {
    if v != [] { EscapeIsEscaped(v[..|v| - 1]); }
  }

  // ---- Printing ----

  function Decompile(f: Filter): seq<byte>
    decreases f, 1
  {
    [OPEN] + Body(f)
  }

  /** The text behind the opening parenthesis, with the closing one. */
  function Body(f: Filter): seq<byte>
    decreases f, 0
  {
    match f
    case And(fs) => [AND] + DecompileAll(fs) + [CLOSE]
    case Or(fs) => [OR] + DecompileAll(fs) + [CLOSE]
    case Not(g) => [NOT] + Decompile(g) + [CLOSE]
    case Equality(a, v) => a + [EQUAL] + Escape(v) + [CLOSE]
    case Substrings(a, ps) => a + [EQUAL] + PartsText(ps) + [CLOSE]
    case GreaterOrEqual(a, v) => a + [GREATER, EQUAL] + Escape(v) + [CLOSE]
    case LessOrEqual(a, v) => a + [LESS, EQUAL] + Escape(v) + [CLOSE]
    case Present(a) => a + [EQUAL] + [STAR] + [CLOSE]
    case Approx(a, v) => a + [TILDE, EQUAL] + Escape(v) + [CLOSE]
    case Extensible(a, dn, rule, v) => a + Matching(dn, rule) + Escape(v) + [CLOSE]
  }

  function DecompileAll(fs: seq<Filter>): seq<byte>
    decreases fs, 2
  {
    if fs == [] then [] else Decompile(fs[0]) + DecompileAll(fs[1..])
  }

  function Matching(dn: bool, rule: seq<byte>): seq<byte> {
    (if dn then [COLON] + DN else []) + (if rule == [] then [] else [COLON] + rule) + [COLON, EQUAL]
  }

  function PartsText(ps: seq<Part>): seq<byte> {
    if ps != [] && !ps[0].place.Initial? then [STAR] + Pieces(ps) else Pieces(ps)
  }

  function Pieces(ps: seq<Part>): seq<byte> {
    if ps == [] then []
    else Escape(ps[0].value) + (if ps[0].place.Final? then [] else [STAR]) + Pieces(ps[1..])
  }

  // ---- Compiling ----

  datatype State = ReadingAttr | ReadingRule | ReadingCondition

  datatype Kind = NoKind | EqualityKind | GreaterKind | LessKind | ApproxKind | ExtensibleKind

  /** What has been read of a filter item. */
  datatype Item = Item(state: State, kind: Kind, attribute: seq<byte>, dn: bool, rule: seq<byte>, condition: seq<byte>)

  const START := Item(ReadingAttr, NoKind, [], false, [], [])

  /** The item after the character or the operator at the front, and its length. */
  function ItemStep(it: Item, t: seq<byte>): (r: (Item, nat))
    requires t != [] && RuneWidth(t) > 0
    ensures 0 < r.1 <= |t|
  {
    match it.state
    case ReadingAttr =>
      if t[0] == COLON then
        if [COLON] + DN + [COLON, EQUAL] <= t
          then (it.(kind := ExtensibleKind, dn := true, state := ReadingCondition), 5)
        else if [COLON] + DN + [COLON] <= t then (it.(kind := ExtensibleKind, dn := true, state := ReadingRule), 4)
        else if [COLON, EQUAL] <= t then (it.(kind := ExtensibleKind, state := ReadingCondition), 2)
        else (it.(kind := ExtensibleKind, state := ReadingRule), 1)
      else if t[0] == EQUAL then (it.(kind := EqualityKind, state := ReadingCondition), 1)
      else if [GREATER, EQUAL] <= t then (it.(kind := GreaterKind, state := ReadingCondition), 2)
      else if [LESS, EQUAL] <= t then (it.(kind := LessKind, state := ReadingCondition), 2)
      else if [TILDE, EQUAL] <= t then (it.(kind := ApproxKind, state := ReadingCondition), 2)
      else (it.(attribute := it.attribute + t[..RuneWidth(t)]), RuneWidth(t))
    case ReadingRule =>
      if [COLON, EQUAL] <= t then (it.(state := ReadingCondition), 2)
      else (it.(rule := it.rule + t[..RuneWidth(t)]), RuneWidth(t))
    case ReadingCondition =>
      (it.(condition := it.condition + t[..RuneWidth(t)]), RuneWidth(t))
  }

  /** Reads up to the closing parenthesis; `n` bytes before it. */
  function ReadItem(t: seq<byte>, it: Item): (r: Result<(Item, nat)>)
    ensures r.Ok? ==> r.value.1 <= |t| && (r.value.1 < |t| ==> t[r.value.1] == CLOSE)
    decreases |t|
  {
    if t == [] || t[0] == CLOSE then Ok((it, 0))
    else if RuneWidth(t) == 0 then Err(BadRune)
    else
      var (it', w) := ItemStep(it, t);
      Further(w, ReadItem(t[w..], it'))
  }

  function Further(w: nat, r: Result<(Item, nat)>): Result<(Item, nat)> {
    match r
    case Err(e) => Err(e)
    case Ok((it, n)) => Ok((it, w + n))
  }

  function Split(s: seq<byte>): (r: seq<seq<byte>>)
    ensures r != []
  {
    if s == [] then [[]]
    else
      var r := Split(s[1..]);
      if s[0] == STAR then [[]] + r else [[s[0]] + r[0]] + r[1..]
  }

  /** The parts that are not empty, from the i-th on; the first and the last of all
      are initial and final. */
  function Collect(l: seq<seq<byte>>, i: nat): Result<seq<Part>>
    requires i <= |l|
    decreases |l| - i
  {
    if i == |l| then Ok([])
    else if l[i] == [] then Collect(l, i + 1)
    else match Unescape(l[i])
      case Err(e) => Err(e)
      case Ok(v) =>
        match Collect(l, i + 1)
        case Err(e) => Err(e)
        case Ok(ps) => Ok([Part(if i == 0 then Initial else if i == |l| - 1 then Final else Any, v)] + ps)
  }

  function Finish(it: Item): Result<Filter>
    requires !it.kind.NoKind?
  {
    if it.kind.EqualityKind? && it.condition == [STAR] then Ok(Present(it.attribute))
    else if it.kind.EqualityKind? && STAR in it.condition then
      match Collect(Split(it.condition), 0)
      case Err(e) => Err(e)
      case Ok(ps) => Ok(Substrings(it.attribute, ps))
    else match Unescape(it.condition)
      case Err(e) => Err(e)
      case Ok(v) =>
        match it.kind
        case EqualityKind => Ok(Equality(it.attribute, v))
        case GreaterKind => Ok(GreaterOrEqual(it.attribute, v))
        case LessKind => Ok(LessOrEqual(it.attribute, v))
        case ApproxKind => Ok(Approx(it.attribute, v))
        case _ => Ok(Extensible(it.attribute, it.dn, it.rule, v))
  }

  /** Whether the kind of an item is known when reading it ends or fails: only then is
      there a packet. */
  predicate KindRead(t: seq<byte>, it: Item)
    decreases |t|
  {
    || !it.kind.NoKind?
    || (t != [] && t[0] != CLOSE && RuneWidth(t) > 0 &&
        var (it', w) := ItemStep(it, t); KindRead(t[w..], it'))
  }

  /** Whether a filter that is refused has a packet all the same. */
  predicate Begun(t: seq<byte>) {
    RuneWidth(t) > 0 &&
    if t[0] == OPEN then Begun(t[1..]) else t[0] == AND || t[0] == OR || t[0] == NOT || KindRead(t, START)
  }

  /** A filter behind an opening parenthesis, and how far the compiler moves on; that
      can be past the end, which is only noticed when all is compiled. Behind "!" the
      packet is used before the error is looked at, and there may be none. */
  function Compile(t: seq<byte>): (r: Result<(Filter, nat)>)
    ensures r.Ok? ==> r.value.1 > 0
    decreases |t|, 0
  {
    if RuneWidth(t) == 0 then Err(BadRune)
    else if t[0] == OPEN then
      match Compile(t[1..])
      case Err(e) => Err(e)
      case Ok((f, n)) => Ok((f, 1 + n + 1))
    else if t[0] == AND || t[0] == OR then
      match CompileSet(t[1..], [])
      case Err(e) => Err(e)
      case Ok((fs, n)) => Ok((if t[0] == AND then And(fs) else Or(fs), 1 + n))
    else if t[0] == NOT then
      match Compile(t[1..])
      case Err(e) => Err(if Begun(t[1..]) then e else Panicked)
      case Ok((f, n)) => Ok((Not(f), 1 + n))
    else
      match ReadItem(t, START)
      case Err(e) => Err(e)
      case Ok((it, n)) =>
        if n == |t| then Err(UnexpectedEnd)
        else if it.kind.NoKind? then Err(NoCondition)
        else match Finish(it)
          case Err(e) => Err(e)
          case Ok(f) => Ok((f, n + 1))
  }

  function CompileSet(t: seq<byte>, fs: seq<Filter>): (r: Result<(seq<Filter>, nat)>)
    ensures r.Ok? ==> r.value.1 > 0
    decreases |t|, 1
  {
    if t != [] && t[0] == OPEN then
      match Compile(t[1..])
      case Err(e) => Err(e)
      case Ok((f, n)) =>
        if 1 + n > |t| then Ok((fs + [f], 1 + n + 1))
        else
          match CompileSet(t[1 + n..], fs + [f])
          case Err(e) => Err(e)
          case Ok((gs, m)) => Ok((gs, 1 + n + m))
    else if t == [] then Err(UnexpectedEnd)
    else Ok((fs, 1))
  }

  datatype Outcome = Made(filter: Filter) | Refused(error: Error) | Crashed

  /** A panic inside is recovered, which leaves no error but a position before the end.
      Beyond the end there is no text left to report, and that panic is not recovered. */
  function Compiled(t: seq<byte>): Outcome {
    if t == [] || t[0] != OPEN then Refused(NoOpenParenthesis)
    else match Compile(t[1..])
      case Err(e) => Refused(if e.Panicked? then ExtraAtEnd else e)
      case Ok((f, n)) => if 1 + n > |t| then Crashed else if 1 + n < |t| then Refused(ExtraAtEnd) else Made(f)
  }

  // ---- Filters that the printer writes without loss ----

  /** Text that decodes character by character, without U+FFFD. */
  predicate Readable(s: seq<byte>)
    decreases |s|
  {
    s == [] || (RuneWidth(s) > 0 && Readable(s[RuneWidth(s)..]))
  }

  predicate InName(b: byte) {
    b != CLOSE && b != COLON && b != EQUAL && b != LESS && b != GREATER && b != TILDE
  }

  /** A name without the characters of the syntax. */
  predicate NameOk(s: seq<byte>) {
    Readable(s) && forall i | 0 <= i < |s| :: InName(s[i])
  }

  /** An attribute, which comes first, does not begin as something else either. */
  predicate AttributeOk(s: seq<byte>) {
    NameOk(s) && (s != [] ==> s[0] != OPEN && s[0] != AND && s[0] != OR && s[0] != NOT)
  }

  predicate PartsOk(ps: seq<Part>) {
    ps != [] && forall k | 0 <= k < |ps| ::
      ps[k].value != [] && (ps[k].place.Initial? ==> k == 0) && (ps[k].place.Final? ==> k == |ps| - 1)
  }

  ghost predicate Writable(f: Filter) {
    match f
    case And(fs) => forall g | g in fs :: Writable(g)
    case Or(fs) => forall g | g in fs :: Writable(g)
    case Not(g) => Writable(g)
    case Substrings(a, ps) => AttributeOk(a) && PartsOk(ps)
    case Extensible(a, dn, rule, _) => AttributeOk(a) && NameOk(rule) && (rule == DN ==> dn)
    case _ => AttributeOk(f.attribute)
  }

  // ---- Characters ----

  lemma RuneStays(a: seq<byte>, b: seq<byte>)
    requires RuneWidth(a) > 0
    ensures RuneWidth(a + b) == RuneWidth(a)
  {
    assert forall i | 0 <= i < |a| :: (a + b)[i] == a[i];
    if |a| >= 3 { assert a[..3] == (a + b)[..3]; }
  }

  lemma AsciiRune(t: seq<byte>)
    requires t != [] && t[0] < 0x80
    ensures RuneWidth(t) == 1
  {
  }

  // ---- Reading an item ----

  /** Reads a name: the attribute, or the matching rule. */
  lemma {:induction false} ReadName(name: seq<byte>, t: seq<byte>, it: Item)
    requires NameOk(name) && !it.state.ReadingCondition?
    ensures ReadItem(name + t, it) ==
            Further(|name|, ReadItem(t, if it.state.ReadingAttr? then it.(attribute := it.attribute + name)
                                        else it.(rule := it.rule + name)))
    decreases |name|
  {
    hide RuneWidth, ReadItem, Further;
    if name == [] {
      assert name + t == t && it.attribute + name == it.attribute && it.rule + name == it.rule;
      NoFurther(ReadItem(t, it));
    } else {
      var w := RuneWidth(name);
      var c, rest := name[..w], name[w..];
      RuneStays(name, t);
      assert name + t == c + (rest + t) && (name + t)[..w] == c && (name + t)[w..] == rest + t;
      var it' := if it.state.ReadingAttr? then it.(attribute := it.attribute + c) else it.(rule := it.rule + c);
      NameStep(name + t, it, name[0]);
      ReadItemStep(name + t, it);
      ReadName(rest, t, it');
      assert it.attribute + c + rest == it.attribute + name && it.rule + c + rest == it.rule + name;
      FurtherTwice(w, |rest|, ReadItem(t, if it.state.ReadingAttr? then it.(attribute := it.attribute + name)
                                          else it.(rule := it.rule + name)));
    }
  }

  lemma NameStep(t: seq<byte>, it: Item, b: byte)
    requires t != [] && t[0] == b && InName(b) && RuneWidth(t) > 0 && !it.state.ReadingCondition?
    ensures ItemStep(it, t) == (if it.state.ReadingAttr? then it.(attribute := it.attribute + t[..RuneWidth(t)])
                                else it.(rule := it.rule + t[..RuneWidth(t)]), RuneWidth(t))
  {
  }

  lemma {:induction false} ReadItemStep(t: seq<byte>, it: Item)
    requires t != [] && t[0] != CLOSE && RuneWidth(t) > 0
    ensures ReadItem(t, it) == Further(ItemStep(it, t).1, ReadItem(t[ItemStep(it, t).1..], ItemStep(it, t).0))
  {
    hide ItemStep, Further, RuneWidth;
  }

  lemma NoFurther(r: Result<(Item, nat)>)
    ensures Further(0, r) == r
  {
  }

  lemma FurtherTwice(a: nat, b: nat, r: Result<(Item, nat)>)
    ensures Further(a, Further(b, r)) == Further(a + b, r)
  {
  }

  /** What an escaped value or the parts of one consist of. */
  predicate InCondition(b: byte) {
    b < 0x80 && b != CLOSE
  }

  /** Reads a condition up to the closing parenthesis. */
  lemma {:induction false} ReadCondition(s: seq<byte>, t: seq<byte>, it: Item)
    requires it.state.ReadingCondition? && (forall i | 0 <= i < |s| :: InCondition(s[i]))
    ensures ReadItem(s + ([CLOSE] + t), it) == Ok((it.(condition := it.condition + s), |s|))
    decreases |s|
  {
    hide RuneWidth, ReadItem;
    var u := s + ([CLOSE] + t);
    if s == [] {
      assert u == [CLOSE] + t && it.condition + s == it.condition;
      AtClose(u, it);
    } else {
      assert u[1..] == s[1..] + ([CLOSE] + t) && u[..1] == [s[0]];
      AsciiRune(u);
      ReadItemStep(u, it);
      ReadCondition(s[1..], t, it.(condition := it.condition + [s[0]]));
      assert it.condition + [s[0]] + s[1..] == it.condition + s;
    }
  }

  lemma {:induction false} AtClose(t: seq<byte>, it: Item)
    requires t != [] && t[0] == CLOSE
    ensures ReadItem(t, it) == Ok((it, 0))
  {
  }

  /** The operator behind the attribute. */
  function Operator(kind: Kind): seq<byte>
    requires !kind.NoKind? && !kind.ExtensibleKind?
  {
    match kind
    case EqualityKind => [EQUAL]
    case GreaterKind => [GREATER, EQUAL]
    case LessKind => [LESS, EQUAL]
    case _ => [TILDE, EQUAL]
  }

  lemma {:induction false} ReadOperator(kind: Kind, t: seq<byte>, it: Item)
    requires !kind.NoKind? && !kind.ExtensibleKind? && it.state.ReadingAttr?
    ensures ReadItem(Operator(kind) + t, it)
         == Further(|Operator(kind)|, ReadItem(t, it.(kind := kind, state := ReadingCondition)))
  {
    hide RuneWidth, Further, ReadItem;
    var u := Operator(kind) + t;
    AsciiRune(u);
    ReadItemStep(u, it);
    assert u[|Operator(kind)|..] == t;
    if |Operator(kind)| == 2 { assert Operator(kind) <= u; }
  }

  /** A simple item, read whole. */
  lemma {:induction false} ReadSimple(a: seq<byte>, kind: Kind, s: seq<byte>, t: seq<byte>)
    requires NameOk(a) && !kind.NoKind? && !kind.ExtensibleKind? && (forall i | 0 <= i < |s| :: InCondition(s[i]))
    ensures ReadItem(a + Operator(kind) + s + ([CLOSE] + t), START)
         == Ok((Item(ReadingCondition, kind, a, false, [], s), |a| + |Operator(kind)| + |s|))
  {
    hide ReadItem, NameOk;
    var it := START.(attribute := [] + a);
    assert [] + a == a && [] + s == s;
    var v := s + ([CLOSE] + t);
    assert a + Operator(kind) + s + ([CLOSE] + t) == a + (Operator(kind) + v);
    ReadName(a, Operator(kind) + v, START);
    ReadOperator(kind, v, it);
    ReadCondition(s, t, it.(kind := kind, state := ReadingCondition));
  }

  /** The matching part of an extensible item. */
  lemma {:induction false} ReadMatching(dn: bool, rule: seq<byte>, t: seq<byte>, it: Item)
    requires NameOk(rule) && (rule == DN ==> dn) && it.state.ReadingAttr? && !it.dn && it.rule == []
    ensures ReadItem(Matching(dn, rule) + t, it)
         == Further(|Matching(dn, rule)|,
           ReadItem(t, it.(kind := ExtensibleKind, dn := dn, rule := rule, state := ReadingCondition)))
  {
    hide ReadItem, RuneWidth, Further, NameOk, ItemStep;
    var u := Matching(dn, rule) + t;
    var it1 := it.(kind := ExtensibleKind, dn := dn);
    AsciiRune(u);
    ReadItemStep(u, it);
    if rule == [] {
      MatchingWithoutRule(dn, t, it);
      assert u[|Matching(dn, rule)|..] == t;
      assert it.(kind := ExtensibleKind, dn := dn, rule := rule, state := ReadingCondition) ==
             it1.(state := ReadingCondition);
    } else {
      var v := [COLON, EQUAL] + t;
      var it2 := it1.(state := ReadingRule);
      var k := if dn then 4 else 1;
      MatchingWithRule(dn, rule, t, it);
      assert u[k..] == rule + v;
      ReadName(rule, v, it2);
      assert [] + rule == rule;
      AsciiRune(v);
      ReadItemStep(v, it2.(rule := rule));
      RuleEnds(it2.(rule := rule), t);
      FurtherTwice(|rule|, 2,
        ReadItem(t, it.(kind := ExtensibleKind, dn := dn, rule := rule, state := ReadingCondition)));
      FurtherTwice(k, |rule| + 2,
        ReadItem(t, it.(kind := ExtensibleKind, dn := dn, rule := rule, state := ReadingCondition)));
    }
  }

  lemma RuleEnds(it: Item, t: seq<byte>)
    requires it.state.ReadingRule? && RuneWidth([COLON, EQUAL] + t) > 0
    ensures var v := [COLON, EQUAL] + t; ItemStep(it, v) == (it.(state := ReadingCondition), 2) && v[2..] == t
  {
    hide RuneWidth;
    assert [COLON, EQUAL] <= [COLON, EQUAL] + t;
  }

  lemma MatchingWithoutRule(dn: bool, t: seq<byte>, it: Item)
    requires it.state.ReadingAttr? && !it.dn && RuneWidth(Matching(dn, []) + t) > 0
    ensures ItemStep(it, Matching(dn, []) + t)
         == (it.(kind := ExtensibleKind, dn := dn, state := ReadingCondition), |Matching(dn, [])|)
  {
    var u := Matching(dn, []) + t;
    assert Matching(dn, []) <= u;
    assert Matching(true, []) == [COLON] + DN + [COLON, EQUAL] && Matching(false, []) == [COLON, EQUAL];
    assert !dn ==> u[1] == EQUAL;
  }

  lemma MatchingWithRule(dn: bool, rule: seq<byte>, t: seq<byte>, it: Item)
    requires rule != [] && NameOk(rule) && (rule == DN ==> dn) && it.state.ReadingAttr? && !it.dn
    requires RuneWidth(Matching(dn, rule) + t) > 0
    ensures ItemStep(it, Matching(dn, rule) + t)
         == (it.(kind := ExtensibleKind, dn := dn, state := ReadingRule), if dn then 4 else 1)
  {
    var u := Matching(dn, rule) + t;
    var v := rule + [COLON, EQUAL] + t;
    if dn {
      assert u == [COLON] + DN + [COLON] + v;
      assert u[4] == rule[0] && ([COLON] + DN + [COLON]) <= u;
    } else {
      assert u == [COLON] + v;
      assert u[1] == rule[0] && u[|rule| + 1] == COLON;
      if ([COLON] + DN + [COLON]) <= u {
        DnAhead(rule, t, u);
      }
    }
  }

  lemma DnAhead(rule: seq<byte>, t: seq<byte>, u: seq<byte>)
    requires rule != [] && (forall i | 0 <= i < |rule| :: rule[i] != COLON)
    requires u == [COLON] + (rule + [COLON, EQUAL] + t) && ([COLON] + DN + [COLON]) <= u
    ensures rule == DN
  {
    var p := [COLON] + DN + [COLON];
    assert forall i | 0 <= i < 4 :: u[i] == p[i];
    var v := u[1..];
    assert forall i | 0 <= i < |rule| :: v[i] == rule[i];
    assert v[0] == p[1] && v[1] == p[2] && v[2] == p[3];
    FirstColon(v, 2, |rule|);
    assert rule == [v[0], v[1]];
  }

  lemma FirstColon(s: seq<byte>, i: nat, j: nat)
    requires i < |s| && s[i] == COLON && forall k | 0 <= k < i :: s[k] != COLON
    requires j < |s| && s[j] == COLON && forall k | 0 <= k < j :: s[k] != COLON
    ensures i == j
  {
  }

  // ---- Substrings ----

  function JoinStar(l: seq<seq<byte>>): seq<byte>
    requires l != []
  {
    if |l| == 1 then l[0] else l[0] + [STAR] + JoinStar(l[1..])
  }

  lemma {:induction false} SplitPlain(x: seq<byte>)
    requires STAR !in x
    ensures Split(x) == [x]
  {
    if x != [] {
      SplitPlain(x[1..]);
      assert [x[0]] + x[1..] == x;
    }
  }

  lemma {:induction false} SplitAtStar(x: seq<byte>, t: seq<byte>)
    requires STAR !in x
    ensures Split(x + [STAR] + t) == [x] + Split(t)
  {
    var u := x + [STAR] + t;
    if x == [] {
      assert u[1..] == t;
    } else {
      assert u[1..] == x[1..] + [STAR] + t && u[0] == x[0];
      SplitAtStar(x[1..], t);
      assert [x[0]] + x[1..] == x;
    }
  }

  /** Splitting what was joined gives back the parts. */
  lemma {:induction false} SplitJoin(l: seq<seq<byte>>)
    requires l != [] && forall k | 0 <= k < |l| :: STAR !in l[k]
    ensures Split(JoinStar(l)) == l
  {
    hide Split;
    if |l| == 1 {
      SplitPlain(l[0]);
    } else {
      SplitAtStar(l[0], JoinStar(l[1..]));
      SplitJoin(l[1..]);
      assert l == [l[0]] + l[1..];
    }
  }

  /** The parts as the compiler sees them, an empty one standing where the text begins
      or ends in a star. */
  function PiecesList(ps: seq<Part>): (l: seq<seq<byte>>)
    requires ps != []
    ensures |l| == |ps| + if ps[|ps| - 1].place.Final? then 0 else 1
    ensures forall k | 0 <= k < |ps| :: l[k] == Escape(ps[k].value)
    ensures !ps[|ps| - 1].place.Final? ==> l[|ps|] == []
  {
    [Escape(ps[0].value)] +
    if |ps| == 1 then (if ps[0].place.Final? then [] else [[]]) else PiecesList(ps[1..])
  }

  function PartsList(ps: seq<Part>): seq<seq<byte>>
    requires ps != []
  {
    if ps[0].place.Initial? then PiecesList(ps) else [[]] + PiecesList(ps)
  }

  lemma {:induction false} PiecesAreJoined(ps: seq<Part>)
    requires ps != [] && forall k | 0 <= k < |ps| - 1 :: !ps[k].place.Final?
    ensures Pieces(ps) == JoinStar(PiecesList(ps))
  {
    var e := Escape(ps[0].value);
    if |ps| == 1 {
      assert ps[1..] == [];
      if !ps[0].place.Final? { assert PiecesList(ps) == [e, []] && [e, []][1..] == [[]]; }
    } else {
      PiecesAreJoined(ps[1..]);
      assert PiecesList(ps)[1..] == PiecesList(ps[1..]);
    }
  }

  lemma {:induction false} PartsAreJoined(ps: seq<Part>)
    requires PartsOk(ps)
    ensures PartsText(ps) == JoinStar(PartsList(ps)) && Split(PartsText(ps)) == PartsList(ps)
  {
    hide Pieces, PiecesList, Split, Escape;
    PiecesAreJoined(ps);
    var l := PartsList(ps);
    if !ps[0].place.Initial? { assert l[1..] == PiecesList(ps) && l[0] == []; }
    forall k | 0 <= k < |ps| ensures STAR !in Escape(ps[k].value) { EscapeIsEscaped(ps[k].value); }
    SplitJoin(l);
  }

  lemma {:induction false} Collects(ps: seq<Part>, k: nat)
    requires PartsOk(ps) && k <= |ps|
    ensures var o := if ps[0].place.Initial? then 0 else 1;
            Collect(PartsList(ps), o + k) == Ok(ps[k..])
    decreases |ps| - k
  {
    hide PartsList, Unescape, Escape, Collect;
    var o := if ps[0].place.Initial? then 0 else 1;
    var l := PartsList(ps);
    PartsListForm(ps);
    if k < |ps| {
      Collects(ps, k + 1);
      EscapeIsEscaped(ps[k].value);
      EscapeRoundTrip(ps[k].value);
      CollectPart(l, o + k, ps[k].value);
      assert ps[k..] == [ps[k]] + ps[k + 1..];
      assert ps[k] == Part(ps[k].place, ps[k].value);
    } else {
      assert ps[k..] == [];
      CollectEnd(l, o + k);
    }
  }

  lemma PartsListForm(ps: seq<Part>)
    requires ps != []
    ensures var o, l := if ps[0].place.Initial? then 0 else 1, PartsList(ps);
            && |l| == o + |ps| + (if ps[|ps| - 1].place.Final? then 0 else 1)
            && (forall k | 0 <= k < |ps| :: l[o + k] == Escape(ps[k].value))
            && (!ps[|ps| - 1].place.Final? ==> l[o + |ps|] == []) && (o == 1 ==> l[0] == [])
  {
    hide PiecesList;
  }

  lemma CollectPart(l: seq<seq<byte>>, i: nat, v: seq<byte>)
    requires i < |l| && l[i] != [] && Unescape(l[i]) == Ok(v)
    ensures Collect(l, i) ==
            match Collect(l, i + 1)
            case Err(e) => Err(e)
            case Ok(ps) => Ok([Part(if i == 0 then Initial else if i == |l| - 1 then Final else Any, v)] + ps)
  {
    hide Unescape;
  }

  lemma {:induction false} CollectEnd(l: seq<seq<byte>>, i: nat)
    requires i == |l| || (i == |l| - 1 && l[i] == [])
    ensures Collect(l, i) == Ok([])
  {
    hide Unescape;
  }

  /** The parts come back, in their places. */
  lemma {:induction false} PartsRoundTrip(ps: seq<Part>)
    requires PartsOk(ps)
    ensures Collect(Split(PartsText(ps)), 0) == Ok(ps)
    ensures PartsText(ps) != [STAR] && STAR in PartsText(ps)
    ensures forall b | b in PartsText(ps) :: InCondition(b)
  {
    hide PiecesList, Pieces, PartsText, Collect, Split, Escape;
    PartsAreJoined(ps);
    Collects(ps, 0);
    assert ps[0..] == ps;
    var l := PartsList(ps);
    PartsListForm(ps);
    if !ps[0].place.Initial? { CollectEmpty(l); }
    EscapeIsEscaped(ps[0].value);
    assert l[if ps[0].place.Initial? then 0 else 1] != [];
    SplitStar();
    if STAR !in PartsText(ps) { SplitPlain(PartsText(ps)); }
    PartsInCondition(ps);
  }

  lemma {:induction false} CollectEmpty(l: seq<seq<byte>>)
    requires l != [] && l[0] == []
    ensures Collect(l, 0) == Collect(l, 1)
  {
  }

  lemma SplitStar()
    ensures Split([STAR]) == [[], []]
  {
    assert [STAR][1..] == [];
  }

  lemma {:induction false} PiecesInCondition(ps: seq<Part>)
    ensures forall b | b in Pieces(ps) :: InCondition(b)
  {
    if ps != [] {
      EscapeIsEscaped(ps[0].value);
      PiecesInCondition(ps[1..]);
    }
  }

  lemma PartsInCondition(ps: seq<Part>)
    ensures forall b | b in PartsText(ps) :: InCondition(b)
  {
    hide Pieces;
    PiecesInCondition(ps);
  }

  // ---- The round trip ----

  lemma {:induction false} CompileItem(u: seq<byte>, it: Item, n: nat, f: Filter)
    requires u != [] && RuneWidth(u) > 0 && u[0] != OPEN && u[0] != AND && u[0] != OR && u[0] != NOT
    requires ReadItem(u, START) == Ok((it, n)) && n < |u| && !it.kind.NoKind? && Finish(it) == Ok(f)
    ensures Compile(u) == Ok((f, n + 1))
  {
    hide RuneWidth, ReadItem, Finish;
  }

  lemma AttributeFront(a: seq<byte>, op: seq<byte>, t: seq<byte>)
    requires AttributeOk(a) && op != [] && op[0] < 0x80 && op[0] != OPEN && op[0] != AND && op[0] != OR && op[0] != NOT
    ensures var u := a + op + t;
            u != [] && RuneWidth(u) > 0 && u[0] != OPEN && u[0] != AND && u[0] != OR && u[0] != NOT
  {
    hide RuneWidth;
    var u := a + op + t;
    if a == [] {
      assert u[0] == op[0];
      AsciiRune(u);
    } else {
      RuneStays(a, op + t);
      assert u == a + (op + t) && u[0] == a[0];
    }
  }

  lemma {:induction false} SimpleItem(a: seq<byte>, kind: Kind, s: seq<byte>, t: seq<byte>, f: Filter)
    requires AttributeOk(a) && !kind.NoKind? && !kind.ExtensibleKind? && (forall i | 0 <= i < |s| :: InCondition(s[i]))
    requires Finish(Item(ReadingCondition, kind, a, false, [], s)) == Ok(f)
    ensures Compile(a + Operator(kind) + s + [CLOSE] + t) == Ok((f, |a + Operator(kind) + s + [CLOSE]|))
  {
    hide ReadItem, Compile, Finish, RuneWidth, Readable;
    var v := s + ([CLOSE] + t);
    var u := a + Operator(kind) + v;
    assert u == a + Operator(kind) + s + [CLOSE] + t == a + Operator(kind) + s + ([CLOSE] + t);
    ReadSimple(a, kind, s, t);
    AttributeFront(a, Operator(kind), v);
    CompileItem(u, Item(ReadingCondition, kind, a, false, [], s), |a| + |Operator(kind)| + |s|, f);
  }

  lemma {:induction false} ValueItem(a: seq<byte>, kind: Kind, v: seq<byte>, t: seq<byte>)
    requires AttributeOk(a) && !kind.NoKind? && !kind.ExtensibleKind?
    ensures var text := a + Operator(kind) + Escape(v) + [CLOSE];
            var f := match kind
              case EqualityKind => Equality(a, v)
              case GreaterKind => GreaterOrEqual(a, v)
              case LessKind => LessOrEqual(a, v)
              case _ => Approx(a, v);
            Compile(text + t) == Ok((f, |text|))
  {
    hide Compile, Unescape, Escape, AttributeOk;
    EscapeRoundTrip(v);
    EscapeIsEscaped(v);
    var s := Escape(v);
    assert forall i | 0 <= i < |s| :: s[i] in s;
    var f := match kind
      case EqualityKind => Equality(a, v)
      case GreaterKind => GreaterOrEqual(a, v)
      case LessKind => LessOrEqual(a, v)
      case _ => Approx(a, v);
    assert STAR !in s && s != [STAR];
    SimpleItem(a, kind, s, t, f);
  }

  lemma {:induction false} ExtensibleItem(f: Filter, t: seq<byte>)
    requires f.Extensible? && Writable(f)
    ensures Compile(Body(f) + t) == Ok((f, |Body(f)|))
  {
    hide Compile, Unescape, Escape, ReadItem, RuneWidth, NameOk, Matching, Further;
    MatchingFront(f.dn, f.rule);
    var a, m, s := f.attribute, Matching(f.dn, f.rule), Escape(f.value);
    EscapeRoundTrip(f.value);
    EscapeIsEscaped(f.value);
    assert forall i | 0 <= i < |s| :: s[i] in s;
    var v := s + ([CLOSE] + t);
    var u := a + m + v;
    assert u == Body(f) + t && u == a + (m + v);
    var it := Item(ReadingCondition, ExtensibleKind, a, f.dn, f.rule, []);
    var done := Item(ReadingCondition, ExtensibleKind, a, f.dn, f.rule, s);
    assert [] + a == a && [] + s == s;
    ReadName(a, m + v, START);
    ReadMatching(f.dn, f.rule, v, START.(attribute := a));
    ReadCondition(s, t, it);
    Furthest(|a|, |m|, |s|, done);
    AttributeFront(a, m, v);
    CompileItem(u, done, |a| + |m| + |s|, f);
  }

  lemma MatchingFront(dn: bool, rule: seq<byte>)
    ensures Matching(dn, rule) != [] && Matching(dn, rule)[0] == COLON
  {
  }

  lemma Furthest(a: nat, b: nat, n: nat, it: Item)
    ensures Further(a, Further(b, Ok((it, n)))) == Ok((it, a + b + n))
  {
  }

  lemma OpenRune(t: seq<byte>)
    requires t != [] && t[0] < 0x80
    ensures RuneWidth(t) > 0
  {
  }

  /** Compiling what was printed gives back the filter, and stops at its end. */
  lemma {:induction false} BodyRoundTrip(f: Filter, t: seq<byte>)
    requires Writable(f)
    ensures Compile(Body(f) + t) == Ok((f, |Body(f)|))
    decreases f, 1
  {
    hide AttributeOk, NameOk, PartsOk, Escape, PartsText, Finish;
    match f
    case And(fs) =>
      SetRoundTrip(fs, t, []);
      CompilesSet(AND, fs, t);
    case Or(fs) =>
      SetRoundTrip(fs, t, []);
      CompilesSet(OR, fs, t);
    case Not(g) =>
      BodyRoundTrip(g, [CLOSE] + t);
      CompilesNot(g, t);
    case Equality(a, v) => ValueItem(a, EqualityKind, v, t);
    case GreaterOrEqual(a, v) => ValueItem(a, GreaterKind, v, t);
    case LessOrEqual(a, v) => ValueItem(a, LessKind, v, t);
    case Approx(a, v) => ValueItem(a, ApproxKind, v, t);
    case Present(a) =>
      PresentFinishes(a);
      SimpleItem(a, EqualityKind, [STAR], t, f);
    case Substrings(a, ps) =>
      PartsRoundTrip(ps);
      SubstringsFinish(a, ps);
      assert forall i | 0 <= i < |PartsText(ps)| :: PartsText(ps)[i] in PartsText(ps);
      SimpleItem(a, EqualityKind, PartsText(ps), t, f);
    case Extensible(_, _, _, _) => ExtensibleItem(f, t);
  }

  lemma {:induction false} CompilesSet(op: byte, fs: seq<Filter>, t: seq<byte>)
    requires op == AND || op == OR
    requires CompileSet(DecompileAll(fs) + ([CLOSE] + t), []) == Ok(([] + fs, |DecompileAll(fs)| + 1))
    ensures var text := [op] + DecompileAll(fs) + [CLOSE];
            Compile(text + t) == Ok((if op == AND then And(fs) else Or(fs), |text|))
  {
    hide CompileSet, DecompileAll, RuneWidth;
    var v := DecompileAll(fs) + ([CLOSE] + t);
    var u := [op] + v;
    assert [op] + DecompileAll(fs) + [CLOSE] + t == u && u[1..] == v && [] + fs == fs;
    OpenRune(u);
  }

  lemma {:induction false} CompilesNot(g: Filter, t: seq<byte>)
    requires Compile(Body(g) + ([CLOSE] + t)) == Ok((g, |Body(g)|))
    ensures var text := [NOT] + Decompile(g) + [CLOSE];
            Compile(text + t) == Ok((Not(g), |text|))
  {
    hide Body, RuneWidth;
    var w := Body(g) + ([CLOSE] + t);
    var v := [OPEN] + w;
    var u := [NOT] + v;
    assert [NOT] + Decompile(g) + [CLOSE] + t == u && u[1..] == v && v[1..] == w;
    OpenRune(u);
    OpenRune(v);
    assert Compile(v) == Ok((g, 1 + |Body(g)| + 1));
  }

  lemma PresentFinishes(a: seq<byte>)
    ensures Finish(Item(ReadingCondition, EqualityKind, a, false, [], [STAR])) == Ok(Present(a))
  {
  }

  lemma SubstringsFinish(a: seq<byte>, ps: seq<Part>)
    requires Collect(Split(PartsText(ps)), 0) == Ok(ps) && PartsText(ps) != [STAR] && STAR in PartsText(ps)
    ensures Finish(Item(ReadingCondition, EqualityKind, a, false, [], PartsText(ps))) == Ok(Substrings(a, ps))
  {
  }

  lemma {:induction false} SetRoundTrip(fs: seq<Filter>, t: seq<byte>, done: seq<Filter>)
    requires forall f | f in fs :: Writable(f)
    ensures CompileSet(DecompileAll(fs) + ([CLOSE] + t), done) == Ok((done + fs, |DecompileAll(fs)| + 1))
    decreases fs, 2
  {
    hide Body, Compile, CompileSet, DecompileAll;
    var v := [CLOSE] + t;
    if fs == [] {
      SetEnds(t, done);
    } else {
      var rest := DecompileAll(fs[1..]) + v;
      BodyRoundTrip(fs[0], rest);
      SetRoundTrip(fs[1..], t, done + [fs[0]]);
      DecompileFirst(fs, v);
      SetGoesOn(fs[0], rest, done);
      assert done + [fs[0]] + fs[1..] == done + fs;
    }
  }

  lemma {:induction false} DecompileFirst(fs: seq<Filter>, v: seq<byte>)
    requires fs != []
    ensures DecompileAll(fs) + v == [OPEN] + (Body(fs[0]) + (DecompileAll(fs[1..]) + v))
    ensures |DecompileAll(fs)| == 1 + |Body(fs[0])| + |DecompileAll(fs[1..])|
  {
    hide Body;
  }

  lemma {:induction false} SetEnds(t: seq<byte>, done: seq<Filter>)
    ensures DecompileAll([]) == [] && CompileSet([] + ([CLOSE] + t), done) == Ok((done + [], 1))
  {
    assert [] + ([CLOSE] + t) == [CLOSE] + t && done + [] == done;
  }

  lemma {:induction false} SetGoesOn(f: Filter, rest: seq<byte>, done: seq<Filter>)
    requires Compile(Body(f) + rest) == Ok((f, |Body(f)|))
    ensures CompileSet([OPEN] + (Body(f) + rest), done) ==
            match CompileSet(rest, done + [f])
            case Err(e) => Err(e)
            case Ok((gs, m)) => Ok((gs, 1 + |Body(f)| + m))
  {
    hide Body, Compile;
    var u := [OPEN] + (Body(f) + rest);
    assert u[1..] == Body(f) + rest && u[1 + |Body(f)|..] == rest;
  }

  /** Compiling the text of a filter gives back that filter. */
  lemma {:induction false} FilterRoundTrip(f: Filter)
    requires Writable(f)
    ensures Compiled(Decompile(f)) == Made(f)
  {
    hide Body, Compile, Writable;
    BodyRoundTrip(f, []);
    assert Decompile(f)[1..] == Body(f) + [];
  }

  /** An extensible filter comes back exactly when its rule is not called "dn" or it
      matches the DN attributes as well: the text of the others means something else. */
  lemma {:induction false} ExtensibleRoundTrip(f: Filter)
    requires f.Extensible? && AttributeOk(f.attribute) && NameOk(f.rule)
    ensures Compiled(Decompile(f)) == Made(f) <==> (f.rule == DN ==> f.dn)
  {
    hide AttributeOk, NameOk, Compiled, Escape;
    if f.rule == DN && !f.dn {
      var g := f.(dn := true, rule := []);
      assert [COLON] + DN + [COLON, EQUAL] == [] + ([COLON] + DN) + [COLON, EQUAL];
      assert Matching(false, DN) == Matching(true, []);
      assert Decompile(g) == Decompile(f);
      EmptyName();
      FilterRoundTrip(g);
    } else {
      FilterRoundTrip(f);
    }
  }

  lemma EmptyName()
    ensures NameOk([])
  {
  }

  // ---- The compiler as it runs ----

  /** How many bytes of the first `i` must be escaped. */
  function Escapes(v: seq<byte>): nat {
    if v == [] then 0 else Escapes(v[..|v| - 1]) + if MustEscape(v[|v| - 1]) then 1 else 0
  }

  lemma {:induction false} EscapeLength(v: seq<byte>)
    ensures |Escape(v)| == |v| + 2 * Escapes(v)
    ensures Escapes(v) == 0 ==> Escape(v) == v
  {
    if v != [] {
      EscapeLength(v[..|v| - 1]);
      assert v == v[..|v| - 1] + [v[|v| - 1]];
    }
  }

  lemma {:induction false} EscapePrefix(v: seq<byte>, i: nat)
    requires i < |v|
    ensures Escape(v[..i + 1]) == Escape(v[..i]) + EscapeByte(v[i])
    ensures |Escape(v[..i + 1])| <= |Escape(v)|
    decreases |v| - i
  {
    assert v[..i + 1][..i] == v[..i];
    if i + 1 < |v| { EscapePrefix(v, i + 1); } else { assert v[..i + 1] == v; }
  }

  lemma NothingEscaped()
    ensures Escape([]) == []
  {
  }

  /** Counts the bytes to escape, and then fills a buffer of just the length needed. */
  method EscapeFilter(filter: seq<byte>) returns (r: seq<byte>)
    ensures r == Escape(filter)
  {
    hide EscapeByte, Escape, MustEscape;
    NothingEscaped();
    var escape := 0;
    for i := 0 to |filter|
      invariant escape == Escapes(filter[..i])
    {
      assert filter[..i + 1][..i] == filter[..i];
      if MustEscape(filter[i]) { escape := escape + 1; }
    }
    assert filter[..|filter|] == filter;
    EscapeLength(filter);
    if escape == 0 { return filter; }
    var buf := new byte[|filter| + escape * 2](_ => 0);
    var j := 0;
    for i := 0 to |filter|
      invariant j == |Escape(filter[..i])| <= buf.Length && buf[..j] == Escape(filter[..i])
    {
      var c := filter[i];
      EscapePrefix(filter, i);
      j := PutEscaped(buf, j, c);
    }
    r := buf[..];
    assert buf[..j] == buf[..];
  }

  method PutEscaped(buf: array<byte>, j: nat, c: byte) returns (j': nat)
    requires j + |EscapeByte(c)| <= buf.Length
    modifies buf
    ensures j' == j + |EscapeByte(c)| && buf[..j'] == old(buf[..j]) + EscapeByte(c)
  {
    if MustEscape(c) {
      buf[j], buf[j + 1], buf[j + 2] := BACKSLASH, HexChar(c / 16), HexChar(c % 16);
      j' := j + 3;
    } else {
      buf[j] := c;
      j' := j + 1;
    }
  }

  method EscapedStringToEncodedBytes(s: seq<byte>) returns (r: Result<seq<byte>>)
    ensures r == Unescape(s)
  {
    hide RuneWidth, IsHex, AsHex, Unescape, Prepend;
    NothingToUnescape();
    var buffer: seq<byte>, i: nat := [], 0;
    assert s[0..] == s;
    NothingBefore(Unescape(s));
    while i < |s|
      invariant i <= |s| && Unescape(s) == Prepend(buffer, Unescape(s[i..]))
    {
      var w := RuneWidth(s[i..]);
      UnescapeAt(s, i, buffer);
      if w == 0 { return Err(BadRune); }
      if s[i] == BACKSLASH {
        if i + 2 > |s| { return Err(MissingEscape); }
        if i + 3 > |s| { return Err(Panicked); }
        if !IsHex(s[i + 1]) || !IsHex(s[i + 2]) { return Err(InvalidEscape); }
        var b: byte := AsHex(s[i + 1]) * 16 + AsHex(s[i + 2]);
        PrependTwice(buffer, [b], Unescape(s[i + 3..]));
        buffer := buffer + [b];
        i := i + 3;
      } else {
        PrependTwice(buffer, s[i..i + w], Unescape(s[i + w..]));
        buffer := buffer + s[i..i + w];
        i := i + w;
      }
    }
    assert s[i..] == [] && buffer + [] == buffer;
    PrependOk(buffer, []);
    r := Ok(buffer);
  }

  lemma PrependOk(a: seq<byte>, v: seq<byte>)
    ensures Prepend(a, Ok(v)) == Ok(a + v)
  {
  }

  /** What unescaping does at a position, with `buffer` before it. */
  lemma UnescapeAt(s: seq<byte>, i: nat, buffer: seq<byte>)
    requires i < |s|
    ensures var w := RuneWidth(s[i..]);
            Prepend(buffer, Unescape(s[i..])) ==
            if w == 0 then Err(BadRune)
            else if s[i] == BACKSLASH then
              if i + 2 > |s| then Err(MissingEscape)
              else if i + 3 > |s| then Err(Panicked)
              else if !IsHex(s[i + 1]) || !IsHex(s[i + 2]) then Err(InvalidEscape)
              else Prepend(buffer, Prepend([AsHex(s[i + 1]) * 16 + AsHex(s[i + 2])], Unescape(s[i + 3..])))
            else Prepend(buffer, Prepend(s[i..i + w], Unescape(s[i + w..])))
  {
    hide RuneWidth, IsHex, AsHex;
    var t, w := s[i..], RuneWidth(s[i..]);
    assert t[..w] == s[i..i + w] && t[w..] == s[i + w..];
    assert i + 3 <= |s| ==> t[1] == s[i + 1] && t[2] == s[i + 2] && t[3..] == s[i + 3..];
  }

  lemma NothingBefore(r: Result<seq<byte>>)
    ensures Prepend([], r) == r
  {
    if r.Ok? { assert [] + r.value == r.value; }
  }

  lemma PrependTwice(a: seq<byte>, b: seq<byte>, r: Result<seq<byte>>)
    ensures Prepend(a, Prepend(b, r)) == Prepend(a + b, r)
  {
    if r.Ok? { assert a + (b + r.value) == a + b + r.value; }
  }

  method CompileFilter(filter: seq<byte>) returns (r: Outcome)
    ensures r == Compiled(filter)
  {
    if |filter| == 0 || filter[0] != OPEN { return Refused(NoOpenParenthesis); }
    var packet, pos, _ := CompileAt(filter, 1);
    if packet.Err? { return Refused(if packet.error.Panicked? then ExtraAtEnd else packet.error); }
    if pos != |filter| {
      if pos > |filter| { return Crashed; }
      return Refused(ExtraAtEnd);
    }
    r := Made(packet.value);
  }

  /** Compiles the filter at `pos`, and returns where to go on. A refused one may have a
      packet too, unless there was a panic. */
  method CompileAt(filter: seq<byte>, pos: nat) returns (r: Result<Filter>, newPos: nat, packet: bool)
    requires pos <= |filter|
    ensures match Compile(filter[pos..])
            case Err(e) => r == Err(e) && packet == (!e.Panicked? && Begun(filter[pos..]))
            case Ok((f, n)) => r == Ok(f) && newPos == pos + n && packet
    decreases |filter| - pos, 0
  {
    hide ReadItem, Finish, RuneWidth, KindRead;
    newPos, packet := pos, true;
    ghost var t := filter[pos..];
    if RuneWidth(filter[newPos..]) == 0 { return Err(BadRune), 0, false; }
    assert t[0] == filter[pos] && t[1..] == filter[pos + 1..];
    if filter[pos] == OPEN {
      r, newPos, packet := CompileAt(filter, pos + 1);
      newPos := newPos + 1;
    } else if filter[pos] == AND || filter[pos] == OR {
      var fs;
      fs, newPos := CompileFilterSet(filter, pos + 1);
      if fs.Err? { return Err(fs.error), newPos, !fs.error.Panicked?; }
      r := Ok(if filter[pos] == AND then And(fs.value) else Or(fs.value));
    } else if filter[pos] == NOT {
      r, newPos, packet := CompileAt(filter, pos + 1);
      if !packet { return Err(Panicked), 0, false; }
      if r.Ok? { r := Ok(Not(r.value)); }
    } else {
      var it;
      it, newPos, packet := ReadItemAt(filter, pos);
      if it.Err? { return Err(it.error), newPos, packet; }
      if newPos == |filter| { return Err(UnexpectedEnd), newPos, packet; }
      if !packet { return Err(NoCondition), newPos, false; }
      r := FinishItem(it.value);
      newPos, packet := newPos + 1, r.Ok? || !r.error.Panicked?;
    }
  }

  method CompileFilterSet(filter: seq<byte>, start: nat) returns (r: Result<seq<Filter>>, pos: nat)
    requires start <= |filter|
    ensures match CompileSet(filter[start..], [])
            case Err(e) => r == Err(e)
            case Ok((fs, n)) => r == Ok(fs) && pos == start + n
    decreases |filter| - start, 1
  {
    hide Compile, CompileSet, Skipped;
    pos := start;
    var parent: seq<Filter> := [];
    NothingSkipped(CompileSet(filter[start..], []));
    while pos < |filter| && filter[pos] == OPEN
      invariant start <= pos
      invariant pos <= |filter| ==>
                  CompileSet(filter[start..], []) == Skipped(pos - start, CompileSet(filter[pos..], parent))
      invariant pos > |filter| ==> CompileSet(filter[start..], []) == Ok((parent, pos - start + 1))
      decreases |filter| - pos
    {
      ghost var before := pos;
      SetAt(filter, pos, parent, pos - start);
      var child, newPos, _ := CompileAt(filter, pos + 1);
      if child.Err? { return Err(child.error), pos; }
      pos := newPos;
      parent := parent + [child.value];
      if pos <= |filter| {
        SkippedTwice(before - start, pos - before, CompileSet(filter[pos..], parent));
      }
    }
    if pos <= |filter| { SetStops(filter[pos..], parent, pos - start); }
    if pos == |filter| { return Err(UnexpectedEnd), pos; }
    return Ok(parent), pos + 1;
  }

  lemma {:induction false} SetStops(t: seq<byte>, fs: seq<Filter>, n: nat)
    requires t == [] || t[0] != OPEN
    ensures Skipped(n, CompileSet(t, fs)) == if t == [] then Err(UnexpectedEnd) else Ok((fs, n + 1))
  {
  }

  /** What compiling a set does at a position where a filter begins. */
  lemma {:induction false} SetAt(filter: seq<byte>, pos: nat, fs: seq<Filter>, skipped: nat)
    requires pos < |filter| && filter[pos] == OPEN
    ensures var r := Compile(filter[pos + 1..]);
            Skipped(skipped, CompileSet(filter[pos..], fs)) ==
            if r.Err? then Err(r.error)
            else if pos + 1 + r.value.1 > |filter| then Ok((fs + [r.value.0], skipped + 1 + r.value.1 + 1))
            else Skipped(skipped, Skipped(1 + r.value.1, CompileSet(filter[pos + 1 + r.value.1..], fs + [r.value.0])))
  {
    hide Compile;
    var t, r := filter[pos..], Compile(filter[pos + 1..]);
    assert t[1..] == filter[pos + 1..];
    if r.Ok? && 1 + r.value.1 <= |t| { assert t[1 + r.value.1..] == filter[pos + 1 + r.value.1..]; }
  }

  function Skipped(n: nat, r: Result<(seq<Filter>, nat)>): Result<(seq<Filter>, nat)> {
    match r
    case Err(e) => Err(e)
    case Ok((fs, m)) => Ok((fs, n + m))
  }

  lemma NothingSkipped(r: Result<(seq<Filter>, nat)>)
    ensures Skipped(0, r) == r
  {
  }

  lemma SkippedTwice(a: nat, b: nat, r: Result<(seq<Filter>, nat)>)
    ensures Skipped(a, Skipped(b, r)) == Skipped(a + b, r)
  {
  }

  /** Reads the characters of an item one by one; there is a packet from its kind on. */
  method ReadItemAt(filter: seq<byte>, pos: nat) returns (r: Result<Item>, newPos: nat, packet: bool)
    requires pos <= |filter|
    ensures packet == KindRead(filter[pos..], START)
    ensures match ReadItem(filter[pos..], START)
            case Err(e) => r == Err(e) && e.BadRune?
            case Ok((it, n)) => r == Ok(it) && newPos == pos + n && packet == !it.kind.NoKind?
  {
    hide RuneWidth, ReadItem, Further, ItemStep, KindRead;
    newPos := pos;
    var it := START;
    NoFurther(ReadItem(filter[pos..], START));
    while newPos < |filter|
      invariant pos <= newPos <= |filter|
      invariant ReadItem(filter[pos..], START) == Further(newPos - pos, ReadItem(filter[newPos..], it))
      invariant KindRead(filter[pos..], START) == KindRead(filter[newPos..], it)
    {
      if filter[newPos] == CLOSE { break; }
      var remaining := filter[newPos..];
      var w := RuneWidth(remaining);
      if w == 0 {
        BadRuneStops(remaining, it, newPos - pos);
        return Err(BadRune), newPos, !it.kind.NoKind?;
      }
      ghost var step := ItemStep(it, remaining);
      ReadItemStep(remaining, it);
      KindStays(remaining, it);
      assert remaining[step.1..] == filter[newPos + step.1..];
      FurtherTwice(newPos - pos, step.1, ReadItem(filter[newPos + step.1..], step.0));
      it, newPos := TakeStep(it, remaining, w, newPos);
    }
    ItemEnds(filter[newPos..], it, newPos - pos);
    r, packet := Ok(it), !it.kind.NoKind?;
  }

  /** A kind that is known is not forgotten. */
  lemma {:induction false} KindStays(t: seq<byte>, it: Item)
    requires t != [] && t[0] != CLOSE && RuneWidth(t) > 0
    ensures KindRead(t, it) == KindRead(t[ItemStep(it, t).1..], ItemStep(it, t).0)
  {
    hide RuneWidth;
  }

  lemma {:induction false} BadRuneStops(t: seq<byte>, it: Item, n: nat)
    requires t != [] && t[0] != CLOSE && RuneWidth(t) == 0
    ensures Further(n, ReadItem(t, it)) == Err(BadRune) && KindRead(t, it) == !it.kind.NoKind?
  {
  }

  lemma {:induction false} ItemEnds(t: seq<byte>, it: Item, n: nat)
    requires t == [] || t[0] == CLOSE
    ensures Further(n, ReadItem(t, it)) == Ok((it, n)) && KindRead(t, it) == !it.kind.NoKind?
  {
  }

  /** One character or operator, by what is being read. */
  method TakeStep(it: Item, remaining: seq<byte>, w: nat, pos: nat) returns (it': Item, newPos: nat)
    requires remaining != [] && w == RuneWidth(remaining) > 0
    ensures (it', newPos - pos) == ItemStep(it, remaining) && newPos >= pos
  {
    it' := it;
    match it.state {
      case ReadingAttr =>
        if remaining[0] == COLON && [COLON] + DN + [COLON, EQUAL] <= remaining {
          it' := it.(kind := ExtensibleKind, dn := true, state := ReadingCondition);
          newPos := pos + 5;
        } else if remaining[0] == COLON && [COLON] + DN + [COLON] <= remaining {
          it' := it.(kind := ExtensibleKind, dn := true, state := ReadingRule);
          newPos := pos + 4;
        } else if remaining[0] == COLON && [COLON, EQUAL] <= remaining {
          it' := it.(kind := ExtensibleKind, state := ReadingCondition);
          newPos := pos + 2;
        } else if remaining[0] == COLON {
          it' := it.(kind := ExtensibleKind, state := ReadingRule);
          newPos := pos + 1;
        } else if remaining[0] == EQUAL {
          it' := it.(kind := EqualityKind, state := ReadingCondition);
          newPos := pos + 1;
        } else if remaining[0] == GREATER && [GREATER, EQUAL] <= remaining {
          it' := it.(kind := GreaterKind, state := ReadingCondition);
          newPos := pos + 2;
        } else if remaining[0] == LESS && [LESS, EQUAL] <= remaining {
          it' := it.(kind := LessKind, state := ReadingCondition);
          newPos := pos + 2;
        } else if remaining[0] == TILDE && [TILDE, EQUAL] <= remaining {
          it' := it.(kind := ApproxKind, state := ReadingCondition);
          newPos := pos + 2;
        } else {
          it' := it.(attribute := it.attribute + remaining[..w]);
          newPos := pos + w;
        }
      case ReadingRule =>
        if remaining[0] == COLON && [COLON, EQUAL] <= remaining {
          it' := it.(state := ReadingCondition);
          newPos := pos + 2;
        } else {
          it' := it.(rule := it.rule + remaining[..w]);
          newPos := pos + w;
        }
      case ReadingCondition =>
        it' := it.(condition := it.condition + remaining[..w]);
        newPos := pos + w;
    }
  }

  /** The filter that an item stands for. */
  method FinishItem(it: Item) returns (r: Result<Filter>)
    requires !it.kind.NoKind?
    ensures r == Finish(it)
  {
    hide Unescape, Split, Collect;
    if it.kind.EqualityKind? && it.condition == [STAR] { return Ok(Present(it.attribute)); }
    if it.kind.EqualityKind? && STAR in it.condition {
      var parts := CollectParts(Split(it.condition));
      if parts.Err? { return Err(parts.error); }
      return Ok(Substrings(it.attribute, parts.value));
    }
    var encoded := EscapedStringToEncodedBytes(it.condition);
    if encoded.Err? { return Err(encoded.error); }
    match it.kind
    case EqualityKind => r := Ok(Equality(it.attribute, encoded.value));
    case GreaterKind => r := Ok(GreaterOrEqual(it.attribute, encoded.value));
    case LessKind => r := Ok(LessOrEqual(it.attribute, encoded.value));
    case ApproxKind => r := Ok(Approx(it.attribute, encoded.value));
    case ExtensibleKind => r := Ok(Extensible(it.attribute, it.dn, it.rule, encoded.value));
  }

  method CollectParts(parts: seq<seq<byte>>) returns (r: Result<seq<Part>>)
    ensures r == Collect(parts, 0)
  {
    hide Unescape, Collect, PrependParts;
    var sequence: seq<Part> := [];
    NoParts(Collect(parts, 0));
    var i := 0;
    while i < |parts|
      invariant 0 <= i <= |parts| && Collect(parts, 0) == PrependParts(sequence, Collect(parts, i))
    {
      CollectAt(parts, i);
      if parts[i] != [] {
        var encoded := EscapedStringToEncodedBytes(parts[i]);
        if encoded.Err? {
          PartsFail(sequence, encoded.error);
          return Err(encoded.error);
        }
        var part := Part(if i == 0 then Initial else if i == |parts| - 1 then Final else Any, encoded.value);
        PartsTwice(sequence, [part], Collect(parts, i + 1));
        sequence := sequence + [part];
      }
      i := i + 1;
    }
    assert sequence + [] == sequence;
    PartsDone(parts, sequence);
    r := Ok(sequence);
  }

  lemma CollectAt(l: seq<seq<byte>>, i: nat)
    requires i < |l|
    ensures Collect(l, i) ==
            if l[i] == [] then Collect(l, i + 1)
            else match Unescape(l[i])
              case Err(e) => Err(e)
              case Ok(v) =>
                PrependParts([Part(if i == 0 then Initial else if i == |l| - 1 then Final else Any, v)],
                  Collect(l, i + 1))
  {
    hide Unescape;
  }

  lemma PartsFail(a: seq<Part>, e: Error)
    ensures PrependParts(a, Err(e)) == Err(e)
  {
  }

  lemma {:induction false} PartsDone(l: seq<seq<byte>>, a: seq<Part>)
    ensures PrependParts(a, Collect(l, |l|)) == Ok(a + [])
  {
  }

  function PrependParts(a: seq<Part>, r: Result<seq<Part>>): Result<seq<Part>> {
    match r
    case Err(e) => Err(e)
    case Ok(ps) => Ok(a + ps)
  }

  lemma NoParts(r: Result<seq<Part>>)
    ensures PrependParts([], r) == r
  {
    if r.Ok? { assert [] + r.value == r.value; }
  }

  lemma PartsTwice(a: seq<Part>, b: seq<Part>, r: Result<seq<Part>>)
    ensures PrependParts(a, PrependParts(b, r)) == PrependParts(a + b, r)
  {
    if r.Ok? { assert a + (b + r.value) == a + b + r.value; }
  }
}
