/** All that the filter compiler takes: the texts of a grammar, apart from how it reads them.
    It is wider than that of RFC 4515: the byte behind a filter in parentheses of its own
    and the one that ends a set are not looked at, and a matching rule need not be ended. */
module LdapFilterGrammar {
  import opened Octets
  import opened Utf8
  import opened LdapFilter
  import opened LdapFilterText
  import End = LdapFilterEnd

  /** The operator of an item. */
  datatype Op =
    | Comparison(kind: Kind)                          // =, >=, <= and ~=
    | Match(dn: bool)                                 // := and :dn:=
    | Ruled(dn: bool, rule: seq<byte>, ended: bool)   // :rule:= and :dn:rule:=, or up to the end of the item

  datatype Tree =
    | Nested(inner: Tree, skipped: byte)
    | Conjunction(trees: seq<Tree>, end: byte)
    | Disjunction(trees: seq<Tree>, end: byte)
    | Negation(tree: Tree)
    | Simple(attribute: seq<byte>, op: Op, condition: seq<byte>)

  // ---- Texts ----

  const ASSIGN: seq<byte> := [COLON, EQUAL]
  const OF_DN: seq<byte> := [COLON] + DN + [COLON]

  function Assign(ended: bool): seq<byte> {
    if ended then ASSIGN else []
  }

  function OpText(op: Op): seq<byte> {
    match op
    case Comparison(k) => if k.NoKind? || k.ExtensibleKind? then [] else Operator(k)
    case Match(dn) => (if dn then [COLON] + DN else []) + ASSIGN
    case Ruled(dn, rule, ended) => (if dn then OF_DN else [COLON]) + rule + Assign(ended)
  }

  function TreeText(x: Tree): seq<byte>
    decreases x, 0
  {
    match x
    case Nested(y, b) => [OPEN] + TreeText(y) + [b]
    case Conjunction(ys, b) => [AND] + AllText(ys) + [b]
    case Disjunction(ys, b) => [OR] + AllText(ys) + [b]
    case Negation(y) => [NOT] + TreeText(y)
    case Simple(a, op, s) => a + OpText(op) + s + [CLOSE]
  }

  function AllText(xs: seq<Tree>): seq<byte>
    decreases xs, 1
  {
    if xs == [] then [] else [OPEN] + TreeText(xs[0]) + AllText(xs[1..])
  }

  predicate StartsOp(t: seq<byte>) {
    t != [] && (t[0] == COLON || t[0] == EQUAL || [GREATER, EQUAL] <= t || [LESS, EQUAL] <= t || [TILDE, EQUAL] <= t)
  }

  /** Characters in which no operator starts, in front of others. */
  predicate Names(a: seq<byte>, rest: seq<byte>)
    decreases |a|
  {
    a == [] || (RuneWidth(a) > 0 && a[0] != CLOSE && !StartsOp(a + rest) && Names(a[RuneWidth(a)..], rest))
  }

  /** Characters in which no rule ends, in front of others. */
  predicate Rules(r: seq<byte>, rest: seq<byte>)
    decreases |r|
  {
    r == [] || (RuneWidth(r) > 0 && r[0] != CLOSE && !(ASSIGN <= r + rest) && Rules(r[RuneWidth(r)..], rest))
  }

  predicate OpWell(op: Op, rest: seq<byte>) {
    match op
    case Comparison(k) => !k.NoKind? && !k.ExtensibleKind?
    case Match(_) => true
    case Ruled(dn, rule, ended) =>
      var more := rule + (Assign(ended) + rest);
      && Rules(rule, Assign(ended) + rest) && (ended || (rest != [] && rest[0] == CLOSE))
      && !([EQUAL] <= more) && (dn || !(OF_DN <= [COLON] + more))
  }

  /** A name that does not look like another filter. */
  predicate Apart(a: seq<byte>) {
    a != [] ==> a[0] != OPEN && a[0] != AND && a[0] != OR && a[0] != NOT
  }

  predicate Well(x: Tree)
    decreases x, 0
  {
    match x
    case Nested(y, _) => Well(y)
    case Conjunction(ys, b) => b != OPEN && AllWell(ys)
    case Disjunction(ys, b) => b != OPEN && AllWell(ys)
    case Negation(y) => Well(y)
    case Simple(a, op, s) =>
      Apart(a) && Readable(s) && CLOSE !in s && OpWell(op, s + [CLOSE]) && Names(a, OpText(op) + (s + [CLOSE]))
  }

  predicate AllWell(xs: seq<Tree>)
    decreases xs, 1
  {
    xs == [] || (Well(xs[0]) && AllWell(xs[1..]))
  }

  // ---- Meanings ----

  /** The parts between stars that are not empty, each with what it denotes. */
  ghost predicate Filled(l: seq<seq<byte>>, i: nat, ps: seq<Part>)
    requires i <= |l|
    decreases |l| - i
  {
    if i == |l| then ps == []
    else if l[i] == [] then Filled(l, i + 1, ps)
    else ps != [] && ps[0].place == PlaceOf(i, |l|) && Denotes(l[i], ps[0].value) && Filled(l, i + 1, ps[1..])
  }

  function PlaceOf(i: nat, n: nat): Place {
    if i == 0 then Initial else if i + 1 == n then Final else Any
  }

  ghost predicate Divided(s: seq<byte>, l: seq<seq<byte>>) {
    l != [] && JoinStar(l) == s && forall i | 0 <= i < |l| :: STAR !in l[i]
  }

  ghost predicate SimpleMeans(a: seq<byte>, op: Op, s: seq<byte>, f: Filter) {
    match op
    case Comparison(EqualityKind) =>
      if s == [STAR] then f == Present(a)
      else if STAR in s then f.Substrings? && f.attribute == a && exists l :: Divided(s, l) && Filled(l, 0, f.parts)
      else f.Equality? && f.attribute == a && Denotes(s, f.value)
    case Comparison(GreaterKind) => f.GreaterOrEqual? && f.attribute == a && Denotes(s, f.value)
    case Comparison(LessKind) => f.LessOrEqual? && f.attribute == a && Denotes(s, f.value)
    case Comparison(_) => f.Approx? && f.attribute == a && Denotes(s, f.value)
    case Match(dn) => f.Extensible? && f.attribute == a && f.dn == dn && f.rule == [] && Denotes(s, f.value)
    case Ruled(dn, rule, _) => f.Extensible? && f.attribute == a && f.dn == dn && f.rule == rule && Denotes(s, f.value)
  }

  ghost predicate Means(x: Tree, f: Filter)
    decreases x, 0
  {
    match x
    case Nested(y, _) => Means(y, f)
    case Conjunction(ys, _) => f.And? && AllMean(ys, f.filters)
    case Disjunction(ys, _) => f.Or? && AllMean(ys, f.filters)
    case Negation(y) => f.Not? && Means(y, f.filter)
    case Simple(a, op, s) => SimpleMeans(a, op, s, f)
  }

  ghost predicate AllMean(xs: seq<Tree>, fs: seq<Filter>)
    decreases xs, 1
  {
    if xs == [] then fs == [] else fs != [] && Means(xs[0], fs[0]) && AllMean(xs[1..], fs[1..])
  }

  // ---- Characters ----

  /** The character at the front stands by itself, and a parenthesis is none of its bytes. */
  lemma FrontRune(t: seq<byte>, more: seq<byte>)
    requires RuneWidth(t) > 0
    ensures var w := RuneWidth(t);
            RuneWidth(t[..w] + more) == w && (t[..w] + more)[..w] == t[..w] && (t[..w] + more)[w..] == more
    ensures t[0] != CLOSE ==> CLOSE !in t[..RuneWidth(t)]
  {
    CharAlone(t);
    CharStays(t[..RuneWidth(t)], more);
  }

  // ---- Items are read ----

  lemma Behind(a: seq<byte>, w: nat, rest: seq<byte>)
    requires w <= |a|
    ensures a == a[..w] + a[w..] && (a + rest)[..w] == a[..w] && (a + rest)[w..] == a[w..] + rest
  {
  }

  lemma {:induction false} NamesRead(a: seq<byte>, rest: seq<byte>, it: Item)
    requires it.state.ReadingAttr? && Names(a, rest)
    ensures ReadItem(a + rest, it) == Further(|a|, ReadItem(rest, it.(attribute := it.attribute + a)))
    decreases |a|
  {
    hide RuneWidth, ReadItem, Further;
    if a == [] {
      Grouped(rest, [], []);
      Grouped(it.attribute, [], []);
      NoFurther(ReadItem(rest, it));
    } else {
      var w := RuneWidth(a);
      var c, b := a[..w], a[w..];
      RuneStays(a, rest);
      Behind(a, w, rest);
      ReadItemStep(a + rest, it);
      NamesRead(b, rest, it.(attribute := it.attribute + c));
      Grouped(it.attribute, c, b);
      FurtherTwice(w, |b|, ReadItem(rest, it.(attribute := it.attribute + a)));
    }
  }

  lemma {:induction false} RulesRead(r: seq<byte>, rest: seq<byte>, it: Item)
    requires it.state.ReadingRule? && Rules(r, rest)
    ensures ReadItem(r + rest, it) == Further(|r|, ReadItem(rest, it.(rule := it.rule + r)))
    decreases |r|
  {
    hide RuneWidth, ReadItem, Further;
    if r == [] {
      Grouped(rest, [], []);
      Grouped(it.rule, [], []);
      NoFurther(ReadItem(rest, it));
    } else {
      var w := RuneWidth(r);
      var c, b := r[..w], r[w..];
      RuneStays(r, rest);
      Behind(r, w, rest);
      ReadItemStep(r + rest, it);
      RulesRead(b, rest, it.(rule := it.rule + c));
      Grouped(it.rule, c, b);
      FurtherTwice(w, |b|, ReadItem(rest, it.(rule := it.rule + r)));
    }
  }

  /** The item behind an operator. */
  function Opened(op: Op, it: Item): Item {
    match op
    case Comparison(k) => it.(kind := k, state := ReadingCondition)
    case Match(dn) => it.(kind := ExtensibleKind, dn := it.dn || dn, state := ReadingCondition)
    case Ruled(dn, rule, ended) =>
      it.(kind := ExtensibleKind, dn := it.dn || dn, rule := it.rule + rule,
          state := if ended then ReadingCondition else ReadingRule)
  }

  lemma {:induction false} AssignRead(rest: seq<byte>, it: Item)
    requires it.state.ReadingRule?
    ensures ReadItem(ASSIGN + rest, it) == Further(2, ReadItem(rest, it.(state := ReadingCondition)))
  {
    hide RuneWidth, ReadItem, Further;
    AsciiRune(ASSIGN + rest);
    assert (ASSIGN + rest)[2..] == rest;
    ReadItemStep(ASSIGN + rest, it);
  }

  lemma {:induction false} OpRead(op: Op, rest: seq<byte>, it: Item)
    requires it.state.ReadingAttr? && OpWell(op, rest)
    ensures ReadItem(OpText(op) + rest, it) == Further(|OpText(op)|, ReadItem(rest, Opened(op, it)))
  {
    hide RuneWidth, ReadItem, Further, Rules;
    match op
    case Comparison(k) => ReadOperator(k, rest, it);
    case Match(dn) =>
      var t := OpText(op) + rest;
      AsciiRune(t);
      ReadItemStep(t, it);
      assert t[|OpText(op)|..] == rest;
      assert dn ==> [COLON] + DN + [COLON, EQUAL] <= t;
      assert !dn ==> t[1] == EQUAL;
    case Ruled(dn, rule, ended) => RuleRead(dn, rule, ended, rest, it);
  }

  lemma {:induction false} RuleRead(dn: bool, rule: seq<byte>, ended: bool, rest: seq<byte>, it: Item)
    requires it.state.ReadingAttr? && OpWell(Ruled(dn, rule, ended), rest)
    ensures var op := Ruled(dn, rule, ended);
            ReadItem(OpText(op) + rest, it) == Further(|OpText(op)|, ReadItem(rest, Opened(op, it)))
  {
    hide RuneWidth, ReadItem, Further, Rules, Assign, OF_DN;
    var head, tail := if dn then OF_DN else [COLON], Assign(ended) + rest;
    var it' := it.(kind := ExtensibleKind, dn := it.dn || dn, state := ReadingRule);
    Grouped(head + rule, Assign(ended), rest);
    Grouped(head, rule, tail);
    HeadRead(dn, rule + tail, it);
    TailRead(rule, ended, rest, it');
    FurtherTwice(|head|, |rule| + |Assign(ended)|, ReadItem(rest, Opened(Ruled(dn, rule, ended), it)));
  }

  lemma {:induction false} TailRead(rule: seq<byte>, ended: bool, rest: seq<byte>, it: Item)
    requires it.state.ReadingRule? && Rules(rule, Assign(ended) + rest)
    ensures ReadItem(rule + (Assign(ended) + rest), it) ==
            Further(|rule| + |Assign(ended)|,
              ReadItem(rest, it.(rule := it.rule + rule, state := if ended then ReadingCondition else ReadingRule)))
  {
    hide ReadItem, Further, Rules, Assign;
    var it' := it.(rule := it.rule + rule);
    RulesRead(rule, Assign(ended) + rest, it);
    EndRead(ended, rest, it');
    FurtherTwice(|rule|, |Assign(ended)|,
      ReadItem(rest, it'.(state := if ended then ReadingCondition else ReadingRule)));
  }

  lemma {:induction false} EndRead(ended: bool, rest: seq<byte>, it: Item)
    requires it.state.ReadingRule?
    ensures ReadItem(Assign(ended) + rest, it) ==
            Further(|Assign(ended)|, ReadItem(rest, it.(state := if ended then ReadingCondition else ReadingRule)))
  {
    hide ReadItem, Further;
    if ended {
      AssignRead(rest, it);
    } else {
      Grouped(rest, [], []);
      NoFurther(ReadItem(rest, it));
    }
  }

  lemma {:induction false} HeadRead(dn: bool, more: seq<byte>, it: Item)
    requires it.state.ReadingAttr? && !([EQUAL] <= more) && (dn || !(OF_DN <= [COLON] + more))
    ensures var head := if dn then OF_DN else [COLON];
            ReadItem(head + more, it) ==
            Further(|head|, ReadItem(more, it.(kind := ExtensibleKind, dn := it.dn || dn, state := ReadingRule)))
  {
    hide RuneWidth, ReadItem, Further;
    var head := if dn then OF_DN else [COLON];
    var t := head + more;
    AsciiRune(t);
    ReadItemStep(t, it);
    assert t[|head|..] == more;
    if dn {
      assert OF_DN <= t;
      if [COLON] + DN + [COLON, EQUAL] <= t { assert t[4] == EQUAL && more[0] == EQUAL; }
      if [COLON, EQUAL] <= t { assert t[1] == EQUAL; }
    } else {
      if [COLON] + DN + [COLON, EQUAL] <= t { assert OF_DN <= [COLON] + more; }
      if [COLON, EQUAL] <= t { assert t[1] == EQUAL && more[0] == EQUAL; }
    }
  }

  /** What has been read of a simple filter. */
  function ItemOf(a: seq<byte>, op: Op, s: seq<byte>): Item {
    Opened(op, START.(attribute := a)).(condition := s)
  }

  lemma {:induction false} SimpleRead(a: seq<byte>, op: Op, s: seq<byte>, t: seq<byte>)
    requires Well(Simple(a, op, s))
    ensures var u := TreeText(Simple(a, op, s));
            ReadItem(u + t, START) == Ok((ItemOf(a, op, s), |u| - 1))
  {
    hide ReadItem, Names, OpWell, Readable, OpText;
    var u, rest, it := TreeText(Simple(a, op, s)), s + [CLOSE], START.(attribute := a);
    Grouped(a + OpText(op), s, [CLOSE]);
    Grouped(a, OpText(op), rest);
    Grouped(a, [], []);
    Grouped(s, [], []);
    NamesRead(a, OpText(op) + rest, START);
    OpRead(op, rest, it);
    RestRead(op, s, Opened(op, it));
    Furthest(|a|, |OpText(op)|, |s|, ItemOf(a, op, s));
    assert ReadItem(u, START) == Ok((ItemOf(a, op, s), |u| - 1));
    End.ItemStays(u, START, t);
  }

  lemma {:induction false} RestRead(op: Op, s: seq<byte>, it: Item)
    requires OpWell(op, s + [CLOSE]) && Readable(s) && CLOSE !in s && it.condition == []
    requires it.state == if op.Ruled? && !op.ended then ReadingRule else ReadingCondition
    ensures ReadItem(s + [CLOSE], it) == Ok((it.(condition := s), |s|))
  {
    hide ReadItem, Readable, Rules;
    Grouped([CLOSE], [], []);
    Grouped(s, [], []);
    if it.state.ReadingCondition? {
      ReadText(s, [], it);
    } else {
      if s != [] { assert (s + [CLOSE])[0] == s[0] && s[0] in s; }
      assert s == [] && it.(condition := s) == it;
      AtClose(s + [CLOSE], it);
    }
  }

  // ---- And what is read are such items ----

  /** An item that ends at the last byte. */
  predicate ReadsAll(u: seq<byte>, it: Item, done: Item) {
    u != [] && ReadItem(u, it) == Ok((done, |u| - 1))
  }

  lemma {:induction false} AllButFront(u: seq<byte>, it: Item, done: Item)
    requires ReadsAll(u, it, done) && u[0] != CLOSE
    ensures RuneWidth(u) > 0 && ItemStep(it, u).1 < |u|
    ensures ReadsAll(u[ItemStep(it, u).1..], ItemStep(it, u).0, done)
  {
    hide ItemStep, RuneWidth;
  }

  lemma AllAtClose(u: seq<byte>, it: Item, done: Item)
    requires ReadsAll(u, it, done) && u[0] == CLOSE
    ensures u == [CLOSE] && it == done
  {
    AtClose(u, it);
    assert |u| - 1 == 0 && u == [u[0]];
  }

  lemma {:induction false} ConditionFrom(u: seq<byte>, it: Item, done: Item) returns (s: seq<byte>)
    requires it.state.ReadingCondition? && ReadsAll(u, it, done)
    ensures Readable(s) && CLOSE !in s && u == s + [CLOSE] && done == it.(condition := it.condition + s)
    decreases |u|
  {
    hide RuneWidth, ReadsAll;
    s := [];
    assert u != [] by { NotNothing(u, it, done); }
    if u[0] == CLOSE {
      AllAtClose(u, it, done);
      Grouped(it.condition, [], []);
    } else {
      AllButFront(u, it, done);
      var w := RuneWidth(u);
      var c := u[..w];
      var more := ConditionFrom(u[w..], it.(condition := it.condition + c), done);
      s := c + more;
      FrontRune(u, more);
      Grouped(c, more, [CLOSE]);
      Grouped(it.condition, c, more);
      assert u == c + u[w..];
    }
  }

  lemma NotNothing(u: seq<byte>, it: Item, done: Item)
    requires ReadsAll(u, it, done)
    ensures u != []
  {
  }

  lemma {:induction false} RuleFrom(u: seq<byte>, it: Item, done: Item)
      returns (rule: seq<byte>, ended: bool, s: seq<byte>)
    requires it.state.ReadingRule? && ReadsAll(u, it, done)
    ensures Readable(s) && CLOSE !in s && u == rule + (Assign(ended) + (s + [CLOSE])) && (ended || s == [])
    ensures Rules(rule, Assign(ended) + (s + [CLOSE]))
    ensures done == it.(rule := it.rule + rule, condition := it.condition + s,
                        state := if ended then ReadingCondition else ReadingRule)
    decreases |u|
  {
    hide RuneWidth, ReadsAll;
    rule, ended, s := [], false, [];
    assert u != [] by { NotNothing(u, it, done); }
    Grouped(it.rule, [], []);
    Grouped(it.condition, [], []);
    if u[0] == CLOSE {
      AllAtClose(u, it, done);
    } else {
      AllButFront(u, it, done);
      if ASSIGN <= u {
        ended := true;
        s := ConditionFrom(u[2..], it.(state := ReadingCondition), done);
        assert u == ASSIGN + u[2..];
      } else {
        var w := RuneWidth(u);
        var c := u[..w];
        var more;
        more, ended, s := RuleFrom(u[w..], it.(rule := it.rule + c), done);
        rule := c + more;
        FrontRune(u, more);
        Grouped(c, more, Assign(ended) + (s + [CLOSE]));
        Grouped(it.rule, c, more);
        assert u == c + u[w..];
      }
    }
  }

  lemma {:induction false} OpFrom(u: seq<byte>, it: Item, done: Item) returns (op: Op, s: seq<byte>)
    requires it.state.ReadingAttr? && !it.dn && it.rule == [] && StartsOp(u) && ReadsAll(u, it, done)
    ensures Readable(s) && CLOSE !in s && u == OpText(op) + (s + [CLOSE]) && OpWell(op, s + [CLOSE])
    ensures done == Opened(op, it).(condition := it.condition + s)
  {
    hide RuneWidth, ReadsAll, Rules, Readable;
    AllButFront(u, it, done);
    if u[0] == COLON {
      op, s := MatchFrom(u, it, done);
    } else {
      var k := if u[0] == EQUAL then EqualityKind else if u[0] == GREATER then GreaterKind
               else if u[0] == LESS then LessKind else ApproxKind;
      op := Comparison(k);
      s := ConditionFrom(u[|OpText(op)|..], it.(kind := k, state := ReadingCondition), done);
      assert u == OpText(op) + u[|OpText(op)|..];
    }
  }

  lemma {:induction false} MatchFrom(u: seq<byte>, it: Item, done: Item) returns (op: Op, s: seq<byte>)
    requires it.state.ReadingAttr? && !it.dn && it.rule == [] && u != [] && u[0] == COLON && ReadsAll(u, it, done)
    ensures Readable(s) && CLOSE !in s && u == OpText(op) + (s + [CLOSE]) && OpWell(op, s + [CLOSE])
    ensures done == Opened(op, it).(condition := it.condition + s)
  {
    hide RuneWidth, ReadsAll, Rules, Readable, OpText, OpWell;
    AllButFront(u, it, done);
    var dn := OF_DN <= u;
    var it' := it.(kind := ExtensibleKind, dn := dn);
    if [COLON] + DN + ASSIGN <= u || ASSIGN <= u {
      op := Match(dn);
      MatchText(u);
      s := ConditionFrom(u[|OpText(op)|..], it'.(state := ReadingCondition), done);
      MatchWell(dn, s + [CLOSE]);
    } else {
      var head := if dn then OF_DN else [COLON];
      var rule, ended;
      rule, ended, s := RuleFrom(u[|head|..], it'.(state := ReadingRule), done);
      op := Ruled(dn, rule, ended);
      RuledText(u, dn, rule, ended, s + [CLOSE]);
    }
  }

  lemma MatchWell(dn: bool, rest: seq<byte>)
    ensures OpWell(Match(dn), rest)
  {
  }

  lemma MatchText(u: seq<byte>)
    requires [COLON] + DN + ASSIGN <= u || ASSIGN <= u
    ensures var op := Match(OF_DN <= u);
            |OpText(op)| == (if OF_DN <= u then 5 else 2) && OpText(op) <= u && u == OpText(op) + u[|OpText(op)|..]
    ensures OF_DN <= u <==> [COLON] + DN + ASSIGN <= u
  {
    assert [COLON] + DN + ASSIGN <= u ==> u[1] == 0x64 && OF_DN <= u;
    assert ASSIGN <= u ==> u[1] == EQUAL;
    assert OF_DN <= u ==> u[1] == 0x64;
  }

  lemma {:induction false} RuledText(u: seq<byte>, dn: bool, rule: seq<byte>, ended: bool, rest: seq<byte>)
    requires u != [] && u[0] == COLON && dn == (OF_DN <= u) && !([COLON] + DN + ASSIGN <= u) && !(ASSIGN <= u)
    requires u[if dn then 4 else 1..] == rule + (Assign(ended) + rest)
    requires Rules(rule, Assign(ended) + rest) && (ended || (rest != [] && rest[0] == CLOSE))
    ensures u == OpText(Ruled(dn, rule, ended)) + rest && OpWell(Ruled(dn, rule, ended), rest)
  {
    hide Rules;
    var head, more := if dn then OF_DN else [COLON], rule + (Assign(ended) + rest);
    assert u == head + more;
    Grouped(head, rule, Assign(ended) + rest);
    Grouped(head + rule, Assign(ended), rest);
    if [EQUAL] <= more {
      assert u[|head|] == EQUAL;
      if dn { assert u[..5] == [COLON] + DN + ASSIGN; } else { assert u[..2] == ASSIGN; }
    }
  }

  lemma {:induction false} NamesFrom(u: seq<byte>, it: Item, done: Item) returns (a: seq<byte>, op: Op, s: seq<byte>)
    requires it.state.ReadingAttr? && it.kind.NoKind? && !it.dn && it.rule == [] && ReadsAll(u, it, done)
    requires !done.kind.NoKind?
    ensures Readable(s) && CLOSE !in s && u == a + (OpText(op) + (s + [CLOSE])) && OpWell(op, s + [CLOSE])
    ensures Names(a, OpText(op) + (s + [CLOSE]))
    ensures done == Opened(op, it.(attribute := it.attribute + a)).(condition := it.condition + s)
    decreases |u|
  {
    hide RuneWidth, ReadsAll, Rules, Readable, OpText, OpWell, Names, Opened;
    NotNothing(u, it, done);
    if StartsOp(u) {
      a := [];
      op, s := OpFrom(u, it, done);
      Grouped(it.attribute, [], []);
      Grouped(u, [], []);
      assert Names(a, OpText(op) + (s + [CLOSE])) by { NoName(OpText(op) + (s + [CLOSE])); }
    } else {
      if u[0] == CLOSE { AllAtClose(u, it, done); }
      AllButFront(u, it, done);
      var w := RuneWidth(u);
      var c := u[..w];
      var more;
      NameOn(u, it);
      more, op, s := NamesFrom(u[w..], it.(attribute := it.attribute + c), done);
      a := c + more;
      NamesOn(u, more, OpText(op) + (s + [CLOSE]));
      Grouped(it.attribute, c, more);
    }
  }

  lemma {:induction false} NoName(rest: seq<byte>)
    ensures Names([], rest)
  {
  }

  lemma NameOn(u: seq<byte>, it: Item)
    requires it.state.ReadingAttr? && RuneWidth(u) > 0 && !StartsOp(u)
    ensures ItemStep(it, u) == (it.(attribute := it.attribute + u[..RuneWidth(u)]), RuneWidth(u))
  {
    hide RuneWidth;
  }

  lemma {:induction false} NamesOn(u: seq<byte>, more: seq<byte>, rest: seq<byte>)
    requires RuneWidth(u) > 0 && u[0] != CLOSE && !StartsOp(u)
    requires u[RuneWidth(u)..] == more + rest && Names(more, rest)
    ensures var a := u[..RuneWidth(u)] + more; u == a + rest && Names(a, rest)
  {
    hide RuneWidth, StartsOp;
    var c := u[..RuneWidth(u)];
    FrontRune(u, more);
    Grouped(c, more, rest);
    assert u == c + u[RuneWidth(u)..];
  }

  // ---- What items mean ----

  lemma {:induction false} SplitParts(s: seq<byte>)
    ensures Divided(s, Split(s))
  {
    if s != [] {
      SplitParts(s[1..]);
      var r := Split(s[1..]);
      assert s == [s[0]] + s[1..];
      if s[0] == STAR {
        assert ([[]] + r)[1..] == r;
      } else {
        var l := [[s[0]] + r[0]] + r[1..];
        assert l[1..] == r[1..];
        if |r| > 1 { Grouped([s[0]], r[0], [STAR] + JoinStar(r[1..])); Grouped(r[0], [STAR], JoinStar(r[1..])); }
      }
    }
  }

  lemma {:induction false} FilledIsCollected(l: seq<seq<byte>>, i: nat, ps: seq<Part>)
    requires i <= |l|
    ensures Filled(l, i, ps) <==> Collect(l, i) == Ok(ps)
    decreases |l| - i
  {
    hide Denotes, Unescape;
    if i < |l| {
      if l[i] == [] {
        FilledIsCollected(l, i + 1, ps);
      } else {
        if ps != [] {
          UnescapesDenoted(l[i], ps[0].value);
          FilledIsCollected(l, i + 1, ps[1..]);
          assert ps == [ps[0]] + ps[1..];
        }
      }
    }
  }

  lemma FinishMeans(a: seq<byte>, op: Op, s: seq<byte>, rest: seq<byte>, f: Filter)
    requires OpWell(op, rest)
    ensures Finish(ItemOf(a, op, s)) == Ok(f) <==> SimpleMeans(a, op, s, f)
  {
    hide Denotes, Unescape, Collect, Filled, Divided, Rules;
    if op == Comparison(EqualityKind) && STAR in s && s != [STAR] {
      PartsMeanParts(s, if f.Substrings? then f.parts else []);
      NoneMore(a, op, s);
    } else {
      Grouped(if op.Ruled? then op.rule else [], [], []);
      forall v ensures Unescape(s) == Ok(v) <==> Denotes(s, v) { UnescapesDenoted(s, v); }
    }
  }

  lemma {:induction false} NoneMore(a: seq<byte>, op: Op, s: seq<byte>)
    requires op == Comparison(EqualityKind) && STAR in s && s != [STAR]
    ensures Finish(ItemOf(a, op, s)) ==
            match Collect(Split(s), 0) case Err(e) => Err(e) case Ok(ps) => Ok(Substrings(a, ps))
  {
    hide Unescape, Collect, Split;
  }

  lemma {:induction false} PartsMeanParts(s: seq<byte>, ps: seq<Part>)
    ensures Collect(Split(s), 0) == Ok(ps) <==> exists l :: Divided(s, l) && Filled(l, 0, ps)
  {
    hide Unescape, Collect, Split, Divided, Denotes;
    SplitParts(s);
    FilledIsCollected(Split(s), 0, ps);
    forall l | Divided(s, l) ensures l == Split(s) { DividedOnce(s, l); }
  }

  lemma {:induction false} DividedOnce(s: seq<byte>, l: seq<seq<byte>>)
    requires Divided(s, l)
    ensures l == Split(s)
  {
    SplitJoin(l);
  }

  // ---- Filters are compiled ----

  lemma {:induction false} SimpleFront(a: seq<byte>, op: Op, s: seq<byte>, t: seq<byte>)
    requires Well(Simple(a, op, s))
    ensures var u := TreeText(Simple(a, op, s)) + t; u != [] && RuneWidth(u) > 0 && Apart([u[0]])
  {
    hide RuneWidth, OpText, OpWell, Readable;
    var u, rest := TreeText(Simple(a, op, s)) + t, s + [CLOSE] + t;
    Grouped(a + OpText(op) + s, [CLOSE], t);
    Grouped(a + OpText(op), s, [CLOSE] + t);
    Grouped(a, OpText(op), s + ([CLOSE] + t));
    if a == [] {
      OpFront(op, s + [CLOSE]);
      assert u[0] == OpText(op)[0];
      OpenRune(u);
    } else {
      assert u[0] == a[0];
      RuneStays(a, OpText(op) + (s + ([CLOSE] + t)));
    }
  }

  lemma OpFront(op: Op, rest: seq<byte>)
    requires OpWell(op, rest)
    ensures OpText(op) != [] && OpText(op)[0] < 0x80 && Apart([OpText(op)[0]])
  {
  }

  /** Whatever stands behind it, a text of the grammar is compiled to what it means, and
      the compiler stops at its end. */
  lemma {:induction false} TreeCompiles(x: Tree, f: Filter, t: seq<byte>)
    requires Well(x) && Means(x, f)
    ensures Compile(TreeText(x) + t) == Ok((f, |TreeText(x)|))
    decreases x, 0
  {
    hide Compile, CompileSet, RuneWidth, SimpleMeans, Finish, OpWell, Names, Readable;
    match x
    case Nested(y, b) =>
      TreeCompiles(y, f, [b] + t);
      NestedCompiles(TreeText(y), f, b, t);
    case Conjunction(ys, b) =>
      AllCompile(ys, f.filters, b, t, []);
      SetWhole(AND, AllText(ys), f.filters, b, t);
    case Disjunction(ys, b) =>
      AllCompile(ys, f.filters, b, t, []);
      SetWhole(OR, AllText(ys), f.filters, b, t);
    case Negation(y) =>
      TreeCompiles(y, f.filter, t);
      NegationCompiles(TreeText(y), f.filter, t);
    case Simple(a, op, s) =>
      SimpleRead(a, op, s, t);
      FinishMeans(a, op, s, s + [CLOSE], f);
      SimpleFront(a, op, s, t);
      KindKnown(a, op, s);
      CompileItem(TreeText(x) + t, ItemOf(a, op, s), |TreeText(x)| - 1, f);
  }

  lemma KindKnown(a: seq<byte>, op: Op, s: seq<byte>)
    requires OpWell(op, s + [CLOSE])
    ensures !ItemOf(a, op, s).kind.NoKind?
  {
  }

  lemma {:induction false} NestedCompiles(u: seq<byte>, f: Filter, b: byte, t: seq<byte>)
    requires Compile(u + ([b] + t)) == Ok((f, |u|))
    ensures Compile([OPEN] + u + [b] + t) == Ok((f, 1 + |u| + 1))
  {
    hide RuneWidth;
    var w := u + ([b] + t);
    assert [OPEN] + u + [b] + t == [OPEN] + w && ([OPEN] + w)[1..] == w;
    OpenRune([OPEN] + w);
  }

  lemma {:induction false} NegationCompiles(u: seq<byte>, f: Filter, t: seq<byte>)
    requires Compile(u + t) == Ok((f, |u|))
    ensures Compile([NOT] + u + t) == Ok((Not(f), 1 + |u|))
  {
    hide RuneWidth;
    assert [NOT] + u + t == [NOT] + (u + t) && ([NOT] + (u + t))[1..] == u + t;
    OpenRune([NOT] + (u + t));
  }

  lemma {:induction false} SetWhole(op: byte, u: seq<byte>, fs: seq<Filter>, b: byte, t: seq<byte>)
    requires op == AND || op == OR
    requires CompileSet(u + ([b] + t), []) == Ok(([] + fs, |u| + 1))
    ensures Compile([op] + u + [b] + t) == Ok((if op == AND then And(fs) else Or(fs), 1 + |u| + 1))
  {
    hide CompileSet, RuneWidth;
    var w := u + ([b] + t);
    assert [op] + u + [b] + t == [op] + w && ([op] + w)[1..] == w && [] + fs == fs;
    OpenRune([op] + w);
  }

  lemma {:induction false} AllCompile(xs: seq<Tree>, fs: seq<Filter>, b: byte, t: seq<byte>, done: seq<Filter>)
    requires AllWell(xs) && AllMean(xs, fs) && b != OPEN
    ensures CompileSet(AllText(xs) + ([b] + t), done) == Ok((done + fs, |AllText(xs)| + 1))
    decreases xs, 1
  {
    hide Compile, CompileSet, TreeText, Means, Well;
    var v := [b] + t;
    if xs == [] {
      Grouped(done, [], []);
      Grouped(v, [], []);
      SetStops(b, t, done);
    } else {
      var rest := AllText(xs[1..]) + v;
      TreeCompiles(xs[0], fs[0], rest);
      AllCompile(xs[1..], fs[1..], b, t, done + [fs[0]]);
      SetStep(TreeText(xs[0]), fs[0], rest, done);
      Grouped([OPEN] + TreeText(xs[0]), AllText(xs[1..]), v);
      Grouped([OPEN], TreeText(xs[0]), rest);
      Grouped(done, [fs[0]], fs[1..]);
      assert [fs[0]] + fs[1..] == fs;
    }
  }

  lemma {:induction false} SetStops(b: byte, t: seq<byte>, done: seq<Filter>)
    requires b != OPEN
    ensures CompileSet([b] + t, done) == Ok((done, 1))
  {
  }

  // ---- And nothing else is ----

  /** Whatever is compiled, and not beyond the end, is a text of the grammar and means that. */
  lemma {:induction false} TreeFrom(t: seq<byte>, f: Filter, n: nat) returns (x: Tree)
    requires n <= |t| && Compile(t) == Ok((f, n))
    ensures Well(x) && Means(x, f) && TreeText(x) == t[..n]
    decreases |t|, 0
  {
    hide RuneWidth, CompileSet, ReadItem, Finish, SimpleMeans;
    if t[0] == OPEN {
      var y := TreeFrom(t[1..], f, n - 2);
      x := Nested(y, t[n - 1]);
      Cut(t, n - 2, n);
      assert t[n - 1..][..1] == [t[n - 1]];
    } else if t[0] == AND {
      var ys, b := AllFrom(t[1..], f.filters, n - 1, []);
      x := Conjunction(ys, b);
      FrontCut(t, n);
      Grouped([AND], AllText(ys), [b]);
    } else if t[0] == OR {
      var ys, b := AllFrom(t[1..], f.filters, n - 1, []);
      x := Disjunction(ys, b);
      FrontCut(t, n);
      Grouped([OR], AllText(ys), [b]);
    } else if t[0] == NOT {
      var y := TreeFrom(t[1..], f.filter, n - 1);
      x := Negation(y);
      FrontCut(t, n);
    } else {
      x := SimpleFrom(t, f, n);
    }
  }

  lemma FrontCut(t: seq<byte>, n: nat)
    requires 1 <= n <= |t|
    ensures t[..n] == [t[0]] + t[1..][..n - 1]
  {
  }

  lemma {:induction false} SimpleFrom(t: seq<byte>, f: Filter, n: nat) returns (x: Tree)
    requires n <= |t| && Compile(t) == Ok((f, n))
    requires t[0] != OPEN && t[0] != AND && t[0] != OR && t[0] != NOT
    ensures Well(x) && Means(x, f) && TreeText(x) == t[..n]
  {
    hide RuneWidth, CompileSet, ReadItem, Finish, SimpleMeans, Readable, OpWell, Names, OpText;
    var done := ReadItem(t, START).value.0;
    ItemCut(t, START, done, n - 1);
    var a, op, s := NamesFrom(t[..n], START, done);
    x := Simple(a, op, s);
    Grouped(a, [], []);
    Grouped(s, [], []);
    Grouped(a, OpText(op), s + [CLOSE]);
    Grouped(a + OpText(op), s, [CLOSE]);
    assert a != [] ==> t[..n][0] == a[0];
    assert Finish(done) == Ok(f);
    FinishMeans(a, op, s, s + [CLOSE], f);
  }

  /** What stands behind the closing parenthesis does not matter. */
  lemma {:induction false} ItemCut(t: seq<byte>, it: Item, done: Item, n: nat)
    requires n < |t| && ReadItem(t, it) == Ok((done, n))
    ensures ReadsAll(t[..n + 1], it, done)
    decreases |t|
  {
    hide RuneWidth, ItemStep;
    var u := t[..n + 1];
    if t[0] == CLOSE {
      AtClose(u, it);
    } else {
      var (it', w) := ItemStep(it, t);
      ItemCut(t[w..], it', done, n - w);
      assert t[n] == CLOSE;
      StepCut(t, it, n);
      CutBehind(t, w, n + 1);
    }
  }

  lemma StepCut(t: seq<byte>, it: Item, n: nat)
    requires n < |t| && t[n] == CLOSE && t[0] != CLOSE && RuneWidth(t) > 0
    ensures RuneWidth(t[..n + 1]) > 0 && ItemStep(it, t[..n + 1]) == ItemStep(it, t)
  {
    hide RuneWidth, ItemStep;
    var u := t[..n + 1];
    FrontStays(t, n);
    assert u[n] == CLOSE && u + t[n + 1..] == t;
    End.StepBeforeClose(u, CLOSE, t[n + 1..]);
    End.StepSame(it, u, t);
  }

  lemma CutBehind(t: seq<byte>, w: nat, n: nat)
    requires w <= n <= |t|
    ensures t[..n][w..] == t[w..][..n - w]
  {
  }

  lemma FrontStays(t: seq<byte>, n: nat)
    requires n < |t| && t[n] == CLOSE && t[0] != CLOSE && RuneWidth(t) > 0
    ensures RuneWidth(t[..n + 1]) > 0
  {
    var w := RuneWidth(t);
    assert n >= w by { if n < w { FrontRune(t, []); assert t[..w][n] == CLOSE; } }
    FrontRune(t, t[w..n + 1]);
    assert t[..w] + t[w..n + 1] == t[..n + 1];
  }

  lemma {:induction false} AllFrom(t: seq<byte>, fs: seq<Filter>, n: nat, done: seq<Filter>)
      returns (xs: seq<Tree>, b: byte)
    requires n <= |t| && done <= fs && CompileSet(t, done) == Ok((fs, n))
    ensures AllWell(xs) && AllMean(xs, fs[|done|..]) && b != OPEN && AllText(xs) + [b] == t[..n]
    decreases |t|, 1
  {
    hide Compile, Well, Means, TreeText;
    if t[0] != OPEN {
      xs, b := [], t[0];
    } else {
      var (f, k) := Compile(t[1..]).value;
      SetGrows(t[1 + k..], done + [f]);
      var x := TreeFrom(t[1..], f, k);
      var more;
      more, b := AllFrom(t[1 + k..], fs, n - 1 - k, done + [f]);
      xs := [x] + more;
      FrontOf(x, more);
      FrontOf(f, fs[|done| + 1..]);
      assert fs[|done|..] == [f] + fs[|done| + 1..];
      Cut(t, k, n);
      Grouped([OPEN] + TreeText(x), AllText(more), [b]);
    }
  }

  lemma FrontOf<T>(x: T, xs: seq<T>)
    ensures ([x] + xs)[0] == x && ([x] + xs)[1..] == xs
  {
  }

  lemma Cut(t: seq<byte>, k: nat, n: nat)
    requires t != [] && t[0] == OPEN && 1 + k <= n <= |t|
    ensures t[..n] == [OPEN] + t[1..][..k] + t[1 + k..][..n - 1 - k]
  {
  }

  lemma {:induction false} SetGrows(t: seq<byte>, done: seq<Filter>)
    requires CompileSet(t, done).Ok?
    ensures done <= CompileSet(t, done).value.0
    decreases |t|
  {
    hide Compile;
    if t != [] && t[0] == OPEN {
      var (f, n) := Compile(t[1..]).value;
      if 1 + n <= |t| { SetGrows(t[1 + n..], done + [f]); }
    }
  }

  /** A text is compiled to a filter if and only if it is one of the grammar that means
      the filter. */
  lemma {:induction false} CompiledExactly(t: seq<byte>, f: Filter)
    ensures Compiled(t) == Made(f) <==> exists x :: Well(x) && Means(x, f) && t == [OPEN] + TreeText(x)
  {
    hide Compile, Well, Means, TreeText;
    if Compiled(t) == Made(f) {
      var x := TreeFrom(t[1..], f, |t| - 1);
      assert t[1..][..|t| - 1] == t[1..];
    }
    forall x | Well(x) && Means(x, f) && t == [OPEN] + TreeText(x) ensures Compiled(t) == Made(f) {
      TreeCompiles(x, f, []);
      assert t[1..] == TreeText(x) + [];
    }
  }
}
