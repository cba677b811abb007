/** What decoded mappings become: maps, in which the last entry for a key stays. */
module YamlMaps {
  import opened YamlGrammar
  import opened YamlDecoder
  import opened YamlAliases

  /** A value in which each scalar, and each key, is what it is resolved to. */
  datatype Native<T> =
    | Resolved(scalar: T)
    | Many(items: seq<Native<T>>)
    | Keyed(entries: map<T, Native<T>>)

  function Final<T(==)>(v: Value, resolve: Value -> T): Native<T>
    decreases v, 0
  {
    match v
    case Atom(_, _, _) => Native.Resolved(resolve(v))
    case List(vs) => Many(FinalAll(vs, resolve))
    case Dict(es) => Keyed(FinalEntries(es, resolve))
  }

  function FinalAll<T(==)>(vs: seq<Value>, resolve: Value -> T): (r: seq<Native<T>>)
    ensures |r| == |vs|
    decreases vs, 1
  {
    if vs == [] then [] else [Final(vs[0], resolve)] + FinalAll(vs[1..], resolve)
  }

  function FinalEntries<T(==)>(es: seq<(Value, Value)>, resolve: Value -> T): map<T, Native<T>>
    decreases es, 1
  {
    if es == [] then map[]
      else FinalEntries(es[..|es| - 1], resolve)[resolve(es[|es| - 1].0) := FinalLast(es[|es| - 1], resolve)]
  }

  function FinalLast<T(==)>(e: (Value, Value), resolve: Value -> T): Native<T>
    decreases e, 0
  {
    Final(e.1, resolve)
  }

  /** No mapping is given a key twice. */
  predicate Once<T(==)>(v: Value, resolve: Value -> T)
    decreases v, 0
  {
    match v
    case Atom(_, _, _) => true
    case List(vs) => forall u | u in vs :: Once(u, resolve)
    case Dict(es) => OnceEach(es, resolve)
  }

  predicate OnceEach<T(==)>(es: seq<(Value, Value)>, resolve: Value -> T)
    decreases es, 1
  {
    es == [] ||
    var k := |es| - 1;
    es[k].0.Atom? && OnceLast(es[k], resolve) && OnceEach(es[..k], resolve) &&
    forall i | 0 <= i < k :: resolve(es[i].0) != resolve(es[k].0)
  }

  predicate OnceLast<T(==)>(e: (Value, Value), resolve: Value -> T)
    decreases e, 0
  {
    Once(e.1, resolve)
  }

  /** The entries for other keys. */
  function Without<T(==)>(es: seq<(Value, Value)>, key: T, resolve: Value -> T): (r: seq<(Value, Value)>)
    ensures |r| <= |es|
  {
    if es == [] then []
    else
      var k := |es| - 1;
      var fs := Without(es[..k], key, resolve);
      if resolve(es[k].0) == key then fs else fs + [es[k]]
  }

  lemma {:induction false} SizeSnoc(es: seq<(Value, Value)>, k: nat)
    requires k == |es| - 1
    ensures SizeOfEntries(es) == SizeOfEntries(es[..k]) + SizeOfEntry(es[k])
  {
    assert es == es[..k] + [es[k]] && [es[k]][1..] == [];
    EntriesJoin(es[..k], [es[k]]);
  }

  /** Without the entries for a key the map is the same but for that key. */
  lemma {:induction false} WithoutKey<T>(es: seq<(Value, Value)>, key: T, resolve: Value -> T)
    ensures FinalEntries(Without(es, key, resolve), resolve) == FinalEntries(es, resolve) - {key}
    decreases |es|
  {
    hide FinalLast;
    if es != [] {
      var k := |es| - 1;
      var fs := Without(es[..k], key, resolve);
      WithoutKey(es[..k], key, resolve);
      assert (fs + [es[k]])[..|fs|] == fs;
    }
  }

  lemma {:induction false} OtherKeys<T>(es: seq<(Value, Value)>, key: T, resolve: Value -> T)
    requires forall i | 0 <= i < |es| :: resolve(es[i].0) != key
    ensures key !in FinalEntries(es, resolve)
    decreases |es|
  {
    hide FinalLast;
    if es != [] { OtherKeys(es[..|es| - 1], key, resolve); }
  }

  /** A value without repeated keys is not larger than any that becomes the same. */
  lemma {:induction false} OnceIsLeast<T>(v: Value, w: Value, resolve: Value -> T)
    requires Once(v, resolve) && Final(v, resolve) == Final(w, resolve)
    ensures Size(v) <= Size(w)
    decreases v, 0
  {
    match v
    case Atom(_, _, _) =>
    case List(vs) => AllLeast(vs, w.items, resolve);
    case Dict(es) => EntriesLeast(es, w.entries, resolve);
  }

  lemma {:induction false} AllLeast<T>(vs: seq<Value>, ws: seq<Value>, resolve: Value -> T)
    requires (forall u | u in vs :: Once(u, resolve)) && FinalAll(vs, resolve) == FinalAll(ws, resolve)
    ensures SizeOfAll(vs) <= SizeOfAll(ws)
    decreases vs, 1
  {
    hide Once, Final, Size;
    if vs != [] {
      assert FinalAll(vs, resolve)[0] == Final(vs[0], resolve) && FinalAll(ws, resolve)[0] == Final(ws[0], resolve);
      assert FinalAll(vs, resolve)[1..] == FinalAll(vs[1..], resolve) &&
             FinalAll(ws, resolve)[1..] == FinalAll(ws[1..], resolve);
      OnceIsLeast(vs[0], ws[0], resolve);
      AllLeast(vs[1..], ws[1..], resolve);
    }
  }

  lemma {:induction false} EntriesLeast<T>(es: seq<(Value, Value)>, fs: seq<(Value, Value)>, resolve: Value -> T)
    requires OnceEach(es, resolve) && FinalEntries(es, resolve) == FinalEntries(fs, resolve)
    ensures SizeOfEntries(es) <= SizeOfEntries(fs)
    decreases es, 1
  {
    hide Once, Final, Size, SizeOfEntries;
    if es == [] {
      NothingIsLeast();
    } else {
      var k, key := |es| - 1, resolve(es[|es| - 1].0);
      OtherKeys(es[..k], key, resolve);
      assert FinalEntries(es[..k], resolve) == FinalEntries(es, resolve) - {key};
      WithoutKey(fs, key, resolve);
      EntriesLeast(es[..k], Without(fs, key, resolve), resolve);
      var f := OneLess(fs, key, resolve);
      EntryLeast(es[k], f, resolve);
      SizeSnoc(es, k);
    }
  }

  lemma NothingIsLeast()
    ensures SizeOfEntries([]) == 0
  {
  }

  lemma {:induction false} EntryLeast<T>(e: (Value, Value), f: (Value, Value), resolve: Value -> T)
    requires e.0.Atom? && OnceLast(e, resolve) && FinalLast(e, resolve) == FinalLast(f, resolve)
    ensures SizeOfEntry(e) <= SizeOfEntry(f)
    decreases e, 0
  {
    OnceIsLeast(e.1, f.1, resolve);
    assert Size(e.0) == 1 <= Size(f.0);
  }

  /** The entry that stays, and is gone without its key. */
  lemma {:induction false} OneLess<T>(fs: seq<(Value, Value)>, key: T, resolve: Value -> T) returns (f: (Value, Value))
    requires key in FinalEntries(fs, resolve)
    ensures FinalEntries(fs, resolve)[key] == FinalLast(f, resolve)
    ensures SizeOfEntries(Without(fs, key, resolve)) + SizeOfEntry(f) <= SizeOfEntries(fs)
    decreases |fs|
  {
    hide FinalLast, SizeOfEntries, SizeOfEntry;
    var k := |fs| - 1;
    SizeSnoc(fs, k);
    if resolve(fs[k].0) == key {
      f := fs[k];
      WithoutLess(fs[..k], key, resolve);
    } else {
      f := OneLess(fs[..k], key, resolve);
      var gs := Without(fs[..k], key, resolve);
      SizeSnoc(gs + [fs[k]], |gs|);
      assert (gs + [fs[k]])[..|gs|] == gs;
    }
  }

  lemma {:induction false} WithoutLess<T>(fs: seq<(Value, Value)>, key: T, resolve: Value -> T)
    ensures SizeOfEntries(Without(fs, key, resolve)) <= SizeOfEntries(fs)
    decreases |fs|
  {
    hide SizeOfEntries, SizeOfEntry;
    if fs != [] {
      var k := |fs| - 1;
      WithoutLess(fs[..k], key, resolve);
      SizeSnoc(fs, k);
      var gs := Without(fs[..k], key, resolve);
      SizeSnoc(gs + [fs[k]], |gs|);
      assert (gs + [fs[k]])[..|gs|] == gs;
    }
  }

  /** What a document becomes, if it decodes. */
  function Becomes<T(==)>(r: Result<Value>, resolve: Value -> T): Result<Native<T>> {
    match r
    case Err(e) => Err(e)
    case Ok(v) => Ok(Final(v, resolve))
  }

  /** Writing out aliases that stand for no merge key does not change what a document
      becomes, however scalars are resolved. Where no mapping is given a key twice, any
      other alias does change it. */
  lemma {:induction false} WrittenOutMaps<T>(n: Node, anchors: map<string, Node>, resolve: Value -> T)
    requires WellFormed(n) && GoodAnchors(anchors) && Decode(n, anchors, {}).Ok?
    ensures var r, t := Decode(n, anchors, {}), Expand(n, anchors, {});
            && (Direct(t) ==> Becomes(r, resolve) == Becomes(Meaning(Erase(t)), resolve))
            && (Once(r.value, resolve) ==> (Becomes(r, resolve) == Becomes(Meaning(Erase(t)), resolve) <==> Direct(t)))
  {
    hide Decode, Expand, Meaning, Direct, Erase, Final, Once;
    var r, t := Decode(n, anchors, {}), Expand(n, anchors, {});
    WrittenOut(n, anchors);
    DecodeIsMeaning(n, anchors, {});
    ExpandedIsProper(n, anchors, {});
    if Once(r.value, resolve) && Becomes(r, resolve) == Becomes(Meaning(Erase(t)), resolve) {
      OnceIsLeast(r.value, Meaning(Erase(t)).value, resolve);
      MeaningShrinks(t);
    }
  }

  // ---- Where a key that is given twice hides the difference ----

  function TwoPairs(k: Node, v: Node, l: Node, w: Node): Node {
    Mapping(MappingStart("", "", true, Style.Block), [k, v, l, w])
  }

  const QUOTED := Leaf(Scalar("", "", "<<", false, true, DoubleQuoted))

  lemma {:induction false} PairsDecoded(k: Node, v: Node, l: Node, w: Node, anchors: map<string, Node>)
    requires WellFormed(k) && WellFormed(v) && WellFormed(l) && WellFormed(w) && GoodAnchors(anchors) && !IsMerge(l)
    ensures WellFormed(TwoPairs(k, v, l, w))
    ensures Decode(TwoPairs(k, v, l, w), anchors, {}) ==
            match if IsMerge(k) then Merge(v, anchors, {}) else DecodePair([k, v, l, w], anchors, {})
            case Err(e) => Err(e)
            case Ok(es) =>
              match DecodePair([l, w], anchors, {})
              case Err(e) => Err(e)
              case Ok(fs) => Ok(Dict(es + fs))
  {
    hide Merge, DecodePair, IsMerge;
    var ns, r := [k, v, l, w], DecodePair([l, w], anchors, {});
    assert ns[2..] == [l, w] && [l, w][2..] == [] && DecodePairs([], anchors, {}) == Ok([]);
    assert DecodePairs([l, w], anchors, {}) == r by { if r.Ok? { assert r.value + [] == r.value; } }
  }

  /** Decoding `- <<` and `- {k : {}, "<<" : {}}`, for a key of this text. */
  lemma {:induction false} TwoMaps(anchor: string, k: Node, m: map<string, Node>)
    requires WellFormed(k) && k.Leaf? && (k.event.Scalar? ==> k.event.anchor == "")
    requires m == AnchorsOf(Word(anchor, "<<"), NO_ANCHORS) && GoodAnchors(m)
    ensures WellFormed(Maps(anchor, k)) && AnchorsOf(Maps(anchor, k), NO_ANCHORS) == m
    ensures Decoded(Maps(anchor, k)) ==
            match Decode(TwoPairs(k, EMPTY_MAP, QUOTED, EMPTY_MAP), m, {})
            case Err(e) => Err(e)
            case Ok(v) => Ok(List([Atom("", "<<", true), v]))
  {
    hide Decode;
    var a, p, root := Word(anchor, "<<"), TwoPairs(k, EMPTY_MAP, QUOTED, EMPTY_MAP), Maps(anchor, k);
    EmptyOnes(m);
    FourAnchors(k, m);
    assert [a, p][1..] == [p] && [p][1..] == [];
    assert AnchorsOfAll([p], m) == AnchorsOf(p, m);
    assert AnchorsOf(root, NO_ANCHORS) == AnchorsOfAll([a, p], NO_ANCHORS) == AnchorsOfAll([p], m);
    AnchorsAreGood(root, NO_ANCHORS);
    YamlAliases.Items([a, p], m);
    TwoDecoded(a, p, m);
    WordDecoded(anchor, m);
  }

  function Maps(anchor: string, k: Node): Node {
    YamlAliases.Block("", [Word(anchor, "<<"), TwoPairs(k, EMPTY_MAP, QUOTED, EMPTY_MAP)])
  }

  lemma {:induction false} WordDecoded(anchor: string, m: map<string, Node>)
    requires GoodAnchors(m)
    ensures Decode(Word(anchor, "<<"), m, {}) == Ok(Atom("", "<<", true)) &&
            Decode(QUOTED, m, {}) == Ok(Atom("", "<<", false))
  {
  }

  lemma {:induction false} FourAnchors(k: Node, m: map<string, Node>)
    requires k.Leaf? && (k.event.Scalar? ==> k.event.anchor == "") && AnchorsOf(EMPTY_MAP, m) == m
    ensures AnchorsOf(TwoPairs(k, EMPTY_MAP, QUOTED, EMPTY_MAP), m) == m
  {
    var ns := [k, EMPTY_MAP, QUOTED, EMPTY_MAP];
    assert ns[1..] == [EMPTY_MAP, QUOTED, EMPTY_MAP] && ns[1..][1..] == [QUOTED, EMPTY_MAP] &&
           ns[1..][1..][1..] == [EMPTY_MAP];
    assert ns[1..][1..][1..][1..] == [];
    assert AnchorsOfAll([EMPTY_MAP], m) == m;
    assert AnchorsOfAll([QUOTED, EMPTY_MAP], m) == m;
    assert AnchorsOfAll(ns[1..], m) == AnchorsOfAll([QUOTED, EMPTY_MAP], m);
    assert AnchorsOfAll(ns, m) == AnchorsOfAll(ns[1..], AnchorsOf(k, m)) && AnchorsOf(k, m) == m;
  }

  /** `- &m <<` and `- {*m : {}, "<<" : {}}`: the alias stands for a merge key, and yet
      written out the document becomes the same, for a quoted "<<" is the same key. */
  lemma {:induction false} MergeKeyOverwritten<T>(resolve: Value -> T)
    requires resolve(Atom("", "<<", true)) == resolve(Atom("", "<<", false))
    ensures var a, b := Maps("m", Leaf(Alias("m"))), Maps("", Word("", "<<"));
            && WellFormed(a) && WellFormed(b) && Decoded(a).Ok? && Decoded(a) != Decoded(b)
            && Becomes(Decoded(a), resolve) == Becomes(Decoded(b), resolve)
  {
    hide Decoded, Merge, Maps, TwoPairs, Final;
    var m := NO_ANCHORS["m" := Word("m", "<<")];
    var plain, quoted, none := Atom("", "<<", true), Atom("", "<<", false), Dict([]);
    TwoMaps("m", Leaf(Alias("m")), m);
    TwoMaps("", Word("", "<<"), NO_ANCHORS);
    EmptyOnes(m);
    EmptyOnes(NO_ANCHORS);
    WordDecoded("", m);
    WordDecoded("", NO_ANCHORS);
    assert Decode(Leaf(Alias("m")), m, {}) == Decode(Word("m", "<<"), m, {} + {"m"});
    PairsDecoded(Leaf(Alias("m")), EMPTY_MAP, QUOTED, EMPTY_MAP, m);
    PairsDecoded(Word("", "<<"), EMPTY_MAP, QUOTED, EMPTY_MAP, NO_ANCHORS);
    LastStays(plain, quoted, none, resolve);
  }

  lemma {:induction false} LastStays<T>(k: Value, l: Value, v: Value, resolve: Value -> T)
    requires resolve(k) == resolve(l)
    ensures Final(List([k, Dict([(k, v)] + [(l, v)])]), resolve) == Final(List([k, Dict([] + [(l, v)])]), resolve)
  {
    hide FinalLast;
    var es, fs := [(k, v)] + [(l, v)], [] + [(l, v)];
    assert es[..1] == [(k, v)] && es[..1][..0] == [] && fs[..0] == [];
    assert FinalEntries([(k, v)], resolve) == map[resolve(k) := FinalLast((k, v), resolve)];
    assert FinalEntries(es, resolve) == FinalEntries(fs, resolve);
    assert [k, Dict(es)][1..] == [Dict(es)] && [k, Dict(fs)][1..] == [Dict(fs)];
    assert [Dict(es)][1..] == [] && [Dict(fs)][1..] == [];
    assert FinalAll([Dict(es)], resolve) == FinalAll([Dict(fs)], resolve);
  }
}
