/** What decoding is for: every value comes back from the node that is written for it, and
    of mappings that are merged the first that has a key decides. */
module YamlValues {
  import opened YamlGrammar
  import opened YamlDecoder
  import opened YamlMaps

  /** A value as a node, without anchors and aliases. */
  function Written(v: Value): Node
    decreases v, 0
  {
    match v
    case Atom(tag, text, implicit) => Leaf(Scalar("", tag, text, implicit, false, Plain))
    case List(vs) => Sequence(SequenceStart("", "", true, Block), WrittenAll(vs))
    case Dict(es) => Mapping(MappingStart("", "", true, Block), WrittenEntries(es))
  }

  function WrittenAll(vs: seq<Value>): seq<Node>
    decreases vs, 1
  {
    if vs == [] then [] else [Written(vs[0])] + WrittenAll(vs[1..])
  }

  function WrittenEntries(es: seq<(Value, Value)>): seq<Node>
    decreases es, 1
  {
    if es == [] then [] else WrittenEntry(es[0]) + WrittenEntries(es[1..])
  }

  function WrittenEntry(e: (Value, Value)): seq<Node>
    decreases e, 0
  {
    [Written(e.0), Written(e.1)]
  }

  /** Keys are scalars, and none of them is the merge key. */
  predicate Keyable(v: Value)
    decreases v, 0
  {
    match v
    case Atom(_, _, _) => true
    case List(vs) => KeyableAll(vs)
    case Dict(es) => KeyableEntries(es)
  }

  predicate KeyableAll(vs: seq<Value>)
    decreases vs, 1
  {
    vs == [] || (Keyable(vs[0]) && KeyableAll(vs[1..]))
  }

  predicate KeyableEntries(es: seq<(Value, Value)>)
    decreases es, 1
  {
    es == [] || (es[0].0.Atom? && !IsMerge(Written(es[0].0)) && KeyableEntry(es[0]) && KeyableEntries(es[1..]))
  }

  predicate KeyableEntry(e: (Value, Value))
    decreases e, 0
  {
    Keyable(e.1)
  }

  /** Whatever the anchors, a value written as a node decodes to itself. */
  lemma {:induction false} WrittenDecodes(v: Value, anchors: map<string, Node>, active: set<string>)
    requires Keyable(v) && GoodAnchors(anchors)
    ensures WellFormed(Written(v)) && Decode(Written(v), anchors, active) == Ok(v)
    decreases v, 0
  {
    match v
    case Atom(_, _, _) =>
    case List(vs) => AllDecode(vs, anchors, active);
    case Dict(es) => EntriesDecode(es, anchors, active);
  }

  lemma {:induction false} AllDecode(vs: seq<Value>, anchors: map<string, Node>, active: set<string>)
    requires KeyableAll(vs) && GoodAnchors(anchors)
    ensures forall n :: n in WrittenAll(vs) ==> WellFormed(n)
    ensures DecodeAll(WrittenAll(vs), anchors, active) == Ok(vs)
    decreases vs, 1
  {
    hide Decode, Written, WellFormed;
    if vs != [] {
      WrittenDecodes(vs[0], anchors, active);
      AllDecode(vs[1..], anchors, active);
      assert WrittenAll(vs)[1..] == WrittenAll(vs[1..]);
      assert [vs[0]] + vs[1..] == vs;
    }
  }

  lemma {:induction false} EntriesDecode(es: seq<(Value, Value)>, anchors: map<string, Node>, active: set<string>)
    requires KeyableEntries(es) && GoodAnchors(anchors)
    ensures (forall n :: n in WrittenEntries(es) ==> WellFormed(n)) && |WrittenEntries(es)| % 2 == 0
    ensures DecodePairs(WrittenEntries(es), anchors, active) == Ok(es)
    decreases es, 1
  {
    hide Decode, Written, WellFormed, IsMerge;
    if es != [] {
      AtomDecodes(es[0].0, anchors, active);
      EntryDecodes(es[0], anchors, active);
      EntriesDecode(es[1..], anchors, active);
      var ns := WrittenEntries(es);
      TwoFirst(Written(es[0].0), Written(es[0].1), WrittenEntries(es[1..]));
      assert ns == [Written(es[0].0), Written(es[0].1)] + WrittenEntries(es[1..]);
      assert DecodePair(ns, anchors, active) == Ok([es[0]]);
      assert [es[0]] + es[1..] == es;
    }
  }

  lemma TwoFirst<T>(a: T, b: T, rest: seq<T>)
    ensures var s := [a, b] + rest; s[0] == a && s[1] == b && s[2..] == rest
  {
  }

  lemma {:induction false} EntryDecodes(e: (Value, Value), anchors: map<string, Node>, active: set<string>)
    requires KeyableEntry(e) && GoodAnchors(anchors)
    ensures WellFormed(Written(e.1)) && Decode(Written(e.1), anchors, active) == Ok(e.1)
    decreases e, 0
  {
    WrittenDecodes(e.1, anchors, active);
  }

  lemma {:induction false} AtomDecodes(v: Value, anchors: map<string, Node>, active: set<string>)
    requires v.Atom? && GoodAnchors(anchors)
    ensures WellFormed(Written(v)) && Decode(Written(v), anchors, active) == Ok(v)
  {
  }

  // ---- Merging ----

  const MERGE_KEY := Leaf(Scalar("", "", "<<", true, false, Plain))

  /** What is merged stands in place of the merge key: entries behind it replace those for
      the same keys, and it replaces those in front. */
  lemma {:induction false} MergedInPlace(es: seq<(Value, Value)>, n: Node, fs: seq<(Value, Value)>, anchors: map<string,
                                         Node>,
                      active: set<string>)
    requires KeyableEntries(es) && KeyableEntries(fs) && WellFormed(n) && GoodAnchors(anchors)
    requires Merge(n, anchors, active).Ok?
    ensures var m :=
              Mapping(MappingStart("", "", true, Block), WrittenEntries(es) + [MERGE_KEY, n] + WrittenEntries(fs));
            WellFormed(m) && Decode(m, anchors, active) == Ok(Dict(es + Merge(n, anchors, active).value + fs))
  {
    hide Written, WellFormed, Merge, WrittenEntries, DecodePairs;
    var front, back := WrittenEntries(es), WrittenEntries(fs);
    EntriesDecode(es, anchors, active);
    EntriesDecode(fs, anchors, active);
    MergeFirst(n, back, fs, anchors, active);
    PairsJoin(front, [MERGE_KEY, n] + back, anchors, active);
    MiddleJoins(front, [MERGE_KEY, n], back);
    MiddleJoins(es, Merge(n, anchors, active).value, fs);
    TableDecodes(front + [MERGE_KEY, n] + back, anchors, active);
  }

  lemma MiddleJoins<T>(a: seq<T>, b: seq<T>, c: seq<T>)
    ensures a + (b + c) == a + b + c
  {
  }

  lemma {:induction false} MergeFirst(n: Node, back: seq<Node>, fs: seq<(Value, Value)>, anchors: map<string, Node>,
                                      active: set<string>)
    requires WellFormed(n) && GoodAnchors(anchors) && |back| % 2 == 0 && forall b | b in back :: WellFormed(b)
    requires DecodePairs(back, anchors, active) == Ok(fs) && Merge(n, anchors, active).Ok?
    ensures var ns := [MERGE_KEY, n] + back;
            (forall m | m in ns :: WellFormed(m)) && |ns| % 2 == 0
            && DecodePairs(ns, anchors, active) == Ok(Merge(n, anchors, active).value + fs)
  {
    hide WellFormed, Merge;
    assert WellFormed(MERGE_KEY) && IsMerge(MERGE_KEY) by { OneWord(); }
    TwoFirst(MERGE_KEY, n, back);
  }

  lemma OneWord()
    ensures WellFormed(MERGE_KEY) && IsMerge(MERGE_KEY)
  {
  }

  lemma {:induction false} TableDecodes(cs: seq<Node>, anchors: map<string, Node>, active: set<string>)
    requires (forall n | n in cs :: WellFormed(n)) && |cs| % 2 == 0 && GoodAnchors(anchors)
    ensures var m := Mapping(MappingStart("", "", true, Block), cs);
            WellFormed(m) && Decode(m, anchors, active) ==
            match DecodePairs(cs, anchors, active) case Err(e) => Err(e) case Ok(es) => Ok(Dict(es))
  {
  }

  lemma SplitTwo<T>(ns: seq<T>, ms: seq<T>)
    requires |ns| >= 2
    ensures (ns + ms)[0] == ns[0] && (ns + ms)[1] == ns[1] && (ns + ms)[2..] == ns[2..] + ms
  {
  }

  lemma {:induction false} PairsJoin(ns: seq<Node>, ms: seq<Node>, anchors: map<string, Node>, active: set<string>)
    requires (forall n | n in ns :: WellFormed(n)) && |ns| % 2 == 0
    requires (forall n | n in ms :: WellFormed(n)) && |ms| % 2 == 0
    requires GoodAnchors(anchors) && DecodePairs(ns, anchors, active).Ok? && DecodePairs(ms, anchors, active).Ok?
    ensures DecodePairs(ns + ms, anchors, active) ==
            Ok(DecodePairs(ns, anchors, active).value + DecodePairs(ms, anchors, active).value)
    decreases |ns|
  {
    hide Decode, WellFormed, Merge, IsMerge;
    if ns == [] {
      assert ns + ms == ms;
      assert [] + DecodePairs(ms, anchors, active).value == DecodePairs(ms, anchors, active).value;
    } else {
      SplitTwo(ns, ms);
      PairsJoin(ns[2..], ms, anchors, active);
      var r := if IsMerge(ns[0]) then Merge(ns[1], anchors, active) else DecodePair(ns, anchors, active);
      assert DecodePair(ns + ms, anchors, active) == DecodePair(ns, anchors, active);
      MiddleJoins(r.value, DecodePairs(ns[2..], anchors, active).value, DecodePairs(ms, anchors, active).value);
    }
  }

  lemma {:induction false} FinalJoin<T>(es: seq<(Value, Value)>, fs: seq<(Value, Value)>, resolve: Value -> T)
    ensures FinalEntries(es + fs, resolve) == FinalEntries(es, resolve) + FinalEntries(fs, resolve)
    decreases |fs|
  {
    hide FinalLast;
    if fs == [] {
      assert es + fs == es;
    } else {
      var k := |fs| - 1;
      FinalJoin(es, fs[..k], resolve);
      assert (es + fs)[..|es + fs| - 1] == es + fs[..k];
    }
  }

  /** The map that a node to be merged amounts to. */
  ghost function Given<T>(n: Node, anchors: map<string, Node>, active: set<string>,
                              resolve: Value -> T): map<T, Native<T>>
    requires WellFormed(n) && GoodAnchors(anchors)
  {
    var r := MergeOne(n, anchors, active);
    if r.Ok? then FinalEntries(r.value, resolve) else map[]
  }

  /** The first of the nodes that has a key. */
  ghost predicate First<T>(ns: seq<Node>, i: nat, anchors: map<string, Node>, active: set<string>,
                                 resolve: Value -> T, key: T)
    requires (forall n | n in ns :: WellFormed(n)) && GoodAnchors(anchors)
  {
    && i < |ns| && key in Given(ns[i], anchors, active, resolve)
    && forall j | 0 <= j < i :: key !in Given(ns[j], anchors, active, resolve)
  }

  /** The merge of a list gives each key the value from the first node that has it. */
  lemma {:induction false} EarlierWins<T>(ns: seq<Node>, anchors: map<string, Node>, active: set<string>,
                                          resolve: Value -> T, key: T)
    requires (forall n | n in ns :: WellFormed(n)) && GoodAnchors(anchors) && MergeAll(ns, anchors, active).Ok?
    ensures forall n :: n in ns ==> MergeOne(n, anchors, active).Ok?
    ensures var m := FinalEntries(MergeAll(ns, anchors, active).value, resolve);
            if key in m then exists i: nat :: First(ns, i, anchors, active, resolve, key) &&
                                         m[key] == Given(ns[i], anchors, active, resolve)[key]
            else forall n :: n in ns ==> key !in Given(n, anchors, active, resolve)
    decreases |ns|
  {
    hide Decode, WellFormed, MergeOne, FinalEntries;
    NoKeys(resolve);
    if ns != [] {
      var k := |ns| - 1;
      var m := FinalEntries(MergeAll(ns[..k], anchors, active).value, resolve);
      EarlierWins(ns[..k], anchors, active, resolve, key);
      FinalJoin(MergeOne(ns[k], anchors, active).value, MergeAll(ns[..k], anchors, active).value, resolve);
      assert forall j :: 0 <= j < k ==> ns[..k][j] == ns[j];
      if key in m {
        var i: nat :| First(ns[..k], i, anchors, active, resolve, key) &&
                 m[key] == Given(ns[..k][i], anchors, active, resolve)[key];
        assert First(ns, i, anchors, active, resolve, key);
      } else if key in Given(ns[k], anchors, active, resolve) {
        assert First(ns, k, anchors, active, resolve, key);
      }
    }
  }

  lemma NoKeys<T>(resolve: Value -> T)
    ensures FinalEntries([], resolve) == map[]
  {
  }

  /** What is merged of a mapping that is written out is what it has. */
  lemma {:induction false} WrittenMerges(es: seq<(Value, Value)>, anchors: map<string, Node>, active: set<string>)
    requires KeyableEntries(es) && GoodAnchors(anchors)
    ensures WellFormed(Written(Dict(es)))
    ensures Merge(Written(Dict(es)), anchors, active) == MergeOne(Written(Dict(es)), anchors, active) == Ok(es)
  {
    WrittenDecodes(Dict(es), anchors, active);
  }

  /** Only a mapping is merged, by itself or by an alias, and it gives its entries. */
  lemma {:induction false} OnlyMappings(n: Node, anchors: map<string, Node>, active: set<string>)
    requires WellFormed(n) && GoodAnchors(anchors)
    ensures var mapping := n.Mapping? || (IsAlias(n) && n.event.name in anchors && anchors[n.event.name].Mapping?);
            var unknown := IsAlias(n) && n.event.name !in anchors;
            MergeOne(n, anchors, active) ==
              if mapping && Decode(n, anchors, active).Ok? then Ok(EntriesOf(Decode(n, anchors, active).value))
              else if mapping then Err(Decode(n, anchors, active).error)
              else if unknown then Err(UnknownAnchor)
              else Err(WantMap)
  {
    if IsAlias(n) && n.event.name in anchors && n.event.name !in active {
      FewerFree(anchors, active, n.event.name);
      assert Decode(n, anchors, active) ==
             Decode(anchors[n.event.name], anchors, active + {n.event.name});
    }
  }

  function EntriesOf(v: Value): seq<(Value, Value)> {
    if v.Dict? then v.entries else []
  }

  // ---- Keys ----

  /** Every key is a scalar, throughout. */
  predicate ScalarKeys(v: Value)
    decreases v, 0
  {
    match v
    case Atom(_, _, _) => true
    case List(vs) => forall u | u in vs :: ScalarKeys(u)
    case Dict(es) => forall e | e in es :: e.0.Atom? && ScalarKeysOf(e)
  }

  predicate ScalarKeysOf(e: (Value, Value))
    decreases e, 0
  {
    ScalarKeys(e.1)
  }

  /** Whatever is decoded has only scalars for keys. */
  lemma {:induction false} DecodedKeys(n: Node, anchors: map<string, Node>, active: set<string>)
    requires WellFormed(n) && GoodAnchors(anchors) && Decode(n, anchors, active).Ok?
    ensures ScalarKeys(Decode(n, anchors, active).value)
    decreases Free(anchors, active), n, 0
  {
    hide Free;
    match n
    case Leaf(e) =>
      if e.Alias? {
        FewerFree(anchors, active, e.name);
        DecodedKeys(anchors[e.name], anchors, active + {e.name});
      }
    case Sequence(_, cs) => AllDecodedKeys(cs, anchors, active);
    case Mapping(_, cs) => PairsDecodedKeys(cs, anchors, active);
  }

  lemma {:induction false} AllDecodedKeys(ns: seq<Node>, anchors: map<string, Node>, active: set<string>)
    requires (forall n | n in ns :: WellFormed(n)) && GoodAnchors(anchors) && DecodeAll(ns, anchors, active).Ok?
    ensures forall v | v in DecodeAll(ns, anchors, active).value :: ScalarKeys(v)
    decreases Free(anchors, active), ns, 1
  {
    hide Free, WellFormed, Decode, ScalarKeys;
    if ns != [] {
      DecodedKeys(ns[0], anchors, active);
      AllDecodedKeys(ns[1..], anchors, active);
    }
  }

  ghost predicate KeysIn(es: seq<(Value, Value)>) {
    forall e | e in es :: e.0.Atom? && ScalarKeysOf(e)
  }

  lemma KeysJoin(es: seq<(Value, Value)>, fs: seq<(Value, Value)>)
    ensures KeysIn(es + fs) <==> KeysIn(es) && KeysIn(fs)
  {
    hide ScalarKeysOf;
    assert forall e :: e in es + fs <==> e in es || e in fs;
  }

  lemma {:induction false} PairsDecodedKeys(ns: seq<Node>, anchors: map<string, Node>, active: set<string>)
    requires (forall n | n in ns :: WellFormed(n)) && |ns| % 2 == 0 && GoodAnchors(anchors)
    requires DecodePairs(ns, anchors, active).Ok?
    ensures KeysIn(DecodePairs(ns, anchors, active).value)
    decreases Free(anchors, active), ns, 3
  {
    hide Free, WellFormed, Decode, ScalarKeys, IsMerge, KeysIn, Merge, DecodePair;
    if ns == [] {
      NoEntries();
    } else {
      var es := if IsMerge(ns[0]) then Merge(ns[1], anchors, active) else DecodePair(ns, anchors, active);
      if IsMerge(ns[0]) { MergedKeys(ns[1], anchors, active); } else { PairKeys(ns, anchors, active); }
      PairsDecodedKeys(ns[2..], anchors, active);
      KeysJoin(es.value, DecodePairs(ns[2..], anchors, active).value);
    }
  }

  lemma NoEntries()
    ensures KeysIn([])
  {
  }

  lemma {:induction false} PairKeys(ns: seq<Node>, anchors: map<string, Node>, active: set<string>)
    requires |ns| >= 2 && (forall n | n in ns :: WellFormed(n)) && GoodAnchors(anchors)
    requires DecodePair(ns, anchors, active).Ok?
    ensures KeysIn(DecodePair(ns, anchors, active).value)
    decreases Free(anchors, active), ns, 2
  {
    hide Free, WellFormed, Decode;
    DecodedKeys(ns[1], anchors, active);
  }

  lemma {:induction false} MergedKeys(n: Node, anchors: map<string, Node>, active: set<string>)
    requires WellFormed(n) && GoodAnchors(anchors) && Merge(n, anchors, active).Ok?
    ensures KeysIn(Merge(n, anchors, active).value)
    decreases Free(anchors, active), n, 2
  {
    hide Free, KeysIn;
    if n.Sequence? { AllMergedKeys(n.children, anchors, active); } else { OneMergedKeys(n, anchors, active); }
  }

  lemma {:induction false} OneMergedKeys(n: Node, anchors: map<string, Node>, active: set<string>)
    requires WellFormed(n) && GoodAnchors(anchors) && MergeOne(n, anchors, active).Ok?
    ensures KeysIn(MergeOne(n, anchors, active).value)
    decreases Free(anchors, active), n, 1
  {
    hide Free, Decode;
    DecodedKeys(n, anchors, active);
  }

  lemma {:induction false} AllMergedKeys(ns: seq<Node>, anchors: map<string, Node>, active: set<string>)
    requires (forall n | n in ns :: WellFormed(n)) && GoodAnchors(anchors) && MergeAll(ns, anchors, active).Ok?
    ensures KeysIn(MergeAll(ns, anchors, active).value)
    decreases Free(anchors, active), ns, 2
  {
    hide Free, WellFormed, MergeOne, KeysIn;
    if ns == [] {
      NoEntries();
    } else {
      var k := |ns| - 1;
      OneMergedKeys(ns[k], anchors, active);
      AllMergedKeys(ns[..k], anchors, active);
      KeysJoin(MergeOne(ns[k], anchors, active).value, MergeAll(ns[..k], anchors, active).value);
    }
  }

  /** The first error among the entries decides. */
  lemma {:induction false} PairsFail(ns: seq<Node>, ms: seq<Node>, anchors: map<string, Node>, active: set<string>)
    requires (forall n | n in ns :: WellFormed(n)) && |ns| % 2 == 0
    requires (forall n | n in ms :: WellFormed(n)) && |ms| % 2 == 0
    requires GoodAnchors(anchors) && DecodePairs(ns, anchors, active).Ok? && DecodePairs(ms, anchors, active).Err?
    ensures DecodePairs(ns + ms, anchors, active) == DecodePairs(ms, anchors, active)
    decreases |ns|
  {
    hide Decode, WellFormed, Merge, IsMerge;
    if ns == [] {
      assert ns + ms == ms;
    } else {
      SplitTwo(ns, ms);
      PairsFail(ns[2..], ms, anchors, active);
      assert DecodePair(ns + ms, anchors, active) == DecodePair(ns, anchors, active);
    }
  }

  /** A key that is no scalar is refused, whatever its value and what comes behind. */
  lemma {:induction false} KeyRefused(es: seq<(Value, Value)>, k: Node, v: Node, back: seq<Node>, anchors: map<string,
                                      Node>,
                   active: set<string>)
    requires KeyableEntries(es) && GoodAnchors(anchors) && WellFormed(k) && WellFormed(v) && |back| % 2 == 0
    requires (forall n | n in back :: WellFormed(n)) && Decode(k, anchors, active).Ok?
    requires Decode(k, anchors, active).value.List? || Decode(k, anchors, active).value.Dict?
    ensures var m := Mapping(MappingStart("", "", true, Block), WrittenEntries(es) + [k, v] + back);
            WellFormed(m) && Decode(m, anchors, active) == Err(InvalidMapKey)
  {
    hide Written, WellFormed, WrittenEntries, Decode, DecodePairs;
    var front, ns := WrittenEntries(es), [k, v] + back;
    EntriesDecode(es, anchors, active);
    TwoFirst(k, v, back);
    MiddleJoins(front, [k, v], back);
    TableDecodes(front + [k, v] + back, anchors, active);
    if IsMerge(k) { MergeIsScalar(k, anchors, active); }
    FrontRefused(ns, anchors, active);
    PairsFail(front, ns, anchors, active);
  }

  lemma {:induction false} MergeIsScalar(k: Node, anchors: map<string, Node>, active: set<string>)
    requires WellFormed(k) && GoodAnchors(anchors) && IsMerge(k)
    ensures Decode(k, anchors, active).Ok? && Decode(k, anchors, active).value.Atom?
  {
  }

  lemma {:induction false} FrontRefused(ns: seq<Node>, anchors: map<string, Node>, active: set<string>)
    requires ns != [] && |ns| % 2 == 0 && (forall n | n in ns :: WellFormed(n)) && GoodAnchors(anchors)
    requires !IsMerge(ns[0]) && Decode(ns[0], anchors, active).Ok? && !Decode(ns[0], anchors, active).value.Atom?
    ensures DecodePairs(ns, anchors, active) == Err(InvalidMapKey)
  {
    hide Decode, WellFormed;
  }

  // ---- Maps ----

  /** The last entry for a key stays. */
  lemma {:induction false} LastStays<T>(es: seq<(Value, Value)>, k: nat, resolve: Value -> T)
    requires k < |es| && forall j | k < j < |es| :: resolve(es[j].0) != resolve(es[k].0)
    ensures var m := FinalEntries(es, resolve);
            resolve(es[k].0) in m && m[resolve(es[k].0)] == Final(es[k].1, resolve)
    decreases |es|
  {
    hide Final;
    if k < |es| - 1 { LastStays(es[..|es| - 1], k, resolve); }
  }

  /** And no other key is in the map. */
  lemma {:induction false} KeysGiven<T>(es: seq<(Value, Value)>, key: T, resolve: Value -> T)
    requires key in FinalEntries(es, resolve)
    ensures exists k :: 0 <= k < |es| && resolve(es[k].0) == key
    decreases |es|
  {
    hide FinalLast;
    var n := |es| - 1;
    if resolve(es[n].0) != key {
      KeysGiven(es[..n], key, resolve);
      var k :| 0 <= k < n && resolve(es[..n][k].0) == key;
      assert es[k] == es[..n][k];
    }
  }
}
