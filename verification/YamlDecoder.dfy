/** Decoding of a node tree into generic values: aliases are followed, merge keys applied. */
module YamlDecoder {
  import opened YamlGrammar

  datatype Error = UnknownAnchor | ContainsItself | InvalidMapKey | WantMap

  datatype Result<+T> = Ok(value: T) | Err(error: Error)

  /** A mapping is the entries it is given, in order; a scalar is left as it is written. */
  datatype Value =
    | Atom(tag: string, text: string, implicit: bool)
    | List(items: seq<Value>)
    | Dict(entries: seq<(Value, Value)>)

  // ---- Anchors ----

  /** The anchors of a document in the order the builder meets them: a later one
      takes the place of an earlier one, also for aliases between the two. */
  function AnchorsOf(n: Node, m: map<string, Node>): map<string, Node>
    decreases n, 0
  {
    match n
    case Leaf(e) => if e.Scalar? && e.anchor != "" then m[e.anchor := n] else m
    case Sequence(s, cs) =>
      AnchorsOfAll(cs, if s.SequenceStart? && s.anchor != "" then m[s.anchor := n] else m)
    case Mapping(s, cs) =>
      AnchorsOfAll(cs, if s.MappingStart? && s.anchor != "" then m[s.anchor := n] else m)
  }

  function AnchorsOfAll(ns: seq<Node>, m: map<string, Node>): map<string, Node>
    decreases ns, 1
  {
    if ns == [] then m else AnchorsOfAll(ns[1..], AnchorsOf(ns[0], m))
  }

  predicate IsAlias(n: Node) {
    n.Leaf? && n.event.Alias?
  }

  /** What an anchor can stand for. */
  ghost predicate GoodAnchors(m: map<string, Node>) {
    forall a | a in m :: WellFormed(m[a]) && !IsAlias(m[a])
  }

  lemma {:induction false} AnchorsAreGood(n: Node, m: map<string, Node>)
    requires WellFormed(n) && GoodAnchors(m)
    ensures GoodAnchors(AnchorsOf(n, m))
    decreases n, 0
  {
    match n
    case Leaf(e) =>
    case Sequence(s, cs) => AllAnchorsAreGood(cs, if s.anchor != "" then m[s.anchor := n] else m);
    case Mapping(s, cs) => AllAnchorsAreGood(cs, if s.anchor != "" then m[s.anchor := n] else m);
  }

  lemma {:induction false} AllAnchorsAreGood(ns: seq<Node>, m: map<string, Node>)
    requires (forall n | n in ns :: WellFormed(n)) && GoodAnchors(m)
    ensures GoodAnchors(AnchorsOfAll(ns, m))
    decreases ns, 1
  {
    if ns != [] {
      AnchorsAreGood(ns[0], m);
      AllAnchorsAreGood(ns[1..], AnchorsOf(ns[0], m));
    }
  }

  // ---- Decoding, alias by alias ----

  predicate IsMerge(n: Node) {
    n.Leaf? && n.event.Scalar? && n.event.value == "<<" &&
      (n.event.implicit || n.event.tag == "tag:yaml.org,2002:merge")
  }

  /** The anchors that may still be entered. */
  ghost function Free(anchors: map<string, Node>, active: set<string>): nat {
    |anchors.Keys - active|
  }

  lemma FewerFree(anchors: map<string, Node>, active: set<string>, name: string)
    requires name in anchors && name !in active
    ensures Free(anchors, active + {name}) < Free(anchors, active)
  {
    var a, b := anchors.Keys - active, anchors.Keys - (active + {name});
    assert a == b + {name} && name !in b;
  }

  function Decode(n: Node, anchors: map<string, Node>, active: set<string>): Result<Value>
    requires WellFormed(n) && GoodAnchors(anchors)
    decreases Free(anchors, active), n, 0
  {
    match n
    case Leaf(e) =>
      if e.Alias? then
        if e.name !in anchors then Err(UnknownAnchor)
        else if e.name in active then Err(ContainsItself)
        else
          FewerFree(anchors, active, e.name);
          Decode(anchors[e.name], anchors, active + {e.name})
      else Ok(Atom(e.tag, e.value, e.implicit))
    case Sequence(_, cs) =>
      (match DecodeAll(cs, anchors, active)
       case Err(e) => Err(e)
       case Ok(vs) => Ok(List(vs)))
    case Mapping(_, cs) =>
      match DecodePairs(cs, anchors, active)
      case Err(e) => Err(e)
      case Ok(es) => Ok(Dict(es))
  }

  function DecodeAll(ns: seq<Node>, anchors: map<string, Node>, active: set<string>): Result<seq<Value>>
    requires (forall n | n in ns :: WellFormed(n)) && GoodAnchors(anchors)
    decreases Free(anchors, active), ns, 1
  {
    if ns == [] then Ok([])
    else match Decode(ns[0], anchors, active)
      case Err(e) => Err(e)
      case Ok(v) =>
        match DecodeAll(ns[1..], anchors, active)
        case Err(e) => Err(e)
        case Ok(vs) => Ok([v] + vs)
  }

  function DecodePairs(ns: seq<Node>, anchors: map<string, Node>, active: set<string>): Result<seq<(Value, Value)>>
    requires (forall n | n in ns :: WellFormed(n)) && |ns| % 2 == 0 && GoodAnchors(anchors)
    decreases Free(anchors, active), ns, 3
  {
    if ns == [] then Ok([])
    else match if IsMerge(ns[0]) then Merge(ns[1], anchors, active) else DecodePair(ns, anchors, active)
      case Err(e) => Err(e)
      case Ok(es) =>
        match DecodePairs(ns[2..], anchors, active)
        case Err(e) => Err(e)
        case Ok(fs) => Ok(es + fs)
  }

  predicate Hashable(v: Value) {
    v.Atom?
  }

  /** The key and the value at the front. */
  function DecodePair(ns: seq<Node>, anchors: map<string, Node>, active: set<string>): Result<seq<(Value, Value)>>
    requires |ns| >= 2 && (forall n | n in ns :: WellFormed(n)) && GoodAnchors(anchors)
    decreases Free(anchors, active), ns, 2
  {
    match Decode(ns[0], anchors, active)
    case Err(e) => Err(e)
    case Ok(key) =>
      if !Hashable(key) then Err(InvalidMapKey)
      else match Decode(ns[1], anchors, active)
        case Err(e) => Err(e)
        case Ok(value) => Ok([(key, value)])
  }

  /** The entries that a merge key brings in. */
  function Merge(n: Node, anchors: map<string, Node>, active: set<string>): Result<seq<(Value, Value)>>
    requires WellFormed(n) && GoodAnchors(anchors)
    decreases Free(anchors, active), n, 2
  {
    if n.Sequence? then MergeAll(n.children, anchors, active) else MergeOne(n, anchors, active)
  }

  function MergeOne(n: Node, anchors: map<string, Node>, active: set<string>): Result<seq<(Value, Value)>>
    requires WellFormed(n) && GoodAnchors(anchors)
    decreases Free(anchors, active), n, 1
  {
    if (IsAlias(n) && (n.event.name in anchors ==> anchors[n.event.name].Mapping?)) || n.Mapping? then
      match Decode(n, anchors, active)
      case Err(e) => Err(e)
      case Ok(v) => if v.Dict? then Ok(v.entries) else Err(WantMap)
    else Err(WantMap)
  }

  /** From the last node to the first, so that earlier ones take precedence. */
  function MergeAll(ns: seq<Node>, anchors: map<string, Node>, active: set<string>): Result<seq<(Value, Value)>>
    requires (forall n | n in ns :: WellFormed(n)) && GoodAnchors(anchors)
    decreases Free(anchors, active), ns, 2
  {
    if ns == [] then Ok([])
    else match MergeOne(ns[|ns| - 1], anchors, active)
      case Err(e) => Err(e)
      case Ok(es) =>
        match MergeAll(ns[..|ns| - 1], anchors, active)
        case Err(e) => Err(e)
        case Ok(fs) => Ok(es + fs)
  }

  // ---- The expanded tree ----

  /** A document with every alias followed to the end; where an alias was is marked.
      One that cannot be followed is lost: its anchor is unknown, or is being expanded
      already. */
  datatype Tree =
    | Text(tag: string, text: string, implicit: bool)
    | Branch(children: seq<Tree>)
    | Table(children: seq<Tree>)
    | Via(target: Tree)
    | Lost(error: Error, mapping: bool)

  function Expand(n: Node, anchors: map<string, Node>, active: set<string>): Tree
    requires WellFormed(n) && GoodAnchors(anchors)
    decreases Free(anchors, active), n, 0
  {
    match n
    case Leaf(e) =>
      if e.Alias? then
        if e.name !in anchors then Lost(UnknownAnchor, true)
        else if e.name in active then Lost(ContainsItself, anchors[e.name].Mapping?)
        else
          FewerFree(anchors, active, e.name);
          Via(Expand(anchors[e.name], anchors, active + {e.name}))
      else Text(e.tag, e.value, e.implicit)
    case Sequence(_, cs) => Branch(ExpandAll(cs, anchors, active))
    case Mapping(_, cs) => Table(ExpandAll(cs, anchors, active))
  }

  function ExpandAll(ns: seq<Node>, anchors: map<string, Node>, active: set<string>): (ts: seq<Tree>)
    requires (forall n | n in ns :: WellFormed(n)) && GoodAnchors(anchors)
    ensures |ts| == |ns| && forall i | 0 <= i < |ns| :: ts[i] == Expand(ns[i], anchors, active)
    decreases Free(anchors, active), ns, 1
  {
    if ns == [] then [] else [Expand(ns[0], anchors, active)] + ExpandAll(ns[1..], anchors, active)
  }

  // ---- What a tree means ----

  predicate MergeKey(t: Tree) {
    t.Text? && t.text == "<<" && (t.implicit || t.tag == "tag:yaml.org,2002:merge")
  }

  function Meaning(t: Tree): Result<Value>
    decreases t, 0
  {
    match t
    case Text(tag, text, implicit) => Ok(Atom(tag, text, implicit))
    case Via(u) => Meaning(u)
    case Lost(e, _) => Err(e)
    case Branch(ts) =>
      (match MeaningAll(ts)
       case Err(e) => Err(e)
       case Ok(vs) => Ok(List(vs)))
    case Table(ts) =>
      match MeaningPairs(ts)
      case Err(e) => Err(e)
      case Ok(es) => Ok(Dict(es))
  }

  function MeaningAll(ts: seq<Tree>): Result<seq<Value>>
    decreases ts, 1
  {
    if ts == [] then Ok([])
    else match Meaning(ts[0])
      case Err(e) => Err(e)
      case Ok(v) =>
        match MeaningAll(ts[1..])
        case Err(e) => Err(e)
        case Ok(vs) => Ok([v] + vs)
  }

  function MeaningPairs(ts: seq<Tree>): Result<seq<(Value, Value)>>
    decreases ts, 3
  {
    if |ts| < 2 then Ok([])
    else match if MergeKey(ts[0]) then Merged(ts[1]) else MeaningPair(ts)
      case Err(e) => Err(e)
      case Ok(es) =>
        match MeaningPairs(ts[2..])
        case Err(e) => Err(e)
        case Ok(fs) => Ok(es + fs)
  }

  function MeaningPair(ts: seq<Tree>): Result<seq<(Value, Value)>>
    requires |ts| >= 2
    decreases ts, 2
  {
    match Meaning(ts[0])
    case Err(e) => Err(e)
    case Ok(key) =>
      if !Hashable(key) then Err(InvalidMapKey)
      else match Meaning(ts[1])
        case Err(e) => Err(e)
        case Ok(value) => Ok([(key, value)])
  }

  function Merged(t: Tree): Result<seq<(Value, Value)>>
    decreases t, 2
  {
    if t.Branch? then MergedAll(t.children) else MergedOne(t)
  }

  function MergedOne(t: Tree): Result<seq<(Value, Value)>>
    decreases t, 1
  {
    if t.Table? || (t.Via? && t.target.Table?) || (t.Lost? && t.mapping) then
      match Meaning(t)
      case Err(e) => Err(e)
      case Ok(v) => if v.Dict? then Ok(v.entries) else Err(WantMap)
    else Err(WantMap)
  }

  function MergedAll(ts: seq<Tree>): Result<seq<(Value, Value)>>
    decreases ts, 2
  {
    if ts == [] then Ok([])
    else match MergedOne(ts[|ts| - 1])
      case Err(e) => Err(e)
      case Ok(es) =>
        match MergedAll(ts[..|ts| - 1])
        case Err(e) => Err(e)
        case Ok(fs) => Ok(es + fs)
  }

  // ---- Decoding is what the expanded tree means ----

  lemma {:induction false} DecodeIsMeaning(n: Node, anchors: map<string, Node>, active: set<string>)
    requires WellFormed(n) && GoodAnchors(anchors)
    ensures Decode(n, anchors, active) == Meaning(Expand(n, anchors, active))
    decreases Free(anchors, active), n, 0
  {
    hide Free;
    match n
    case Leaf(e) =>
      if e.Alias? && e.name in anchors && e.name !in active {
        FewerFree(anchors, active, e.name);
        DecodeIsMeaning(anchors[e.name], anchors, active + {e.name});
      }
    case Sequence(_, cs) => AllAreMeanings(cs, anchors, active);
    case Mapping(_, cs) => PairsAreMeanings(cs, anchors, active);
  }

  lemma {:induction false} AllAreMeanings(ns: seq<Node>, anchors: map<string, Node>, active: set<string>)
    requires (forall n | n in ns :: WellFormed(n)) && GoodAnchors(anchors)
    ensures DecodeAll(ns, anchors, active) == MeaningAll(ExpandAll(ns, anchors, active))
    decreases Free(anchors, active), ns, 1
  {
    hide Free, Decode, Expand, Meaning;
    if ns != [] {
      DecodeIsMeaning(ns[0], anchors, active);
      AllAreMeanings(ns[1..], anchors, active);
      assert ExpandAll(ns, anchors, active)[1..] == ExpandAll(ns[1..], anchors, active);
    }
  }

  lemma {:induction false} PairsAreMeanings(ns: seq<Node>, anchors: map<string, Node>, active: set<string>)
    requires (forall n | n in ns :: WellFormed(n)) && |ns| % 2 == 0 && GoodAnchors(anchors)
    ensures DecodePairs(ns, anchors, active) == MeaningPairs(ExpandAll(ns, anchors, active))
    decreases Free(anchors, active), ns, 3
  {
    hide Free, Decode, Expand, Meaning, Merge, Merged, WellFormed;
    if ns != [] {
      DecodeIsMeaning(ns[0], anchors, active);
      DecodeIsMeaning(ns[1], anchors, active);
      if IsMerge(ns[0]) { MergeIsMeaning(ns[1], anchors, active); }
      PairsAreMeanings(ns[2..], anchors, active);
      SameMergeKey(ns[0], anchors, active);
      assert ExpandAll(ns, anchors, active)[2..] == ExpandAll(ns[2..], anchors, active);
    }
  }

  lemma {:induction false} SameMergeKey(n: Node, anchors: map<string, Node>, active: set<string>)
    requires WellFormed(n) && GoodAnchors(anchors)
    ensures IsMerge(n) == MergeKey(Expand(n, anchors, active))
  {
  }

  lemma {:induction false} MergeIsMeaning(n: Node, anchors: map<string, Node>, active: set<string>)
    requires WellFormed(n) && GoodAnchors(anchors)
    ensures Merge(n, anchors, active) == Merged(Expand(n, anchors, active))
    decreases Free(anchors, active), n, 2
  {
    hide Free, Decode, Meaning;
    if n.Sequence? {
      MergesAreMeanings(n.children, anchors, active);
    } else {
      MergeOneIsMeaning(n, anchors, active);
    }
  }

  lemma {:induction false} MergeOneIsMeaning(n: Node, anchors: map<string, Node>, active: set<string>)
    requires WellFormed(n) && GoodAnchors(anchors)
    ensures MergeOne(n, anchors, active) == MergedOne(Expand(n, anchors, active))
    decreases Free(anchors, active), n, 1
  {
    hide Free, Decode, Meaning;
    DecodeIsMeaning(n, anchors, active);
    if IsAlias(n) && n.event.name in anchors && n.event.name !in active {
      FewerFree(anchors, active, n.event.name);
      KindKept(anchors[n.event.name], anchors, active + {n.event.name});
    }
  }

  lemma {:induction false} KindKept(n: Node, anchors: map<string, Node>, active: set<string>)
    requires WellFormed(n) && !IsAlias(n) && GoodAnchors(anchors)
    ensures var t := Expand(n, anchors, active); t.Table? == n.Mapping? && !t.Via? && !t.Lost?
  {
  }

  lemma {:induction false} MergesAreMeanings(ns: seq<Node>, anchors: map<string, Node>, active: set<string>)
    requires (forall n | n in ns :: WellFormed(n)) && GoodAnchors(anchors)
    ensures MergeAll(ns, anchors, active) == MergedAll(ExpandAll(ns, anchors, active))
    decreases Free(anchors, active), ns, 2
  {
    hide Free, Decode, Meaning, Expand, MergeOne, MergedOne, WellFormed;
    if ns != [] {
      var k := |ns| - 1;
      MergeOneIsMeaning(ns[k], anchors, active);
      MergesAreMeanings(ns[..k], anchors, active);
      assert ExpandAll(ns, anchors, active)[..k] == ExpandAll(ns[..k], anchors, active);
    }
  }

  // ---- The decoder as it runs ----

  class Decoder {
    const anchors: map<string, Node>
    var aliases: set<string>

    constructor (root: Node)
      requires WellFormed(root)
      ensures anchors == AnchorsOf(root, map[]) && GoodAnchors(anchors) && aliases == {}
    {
      anchors, aliases := AnchorsOf(root, map[]), {};
      AnchorsAreGood(root, map[]);
    }

    /** Decodes a node, and leaves the active aliases as they were. */
    method Unmarshal(n: Node) returns (r: Result<Value>)
      requires WellFormed(n) && GoodAnchors(anchors)
      modifies `aliases
      ensures r == Decode(n, anchors, old(aliases))
      ensures r.Ok? ==> aliases == old(aliases)
      decreases Free(anchors, aliases), n, 1
    {
      match n
      case Leaf(e) =>
        if e.Alias? { r := FollowAlias(e.name); } else { r := Ok(Atom(e.tag, e.value, e.implicit)); }
      case Sequence(_, cs) => r := DecodeSequence(cs);
      case Mapping(_, cs) =>
        var es := DecodeMapping(cs, []);
        if es.Err? { return Err(es.error); }
        NoEntries(DecodePairs(cs, anchors, aliases));
        r := Ok(Dict(es.value));
    }

    method FollowAlias(name: string) returns (r: Result<Value>)
      requires GoodAnchors(anchors)
      modifies `aliases
      ensures r == Decode(Leaf(Alias(name)), anchors, old(aliases))
      ensures r.Ok? ==> aliases == old(aliases)
      decreases Free(anchors, aliases), Leaf(Alias(name)), 0
    {
      if name !in anchors { return Err(UnknownAnchor); }
      if name in aliases { return Err(ContainsItself); }
      FewerFree(anchors, aliases, name);
      aliases := aliases + {name};
      r := Unmarshal(anchors[name]);
      aliases := aliases - {name};
    }

    method DecodeSequence(ns: seq<Node>) returns (r: Result<Value>)
      requires (forall n | n in ns :: WellFormed(n)) && GoodAnchors(anchors)
      modifies `aliases
      ensures r == match DecodeAll(ns, anchors, old(aliases))
                   case Err(e) => Err(e)
                   case Ok(vs) => Ok(List(vs))
      ensures r.Ok? ==> aliases == old(aliases)
      decreases Free(anchors, aliases), ns, 1
    {
      hide Decode, WellFormed;
      var out: seq<Value> := [];
      NoItems(DecodeAll(ns, anchors, aliases));
      assert ns[0..] == ns;
      for i := 0 to |ns|
        invariant aliases == old(aliases)
        invariant DecodeAll(ns, anchors, aliases) == PrependItems(out, DecodeAll(ns[i..], anchors, aliases))
      {
        assert ns[i..][0] == ns[i] && ns[i..][1..] == ns[i + 1..];
        var v := Unmarshal(ns[i]);
        if v.Err? { return Err(v.error); }
        ItemsTwice(out, [v.value], DecodeAll(ns[i + 1..], anchors, aliases));
        out := out + [v.value];
      }
      assert ns[|ns|..] == [] && out + [] == out;
      r := Ok(List(out));
    }

    /** Decodes the pairs of a mapping into one that has some entries already. */
    method DecodeMapping(ns: seq<Node>, start: seq<(Value, Value)>) returns (r: Result<seq<(Value, Value)>>)
      requires (forall n | n in ns :: WellFormed(n)) && |ns| % 2 == 0 && GoodAnchors(anchors)
      modifies `aliases
      ensures r == PrependEntries(start, DecodePairs(ns, anchors, old(aliases)))
      ensures r.Ok? ==> aliases == old(aliases)
      decreases Free(anchors, aliases), ns, 3
    {
      hide Decode, Merge, WellFormed, PrependEntries;
      var out, i := start, 0;
      assert ns[0..] == ns;
      while i < |ns|
        invariant 0 <= i <= |ns| && i % 2 == 0 && aliases == old(aliases)
        invariant PrependEntries(start, DecodePairs(ns, anchors, aliases)) ==
                  PrependEntries(out, DecodePairs(ns[i..], anchors, aliases))
      {
        var es;
        PairsAt(ns, i, out, anchors, aliases);
        if IsMerge(ns[i]) {
          es := MergeNode(ns[i + 1]);
        } else {
          es := DecodeKeyValue(ns[i], ns[i + 1], ns[i..]);
        }
        if es.Err? { return Err(es.error); }
        out := out + es.value;
        i := i + 2;
      }
      assert ns[i..] == [];
      NoPairs(out, anchors, aliases);
      r := Ok(out);
    }

    method DecodeKeyValue(k: Node, v: Node, ghost ns: seq<Node>) returns (r: Result<seq<(Value, Value)>>)
      requires |ns| >= 2 && k == ns[0] && v == ns[1] && (forall n | n in ns :: WellFormed(n)) && GoodAnchors(anchors)
      modifies `aliases
      ensures r == DecodePair(ns, anchors, old(aliases))
      ensures r.Ok? ==> aliases == old(aliases)
      decreases Free(anchors, aliases), ns, 2
    {
      var key := Unmarshal(k);
      if key.Err? { return Err(key.error); }
      if !Hashable(key.value) { return Err(InvalidMapKey); }
      var value := Unmarshal(v);
      if value.Err? { return Err(value.error); }
      r := Ok([(key.value, value.value)]);
    }

    method MergeNode(n: Node) returns (r: Result<seq<(Value, Value)>>)
      requires WellFormed(n) && GoodAnchors(anchors)
      modifies `aliases
      ensures r == Merge(n, anchors, old(aliases))
      ensures r.Ok? ==> aliases == old(aliases)
      decreases Free(anchors, aliases), n, 3
    {
      if !n.Sequence? {
        r := MergeMapping(n);
        return;
      }
      var ns := n.children;
      var i, out: seq<(Value, Value)> := |ns|, [];
      NoEntries(MergeAll(ns, anchors, aliases));
      assert ns[..i] == ns;
      while i > 0
        invariant 0 <= i <= |ns| && aliases == old(aliases)
        invariant MergeAll(ns, anchors, aliases) == PrependEntries(out, MergeAll(ns[..i], anchors, aliases))
      {
        i := i - 1;
        assert ns[..i + 1][..i] == ns[..i];
        var es := MergeMapping(ns[i]);
        if es.Err? { return Err(es.error); }
        EntriesTwice(out, es.value, MergeAll(ns[..i], anchors, aliases));
        out := out + es.value;
      }
      assert out + [] == out;
      r := Ok(out);
    }

    method MergeMapping(n: Node) returns (r: Result<seq<(Value, Value)>>)
      requires WellFormed(n) && GoodAnchors(anchors)
      modifies `aliases
      ensures r == MergeOne(n, anchors, old(aliases))
      ensures r.Ok? ==> aliases == old(aliases)
      decreases Free(anchors, aliases), n, 2
    {
      hide Decode;
      if IsAlias(n) {
        if n.event.name in anchors && !anchors[n.event.name].Mapping? { return Err(WantMap); }
      } else if !n.Mapping? {
        return Err(WantMap);
      }
      var v := Unmarshal(n);
      if v.Err? { return Err(v.error); }
      r := if v.value.Dict? then Ok(v.value.entries) else Err(WantMap);
    }
  }

  function PrependItems(a: seq<Value>, r: Result<seq<Value>>): Result<seq<Value>> {
    match r
    case Err(e) => Err(e)
    case Ok(vs) => Ok(a + vs)
  }

  lemma NoItems(r: Result<seq<Value>>)
    ensures PrependItems([], r) == r
  {
    if r.Ok? { assert [] + r.value == r.value; }
  }

  lemma ItemsTwice(a: seq<Value>, b: seq<Value>, r: Result<seq<Value>>)
    ensures PrependItems(a, PrependItems(b, r)) == PrependItems(a + b, r)
  {
    if r.Ok? { assert a + (b + r.value) == a + b + r.value; }
  }

  function PrependEntries(a: seq<(Value, Value)>, r: Result<seq<(Value, Value)>>): Result<seq<(Value, Value)>> {
    match r
    case Err(e) => Err(e)
    case Ok(es) => Ok(a + es)
  }

  lemma NoEntries(r: Result<seq<(Value, Value)>>)
    ensures PrependEntries([], r) == r
  {
    if r.Ok? { assert [] + r.value == r.value; }
  }

  lemma EntriesTwice(a: seq<(Value, Value)>, b: seq<(Value, Value)>, r: Result<seq<(Value, Value)>>)
    ensures PrependEntries(a, PrependEntries(b, r)) == PrependEntries(a + b, r)
  {
    if r.Ok? { assert a + (b + r.value) == a + b + r.value; }
  }

  lemma {:induction false} NoPairs(a: seq<(Value, Value)>, anchors: map<string, Node>, active: set<string>)
    requires GoodAnchors(anchors)
    ensures PrependEntries(a, DecodePairs([], anchors, active)) == Ok(a)
  {
    assert a + [] == a;
  }

  /** What decoding pairs does at one of them. */
  lemma {:induction false} PairsAt(ns: seq<Node>, i: nat, a: seq<(Value, Value)>, anchors: map<string, Node>,
                                   active: set<string>)
    requires (forall n | n in ns :: WellFormed(n)) && |ns| % 2 == 0 && GoodAnchors(anchors) && i < |ns| && i % 2 == 0
    ensures i + 1 < |ns|
    ensures var r := if IsMerge(ns[i]) then Merge(ns[i + 1], anchors, active) else DecodePair(ns[i..], anchors, active);
            PrependEntries(a, DecodePairs(ns[i..], anchors, active)) ==
            if r.Err? then Err(r.error) else PrependEntries(a + r.value, DecodePairs(ns[i + 2..], anchors, active))
  {
    hide Merge, DecodePair, WellFormed;
    var us := ns[i..];
    assert us[0] == ns[i] && us[1] == ns[i + 1] && us[2..] == ns[i + 2..];
    var r := if IsMerge(ns[i]) then Merge(ns[i + 1], anchors, active) else DecodePair(us, anchors, active);
    if r.Ok? { EntriesTwice(a, r.value, DecodePairs(us[2..], anchors, active)); }
  }
}
