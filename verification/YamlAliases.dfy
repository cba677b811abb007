/** Which documents decode as far as their aliases go, and what the aliases mean. */
module YamlAliases {
  import opened YamlGrammar
  import opened YamlDecoder

  // ---- Which names a document refers to ----

  /** The names of the aliases that occur in a node. */
  function Names(n: Node): set<string>
    decreases n, 0
  {
    match n
    case Leaf(e) => if e.Alias? then {e.name} else {}
    case Sequence(_, cs) => NamesOfAll(cs)
    case Mapping(_, cs) => NamesOfAll(cs)
  }

  function NamesOfAll(ns: seq<Node>): set<string>
    decreases ns, 1
  {
    if ns == [] then {} else Names(ns[0]) + NamesOfAll(ns[1..])
  }

  /** Names that refer to one another: the first occurs in the node, every other one in
      what the one before it stands for. */
  ghost predicate Path(n: Node, anchors: map<string, Node>, p: seq<string>)
    decreases |p|
  {
    p != [] && p[0] in Names(n) && (|p| > 1 ==> p[0] in anchors && Path(anchors[p[0]], anchors, p[1..]))
  }

  ghost predicate Reaches(n: Node, anchors: map<string, Node>, name: string) {
    exists p :: Path(n, anchors, p) && p[|p| - 1] == name
  }

  ghost predicate LeadsToItself(anchors: map<string, Node>, name: string) {
    name in anchors && Reaches(anchors[name], anchors, name)
  }

  /** Every name that the node leads to is known, and none leads to itself. */
  ghost predicate Resolved(n: Node, anchors: map<string, Node>) {
    forall a | Reaches(n, anchors, a) :: a in anchors && !LeadsToItself(anchors, a)
  }

  lemma {:induction false} PathJoin(n: Node, anchors: map<string, Node>, p: seq<string>, q: seq<string>)
    requires Path(n, anchors, p) && p[|p| - 1] in anchors && Path(anchors[p[|p| - 1]], anchors, q)
    ensures Path(n, anchors, p + q)
    decreases |p|
  {
    if |p| == 1 {
      assert (p + q)[1..] == q;
    } else {
      assert (p + q)[1..] == p[1..] + q;
      PathJoin(anchors[p[0]], anchors, p[1..], q);
    }
  }

  lemma {:induction false} PathSuffix(n: Node, anchors: map<string, Node>, p: seq<string>, j: nat)
    requires Path(n, anchors, p) && j < |p| - 1
    ensures p[j] in anchors && Path(anchors[p[j]], anchors, p[j + 1..])
    decreases j
  {
    if j > 0 {
      assert p[1..][j..] == p[j + 1..];
      PathSuffix(anchors[p[0]], anchors, p[1..], j - 1);
    }
  }

  // ---- What is lost in the expanded tree ----

  /** Why aliases in the tree cannot be followed. */
  function Causes(t: Tree): set<Error>
    decreases t, 0
  {
    match t
    case Text(_, _, _) => {}
    case Branch(ts) => CausesOfAll(ts)
    case Table(ts) => CausesOfAll(ts)
    case Via(u) => Causes(u)
    case Lost(e, _) => {e}
  }

  function CausesOfAll(ts: seq<Tree>): set<Error>
    decreases ts, 1
  {
    if ts == [] then {} else Causes(ts[0]) + CausesOfAll(ts[1..])
  }

  /** At the end of the path an alias cannot be followed. */
  ghost predicate Blocked(p: seq<string>, anchors: map<string, Node>, active: set<string>, e: Error)
    requires p != []
  {
    var k := |p| - 1;
    if e.UnknownAnchor? then p[k] !in anchors
    else e.ContainsItself? && p[k] in anchors && (p[k] in active || exists j :: 0 <= j < k && p[j] == p[k])
  }

  /** The way to what is lost. */
  lemma {:induction false} LostFound(n: Node, anchors: map<string, Node>, active: set<string>, e: Error)
    returns (p: seq<string>)
    requires WellFormed(n) && GoodAnchors(anchors) && e in Causes(Expand(n, anchors, active))
    ensures Path(n, anchors, p) && Blocked(p, anchors, active, e)
    decreases Free(anchors, active), n, 0
  {
    hide Free;
    match n
    case Leaf(ev) =>
      p := [ev.name];
      if ev.name in anchors && ev.name !in active {
        FewerFree(anchors, active, ev.name);
        var q := LostFound(anchors[ev.name], anchors, active + {ev.name}, e);
        p := p + q;
        assert p[1..] == q && p[|p| - 1] == q[|q| - 1];
        BlockedBehind(ev.name, q, anchors, active, e);
      }
    case Sequence(_, cs) => p := LostAmong(cs, anchors, active, e);
    case Mapping(_, cs) => p := LostAmong(cs, anchors, active, e);
  }

  lemma BlockedBehind(name: string, q: seq<string>, anchors: map<string, Node>, active: set<string>, e: Error)
    requires q != [] && Blocked(q, anchors, active + {name}, e)
    ensures Blocked([name] + q, anchors, active, e)
  {
    var p, k := [name] + q, |q| - 1;
    assert p[k + 1] == q[k];
    if e.ContainsItself? && q[k] !in active {
      if q[k] == name {
        assert p[0] == p[k + 1];
      } else {
        var j :| 0 <= j < k && q[j] == q[k];
        assert p[j + 1] == p[k + 1];
      }
    }
  }

  lemma {:induction false} LostAmong(ns: seq<Node>, anchors: map<string, Node>, active: set<string>, e: Error)
    returns (p: seq<string>)
    requires (forall n | n in ns :: WellFormed(n)) && GoodAnchors(anchors) &&
             e in CausesOfAll(ExpandAll(ns, anchors, active))
    ensures p != [] && p[0] in NamesOfAll(ns) && (|p| > 1 ==> p[0] in anchors && Path(anchors[p[0]], anchors, p[1..]))
    ensures Blocked(p, anchors, active, e)
    decreases Free(anchors, active), ns, 1
  {
    hide Free, Expand, Causes, Blocked;
    assert ExpandAll(ns, anchors, active)[1..] == ExpandAll(ns[1..], anchors, active);
    if e in Causes(Expand(ns[0], anchors, active)) {
      p := LostFound(ns[0], anchors, active, e);
    } else {
      p := LostAmong(ns[1..], anchors, active, e);
    }
  }

  /** What cannot be followed is lost. */
  lemma {:induction false} LostBehind(n: Node, anchors: map<string, Node>, active: set<string>, p: seq<string>,
                                      e: Error)
    requires WellFormed(n) && GoodAnchors(anchors) && Path(n, anchors, p) && Blocked(p, anchors, active, e)
    ensures Causes(Expand(n, anchors, active)) != {}
    decreases |p|, n, 0
  {
    match n
    case Leaf(ev) =>
      if ev.name in anchors && ev.name !in active && |p| > 1 {
        BlockedAhead(p, anchors, active, e);
        LostBehind(anchors[ev.name], anchors, active + {ev.name}, p[1..], e);
      }
    case Sequence(_, cs) => LostInside(cs, anchors, active, p, e);
    case Mapping(_, cs) => LostInside(cs, anchors, active, p, e);
  }

  lemma BlockedAhead(p: seq<string>, anchors: map<string, Node>, active: set<string>, e: Error)
    requires |p| > 1 && Blocked(p, anchors, active, e)
    ensures Blocked(p[1..], anchors, active + {p[0]}, e)
  {
    var q, k := p[1..], |p| - 1;
    assert q[k - 1] == p[k];
    if e.ContainsItself? && p[k] !in active && p[k] != p[0] {
      var j :| 0 <= j < k && p[j] == p[k];
      assert q[j - 1] == q[k - 1];
    }
  }

  lemma {:induction false} LostInside(ns: seq<Node>, anchors: map<string, Node>, active: set<string>, p: seq<string>,
                                      e: Error)
    requires (forall n | n in ns :: WellFormed(n)) && GoodAnchors(anchors) && p != [] && Blocked(p, anchors, active, e)
    requires p[0] in NamesOfAll(ns) && (|p| > 1 ==> p[0] in anchors && Path(anchors[p[0]], anchors, p[1..]))
    ensures CausesOfAll(ExpandAll(ns, anchors, active)) != {}
    decreases |p|, ns, 1
  {
    hide Expand, Causes, Blocked;
    assert ExpandAll(ns, anchors, active)[1..] == ExpandAll(ns[1..], anchors, active);
    if p[0] in Names(ns[0]) {
      LostBehind(ns[0], anchors, active, p, e);
    } else {
      LostInside(ns[1..], anchors, active, p, e);
    }
  }

  /** Nothing is lost exactly when every name reached is known and none leads to itself. */
  lemma {:induction false} WholeWhenResolved(n: Node, anchors: map<string, Node>)
    requires WellFormed(n) && GoodAnchors(anchors)
    ensures Causes(Expand(n, anchors, {})) == {} <==> Resolved(n, anchors)
  {
    hide Causes, Expand;
    if Causes(Expand(n, anchors, {})) != {} {
      var e :| e in Causes(Expand(n, anchors, {}));
      var a := WhyLost(n, anchors, e);
    }
    if !Resolved(n, anchors) {
      var a :| Reaches(n, anchors, a) && (a !in anchors || LeadsToItself(anchors, a));
      var p :| Path(n, anchors, p) && p[|p| - 1] == a;
      if a !in anchors {
        LostBehind(n, anchors, {}, p, UnknownAnchor);
      } else {
        var q :| Path(anchors[a], anchors, q) && q[|q| - 1] == a;
        PathJoin(n, anchors, p, q);
        assert (p + q)[|p| - 1] == (p + q)[|p + q| - 1] == a;
        LostBehind(n, anchors, {}, p + q, ContainsItself);
      }
    }
  }

  /** The name that causes a loss. */
  lemma {:induction false} WhyLost(n: Node, anchors: map<string, Node>, e: Error) returns (a: string)
    requires WellFormed(n) && GoodAnchors(anchors) && e in Causes(Expand(n, anchors, {}))
    ensures Reaches(n, anchors, a)
    ensures if e.UnknownAnchor? then a !in anchors else e.ContainsItself? && LeadsToItself(anchors, a)
  {
    hide Causes, Expand;
    var p := LostFound(n, anchors, {}, e);
    a := p[|p| - 1];
    if e.ContainsItself? {
      var j :| 0 <= j < |p| - 1 && p[j] == a;
      PathSuffix(n, anchors, p, j);
      assert p[j + 1..][|p| - j - 2] == a;
    }
  }

  // ---- What goes wrong ----

  /** The shape of an expanded tree: mappings have pairs, and no alias stands for an alias. */
  predicate Proper(t: Tree)
    decreases t, 0
  {
    match t
    case Text(_, _, _) => true
    case Branch(ts) => AllProper(ts)
    case Table(ts) => |ts| % 2 == 0 && AllProper(ts)
    case Via(u) => Proper(u) && !u.Via? && !u.Lost?
    case Lost(_, _) => true
  }

  predicate AllProper(ts: seq<Tree>)
    decreases ts, 1
  {
    ts == [] || (Proper(ts[0]) && AllProper(ts[1..]))
  }

  lemma {:induction false} ExpandedIsProper(n: Node, anchors: map<string, Node>, active: set<string>)
    requires WellFormed(n) && GoodAnchors(anchors)
    ensures Proper(Expand(n, anchors, active))
    decreases Free(anchors, active), n, 0
  {
    hide Free;
    match n
    case Leaf(e) =>
      if e.Alias? && e.name in anchors && e.name !in active {
        FewerFree(anchors, active, e.name);
        ExpandedIsProper(anchors[e.name], anchors, active + {e.name});
        KindKept(anchors[e.name], anchors, active + {e.name});
      }
    case Sequence(_, cs) => AllExpandedAreProper(cs, anchors, active);
    case Mapping(_, cs) => AllExpandedAreProper(cs, anchors, active);
  }

  lemma {:induction false} AllExpandedAreProper(ns: seq<Node>, anchors: map<string, Node>, active: set<string>)
    requires (forall n | n in ns :: WellFormed(n)) && GoodAnchors(anchors)
    ensures AllProper(ExpandAll(ns, anchors, active))
    decreases Free(anchors, active), ns, 1
  {
    hide Free, Expand, Proper;
    if ns != [] {
      ExpandedIsProper(ns[0], anchors, active);
      AllExpandedAreProper(ns[1..], anchors, active);
      assert ExpandAll(ns, anchors, active)[1..] == ExpandAll(ns[1..], anchors, active);
    }
  }

  /** An error about an alias has its cause in the tree, and what is lost is an error. */
  predicate Explains<T>(causes: set<Error>, r: Result<T>) {
    && (r.Err? && (r.error.UnknownAnchor? || r.error.ContainsItself?) ==> r.error in causes)
    && (causes != {} ==> r.Err?)
  }

  lemma {:induction false} MeaningExplained(t: Tree)
    requires Proper(t)
    ensures Explains(Causes(t), Meaning(t))
    decreases t, 0
  {
    match t
    case Text(_, _, _) =>
    case Lost(_, _) =>
    case Via(u) => MeaningExplained(u);
    case Branch(ts) => AllExplained(ts);
    case Table(ts) => PairsExplained(ts);
  }

  lemma {:induction false} AllExplained(ts: seq<Tree>)
    requires AllProper(ts)
    ensures Explains(CausesOfAll(ts), MeaningAll(ts))
    decreases ts, 1
  {
    hide Meaning, Causes;
    if ts != [] {
      MeaningExplained(ts[0]);
      AllExplained(ts[1..]);
    }
  }

  lemma {:induction false} PairsExplained(ts: seq<Tree>)
    requires AllProper(ts) && |ts| % 2 == 0
    ensures Explains(CausesOfAll(ts), MeaningPairs(ts))
    decreases ts, 3
  {
    hide Meaning, Merged, Proper;
    if ts != [] {
      assert ts[1..][0] == ts[1] && ts[1..][1..] == ts[2..];
      MeaningExplained(ts[0]);
      MeaningExplained(ts[1]);
      MergeExplained(ts[1]);
      PairsExplained(ts[2..]);
      assert CausesOfAll(ts) == Causes(ts[0]) + Causes(ts[1]) + CausesOfAll(ts[2..]);
    }
  }

  lemma {:induction false} MergeExplained(t: Tree)
    requires Proper(t)
    ensures Explains(Causes(t), Merged(t))
    decreases t, 2
  {
    hide Meaning;
    if t.Branch? { MergesExplained(t.children); } else { MeaningExplained(t); }
  }

  lemma {:induction false} MergesExplained(ts: seq<Tree>)
    requires AllProper(ts)
    ensures Explains(CausesOfAll(ts), MergedAll(ts))
    decreases ts, 2
  {
    hide Meaning, Causes, Proper;
    if ts != [] {
      var k := |ts| - 1;
      LastOfAll(ts);
      MeaningExplained(ts[k]);
      MergesExplained(ts[..k]);
    }
  }

  lemma {:induction false} LastOfAll(ts: seq<Tree>)
    requires ts != []
    ensures var k := |ts| - 1;
            CausesOfAll(ts) == CausesOfAll(ts[..k]) + Causes(ts[k]) &&
              (AllProper(ts) == (AllProper(ts[..k]) && Proper(ts[k])))
    decreases |ts|
  {
    hide Causes, Proper;
    var k := |ts| - 1;
    if k == 0 {
      assert ts[..0] == [] && ts[1..] == [];
    } else {
      LastOfAll(ts[1..]);
      assert ts[1..][..k - 1] == ts[..k][1..] && ts[1..][k - 1] == ts[k] && ts[..k][0] == ts[0];
    }
  }

  /** With its names resolved a document fails on no alias; otherwise it does not decode.
      Each of the two errors tells the truth. */
  lemma {:induction false} AliasErrors(n: Node, anchors: map<string, Node>)
    requires WellFormed(n) && GoodAnchors(anchors)
    ensures var r := Decode(n, anchors, {});
            && (Resolved(n, anchors) ==> r != Err(UnknownAnchor) && r != Err(ContainsItself))
            && (!Resolved(n, anchors) ==> r.Err?)
            && (r == Err(UnknownAnchor) ==> exists a :: Reaches(n, anchors, a) && a !in anchors)
            && (r == Err(ContainsItself) ==> exists a :: Reaches(n, anchors, a) && LeadsToItself(anchors, a))
  {
    hide Decode, Meaning, Expand, Causes, Reaches, LeadsToItself, Resolved;
    var r, t := Decode(n, anchors, {}), Expand(n, anchors, {});
    DecodeIsMeaning(n, anchors, {});
    ExpandedIsProper(n, anchors, {});
    MeaningExplained(t);
    WholeWhenResolved(n, anchors);
    if r == Err(UnknownAnchor) || r == Err(ContainsItself) { var a := WhyLost(n, anchors, r.error); }
  }

  // ---- Marks of aliases ----

  /** The tree with the marks removed, as if it had been written without aliases. */
  function Erase(t: Tree): (r: Tree)
    ensures !r.Via?
    decreases t, 0
  {
    match t
    case Text(_, _, _) => t
    case Branch(ts) => Branch(EraseAll(ts))
    case Table(ts) => Table(EraseAll(ts))
    case Via(u) => Erase(u)
    case Lost(_, _) => t
  }

  function EraseAll(ts: seq<Tree>): (r: seq<Tree>)
    ensures |r| == |ts| && forall i | 0 <= i < |ts| :: r[i] == Erase(ts[i])
    decreases ts, 1
  {
    if ts == [] then [] else [Erase(ts[0])] + EraseAll(ts[1..])
  }

  /** No alias stands for a merge key, and none for the list of a merge key. */
  predicate Direct(t: Tree)
    decreases t, 0
  {
    match t
    case Text(_, _, _) => true
    case Branch(ts) => forall u | u in ts :: Direct(u)
    case Table(ts) =>
      (forall u | u in ts :: Direct(u)) &&
      forall i | 0 <= i < |ts| - 1 && i % 2 == 0 ::
        (ts[i].Via? ==> !MergeKey(ts[i].target)) && (MergeKey(ts[i]) && ts[i + 1].Via? ==> !ts[i + 1].target.Branch?)
    case Via(u) => Direct(u) && !u.Via? && !u.Lost?
    case Lost(_, _) => true
  }

  /** Such a document means what it means with the aliases written out. */
  lemma {:induction false} ErasedMeaning(t: Tree)
    requires Direct(t)
    ensures Meaning(Erase(t)) == Meaning(t)
    decreases t, 0
  {
    match t
    case Text(_, _, _) =>
    case Lost(_, _) =>
    case Via(u) => ErasedMeaning(u);
    case Branch(ts) => ErasedAll(ts);
    case Table(ts) => ErasedPairs(ts);
  }

  lemma {:induction false} ErasedAll(ts: seq<Tree>)
    requires forall u | u in ts :: Direct(u)
    ensures MeaningAll(EraseAll(ts)) == MeaningAll(ts)
    decreases ts, 1
  {
    hide Meaning, Erase, Direct;
    if ts != [] {
      ErasedMeaning(ts[0]);
      ErasedAll(ts[1..]);
      assert EraseAll(ts)[1..] == EraseAll(ts[1..]);
    }
  }

  ghost predicate DirectPairs(ts: seq<Tree>) {
    (forall u | u in ts :: Direct(u)) &&
    forall i | 0 <= i < |ts| - 1 && i % 2 == 0 ::
      (ts[i].Via? ==> !MergeKey(ts[i].target)) && (MergeKey(ts[i]) && ts[i + 1].Via? ==> !ts[i + 1].target.Branch?)
  }

  lemma {:induction false} ErasedPairs(ts: seq<Tree>)
    requires DirectPairs(ts)
    ensures MeaningPairs(EraseAll(ts)) == MeaningPairs(ts)
    decreases ts, 3
  {
    hide Meaning, Erase, EraseAll, Direct, DirectPairs, Merged, MergeKey;
    if |ts| >= 2 {
      DirectFront(ts);
      assert EraseAll(ts)[2..] == EraseAll(ts[2..]);
      ErasedMeaning(ts[0]);
      ErasedMeaning(ts[1]);
      ErasedPairs(ts[2..]);
      ErasedKey(ts[0]);
      if MergeKey(ts[0]) { ErasedMerge(ts[1]); }
    }
  }

  lemma DirectFront(ts: seq<Tree>)
    requires DirectPairs(ts) && |ts| >= 2
    ensures Direct(ts[0]) && Direct(ts[1]) && DirectPairs(ts[2..])
    ensures (ts[0].Via? ==> !MergeKey(ts[0].target)) && (MergeKey(ts[0]) && ts[1].Via? ==> !ts[1].target.Branch?)
  {
    hide Direct, MergeKey;
    var us := ts[2..];
    assert forall i | 0 <= i < |us| :: us[i] == ts[i + 2];
    forall i | 0 <= i < |us| - 1 && i % 2 == 0
      ensures (us[i].Via? ==> !MergeKey(us[i].target)) &&
              (MergeKey(us[i]) && us[i + 1].Via? ==> !us[i + 1].target.Branch?)
    {
      assert (i + 2) % 2 == 0 && us[i] == ts[i + 2] && us[i + 1] == ts[i + 2 + 1];
    }
  }

  lemma {:induction false} ErasedKey(t: Tree)
    requires Direct(t) && (t.Via? ==> !MergeKey(t.target))
    ensures MergeKey(Erase(t)) == MergeKey(t)
  {
  }

  lemma {:induction false} ErasedMerge(t: Tree)
    requires Direct(t) && (t.Via? ==> !t.target.Branch?)
    ensures Merged(Erase(t)) == Merged(t)
    decreases t, 2
  {
    hide Meaning;
    ErasedMeaning(t);
    if t.Branch? { ErasedMerges(t.children); }
  }

  lemma {:induction false} ErasedMerges(ts: seq<Tree>)
    requires forall u | u in ts :: Direct(u)
    ensures MergedAll(EraseAll(ts)) == MergedAll(ts)
    decreases ts, 2
  {
    hide Meaning, Erase, Direct, MergedOne;
    if ts != [] {
      var k := |ts| - 1;
      assert EraseAll(ts)[..k] == EraseAll(ts[..k]);
      ErasedOne(ts[k]);
      ErasedMerges(ts[..k]);
    }
  }

  lemma {:induction false} ErasedOne(t: Tree)
    requires Direct(t)
    ensures MergedOne(Erase(t)) == MergedOne(t)
    decreases t, 1
  {
    hide Meaning;
    ErasedMeaning(t);
  }

  // ---- Which aliases change the meaning ----

  function Size(v: Value): nat
    decreases v, 0
  {
    match v
    case Atom(_, _, _) => 1
    case List(vs) => 1 + SizeOfAll(vs)
    case Dict(es) => 1 + SizeOfEntries(es)
  }

  function SizeOfAll(vs: seq<Value>): nat
    decreases vs, 1
  {
    if vs == [] then 0 else Size(vs[0]) + SizeOfAll(vs[1..])
  }

  function SizeOfEntries(es: seq<(Value, Value)>): nat
    decreases es, 1
  {
    if es == [] then 0 else SizeOfEntry(es[0]) + SizeOfEntries(es[1..])
  }

  function SizeOfEntry(e: (Value, Value)): nat
    decreases e, 0
  {
    Size(e.0) + Size(e.1)
  }

  lemma {:induction false} EntriesJoin(es: seq<(Value, Value)>, fs: seq<(Value, Value)>)
    ensures SizeOfEntries(es + fs) == SizeOfEntries(es) + SizeOfEntries(fs)
  {
    hide Size;
    if es == [] {
      assert es + fs == fs;
    } else {
      EntriesJoin(es[1..], fs);
      assert (es + fs)[1..] == es[1..] + fs;
    }
  }

  lemma {:induction false} MeaningSnoc(ts: seq<Tree>, k: nat)
    requires k == |ts| - 1 && MeaningAll(ts[..k]).Ok? && Meaning(ts[k]).Ok?
    ensures MeaningAll(ts).Ok? &&
            SizeOfAll(MeaningAll(ts).value) == SizeOfAll(MeaningAll(ts[..k]).value) + Size(Meaning(ts[k]).value)
    decreases k
  {
    hide Meaning, Size;
    if k == 0 {
      assert ts[1..] == [] && [Meaning(ts[0]).value][1..] == [];
    } else {
      assert ts[1..][..k - 1] == ts[..k][1..] && ts[..k][0] == ts[0];
      MeaningSnoc(ts[1..], k - 1);
      var v, vs, us := Meaning(ts[0]).value, MeaningAll(ts[1..]).value, MeaningAll(ts[..k][1..]).value;
      assert ([v] + vs)[1..] == vs && ([v] + us)[1..] == us;
    }
  }

  /** What is merged is less than what it is merged from. */
  lemma {:induction false} MergedIsLess(t: Tree)
    requires !t.Via? && Merged(t).Ok?
    ensures Meaning(t).Ok? && SizeOfEntries(Merged(t).value) < Size(Meaning(t).value)
  {
    if t.Branch? { AllMergedIsLess(t.children); }
  }

  lemma {:induction false} AllMergedIsLess(ts: seq<Tree>)
    requires MergedAll(ts).Ok?
    ensures MeaningAll(ts).Ok? && SizeOfEntries(MergedAll(ts).value) <= SizeOfAll(MeaningAll(ts).value)
  {
    if ts != [] {
      var k := |ts| - 1;
      AllMergedIsLess(ts[..k]);
      MeaningSnoc(ts, k);
      EntriesJoin(MergedOne(ts[k]).value, MergedAll(ts[..k]).value);
    }
  }

  /** The first may only be less than the second, and is unless nothing is lost by it. */
  predicate Shrinks(after: nat, before: nat, same: bool) {
    after <= before && (after == before ==> same)
  }

  /** Written out, a document that decodes gets smaller unless it is direct. */
  lemma {:induction false} MeaningShrinks(t: Tree)
    requires Proper(t) && Meaning(t).Ok? && Meaning(Erase(t)).Ok?
    ensures Shrinks(Size(Meaning(Erase(t)).value), Size(Meaning(t).value), Direct(t))
    decreases t, 0
  {
    match t
    case Text(_, _, _) =>
    case Via(u) => MeaningShrinks(u);
    case Branch(ts) => AllShrink(ts);
    case Table(ts) => PairsShrink(ts);
  }

  lemma {:induction false} AllShrink(ts: seq<Tree>)
    requires AllProper(ts) && MeaningAll(ts).Ok? && MeaningAll(EraseAll(ts)).Ok?
    ensures Shrinks(SizeOfAll(MeaningAll(EraseAll(ts)).value), SizeOfAll(MeaningAll(ts).value), forall u | u in ts ::
              Direct(u))
    decreases ts, 1
  {
    hide Meaning, Erase, Direct, Size, Proper;
    if ts != [] {
      assert EraseAll(ts)[1..] == EraseAll(ts[1..]);
      MeaningShrinks(ts[0]);
      AllShrink(ts[1..]);
      var v, vs, w, ws :=
        Meaning(ts[0]).value, MeaningAll(ts[1..]).value, Meaning(Erase(ts[0])).value,
        MeaningAll(EraseAll(ts[1..])).value;
      assert ([v] + vs)[1..] == vs && ([w] + ws)[1..] == ws;
      assert ts == [ts[0]] + ts[1..];
    }
  }

  lemma {:induction false} PairsShrink(ts: seq<Tree>)
    requires AllProper(ts) && |ts| % 2 == 0 && MeaningPairs(ts).Ok? && MeaningPairs(EraseAll(ts)).Ok?
    ensures Shrinks(SizeOfEntries(MeaningPairs(EraseAll(ts)).value), SizeOfEntries(MeaningPairs(ts).value),
              DirectPairs(ts))
    decreases ts, 3
  {
    hide Meaning, Erase, EraseAll, Direct, DirectPairs, Merged, MergeKey, Size, Proper, Front, MeaningPairs;
    hide SizeOfEntries;
    if ts == [] {
      NoPairsDirect();
    } else {
      assert EraseAll(ts)[2..] == EraseAll(ts[2..]);
      assert ts[1..][0] == ts[1] && ts[1..][1..] == ts[2..];
      PairsSplit(ts);
      PairsSplit(EraseAll(ts));
      PairShrinks(ts);
      PairsShrink(ts[2..]);
      DirectCons(ts);
    }
  }

  lemma NoPairsDirect()
    ensures DirectPairs([]) && MeaningPairs([]) == Ok([]) && EraseAll([]) == []
  {
  }

  /** The entries of the pair at the front. */
  function Front(ts: seq<Tree>): Result<seq<(Value, Value)>>
    requires |ts| >= 2
  {
    if MergeKey(ts[0]) then Merged(ts[1]) else MeaningPair(ts)
  }

  lemma {:induction false} PairsSplit(ts: seq<Tree>)
    requires |ts| >= 2 && MeaningPairs(ts).Ok?
    ensures Front(ts).Ok? && MeaningPairs(ts[2..]).Ok?
    ensures SizeOfEntries(MeaningPairs(ts).value) ==
            SizeOfEntries(Front(ts).value) + SizeOfEntries(MeaningPairs(ts[2..]).value)
  {
    hide Meaning, Merged, MergeKey, MeaningPair, SizeOfEntries;
    EntriesJoin(Front(ts).value, MeaningPairs(ts[2..]).value);
  }

  predicate DirectPair(k: Tree, v: Tree) {
    && Direct(k) && Direct(v)
    && (k.Via? ==> !MergeKey(k.target)) && (MergeKey(k) && v.Via? ==> !v.target.Branch?)
  }

  lemma DirectCons(ts: seq<Tree>)
    requires |ts| >= 2
    ensures DirectPair(ts[0], ts[1]) && DirectPairs(ts[2..]) ==> DirectPairs(ts)
  {
    hide Direct, MergeKey;
    if !(DirectPair(ts[0], ts[1]) && DirectPairs(ts[2..])) { return; }
    var us := ts[2..];
    assert ts == [ts[0], ts[1]] + us;
    forall i | 0 <= i < |ts| - 1 && i % 2 == 0
      ensures (ts[i].Via? ==> !MergeKey(ts[i].target)) &&
              (MergeKey(ts[i]) && ts[i + 1].Via? ==> !ts[i + 1].target.Branch?)
    {
      if i > 0 { assert (i - 2) % 2 == 0 && ts[i] == us[i - 2] && ts[i + 1] == us[i - 2 + 1]; }
    }
  }

  lemma {:induction false} PairShrinks(ts: seq<Tree>)
    requires |ts| >= 2 && Proper(ts[0]) && Proper(ts[1]) && Front(ts).Ok? && Front(EraseAll(ts)).Ok?
    ensures Shrinks(SizeOfEntries(Front(EraseAll(ts)).value), SizeOfEntries(Front(ts).value), DirectPair(ts[0], ts[1]))
    decreases ts, 2
  {
    hide Erase, EraseAll, Direct, Meaning, Merged, MergeKey, Proper, Size;
    var us := EraseAll(ts);
    assert us[0] == Erase(ts[0]) && us[1] == Erase(ts[1]);
    ErasedKeyKind(ts[0]);
    if MergeKey(ts[0]) {
      MergeShrinks(ts[1]);
    } else {
      OneEntry(ts);
      if MergeKey(us[0]) {
        MergedIsLess(us[1]);
      } else {
        OneEntry(us);
        MeaningShrinks(ts[0]);
      }
      MeaningShrinks(ts[1]);
    }
  }

  lemma {:induction false} ErasedKeyKind(k: Tree)
    requires Proper(k)
    ensures MergeKey(Erase(k)) == (MergeKey(k) || (k.Via? && MergeKey(k.target)))
    ensures MergeKey(k) ==> Direct(k) && !k.Via?
  {
  }

  lemma {:induction false} OneEntry(ts: seq<Tree>)
    requires |ts| >= 2 && MeaningPair(ts).Ok?
    ensures Meaning(ts[0]).Ok? && Meaning(ts[1]).Ok?
    ensures SizeOfEntries(MeaningPair(ts).value) == Size(Meaning(ts[0]).value) + Size(Meaning(ts[1]).value)
  {
    hide Meaning, Size;
    var e := (Meaning(ts[0]).value, Meaning(ts[1]).value);
    assert [e][1..] == [];
  }

  lemma {:induction false} MergeShrinks(t: Tree)
    requires Proper(t) && Merged(t).Ok? && Merged(Erase(t)).Ok?
    ensures Shrinks(SizeOfEntries(Merged(Erase(t)).value), SizeOfEntries(Merged(t).value),
              Direct(t) && (t.Via? ==> !t.target.Branch?))
    decreases t, 2
  {
    hide Meaning;
    if t.Branch? { MergesShrink(t.children); } else { OneMergeShrinks(t); }
  }

  lemma {:induction false} OneMergeShrinks(t: Tree)
    requires Proper(t) && MergedOne(t).Ok? && MergedOne(Erase(t)).Ok?
    ensures Shrinks(SizeOfEntries(MergedOne(Erase(t)).value), SizeOfEntries(MergedOne(t).value), Direct(t))
    ensures t.Via? ==> !t.target.Branch?
    decreases t, 1
  {
    hide Meaning;
    MeaningShrinks(t);
  }

  lemma {:induction false} MergesShrink(ts: seq<Tree>)
    requires AllProper(ts) && MergedAll(ts).Ok? && MergedAll(EraseAll(ts)).Ok?
    ensures Shrinks(SizeOfEntries(MergedAll(EraseAll(ts)).value), SizeOfEntries(MergedAll(ts).value),
              forall u | u in ts :: Direct(u))
    decreases ts, 2
  {
    hide Meaning, Erase, EraseAll, Direct, MergedOne, MergedAll, Proper, SizeOfEntries;
    if ts == [] {
      NothingMerged();
    } else {
      var k := |ts| - 1;
      assert EraseAll(ts)[..k] == EraseAll(ts[..k]) && EraseAll(ts)[k] == Erase(ts[k]);
      LastOfAll(ts);
      MergesSplit(ts, k);
      MergesSplit(EraseAll(ts), k);
      OneMergeShrinks(ts[k]);
      MergesShrink(ts[..k]);
      assert ts == ts[..k] + [ts[k]];
    }
  }

  lemma NothingMerged()
    ensures MergedAll([]) == Ok([]) && EraseAll([]) == []
  {
  }

  lemma {:induction false} MergesSplit(ts: seq<Tree>, k: nat)
    requires k == |ts| - 1 && MergedAll(ts).Ok?
    ensures MergedOne(ts[k]).Ok? && MergedAll(ts[..k]).Ok?
    ensures SizeOfEntries(MergedAll(ts).value) ==
            SizeOfEntries(MergedOne(ts[k]).value) + SizeOfEntries(MergedAll(ts[..k]).value)
  {
    hide MergedOne, SizeOfEntries;
    EntriesJoin(MergedOne(ts[k]).value, MergedAll(ts[..k]).value);
  }

  /** A document that decodes puts the same entries into its mappings, one by one, as with
      its aliases written out, if and only if no alias in it stands for a merge key. An
      entry that a later one for the same key replaces counts here; `YamlMaps` is about
      the maps in the end. */
  lemma {:induction false} WrittenOut(n: Node, anchors: map<string, Node>)
    requires WellFormed(n) && GoodAnchors(anchors) && Decode(n, anchors, {}).Ok?
    ensures var t := Expand(n, anchors, {}); Decode(n, anchors, {}) == Meaning(Erase(t)) <==> Direct(t)
  {
    hide Decode, Expand, Meaning, Direct, Erase;
    var t := Expand(n, anchors, {});
    DecodeIsMeaning(n, anchors, {});
    ExpandedIsProper(n, anchors, {});
    if Direct(t) { ErasedMeaning(t); }
    if Meaning(Erase(t)) == Meaning(t) { MeaningShrinks(t); }
  }

  // ---- Two documents whose aliases change the meaning ----

  function Block(anchor: string, items: seq<Node>): Node {
    Sequence(SequenceStart(anchor, "", true, Style.Block), items)
  }

  function Pair(key: Node, value: Node): Node {
    Mapping(MappingStart("", "", true, Style.Block), [key, value])
  }

  function Word(anchor: string, text: string): Node {
    Leaf(Scalar(anchor, "", text, true, false, Plain))
  }

  const EMPTY_MAP := Mapping(MappingStart("", "", true, Flow), [])
  const NO_ANCHORS: map<string, Node> := map[]

  /** Decoding from the root, with the anchors of the document. */
  function Decoded(root: Node): Result<Value>
    requires WellFormed(root)
  {
    AnchorsAreGood(root, NO_ANCHORS);
    Decode(root, AnchorsOf(root, NO_ANCHORS), {})
  }

  lemma {:induction false} OnePair(k: Node, v: Node, anchors: map<string, Node>)
    requires WellFormed(k) && WellFormed(v) && GoodAnchors(anchors)
    ensures WellFormed(Pair(k, v))
    ensures Decode(Pair(k, v), anchors, {}) ==
            match if IsMerge(k) then Merge(v, anchors, {}) else DecodePair([k, v], anchors, {})
            case Err(e) => Err(e)
            case Ok(es) => Ok(Dict(es))
  {
    hide Merge, DecodePair, IsMerge;
    assert [k, v][2..] == [] && DecodePairs([], anchors, {}) == Ok([]);
    var r := if IsMerge(k) then Merge(v, anchors, {}) else DecodePair([k, v], anchors, {});
    if r.Ok? { assert r.value + [] == r.value; }
  }

  /** Decoding a list of a node and a mapping of one pair. */
  lemma {:induction false} TwoItems(a: Node, k: Node, v: Node)
    requires WellFormed(a) && WellFormed(k) && WellFormed(v)
    ensures WellFormed(Block("", [a, Pair(k, v)]))
    ensures var anchors := AnchorsOf(v, AnchorsOf(k, AnchorsOf(a, NO_ANCHORS)));
            && GoodAnchors(anchors) && WellFormed(Pair(k, v))
            && Decoded(Block("", [a, Pair(k, v)])) ==
               match Decode(a, anchors, {})
               case Err(e) => Err(e)
               case Ok(x) =>
                 match Decode(Pair(k, v), anchors, {})
                 case Err(e) => Err(e)
                 case Ok(y) => Ok(List([x, y]))
  {
    hide Decode;
    var p, anchors := Pair(k, v), AnchorsOf(v, AnchorsOf(k, AnchorsOf(a, NO_ANCHORS)));
    var root := Block("", [a, p]);
    AnchorsAreGood(root, NO_ANCHORS);
    AnchorsOfPair(a, k, v);
    Items([a, p], anchors);
    TwoDecoded(a, p, anchors);
  }

  lemma {:induction false} TwoDecoded(a: Node, b: Node, anchors: map<string, Node>)
    requires WellFormed(a) && WellFormed(b) && GoodAnchors(anchors)
    ensures DecodeAll([a, b], anchors, {}) ==
            match Decode(a, anchors, {})
            case Err(e) => Err(e)
            case Ok(x) =>
              match Decode(b, anchors, {})
              case Err(e) => Err(e)
              case Ok(y) => Ok([x, y])
  {
    hide Decode;
    var ns, r, s := [a, b], Decode(a, anchors, {}), Decode(b, anchors, {});
    assert ns[0] == a && ns[1..] == [b] && [b][0] == b && [b][1..] == [] && DecodeAll([], anchors, {}) == Ok([]);
    if s.Ok? { assert [s.value] + [] == [s.value]; }
    assert DecodeAll([b], anchors, {}) == if s.Err? then Err(s.error) else Ok([s.value]);
    if r.Ok? && s.Ok? { assert [r.value] + [s.value] == [r.value, s.value]; }
  }

  lemma {:induction false} Items(ns: seq<Node>, anchors: map<string, Node>)
    requires (forall n | n in ns :: WellFormed(n)) && GoodAnchors(anchors)
    ensures Decode(Block("", ns), anchors, {}) ==
            match DecodeAll(ns, anchors, {})
            case Err(e) => Err(e)
            case Ok(vs) => Ok(List(vs))
  {
  }

  lemma {:induction false} AnchorsOfPair(a: Node, k: Node, v: Node)
    ensures AnchorsOf(Block("", [a, Pair(k, v)]), NO_ANCHORS) == AnchorsOf(v, AnchorsOf(k, AnchorsOf(a, NO_ANCHORS)))
  {
    var p, m := Pair(k, v), AnchorsOf(a, NO_ANCHORS);
    assert [a, p][1..] == [p] && [p][1..] == [] && [k, v][1..] == [v] && [v][1..] == [];
    assert AnchorsOfAll([v], AnchorsOf(k, m)) == AnchorsOf(v, AnchorsOf(k, m));
    assert AnchorsOf(p, m) == AnchorsOfAll([k, v], m) == AnchorsOfAll([v], AnchorsOf(k, m));
    assert AnchorsOfAll([p], m) == AnchorsOf(p, m);
    assert AnchorsOf(Block("", [a, p]), NO_ANCHORS) == AnchorsOfAll([a, p], NO_ANCHORS) == AnchorsOfAll([p], m);
  }

  /** `- &m <<` and `- *m : {}`: an alias of "<<" is a key like any other, but written
      out it merges. */
  lemma AliasOfMergeKey()
    ensures var key := Atom("", "<<", true);
            && Decoded(Block("", [Word("m", "<<"), Pair(Leaf(Alias("m")), EMPTY_MAP)])) ==
                 Ok(List([key, Dict([(key, Dict([]))])]))
            && Decoded(Block("", [Word("", "<<"), Pair(Word("", "<<"), EMPTY_MAP)])) == Ok(List([key, Dict([])]))
  {
    hide Decoded, Merge, Block, Pair;
    var m := NO_ANCHORS["m" := Word("m", "<<")];
    TwoItems(Word("m", "<<"), Leaf(Alias("m")), EMPTY_MAP);
    TwoItems(Word("", "<<"), Word("", "<<"), EMPTY_MAP);
    OnePair(Leaf(Alias("m")), EMPTY_MAP, m);
    OnePair(Word("", "<<"), EMPTY_MAP, NO_ANCHORS);
    EmptyOnes(m);
    EmptyOnes(NO_ANCHORS);
    assert Decode(Leaf(Alias("m")), m, {}) == Decode(Word("m", "<<"), m, {} + {"m"});
  }

  lemma {:induction false} EmptyOnes(anchors: map<string, Node>)
    requires GoodAnchors(anchors)
    ensures Decode(EMPTY_MAP, anchors, {}) == Ok(Dict([])) && Merge(EMPTY_MAP, anchors, {}) == Ok([])
    ensures AnchorsOf(EMPTY_MAP, anchors) == anchors && AnchorsOf(Block("", []), anchors) == anchors
    ensures Decode(Block("", []), anchors, {}) == Ok(List([])) && Merge(Block("", []), anchors, {}) == Ok([])
  {
    assert DecodePairs([], anchors, {}) == Ok([]) && DecodeAll([], anchors, {}) == Ok([]);
  }

  /** `- &l []` and `- <<: *l`: a list of mappings merges, but an alias of one does not. */
  lemma AliasOfMergeList()
    ensures Decoded(Block("", [Block("l", []), Pair(Word("", "<<"), Leaf(Alias("l")))])) == Err(WantMap)
    ensures Decoded(Block("", [Block("", []), Pair(Word("", "<<"), Block("", []))])) == Ok(List([List([]), Dict([])]))
  {
    hide Decoded, Pair;
    var l := Block("l", []);
    var m := NO_ANCHORS["l" := l];
    TwoItems(l, Word("", "<<"), Leaf(Alias("l")));
    TwoItems(Block("", []), Word("", "<<"), Block("", []));
    assert AnchorsOf(l, NO_ANCHORS) == m by { assert AnchorsOfAll([], m) == m; }
    assert Decode(l, m, {}) == Ok(List([])) by { assert DecodeAll([], m, {}) == Ok([]); }
    OnePair(Word("", "<<"), Leaf(Alias("l")), m);
    OnePair(Word("", "<<"), Block("", []), NO_ANCHORS);
    EmptyOnes(NO_ANCHORS);
  }
}
