/** Which node an anchor stands for, in terms of the events of the document. */
module YamlAnchors {
  import opened YamlGrammar
  import opened YamlDecoder

  /** The anchor an event carries, if any. */
  function AnchorIn(e: Event): string {
    match e
    case Scalar(anchor, _, _, _, _, _) => anchor
    case SequenceStart(anchor, _, _, _) => anchor
    case MappingStart(anchor, _, _, _) => anchor
    case _ => ""
  }

  predicate Occurs(evs: seq<Event>, name: string) {
    exists i :: 0 <= i < |evs| && AnchorIn(evs[i]) == name
  }

  /** The last of the events that carries a name is at `i`. */
  predicate LastAt(evs: seq<Event>, name: string, i: nat) {
    i < |evs| && AnchorIn(evs[i]) == name && forall j :: i < j < |evs| ==> AnchorIn(evs[j]) != name
  }

  /** The anchors are those of the first `k` events: each stands for the node whose events
      start where it was last carried. */
  ghost predicate Anchored(evs: seq<Event>, k: nat, m: map<string, Node>)
    requires k <= |evs|
  {
    && (forall name :: name in m <==> name != "" && Occurs(evs[..k], name))
    && (forall name, i: nat :: name != "" && LastAt(evs[..k], name, i) ==>
          i < k && name in m && Linear(m[name]) <= evs[i..])
  }

  /** A name is an anchor of the document if and only if one of its nodes carries it; then
      it stands for the last of these. */
  lemma {:induction false} AnchorsAreLast(n: Node, name: string)
    requires WellFormed(n)
    ensures name in AnchorsOf(n, map[]) <==> name != "" && Occurs(Linear(n), name)
    ensures forall i: nat :: name != "" && LastAt(Linear(n), name, i) ==>
              name in AnchorsOf(n, map[]) && Linear(AnchorsOf(n, map[])[name]) <= Linear(n)[i..]
  {
    hide Linear, AnchorsOf;
    NodeAnchored(Linear(n), 0, n, map[]);
    assert Linear(n)[..|Linear(n)|] == Linear(n);
  }

  lemma {:induction false} EventAnchored(evs: seq<Event>, k: nat, m: map<string, Node>, n: Node)
    requires k < |evs| && Anchored(evs, k, m) && (AnchorIn(evs[k]) == "" || Linear(n) <= evs[k..])
    ensures Anchored(evs, k + 1, if AnchorIn(evs[k]) == "" then m else m[AnchorIn(evs[k]) := n])
  {
    hide AnchorIn, Linear;
    var a, b, m' := evs[..k], evs[..k + 1], if AnchorIn(evs[k]) == "" then m else m[AnchorIn(evs[k]) := n];
    assert forall i :: 0 <= i < k ==> b[i] == a[i];
    assert b[k] == evs[k];
    forall name ensures Occurs(b, name) <==> Occurs(a, name) || AnchorIn(evs[k]) == name {
      if i :| 0 <= i < |a| && AnchorIn(a[i]) == name { assert AnchorIn(b[i]) == name; }
      if i :| 0 <= i < |b| && AnchorIn(b[i]) == name { assert i < k ==> AnchorIn(a[i]) == name; }
    }
    forall name, i: nat | name != "" && LastAt(b, name, i)
      ensures i < k + 1 && name in m' && Linear(m'[name]) <= evs[i..]
    {
      if i < k {
        assert AnchorIn(b[k]) != name;
        assert LastAt(a, name, i);
      }
    }
  }

  lemma {:induction false} NodeAnchored(evs: seq<Event>, k: nat, n: Node, m: map<string, Node>)
    requires WellFormed(n) && k <= |evs| && Linear(n) <= evs[k..] && Anchored(evs, k, m)
    ensures k + |Linear(n)| <= |evs| && Anchored(evs, k + |Linear(n)|, AnchorsOf(n, m))
    decreases n, 0
  {
    hide Anchored;
    assert evs[k..][0] == Linear(n)[0] == evs[k];
    EventAnchored(evs, k, m, n);
    if !n.Leaf? {
      var m' := if AnchorIn(n.start) == "" then m else m[AnchorIn(n.start) := n];
      var inner := LinearAll(n.children);
      assert Linear(n)[1..|inner| + 1] == inner;
      assert evs[k + 1..][..|inner|] == evs[k..][..|Linear(n)|][1..|inner| + 1];
      AllAnchored(evs, k + 1, n.children, m');
      var end := k + 1 + |inner|;
      assert evs[end] == evs[k..][..|Linear(n)|][|inner| + 1];
      EventAnchored(evs, end, AnchorsOf(n, m), n);
    }
  }

  lemma {:induction false} AllAnchored(evs: seq<Event>, k: nat, ns: seq<Node>, m: map<string, Node>)
    requires (forall n | n in ns :: WellFormed(n)) && k <= |evs| && LinearAll(ns) <= evs[k..] && Anchored(evs, k, m)
    ensures k + |LinearAll(ns)| <= |evs| && Anchored(evs, k + |LinearAll(ns)|, AnchorsOfAll(ns, m))
    decreases ns, 1
  {
    hide Anchored, Linear, WellFormed;
    if ns != [] {
      var c := Linear(ns[0]);
      assert evs[k..][..|c|] == c && evs[k + |c|..] == evs[k..][|c|..];
      NodeAnchored(evs, k, ns[0], m);
      AllAnchored(evs, k + |c|, ns[1..], AnchorsOf(ns[0], m));
    }
  }
}
