/** The language of YAML event streams, stated twice: as node trees with their
    linearisation, and as a machine that tracks what a stream still owes.
    The parser and the emitter are both proved against the machine. */
module YamlGrammar {
  import opened Wrappers

  datatype Style = Plain | SingleQuoted | DoubleQuoted | Literal | Folded | Block | Flow

  /** `NoEvent` is the zero event handed out once the stream is over.
      An absent anchor or tag is the empty string. */
  datatype Event =
    | NoEvent
    | StreamStart
    | StreamEnd
    | DocumentStart(explicitVersion: bool, directives: seq<(string, string)>, implicitStart: bool)
    | DocumentEnd(implicitEnd: bool)
    | Alias(name: string)
    | Scalar(anchor: string, tag: string, value: string, implicit: bool, quotedImplicit: bool, style: Style)
    | SequenceStart(anchor: string, tag: string, implicit: bool, style: Style)
    | SequenceEnd
    | MappingStart(anchor: string, tag: string, implicit: bool, style: Style)
    | MappingEnd

  // ---- The declarative grammar ----

  /** A node of the tree the decoder works on, with the events it came from.
      A mapping lists its keys and values alternately. */
  datatype Node =
    | Leaf(event: Event)
    | Sequence(start: Event, children: seq<Node>)
    | Mapping(start: Event, children: seq<Node>)

  datatype Document = Document(start: Event, root: Node, end: Event)

  ghost predicate WellFormed(n: Node) {
    match n
    case Leaf(e) => e.Alias? || e.Scalar?
    case Sequence(s, cs) => s.SequenceStart? && forall c | c in cs :: WellFormed(c)
    case Mapping(s, cs) => s.MappingStart? && |cs| % 2 == 0 && forall c | c in cs :: WellFormed(c)
  }

  ghost predicate WellFormedDocument(d: Document) {
    d.start.DocumentStart? && WellFormed(d.root) && d.end.DocumentEnd?
  }

  /** The events of a node, in stream order. */
  function Linear(n: Node): seq<Event>
    decreases n, 0
  {
    match n
    case Leaf(e) => [e]
    case Sequence(s, cs) => [s] + LinearAll(cs) + [SequenceEnd]
    case Mapping(s, cs) => [s] + LinearAll(cs) + [MappingEnd]
  }

  function LinearAll(ns: seq<Node>): seq<Event>
    decreases ns, 1
  {
    if ns == [] then [] else Linear(ns[0]) + LinearAll(ns[1..])
  }

  function LinearDocument(d: Document): seq<Event> {
    [d.start] + Linear(d.root) + [d.end]
  }

  function LinearDocuments(ds: seq<Document>): seq<Event> {
    if ds == [] then [] else LinearDocument(ds[0]) + LinearDocuments(ds[1..])
  }

  /** STREAM-START (DOCUMENT-START node DOCUMENT-END)* STREAM-END */
  function LinearStream(ds: seq<Document>): seq<Event> {
    [StreamStart] + LinearDocuments(ds) + [StreamEnd]
  }

  /** `evs` is a complete event stream. */
  ghost predicate Sentence(evs: seq<Event>) {
    exists ds: seq<Document> :: (forall d | d in ds :: WellFormedDocument(d)) && evs == LinearStream(ds)
  }

  // ---- The machine ----

  /** What a stream still has to deliver. */
  datatype Owed =
    | Nothing
    | Stream            // STREAM-START document* STREAM-END
    | Documents         // document* STREAM-END
    | EndOfDocument     // DOCUMENT-END document* STREAM-END
    | Single(rest: Owed)    // node, then rest
    | Items(rest: Owed)     // node* SEQUENCE-END, then rest
    | Pairs(rest: Owed)     // (node node)* MAPPING-END, then rest
    | Value(rest: Owed)     // node (node node)* MAPPING-END, then rest

  /** What is owed once the node that `o` waits for has been delivered. */
  function Paid(o: Owed): Owed
    requires o.Single? || o.Items? || o.Pairs? || o.Value?
  {
    match o
    case Single(rest) => rest
    case Items(_) => o
    case Pairs(rest) => Value(rest)
    case Value(rest) => Pairs(rest)
  }

  /** The first event of a node, `rest` being owed after the whole node. */
  function StepNode(rest: Owed, e: Event): Option<Owed> {
    match e
    case Alias(_) => Some(rest)
    case Scalar(_, _, _, _, _, _) => Some(rest)
    case SequenceStart(_, _, _, _) => Some(Items(rest))
    case MappingStart(_, _, _, _) => Some(Pairs(rest))
    case _ => None
  }

  function Step(o: Owed, e: Event): Option<Owed> {
    match o
    case Nothing => None
    case Stream => if e.StreamStart? then Some(Documents) else None
    case Documents =>
      if e.DocumentStart? then Some(Single(EndOfDocument))
      else if e.StreamEnd? then Some(Nothing) else None
    case EndOfDocument => if e.DocumentEnd? then Some(Documents) else None
    case Single(rest) => StepNode(rest, e)
    case Items(rest) => if e.SequenceEnd? then Some(rest) else StepNode(o, e)
    case Pairs(rest) => if e.MappingEnd? then Some(rest) else StepNode(Value(rest), e)
    case Value(rest) => StepNode(Pairs(rest), e)
  }

  function Run(o: Owed, evs: seq<Event>): Option<Owed>
    decreases |evs|
  {
    if evs == [] then Some(o)
    else match Step(o, evs[0])
      case None => None
      case Some(o') => Run(o', evs[1..])
  }

  lemma {:induction false} RunAppend(o: Owed, a: seq<Event>, b: seq<Event>)
    ensures Run(o, a + b) == match Run(o, a) case None => None case Some(o') => Run(o', b)
    decreases |a|
  {
    if a == [] {
      assert a + b == b;
    } else {
      assert (a + b)[1..] == a[1..] + b;
      match Step(o, a[0])
      case None =>
      case Some(o') => RunAppend(o', a[1..], b);
    }
  }

  lemma {:induction false} RunSnoc(o: Owed, a: seq<Event>, e: Event)
    requires Run(o, a).Some?
    ensures Run(o, a + [e]) == Step(Run(o, a).value, e)
  {
    RunAppend(o, a, [e]);
    var o' := Run(o, a).value;
    match Step(o', e)
    case None =>
    case Some(o'') => assert [e][1..] == [];
  }

  // ---- Every tree is accepted ----

  ghost predicate AwaitsNode(o: Owed) {
    o.Single? || o.Items? || o.Pairs? || o.Value?
  }

  lemma {:induction false} AcceptsNode(o: Owed, n: Node)
    requires AwaitsNode(o) && WellFormed(n)
    ensures Run(o, Linear(n)) == Some(Paid(o))
    decreases n, 0
  {
    match n
    case Leaf(e) => assert [e][1..] == [];
    case Sequence(s, cs) =>
      AcceptsItems(Paid(o), cs);
      RunSnoc(Items(Paid(o)), LinearAll(cs), SequenceEnd);
      assert Linear(n)[1..] == LinearAll(cs) + [SequenceEnd];
    case Mapping(s, cs) =>
      AcceptsPairs(Pairs(Paid(o)), cs);
      RunSnoc(Pairs(Paid(o)), LinearAll(cs), MappingEnd);
      assert Linear(n)[1..] == LinearAll(cs) + [MappingEnd];
  }

  lemma {:induction false} AcceptsItems(rest: Owed, ns: seq<Node>)
    requires forall n | n in ns :: WellFormed(n)
    ensures Run(Items(rest), LinearAll(ns)) == Some(Items(rest))
    decreases ns, 1
  {
    if ns != [] {
      AcceptsNode(Items(rest), ns[0]);
      AcceptsItems(rest, ns[1..]);
      RunAppend(Items(rest), Linear(ns[0]), LinearAll(ns[1..]));
    }
  }

  /** Keys and values alternate, so an even number of nodes closes the pairs. */
  lemma {:induction false} AcceptsPairs(o: Owed, ns: seq<Node>)
    requires o.Pairs? || o.Value?
    requires forall n | n in ns :: WellFormed(n)
    ensures Run(o, LinearAll(ns)) == Some(if |ns| % 2 == 0 then o else Paid(o))
    decreases ns, 1
  {
    if ns != [] {
      AcceptsNode(o, ns[0]);
      AcceptsPairs(Paid(o), ns[1..]);
      RunAppend(o, Linear(ns[0]), LinearAll(ns[1..]));
    }
  }

  lemma {:induction false} AcceptsDocuments(ds: seq<Document>)
    requires forall d | d in ds :: WellFormedDocument(d)
    ensures Run(Documents, LinearDocuments(ds)) == Some(Documents)
  {
    if ds != [] {
      var d := ds[0];
      assert d in ds;
      AcceptsNode(Single(EndOfDocument), d.root);
      RunSnoc(Single(EndOfDocument), Linear(d.root), d.end);
      assert LinearDocument(d)[1..] == Linear(d.root) + [d.end];
      AcceptsDocuments(ds[1..]);
      RunAppend(Documents, LinearDocument(d), LinearDocuments(ds[1..]));
    }
  }

  lemma {:induction false} AcceptsSentence(evs: seq<Event>)
    requires Sentence(evs)
    ensures Run(Stream, evs) == Some(Nothing)
  {
    var ds: seq<Document> :| (forall d | d in ds :: WellFormedDocument(d)) && evs == LinearStream(ds);
    AcceptsDocuments(ds);
    RunSnoc(Documents, LinearDocuments(ds), StreamEnd);
    assert evs[1..] == LinearDocuments(ds) + [StreamEnd];
  }

  // ---- Everything accepted is a tree ----

  /** The number of nodes and collections still open. */
  function Depth(o: Owed): nat {
    match o
    case Single(rest) => 1 + Depth(rest)
    case Items(rest) => 1 + Depth(rest)
    case Pairs(rest) => 1 + Depth(rest)
    case Value(rest) => 1 + Depth(rest)
    case _ => 0
  }

  /** Splits a node off the front of an accepted run that ends below it. */
  lemma {:induction false} FindNode(o: Owed, evs: seq<Event>, last: Owed) returns (n: Node, tail: seq<Event>)
    requires AwaitsNode(o) && Run(o, evs) == Some(last) && Depth(last) < Depth(o)
    requires evs != [] && StepNode(Paid(o), evs[0]).Some?
    ensures WellFormed(n) && evs == Linear(n) + tail
    ensures Run(Paid(o), tail) == Some(last)
    decreases |evs|, 0
  {
    var e := evs[0];
    if e.Alias? || e.Scalar? {
      n, tail := Leaf(e), evs[1..];
    } else if e.SequenceStart? {
      var ns, t := FindItems(Paid(o), evs[1..], last);
      n, tail := Sequence(e, ns), t;
      assert evs == [e] + evs[1..];
    } else {
      var ns, t := FindPairs(Pairs(Paid(o)), evs[1..], last);
      n, tail := Mapping(e, ns), t;
      assert evs == [e] + evs[1..];
    }
  }

  lemma {:induction false} FindItems(rest: Owed, evs: seq<Event>, last: Owed) returns (ns: seq<Node>, tail: seq<Event>)
    requires Run(Items(rest), evs) == Some(last) && Depth(last) <= Depth(rest)
    ensures forall n | n in ns :: WellFormed(n)
    ensures evs == LinearAll(ns) + [SequenceEnd] + tail
    ensures Run(rest, tail) == Some(last)
    decreases |evs|, 1
  {
    if evs[0].SequenceEnd? {
      ns, tail := [], evs[1..];
      assert evs == [SequenceEnd] + evs[1..];
    } else {
      var n, mid := FindNode(Items(rest), evs, last);
      LinearNonempty(n);
      var ns', t := FindItems(rest, mid, last);
      ns, tail := [n] + ns', t;
      LinearAllCons(n, ns');
      assert evs == LinearAll(ns) + [SequenceEnd] + tail;
    }
  }

  lemma {:induction false} FindPairs(o: Owed, evs: seq<Event>, last: Owed) returns (ns: seq<Node>, tail: seq<Event>)
    requires o.Pairs? || o.Value?
    requires Run(o, evs) == Some(last) && Depth(last) <= Depth(o.rest)
    ensures forall n | n in ns :: WellFormed(n)
    ensures |ns| % 2 == if o.Pairs? then 0 else 1
    ensures evs == LinearAll(ns) + [MappingEnd] + tail
    ensures Run(o.rest, tail) == Some(last)
    decreases |evs|, 1
  {
    if o.Pairs? && evs[0].MappingEnd? {
      ns, tail := [], evs[1..];
      assert evs == [MappingEnd] + evs[1..];
    } else {
      var n, mid := FindNode(o, evs, last);
      LinearNonempty(n);
      var ns', t := FindPairs(Paid(o), mid, last);
      ns, tail := [n] + ns', t;
      LinearAllCons(n, ns');
      assert evs == LinearAll(ns) + [MappingEnd] + tail;
    }
  }

  lemma {:induction false} LinearAllCons(n: Node, ns: seq<Node>)
    ensures LinearAll([n] + ns) == Linear(n) + LinearAll(ns)
  {
    assert ([n] + ns)[1..] == ns;
  }

  lemma {:induction false} LinearNonempty(n: Node)
    ensures |Linear(n)| > 0
  {
  }

  lemma {:induction false} RunFromNothing(evs: seq<Event>)
    requires Run(Nothing, evs).Some?
    ensures evs == []
  {
  }

  lemma {:induction false} FindDocuments(evs: seq<Event>) returns (ds: seq<Document>)
    requires Run(Documents, evs) == Some(Nothing)
    ensures forall d | d in ds :: WellFormedDocument(d)
    ensures evs == LinearDocuments(ds) + [StreamEnd]
    decreases |evs|
  {
    if evs[0].StreamEnd? {
      ds := [];
      RunFromNothing(evs[1..]);
      assert evs == [evs[0]] + evs[1..];
    } else {
      var d, tail := FindDocument(evs);
      var ds' := FindDocuments(tail);
      ds := [d] + ds';
      assert ([d] + ds')[1..] == ds';
    }
  }

  lemma FindDocument(evs: seq<Event>) returns (d: Document, tail: seq<Event>)
    requires Run(Documents, evs) == Some(Nothing) && !evs[0].StreamEnd?
    ensures WellFormedDocument(d) && |tail| < |evs| && evs == LinearDocument(d) + tail
    ensures Run(Documents, tail) == Some(Nothing)
  {
    var n, mid := FindNode(Single(EndOfDocument), evs[1..], Nothing);
    d, tail := Document(evs[0], n, mid[0]), mid[1..];
    assert evs == [evs[0]] + evs[1..] && mid == [mid[0]] + tail;
  }

  /** The machine accepts exactly the streams of the grammar. */
  lemma {:induction false} MachineIsGrammar(evs: seq<Event>)
    ensures Run(Stream, evs) == Some(Nothing) <==> Sentence(evs)
  {
    if Sentence(evs) { AcceptsSentence(evs); }
    if Run(Stream, evs) == Some(Nothing) {
      var ds := FindDocuments(evs[1..]);
      assert evs == [evs[0]] + evs[1..];
      assert evs == LinearStream(ds);
    }
  }

  // ---- Prefixes ----

  /** A shortest way to pay what is owed. */
  function Completion(o: Owed): seq<Event> {
    match o
    case Nothing => []
    case Stream => [StreamStart, StreamEnd]
    case Documents => [StreamEnd]
    case EndOfDocument => [DocumentEnd(true), StreamEnd]
    case Single(rest) => [Alias("")] + Completion(rest)
    case Items(rest) => [SequenceEnd] + Completion(rest)
    case Pairs(rest) => [MappingEnd] + Completion(rest)
    case Value(rest) => [Alias(""), MappingEnd] + Completion(rest)
  }

  lemma {:induction false} CompletionPays(o: Owed)
    requires Grounded(o)
    ensures Run(o, Completion(o)) == Some(Nothing)
  {
    match o
    case Nothing =>
    case Stream => RunSnoc(Stream, [StreamStart], StreamEnd); RunSnoc(Stream, [], StreamStart);
      assert [StreamStart, StreamEnd] == [StreamStart] + [StreamEnd]; assert [] + [StreamStart] == [StreamStart];
    case Documents => assert [StreamEnd][1..] == [];
    case EndOfDocument =>
      var evs := Completion(o);
      assert evs[1..] == [StreamEnd] && [StreamEnd][1..] == [];
    case Single(rest) => CompletionPays(rest); assert Completion(o)[1..] == Completion(rest);
    case Items(rest) => CompletionPays(rest); assert Completion(o)[1..] == Completion(rest);
    case Pairs(rest) => CompletionPays(rest); assert Completion(o)[1..] == Completion(rest);
    case Value(rest) =>
      CompletionPays(rest);
      assert Completion(o)[1..] == Completion(Pairs(rest));
      assert Completion(Pairs(rest))[1..] == Completion(rest);
  }

  /** Open collections and nodes only occur inside a document. */
  ghost predicate Grounded(o: Owed) {
    match o
    case Single(rest) => rest.EndOfDocument? || (AwaitsNode(rest) && Grounded(rest))
    case Items(rest) => rest.EndOfDocument? || (AwaitsNode(rest) && Grounded(rest))
    case Pairs(rest) => rest.EndOfDocument? || (AwaitsNode(rest) && Grounded(rest))
    case Value(rest) => rest.EndOfDocument? || (AwaitsNode(rest) && Grounded(rest))
    case _ => true
  }

  lemma {:induction false} RunKeepsGrounded(o: Owed, evs: seq<Event>)
    requires Grounded(o) && Run(o, evs).Some?
    ensures Grounded(Run(o, evs).value)
    decreases |evs|
  {
    if evs != [] { RunKeepsGrounded(Step(o, evs[0]).value, evs[1..]); }
  }

  /** The accepted event lists are exactly the prefixes of the streams of the grammar. */
  lemma {:induction false} AcceptedIsPrefix(evs: seq<Event>)
    ensures Run(Stream, evs).Some? <==> exists more :: Sentence(evs + more)
  {
    if Run(Stream, evs).Some? {
      var o := Run(Stream, evs).value;
      RunKeepsGrounded(Stream, evs);
      CompletionPays(o);
      RunAppend(Stream, evs, Completion(o));
      MachineIsGrammar(evs + Completion(o));
    }
    if more :| Sentence(evs + more) {
      MachineIsGrammar(evs + more);
      RunAppend(Stream, evs, more);
    }
  }

  // ---- The tree of a stream is unique ----

  lemma {:induction false} UniqueNode(a: Node, b: Node, s: seq<Event>, t: seq<Event>)
    requires WellFormed(a) && WellFormed(b) && Linear(a) + s == Linear(b) + t
    ensures a == b && s == t
    decreases a, 0
  {
    assert (Linear(a) + s)[0] == Linear(a)[0] && (Linear(b) + t)[0] == Linear(b)[0];
    match a
    case Leaf(e) =>
      assert Linear(a) + s == [e] + s && Linear(b) + t == [e] + t;
      assert ([e] + s)[1..] == s && ([e] + t)[1..] == t;
    case Sequence(e, cs) =>
      var x := LinearAll(cs) + ([SequenceEnd] + s);
      var y := LinearAll(b.children) + ([SequenceEnd] + t);
      assert Linear(a) + s == [e] + x && Linear(b) + t == [e] + y;
      assert ([e] + x)[1..] == x && ([e] + y)[1..] == y;
      UniqueNodes(cs, b.children, SequenceEnd, s, t);
    case Mapping(e, cs) =>
      var x := LinearAll(cs) + ([MappingEnd] + s);
      var y := LinearAll(b.children) + ([MappingEnd] + t);
      assert Linear(a) + s == [e] + x && Linear(b) + t == [e] + y;
      assert ([e] + x)[1..] == x && ([e] + y)[1..] == y;
      UniqueNodes(cs, b.children, MappingEnd, s, t);
  }

  /** The closing event comes first exactly when there are no nodes before it. */
  lemma {:induction false} FirstOfMany(ns: seq<Node>, close: Event, s: seq<Event>)
    requires close.SequenceEnd? || close.MappingEnd?
    requires forall n | n in ns :: WellFormed(n)
    ensures (LinearAll(ns) + ([close] + s))[0] == close <==> ns == []
  {
    if ns != [] {
      assert ns[0] in ns;
      assert (LinearAll(ns) + ([close] + s))[0] == Linear(ns[0])[0];
    }
  }

  lemma {:induction false} UniqueNodes(a: seq<Node>, b: seq<Node>, close: Event, s: seq<Event>, t: seq<Event>)
    requires close.SequenceEnd? || close.MappingEnd?
    requires forall n | n in a :: WellFormed(n)
    requires forall n | n in b :: WellFormed(n)
    requires LinearAll(a) + ([close] + s) == LinearAll(b) + ([close] + t)
    ensures a == b && s == t
    decreases a, 1
  {
    var l, r := LinearAll(a) + ([close] + s), LinearAll(b) + ([close] + t);
    FirstOfMany(a, close, s);
    FirstOfMany(b, close, t);
    if a == [] {
      assert l[1..] == s && r[1..] == t;
    } else {
      assert l == Linear(a[0]) + (LinearAll(a[1..]) + ([close] + s));
      assert r == Linear(b[0]) + (LinearAll(b[1..]) + ([close] + t));
      UniqueNode(a[0], b[0], LinearAll(a[1..]) + ([close] + s), LinearAll(b[1..]) + ([close] + t));
      UniqueNodes(a[1..], b[1..], close, s, t);
      assert a == [a[0]] + a[1..] && b == [b[0]] + b[1..];
    }
  }

  lemma {:induction false} FirstDocument(d: Document, ds: seq<Document>)
    ensures LinearDocuments([d] + ds) + [StreamEnd] ==
            [d.start] + (Linear(d.root) + ([d.end] + (LinearDocuments(ds) + [StreamEnd])))
  {
    hide Linear;
    assert ([d] + ds)[1..] == ds;
  }

  lemma UniqueDocument(c: Document, d: Document, s: seq<Event>, t: seq<Event>)
    requires WellFormedDocument(c) && WellFormedDocument(d)
    requires [c.start] + (Linear(c.root) + ([c.end] + s)) == [d.start] + (Linear(d.root) + ([d.end] + t))
    ensures c == d && s == t
  {
    hide Linear, WellFormed;
    var l, r := Linear(c.root) + ([c.end] + s), Linear(d.root) + ([d.end] + t);
    assert ([c.start] + l)[1..] == l && ([d.start] + r)[1..] == r && ([c.start] + l)[0] == ([d.start] + r)[0];
    UniqueNode(c.root, d.root, [c.end] + s, [d.end] + t);
    assert ([c.end] + s)[0] == c.end && ([c.end] + s)[1..] == s && ([d.end] + t)[1..] == t;
  }

  lemma {:induction false} UniqueDocuments(a: seq<Document>, b: seq<Document>)
    requires forall d | d in a :: WellFormedDocument(d)
    requires forall d | d in b :: WellFormedDocument(d)
    requires LinearDocuments(a) + [StreamEnd] == LinearDocuments(b) + [StreamEnd]
    ensures a == b
    decreases |a|
  {
    hide Linear, WellFormed, LinearDocuments;
    if a != [] && b != [] {
      assert a == [a[0]] + a[1..] && b == [b[0]] + b[1..];
      FirstDocument(a[0], a[1..]);
      FirstDocument(b[0], b[1..]);
      UniqueDocument(a[0], b[0], LinearDocuments(a[1..]) + [StreamEnd], LinearDocuments(b[1..]) + [StreamEnd]);
      UniqueDocuments(a[1..], b[1..]);
    } else {
      EndOrStart(a);
      EndOrStart(b);
    }
  }

  lemma {:induction false} EndOrStart(ds: seq<Document>)
    requires forall d | d in ds :: WellFormedDocument(d)
    ensures (LinearDocuments(ds) + [StreamEnd])[0].StreamEnd? <==> ds == []
  {
    hide Linear, WellFormed;
    if ds != [] { assert ds[0] in ds; }
  }

  /** A stream has one list of documents. */
  lemma UniqueStream(a: seq<Document>, b: seq<Document>)
    requires forall d | d in a :: WellFormedDocument(d)
    requires forall d | d in b :: WellFormedDocument(d)
    requires LinearStream(a) == LinearStream(b)
    ensures a == b
  {
    hide LinearDocuments;
    assert LinearStream(a)[1..] == LinearDocuments(a) + [StreamEnd];
    assert LinearStream(b)[1..] == LinearDocuments(b) + [StreamEnd];
    UniqueDocuments(a, b);
  }
}
