/** The recursive builder that turns parser events into the node tree. */
module YamlTree {
  import opened YamlGrammar
  import opened YamlParser
  import opened Wrappers

  /** What one call of the builder can return. */
  datatype Parsed =
    | Nil                       // the stream is over
    | NodeOf(node: Node)
    | DocumentOf(document: Document)

  lemma {:induction false} LinearAllSnoc(ns: seq<Node>, n: Node)
    ensures LinearAll(ns + [n]) == LinearAll(ns) + Linear(n)
  {
    if ns == [] {
      assert [] + [n] == [n] && [n][1..] == [];
    } else {
      assert (ns + [n])[1..] == ns[1..] + [n];
      LinearAllSnoc(ns[1..], n);
    }
  }

  class Builder {
    const parser: Parser
    var event: Event             // delivered by the parser, not yet used
    ghost var before: Owed       // what the stream owed before `event`
    ghost var consumed: seq<Event>

    ghost predicate Valid() reads this, parser {
      && parser.Valid() && parser.error.NoError?
      && parser.emitted == consumed + [event]
      && Run(Stream, consumed) == Some(before)
      && Step(before, event) == Some(parser.Owes())
      && (event.StreamEnd? <==> parser.state.ParseEnd?)
    }

    /** Starts on a token stream, past STREAM-START. */
    constructor (parser: Parser)
      requires parser.Valid() && parser.error.NoError? && parser.state.ParseStreamStart? && parser.emitted == []
      modifies parser
      ensures this.parser == parser
      ensures parser.error.NoError? ==> Valid() && before == Documents && consumed == [StreamStart]
    {
      this.parser := parser;
      this.event, this.before, this.consumed := NoEvent, Stream, [];
      new;
      var ok, e := parser.Parse();
      if ok {
        this.event := e;
        if !e.StreamStart? { assert false; }   // "expected stream start event"
        assert parser.emitted == consumed + [e];
        ok := Skip();
      }
    }

    /** Replaces the event at hand by the next one. */
    method Skip() returns (ok: bool)
      requires Valid() && !event.StreamEnd?
      modifies this, parser
      ensures ok ==> Valid() && parser.Potential() < old(parser.Potential())
      ensures ok ==> consumed == old(consumed) + [old(event)] && before == old(parser.Owes())
      ensures !ok ==> !parser.error.NoError?
    {
      hide Parser.Valid, Parser.Potential;
      ghost var owes := parser.Owes();
      var e;
      ok, e := parser.Parse();
      if ok {
        consumed := consumed + [event];
        before := owes;
        event := e;
        RunKeepsGrounded(Stream, consumed);
      }
    }

    /** Builds what starts at the event at hand. It fails only when the parser
        does, and otherwise returns the tree whose events it used up. */
    method Parse() returns (ok: bool, n: Parsed)
      requires Valid() && (before.Documents? || AwaitsNode(before))
      requires !event.SequenceEnd? && !event.MappingEnd?
      modifies this, parser
      ensures !ok ==> !parser.error.NoError?
      ensures ok ==> Valid()
      ensures ok && old(event).StreamEnd? ==> n.Nil? && unchanged(this) && unchanged(parser)
      ensures ok && old(event).DocumentStart? ==>
        n.DocumentOf? && WellFormedDocument(n.document) && before == Documents &&
        consumed == old(consumed) + LinearDocument(n.document)
      ensures ok && AwaitsNode(old(before)) ==>
        n.NodeOf? && WellFormed(n.node) && before == old(Paid(before)) &&
        consumed == old(consumed) + Linear(n.node) && parser.Potential() < old(parser.Potential())
      decreases parser.Potential(), 1
    {
      hide Parser.Valid, Parser.Potential, Parser.Owes, Run;
      match event
      case Scalar(_, _, _, _, _, _) =>
        n := NodeOf(Leaf(event));
        ok := Skip();
      case Alias(_) =>
        n := NodeOf(Leaf(event));
        ok := Skip();
      case MappingStart(_, _, _, _) =>
        var m;
        ok, m := ParseMapping();
        n := NodeOf(m);
      case SequenceStart(_, _, _, _) =>
        var s;
        ok, s := ParseSequence();
        n := NodeOf(s);
      case DocumentStart(_, _, _) =>
        var d;
        ok, d := ParseDocument();
        n := DocumentOf(d);
      case StreamEnd =>
        return true, Nil;
      case _ =>
        assert false;   // "attempted to parse unknown event"
        return false, Nil;
    }

    method ParseDocument() returns (ok: bool, d: Document)
      requires Valid() && event.DocumentStart?
      modifies this, parser
      ensures !ok ==> !parser.error.NoError?
      ensures ok ==> Valid() && WellFormedDocument(d) && before == Documents
      ensures ok ==> consumed == old(consumed) + LinearDocument(d)
      decreases parser.Potential(), 0
    {
      hide Parser.Valid, Parser.Potential, Parser.Owes, Run;
      var start := event;
      d := Document(start, Leaf(start), start);
      ok := Skip();
      if !ok { return; }
      var root;
      ok, root := Parse();
      if !ok { return; }
      if !event.DocumentEnd? { assert false; }   // "expected end of document event"
      d := Document(start, root.node, event);
      ok := Skip();
    }

    method ParseSequence() returns (ok: bool, n: Node)
      requires Valid() && AwaitsNode(before) && event.SequenceStart?
      modifies this, parser
      ensures !ok ==> !parser.error.NoError?
      ensures ok ==> Valid() && WellFormed(n) && n.Sequence? && before == old(Paid(before))
      ensures ok ==> consumed == old(consumed) + Linear(n) && parser.Potential() < old(parser.Potential())
      decreases parser.Potential(), 0
    {
      hide Parser.Valid, Parser.Potential, Parser.Owes, Run;
      var start, children := event, [];
      n := Sequence(start, []);
      ok := Skip();
      if !ok { return; }
      while !event.SequenceEnd?
        invariant Valid() && before == Items(old(Paid(before)))
        invariant forall c | c in children :: WellFormed(c)
        invariant consumed == old(consumed) + [start] + LinearAll(children)
        invariant parser.Potential() < old(parser.Potential())
        decreases parser.Potential()
      {
        var child;
        ok, child := Parse();
        if !ok { return; }
        LinearAllSnoc(children, child.node);
        children := children + [child.node];
      }
      n := Sequence(start, children);
      ok := Skip();
    }

    method ParseMapping() returns (ok: bool, n: Node)
      requires Valid() && AwaitsNode(before) && event.MappingStart?
      modifies this, parser
      ensures !ok ==> !parser.error.NoError?
      ensures ok ==> Valid() && WellFormed(n) && n.Mapping? && before == old(Paid(before))
      ensures ok ==> consumed == old(consumed) + Linear(n) && parser.Potential() < old(parser.Potential())
      decreases parser.Potential(), 0
    {
      hide Parser.Valid, Parser.Potential, Parser.Owes, Run;
      var start, children := event, [];
      n := Mapping(start, []);
      ok := Skip();
      if !ok { return; }
      while !event.MappingEnd?
        invariant Valid() && before == Pairs(old(Paid(before)))
        invariant |children| % 2 == 0 && forall c | c in children :: WellFormed(c)
        invariant consumed == old(consumed) + [start] + LinearAll(children)
        invariant parser.Potential() < old(parser.Potential())
        decreases parser.Potential()
      {
        var key, value;
        ok, key := Parse();
        if !ok { return; }
        ok, value := Parse();
        if !ok { return; }
        LinearAllSnoc(children, key.node);
        LinearAllSnoc(children + [key.node], value.node);
        children := children + [key.node] + [value.node];
      }
      n := Mapping(start, children);
      ok := Skip();
    }
  }
}
