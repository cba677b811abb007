/** The grammar that the comments of the parser give (parserc.go:14-43), as derivation trees
    with their tokens and their events. The parser is proved to accept exactly the token
    streams that have a tree, and to deliver the events of it. Two productions are those of
    the code and not of the comments: a single pair with an empty key takes the token that
    shows it along, and the entries of a block mapping start with KEY. */
module YamlSyntax {
  import opened YamlGrammar
  import opened YamlTokens
  import opened YamlTags
  import D = YamlDescent
  import P = YamlParser

  /** A node is its properties, the token of its content, and for a collection its body; a
      body is a list of parts, each some tokens, a node that may be left out, and the rest. */
  datatype Tree =
    | Omitted
    | Node(props: seq<Token>, content: seq<Token>, body: Tree)
    | Part(lead: seq<Token>, node: Tree, more: Tree)
    | Close(end: seq<Token>)

  /** The nonterminals. `first` says that no comma is in front, `lone` that there was no KEY. */
  datatype Rule =
    | ANode(block: bool, indentless: bool)
    | BlockItems | IndentlessItems
    | BlockPairs | BlockValue
    | FlowItems(first: bool) | PairValue
    | FlowPairs(first: bool) | FlowValue(lone: bool)

  function Yield(c: Tree): seq<Token> {
    match c
    case Omitted => []
    case Node(props, content, body) => props + content + Yield(body)
    case Part(lead, n, more) => lead + (Yield(n) + Yield(more))
    case Close(end) => end
  }

  function Types(ts: seq<Token>): seq<TokenType> {
    seq(|ts|, i requires 0 <= i < |ts| => ts[i].typ)
  }

  // ---- Properties ----

  /** At most one anchor and one tag, in either order, the tag with a handle that is known. */
  predicate PropsOk(ts: seq<Token>, dirs: seq<(string, string)>) {
    && Types(ts) in [[], [AnchorToken], [TagToken], [AnchorToken, TagToken], [TagToken, AnchorToken]]
    && forall i :: 0 <= i < |ts| && ts[i].typ.TagToken? && ts[i].value != "" ==>
         Expand(dirs, ts[i].value, ts[i].suffix) != ""
  }

  function AnchorIn(ts: seq<Token>): string {
    if ts == [] then "" else if ts[0].typ.AnchorToken? then ts[0].value else AnchorIn(ts[1..])
  }

  function TagIn(ts: seq<Token>, dirs: seq<(string, string)>): string {
    if ts == [] then ""
    else if ts[0].typ.TagToken? then
      if ts[0].value == "" then ts[0].suffix else Expand(dirs, ts[0].value, ts[0].suffix)
    else TagIn(ts[1..], dirs)
  }

  // ---- The productions ----

  const ENDS_PAIR_KEY := [ValueToken, FlowEntryToken, FlowSequenceEndToken]

  function Comma(first: bool): seq<TokenType> {
    if first then [] else [FlowEntryToken]
  }

  /** What ends a flow collection, perhaps behind a last comma. */
  predicate Ended(end: seq<Token>, first: bool, t: TokenType) {
    Types(end) == [t] || (!first && Types(end) == [FlowEntryToken, t])
  }

  predicate Derives(rule: Rule, c: Tree, dirs: seq<(string, string)>)
    decreases c, 0
  {
    match rule
    case ANode(block, indentless) =>
      c.Node? && PropsOk(c.props, dirs) &&
      if c.body.Omitted? then
        (c.props == [] && Types(c.content) == [AliasToken]) || Types(c.content) == [ScalarToken] ||
        (c.content == [] && (AnchorIn(c.props) != "" || TagIn(c.props, dirs) != ""))
      else if c.content == [] then indentless && c.body.Part? && Derives(IndentlessItems, c.body, dirs)
      else Starts(Types(c.content), block) && Derives(BodyOf(Types(c.content)[0]), c.body, dirs)
    case BlockItems =>
      if c.Part?
      then Types(c.lead) == [BlockEntryToken] && Given(true, false, c.node, dirs) && Derives(BlockItems, c.more, dirs)
      else c.Close? && Types(c.end) == [BlockEndToken]
    case IndentlessItems =>
      if c.Part?
      then Types(c.lead) == [BlockEntryToken] && Given(true, false, c.node, dirs) &&
           Derives(IndentlessItems, c.more, dirs)
      else c == Close([])
    case BlockPairs =>
      if c.Part?
      then Types(c.lead) == [KeyToken] && Given(true, true, c.node, dirs) && Derives(BlockValue, c.more, dirs)
      else c.Close? && Types(c.end) == [BlockEndToken]
    case BlockValue =>
      c.Part? && Derives(BlockPairs, c.more, dirs) &&
      ((Types(c.lead) == [ValueToken] && Given(true, true, c.node, dirs)) || (c.lead == [] && c.node.Omitted?))
    case FlowItems(first) =>
      if c.Part? then
        if Paired(c.lead) then
          Derives(PairValue, c.more, dirs) &&
          if c.node.Omitted?
          then exists t | t in ENDS_PAIR_KEY :: Types(c.lead) == Comma(first) + [KeyToken, t]
          else Types(c.lead) == Comma(first) + [KeyToken] && Derives(ANode(false, false), c.node, dirs)
        else
          Types(c.lead) == Comma(first) && Derives(ANode(false, false), c.node, dirs) &&
          Derives(FlowItems(false), c.more, dirs)
      else c.Close? && Ended(c.end, first, FlowSequenceEndToken)
    case PairValue =>
      c.Part? && Derives(FlowItems(false), c.more, dirs) &&
      ((Types(c.lead) == [ValueToken] && Given(false, false, c.node, dirs)) || (c.lead == [] && c.node.Omitted?))
    case FlowPairs(first) =>
      if c.Part? then
        if Paired(c.lead)
        then Types(c.lead) == Comma(first) + [KeyToken] && Given(false, false, c.node, dirs) &&
             Derives(FlowValue(false), c.more, dirs)
        else Types(c.lead) == Comma(first) && Derives(ANode(false, false), c.node, dirs) &&
             Derives(FlowValue(true), c.more, dirs)
      else c.Close? && Ended(c.end, first, FlowMappingEndToken)
    case FlowValue(lone) =>
      c.Part? && Derives(FlowPairs(false), c.more, dirs) &&
      ((!lone && Types(c.lead) == [ValueToken] && Given(false, false, c.node, dirs)) ||
       (c.lead == [] && c.node.Omitted?))
  }

  /** A node that may be left out. */
  predicate Given(block: bool, indentless: bool, c: Tree, dirs: seq<(string, string)>)
    decreases c, 1
  {
    c.Omitted? || Derives(ANode(block, indentless), c, dirs)
  }

  /** KEY is among the tokens of the part. */
  predicate Paired(lead: seq<Token>) {
    exists i :: 0 <= i < |lead| && lead[i].typ.KeyToken?
  }

  predicate Starts(types: seq<TokenType>, block: bool) {
    types == [FlowSequenceStartToken] || types == [FlowMappingStartToken] ||
    (block && (types == [BlockSequenceStartToken] || types == [BlockMappingStartToken]))
  }

  function BodyOf(t: TokenType): Rule {
    match t
    case FlowSequenceStartToken => FlowItems(true)
    case FlowMappingStartToken => FlowPairs(true)
    case BlockSequenceStartToken => BlockItems
    case _ => BlockPairs
  }

  // ---- The events ----

  const EMPTY := Scalar("", "", "", true, false, Plain)

  function Events(rule: Rule, c: Tree, dirs: seq<(string, string)>): seq<Event>
    requires Derives(rule, c, dirs)
    decreases c, 1
  {
    match rule
    case ANode(_, _) => NodeEvents(rule, c, dirs)
    case BlockItems => if c.Part? then Optional(true, false, c.node, dirs) + Events(BlockItems, c.more, dirs)
                       else [SequenceEnd]
    case IndentlessItems =>
      if c.Part? then Optional(true, false, c.node, dirs) + Events(IndentlessItems, c.more, dirs) else [SequenceEnd]
    case BlockPairs =>
      if c.Part? then Optional(true, true, c.node, dirs) + Events(BlockValue, c.more, dirs) else [MappingEnd]
    case BlockValue => Optional(true, true, c.node, dirs) + Events(BlockPairs, c.more, dirs)
    case FlowItems(_) =>
      if c.Part? then
        if Paired(c.lead)
        then [MappingStart("", "", true, Flow)] + Optional(false, false, c.node, dirs) + Events(PairValue, c.more, dirs)
        else Optional(false, false, c.node, dirs) + Events(FlowItems(false), c.more, dirs)
      else [SequenceEnd]
    case PairValue => Optional(false, false, c.node, dirs) + [MappingEnd] + Events(FlowItems(false), c.more, dirs)
    case FlowPairs(_) =>
      if c.Part? then Optional(false, false, c.node, dirs) + Events(FlowValue(!Paired(c.lead)), c.more, dirs)
      else [MappingEnd]
    case FlowValue(_) => Optional(false, false, c.node, dirs) + Events(FlowPairs(false), c.more, dirs)
  }

  /** What is left out is an empty scalar. */
  function Optional(block: bool, indentless: bool, c: Tree, dirs: seq<(string, string)>): seq<Event>
    requires Given(block, indentless, c, dirs)
    decreases c, 2
  {
    if c.Omitted? then [EMPTY] else NodeEvents(ANode(block, indentless), c, dirs)
  }

  function NodeEvents(rule: Rule, c: Tree, dirs: seq<(string, string)>): seq<Event>
    requires rule.ANode? && Derives(rule, c, dirs)
    decreases c, 0
  {
    var anchor, tag := AnchorIn(c.props), TagIn(c.props, dirs);
    if c.body.Omitted? then
      if c.content == [] then [Scalar(anchor, tag, "", tag == "", false, Plain)]
      else if c.content[0].typ.AliasToken? then [Alias(c.content[0].value)]
      else
        var plain := (tag == "" && c.content[0].style.Plain?) || tag == "!";
        [Scalar(anchor, tag, c.content[0].value, plain, !plain && tag == "", c.content[0].style)]
    else if c.content == [] then
      [SequenceStart(anchor, tag, tag == "", Block)] + Events(IndentlessItems, c.body, dirs)
    else
      [match c.content[0].typ
       case FlowSequenceStartToken => SequenceStart(anchor, tag, tag == "", Flow)
       case FlowMappingStartToken => MappingStart(anchor, tag, tag == "", Flow)
       case BlockSequenceStartToken => SequenceStart(anchor, tag, tag == "", Block)
       case _ => MappingStart(anchor, tag, tag == "", Block)] +
      Events(BodyOf(c.content[0].typ), c.body, dirs)
  }

  // ---- Tokens ----

  lemma AsMany(ts: seq<Token>)
    ensures |Types(ts)| == |ts|
  {
  }

  lemma NoTypes(ts: seq<Token>)
    requires Types(ts) == []
    ensures ts == []
  {
    assert |Types(ts)| == |ts|;
  }

  lemma OneType(ts: seq<Token>, t: TokenType)
    requires Types(ts) == [t]
    ensures |ts| == 1 && ts[0].typ == t && ts == [ts[0]]
  {
    assert |Types(ts)| == |ts| && Types(ts)[0] == t;
  }

  lemma FirstType(ts: seq<Token>, t: TokenType, more: seq<TokenType>)
    requires Types(ts) == [t] + more
    ensures ts != [] && ts[0].typ == t && Types(ts[1..]) == more
  {
    assert |Types(ts)| == |ts| && Types(ts)[0] == t;
    forall i | 0 <= i < |more| ensures ts[1..][i].typ == more[i] {
      assert Types(ts)[i + 1] == more[i];
    }
  }

  lemma TwoTypes(ts: seq<Token>, t: TokenType, u: TokenType)
    requires Types(ts) == [t, u]
    ensures |ts| == 2 && ts[0].typ == t && ts[1].typ == u && ts == [ts[0], ts[1]]
  {
    assert |Types(ts)| == |ts| && Types(ts)[0] == t && Types(ts)[1] == u;
  }

  /** What may follow a node. */
  predicate Stops(t: TokenType) {
    t.BlockEntryToken? || t.BlockEndToken? || t.KeyToken? || t.ValueToken? ||
    t.FlowEntryToken? || t.FlowSequenceEndToken? || t.FlowMappingEndToken? ||
    t.VersionDirectiveToken? || t.TagDirectiveToken? || t.DocumentStartToken? || t.DocumentEndToken? ||
      t.StreamEndToken?
  }

  predicate Follows(ts: seq<Token>, indentless: bool) {
    ts != [] && Stops(ts[0].typ) && (indentless ==> ts[0].typ in [KeyToken, ValueToken, BlockEndToken])
  }

  /** What the descent makes of a nonterminal. */
  function Spell(rule: Rule, ts: seq<Token>, dirs: seq<(string, string)>, mark: int): D.Spelled {
    match rule
    case ANode(block, indentless) => D.Node(ts, dirs, block, indentless)
    case BlockItems => D.BlockEntries(ts, dirs, mark)
    case IndentlessItems => D.IndentlessEntries(ts, dirs)
    case BlockPairs => D.BlockPairs(ts, dirs, mark)
    case BlockValue => D.BlockValue(ts, dirs, mark)
    case FlowItems(first) => D.FlowEntries(ts, dirs, mark, first)
    case PairValue => D.PairValue(ts, dirs, mark)
    case FlowPairs(first) => D.FlowPairs(ts, dirs, mark, first)
    case FlowValue(lone) => D.FlowValue(ts, dirs, mark, lone)
  }

  /** The body of an indentless sequence has no end of its own. */
  predicate MayEnd(rule: Rule, rest: seq<Token>) {
    match rule
    case ANode(_, indentless) => Follows(rest, indentless)
    case IndentlessItems => Follows(rest, true)
    case _ => true
  }

  // ---- Every tree is spelled ----

  lemma {:induction false} PropsRead(ts: seq<Token>, dirs: seq<(string, string)>, rest: seq<Token>)
    requires PropsOk(ts, dirs) && rest != [] && !rest[0].typ.AnchorToken? && !rest[0].typ.TagToken?
    ensures D.NodeProperties(ts + rest, dirs) ==
            D.Properties.Properties(AnchorIn(ts), TagIn(ts, dirs), rest, NoError)
  {
    hide Expand;
    var u := ts + rest;
    if Types(ts) == [] {
      NoTypes(ts);
      assert u == rest;
    } else if |Types(ts)| == 1 {
      OneType(ts, Types(ts)[0]);
      assert u[1..] == rest && ts[1..] == [];
    } else {
      TwoTypes(ts, Types(ts)[0], Types(ts)[1]);
      assert u[2..] == rest && u[1] == ts[1] && ts[1..] == [ts[1]] && ts[1..][1..] == [];
    }
  }

  /** The content of a node is no token or one. */
  lemma ContentType(c: Tree, block: bool, indentless: bool, dirs: seq<(string, string)>) returns (t: TokenType)
    requires Derives(ANode(block, indentless), c, dirs)
    ensures c.Node?
    ensures c.content != [] ==> |c.content| == 1 && c.content == [c.content[0]] && c.content[0].typ == t
    ensures c.content != [] ==> Types(c.content) == [t] && !Stops(t) && t !in [AnchorToken, TagToken, BlockEntryToken]
    ensures c.content != [] && t.AliasToken? ==> c.props == [] && c.body.Omitted?
    ensures c.content != [] && c.body.Omitted? ==> t.AliasToken? || t.ScalarToken?
    ensures c.content == [] && c.body.Omitted? ==>
              c.props != [] && (AnchorIn(c.props) != "" || TagIn(c.props, dirs) != "")
    ensures c.content == [] && !c.body.Omitted? ==>
              indentless && c.body.Part? && c.body.lead != [] && c.body.lead[0].typ.BlockEntryToken?
  {
    hide Expand, AnchorIn, TagIn, Types, PropsOk, Given;
    NoProps(dirs);
    t := AliasToken;
    if c.body.Omitted? {
      if Types(c.content) == [AliasToken] { OneType(c.content, AliasToken); }
      else if Types(c.content) == [ScalarToken] {
        t := ScalarToken;
        OneType(c.content, ScalarToken);
      }
    } else if c.content == [] {
      OneType(c.body.lead, BlockEntryToken);
    } else {
      t := StartType(c.content, block);
    }
  }

  lemma StartType(ts: seq<Token>, block: bool) returns (t: TokenType)
    requires Starts(Types(ts), block)
    ensures |ts| == 1 && ts == [ts[0]] && ts[0].typ == t && Types(ts) == [t] && Starts([t], block)
    ensures !Stops(t) && t !in [AnchorToken, TagToken, AliasToken, BlockEntryToken]
  {
    hide Types;
    t := Types(ts)[0];
    OneType(ts, t);
  }

  /** The first token of a node. */
  lemma {:induction false} NodeFront(c: Tree, block: bool, indentless: bool, dirs: seq<(string, string)>,
                                     rest: seq<Token>)
    requires Derives(ANode(block, indentless), c, dirs)
    ensures var u := Yield(c) + rest;
            u != [] && (!Stops(u[0].typ) || (indentless && u[0].typ.BlockEntryToken?))
  {
    hide Types, PropsOk;
    var u := Yield(c) + rest;
    var t := ContentType(c, block, indentless, dirs);
    assert PropsOk(c.props, dirs) by { hide Expand, Given, AnchorIn, TagIn; }
    hide Derives;
    if c.props != [] {
      PropsFront(c.props, dirs);
      assert u[0] == c.props[0];
    } else if c.content != [] {
      assert u[0] == c.content[0];
    } else {
      PartYield(c.body, rest);
      assert u == Yield(c.body) + rest;
      assert u[0] == c.body.lead[0];
    }
  }

  lemma {:induction false} NoProps(dirs: seq<(string, string)>)
    ensures AnchorIn([]) == "" && TagIn([], dirs) == ""
  {
  }

  lemma PropsFront(ts: seq<Token>, dirs: seq<(string, string)>)
    requires PropsOk(ts, dirs) && ts != []
    ensures ts[0].typ.AnchorToken? || ts[0].typ.TagToken?
  {
    assert Types(ts)[0] == ts[0].typ;
  }

  /** The tokens with which the rest of a body can begin. */
  function Fronts(rule: Rule): seq<TokenType> {
    match rule
    case ANode(_, _) => []
    case BlockItems => [BlockEntryToken, BlockEndToken]
    case IndentlessItems => [BlockEntryToken, KeyToken, ValueToken, BlockEndToken]
    case BlockPairs => [KeyToken, BlockEndToken]
    case BlockValue => [ValueToken, KeyToken, BlockEndToken]
    case FlowItems(_) => [FlowEntryToken, FlowSequenceEndToken]
    case PairValue => [ValueToken, FlowEntryToken, FlowSequenceEndToken]
    case FlowPairs(_) => [FlowEntryToken, FlowMappingEndToken]
    case FlowValue(_) => [ValueToken, FlowEntryToken, FlowMappingEndToken]
  }

  lemma {:induction false} BodyFront(rule: Rule, c: Tree, dirs: seq<(string, string)>, rest: seq<Token>)
    requires Derives(rule, c, dirs) && MayEnd(rule, rest) && !rule.ANode?
    requires rule != FlowItems(true) && rule != FlowPairs(true)
    ensures var u := Yield(c) + rest; u != [] && u[0].typ in Fronts(rule)
    decreases c
  {
    hide Given, Expand;
    var u := Yield(c) + rest;
    if c.Part? && c.lead == [] {
      LeadFront(rule, c, dirs);
      BodyFront(if rule.BlockValue? then BlockPairs else if rule.PairValue? then FlowItems(false)
                else FlowPairs(false), c.more, dirs, rest);
      assert u == Yield(c.more) + rest;
    } else if c.Part? {
      LeadFront(rule, c, dirs);
      assert u[0] == c.lead[0];
    } else if c.end != [] {
      EndFront(rule, c, dirs);
      assert u[0] == c.end[0];
    } else {
      EndFront(rule, c, dirs);
      assert u == rest;
    }
  }

  lemma {:induction false} LeadFront(rule: Rule, c: Tree, dirs: seq<(string, string)>)
    requires c.Part? && Derives(rule, c, dirs) && !rule.ANode? && rule != FlowItems(true) && rule != FlowPairs(true)
    ensures c.lead != [] ==> c.lead[0].typ in Fronts(rule)
    ensures c.lead == [] ==> c.node.Omitted? && (rule.BlockValue? || rule.PairValue? || rule.FlowValue?)
  {
    hide Given, Expand;
    assert |Types(c.lead)| == |c.lead| && (c.lead != [] ==> Types(c.lead)[0] == c.lead[0].typ);
  }

  lemma {:induction false} EndFront(rule: Rule, c: Tree, dirs: seq<(string, string)>)
    requires !c.Part? && Derives(rule, c, dirs) && !rule.ANode? && rule != FlowItems(true) && rule != FlowPairs(true)
    ensures c.Close? && (c.end == [] ==> rule.IndentlessItems?) && (c.end != [] ==> c.end[0].typ in Fronts(rule))
  {
    hide Given, Expand;
    assert c.Close? ==> |Types(c.end)| == |c.end| && (c.end != [] ==> Types(c.end)[0] == c.end[0].typ);
  }

  lemma {:induction false} GivenSpelled(block: bool, indentless: bool, c: Tree, dirs: seq<(string, string)>,
                                        rest: seq<Token>, ends: set<TokenType>)
    requires Given(block, indentless, c, dirs) && Follows(rest, indentless)
    requires (c.Omitted? ==> rest[0].typ in ends) && forall t | t in ends ::
               Stops(t) && (indentless ==> !t.BlockEntryToken?)
    ensures D.Optional(Yield(c) + rest, dirs, block, indentless, ends) ==
            D.Spelled(Optional(block, indentless, c, dirs), rest, NoError)
    decreases c, 2
  {
    hide D.Node, NodeEvents, Derives;
    if c.Omitted? {
      assert Yield(c) + rest == rest;
    } else {
      NodeFront(c, block, indentless, dirs, rest);
      NodeSpelled(c, block, indentless, dirs, rest);
    }
  }

  lemma {:induction false} NodeSpelled(c: Tree, block: bool, indentless: bool, dirs: seq<(string, string)>,
                                       rest: seq<Token>)
    requires Derives(ANode(block, indentless), c, dirs) && Follows(rest, indentless)
    ensures D.Node(Yield(c) + rest, dirs, block, indentless) ==
            D.Spelled(NodeEvents(ANode(block, indentless), c, dirs), rest, NoError)
    decreases c, 0
  {
    hide Expand, AnchorIn, TagIn, D.Body, D.NodeProperties, D.Collection, Given;
    var u, v := Yield(c) + rest, c.content + (Yield(c.body) + rest);
    assert u == c.props + v;
    ContentFront(c, block, indentless, dirs, rest);
    if v[0].typ.AliasToken? {
      assert u == v && v[1..] == rest;
    } else {
      if c.props != [] {
        PropsFront(c.props, dirs);
        assert u[0] == c.props[0];
      } else {
        assert u == v;
      }
      PropsRead(c.props, dirs, v);
      if c.content != [] { assert v[0] == c.content[0]; }
      ContentSpelled(c, block, indentless, dirs, rest, u[0].startMark);
    }
  }

  /** The first token behind the properties of a node. */
  lemma {:induction false} ContentFront(c: Tree, block: bool, indentless: bool, dirs: seq<(string, string)>,
                                        rest: seq<Token>)
    requires Derives(ANode(block, indentless), c, dirs) && Follows(rest, indentless)
    ensures var v := c.content + (Yield(c.body) + rest);
            && v != [] && !v[0].typ.AnchorToken? && !v[0].typ.TagToken?
            && (v[0].typ.AliasToken? ==> c.props == [] && c.content == [v[0]] && c.body.Omitted?)
            && (v[0].typ.AliasToken? <== Types(c.content) == [AliasToken])
  {
    hide Derives, Types;
    var t := ContentType(c, block, indentless, dirs);
    var v := c.content + (Yield(c.body) + rest);
    if c.content != [] {
      assert v[0] == c.content[0];
    } else if c.body.Omitted? {
      assert v == rest;
      if Types(c.content) == [AliasToken] { OneType(c.content, AliasToken); }
    } else {
      assert v[0] == c.body.lead[0];
      if Types(c.content) == [AliasToken] { OneType(c.content, AliasToken); }
    }
  }

  lemma {:induction false} ContentSpelled(c: Tree, block: bool, indentless: bool, dirs: seq<(string, string)>,
                                          rest: seq<Token>, mark: int)
    requires Derives(ANode(block, indentless), c, dirs) && Follows(rest, indentless)
    requires c.content == [] || !c.content[0].typ.AliasToken?
    ensures var v := c.content + (Yield(c.body) + rest);
            v != [] &&
            D.Body(v, dirs, block, indentless, AnchorIn(c.props), TagIn(c.props, dirs), mark) ==
            D.Spelled(NodeEvents(ANode(block, indentless), c, dirs), rest, NoError)
    decreases c, 0, 0
  {
    hide Expand, AnchorIn, TagIn, Given, D.Body, Events, PropsOk, Types, NodeEvents;
    var v := c.content + (Yield(c.body) + rest);
    var t := ContentType(c, block, indentless, dirs);
    if c.body.Omitted? {
      assert Yield(c.body) + rest == rest;
      LeafSpelled(c, v, block, indentless, dirs, rest, mark);
    } else if c.content == [] {
      assert v == Yield(c.body) + rest && v[0] == c.body.lead[0];
      BodySpelled(IndentlessItems, c.body, dirs, rest, v[0].startMark);
      CollectionSpelled(IndentlessItems, c, v, block, indentless, dirs, rest);
    } else {
      assert v[0] == c.content[0] && v[1..] == Yield(c.body) + rest;
      BodySpelled(BodyOf(t), c.body, dirs, rest, v[0].startMark);
      CollectionSpelled(BodyOf(t), c, v, block, indentless, dirs, rest);
    }
  }

  lemma {:induction false} LeafSpelled(c: Tree, v: seq<Token>, block: bool, indentless: bool,
                                       dirs: seq<(string, string)>,
                    rest: seq<Token>, mark: int)
    requires Derives(ANode(block, indentless), c, dirs) && Follows(rest, indentless) && c.Node? && c.body.Omitted?
    requires if c.content == [] then AnchorIn(c.props) != "" || TagIn(c.props, dirs) != ""
             else |c.content| == 1 && c.content[0].typ.ScalarToken?
    requires v == c.content + rest
    ensures v != [] &&
            D.Body(v, dirs, block, indentless, AnchorIn(c.props), TagIn(c.props, dirs), mark) ==
            D.Spelled(NodeEvents(ANode(block, indentless), c, dirs), rest, NoError)
  {
    hide Expand, AnchorIn, TagIn, D.Collection, Events, Derives;
    if c.content == [] {
      assert v == rest;
    } else {
      assert v[1..] == rest && v[0] == c.content[0];
    }
  }

  lemma {:induction false} CollectionSpelled(rule: Rule, c: Tree, v: seq<Token>, block: bool, indentless: bool,
                          dirs: seq<(string, string)>,
                          rest: seq<Token>)
    requires Derives(ANode(block, indentless), c, dirs) && !c.body.Omitted? && v != []
    requires if c.content == [] then rule.IndentlessItems? && v[0].typ.BlockEntryToken? && v == Yield(c.body) + rest
             else Starts([v[0].typ], block) && rule == BodyOf(v[0].typ) && v == c.content + (Yield(c.body) + rest) &&
                  c.content == [v[0]]
    requires Derives(rule, c.body, dirs)
    requires Spell(rule, Yield(c.body) + rest, dirs, v[0].startMark) ==
             D.Spelled(Events(rule, c.body, dirs), rest, NoError)
    ensures D.Body(v, dirs, block, indentless, AnchorIn(c.props), TagIn(c.props, dirs), 0) ==
            D.Spelled(NodeEvents(ANode(block, indentless), c, dirs), rest, NoError)
    ensures forall mark ::
              D.Body(v, dirs, block, indentless, AnchorIn(c.props), TagIn(c.props, dirs), mark) ==
              D.Body(v, dirs, block, indentless, AnchorIn(c.props), TagIn(c.props, dirs), 0)
  {
    hide Expand, AnchorIn, TagIn, Given, Events, PropsOk;
    hide D.IndentlessEntries, D.BlockEntries, D.BlockPairs, D.FlowEntries, D.FlowPairs;
    assert [v[0].typ][0] == v[0].typ;
    if c.content != [] { assert v[1..] == Yield(c.body) + rest; }
  }

  // ---- Bodies ----

  lemma {:induction false} BodySpelled(rule: Rule, c: Tree, dirs: seq<(string, string)>, rest: seq<Token>, mark: int)
    requires !rule.ANode? && Derives(rule, c, dirs) && MayEnd(rule, rest)
    ensures Spell(rule, Yield(c) + rest, dirs, mark) == D.Spelled(Events(rule, c, dirs), rest, NoError)
    decreases c, 0
  {
    match rule
    case BlockItems => BlockItemsSpelled(c, dirs, rest, mark);
    case IndentlessItems => IndentlessSpelled(c, dirs, rest);
    case BlockPairs => BlockPairsSpelled(c, dirs, rest, mark);
    case BlockValue => BlockValueSpelled(c, dirs, rest, mark);
    case FlowItems(first) => FlowItemsSpelled(first, c, dirs, rest, mark);
    case PairValue => PairValueSpelled(c, dirs, rest, mark);
    case FlowPairs(first) => FlowPairsSpelled(first, c, dirs, rest, mark);
    case FlowValue(lone) => FlowValueSpelled(lone, c, dirs, rest, mark);
  }

  /** What follows a node in a body. */
  lemma {:induction false} MoreFollows(rule: Rule, c: Tree, dirs: seq<(string, string)>, rest: seq<Token>)
    requires !rule.ANode? && Derives(rule, c, dirs) && MayEnd(rule, rest)
    requires rule != FlowItems(true) && rule != FlowPairs(true)
    ensures var u := Yield(c) + rest;
            Follows(u, rule.BlockValue? || rule.BlockPairs?) && u[0].typ in Fronts(rule)
  {
    hide Derives;
    BodyFront(rule, c, dirs, rest);
  }

  lemma {:induction false} PartYield(c: Tree, rest: seq<Token>)
    requires c.Part?
    ensures Yield(c) + rest == c.lead + (Yield(c.node) + (Yield(c.more) + rest))
  {
  }

  lemma {:induction false} BlockItemsSpelled(c: Tree, dirs: seq<(string, string)>, rest: seq<Token>, mark: int)
    requires Derives(BlockItems, c, dirs)
    ensures D.BlockEntries(Yield(c) + rest, dirs, mark) == D.Spelled(Events(BlockItems, c, dirs), rest, NoError)
    decreases c, 0, 0
  {
    hide Given, D.Optional, Yield, Optional;
    var u := Yield(c) + rest;
    if c.Part? {
      var v := Yield(c.more) + rest;
      OneType(c.lead, BlockEntryToken);
      PartYield(c, rest);
      assert u[1..] == Yield(c.node) + v && u[0] == c.lead[0];
      MoreFollows(BlockItems, c.more, dirs, rest);
      GivenSpelled(true, false, c.node, dirs, v, D.ENDS_ENTRY);
      BlockItemsSpelled(c.more, dirs, rest, mark);
    } else {
      OneType(c.end, BlockEndToken);
      CloseYield(c, rest);
    }
  }

  lemma {:induction false} CloseYield(c: Tree, rest: seq<Token>)
    requires c.Close?
    ensures Yield(c) + rest == c.end + rest && (c.end + rest)[|c.end|..] == rest
    ensures |c.end| > 0 ==> (Yield(c) + rest)[0] == c.end[0] && (Yield(c) + rest)[1..] == c.end[1..] + rest
    ensures c.end == [] ==> Yield(c) + rest == rest
    ensures [] + rest == rest
  {
  }

  lemma {:induction false} IndentlessSpelled(c: Tree, dirs: seq<(string, string)>, rest: seq<Token>)
    requires Derives(IndentlessItems, c, dirs) && Follows(rest, true)
    ensures D.IndentlessEntries(Yield(c) + rest, dirs) == D.Spelled(Events(IndentlessItems, c, dirs), rest, NoError)
    decreases c, 0, 0
  {
    hide Given, D.Optional, Yield, Optional;
    var u := Yield(c) + rest;
    if c.Part? {
      var v := Yield(c.more) + rest;
      OneType(c.lead, BlockEntryToken);
      PartYield(c, rest);
      assert u[1..] == Yield(c.node) + v && u[0] == c.lead[0];
      MoreFollows(IndentlessItems, c.more, dirs, rest);
      GivenSpelled(true, false, c.node, dirs, v, D.ENDS_INDENTLESS);
      IndentlessSpelled(c.more, dirs, rest);
    } else {
      CloseYield(c, rest);
    }
  }

  lemma {:induction false} BlockPairsSpelled(c: Tree, dirs: seq<(string, string)>, rest: seq<Token>, mark: int)
    requires Derives(BlockPairs, c, dirs)
    ensures D.BlockPairs(Yield(c) + rest, dirs, mark) == D.Spelled(Events(BlockPairs, c, dirs), rest, NoError)
    decreases c, 0, 0
  {
    hide Given, D.Optional, Yield, Optional, D.BlockValue;
    var u := Yield(c) + rest;
    if c.Part? {
      var v := Yield(c.more) + rest;
      OneType(c.lead, KeyToken);
      PartYield(c, rest);
      assert u[1..] == Yield(c.node) + v && u[0] == c.lead[0];
      MoreFollows(BlockValue, c.more, dirs, rest);
      GivenSpelled(true, true, c.node, dirs, v, D.ENDS_BLOCK);
      BlockValueSpelled(c.more, dirs, rest, mark);
    } else {
      OneType(c.end, BlockEndToken);
      CloseYield(c, rest);
    }
  }

  lemma {:induction false} BlockValueSpelled(c: Tree, dirs: seq<(string, string)>, rest: seq<Token>, mark: int)
    requires Derives(BlockValue, c, dirs)
    ensures D.BlockValue(Yield(c) + rest, dirs, mark) == D.Spelled(Events(BlockValue, c, dirs), rest, NoError)
    decreases c, 0, 0
  {
    hide Given, D.Optional, Yield, Optional, D.BlockPairs, Types, NodeEvents, Paired, Ended, PropsOk, AnchorIn, TagIn;
    AsMany(c.lead);
    var u, v := Yield(c) + rest, Yield(c.more) + rest;
    PartYield(c, rest);
    MoreFollows(BlockPairs, c.more, dirs, rest);
    BlockPairsSpelled(c.more, dirs, rest, mark);
    if c.lead == [] {
      NothingThere(c, v, true, true, dirs);
      assert u == v;
    } else {
      OneType(c.lead, ValueToken);
      assert u[1..] == Yield(c.node) + v && u[0] == c.lead[0];
      GivenSpelled(true, true, c.node, dirs, v, D.ENDS_BLOCK);
    }
  }

  lemma {:induction false} NothingThere(c: Tree, v: seq<Token>, block: bool, indentless: bool,
                                        dirs: seq<(string, string)>)
    requires c.Part? && c.node.Omitted?
    ensures Yield(c.node) + v == v && [] + v == v
    ensures Given(block, indentless, c.node, dirs) && Optional(block, indentless, c.node, dirs) == [EMPTY]
    ensures D.EMPTY == EMPTY
  {
  }

  // ---- Flow collections ----

  /** The tokens of a part behind the comma. */
  function Behind(lead: seq<Token>, first: bool): seq<Token> {
    if first || lead == [] then lead else lead[1..]
  }

  lemma {:induction false} CommaFront(c: Tree, first: bool, rest: seq<Token>, more: seq<TokenType>)
    requires c.Part? && Types(c.lead) == Comma(first) + more
    ensures var u, w := Yield(c) + rest, Behind(c.lead, first) + (Yield(c.node) + (Yield(c.more) + rest));
            Types(Behind(c.lead, first)) == more &&
            if first then u == w else u != [] && u[0].typ.FlowEntryToken? && u[1..] == w
  {
    hide Types;
    PartYield(c, rest);
    assert [] + more == more;
    if !first {
      FirstType(c.lead, FlowEntryToken, more);
      assert c.lead == [c.lead[0]] + c.lead[1..];
    }
  }

  /** Where FlowEntries and FlowPairs start reading. */
  lemma {:induction false} CommaSkipped(u: seq<Token>, w: seq<Token>, first: bool, dirs: seq<(string, string)>,
                                        mark: int)
    requires w != [] && if first then u == w else u != [] && u[0].typ.FlowEntryToken? && u[1..] == w
    ensures D.FlowEntries(u, dirs, mark, first) == D.FlowEntry(w, dirs, mark)
    ensures D.FlowPairs(u, dirs, mark, first) == D.FlowPair(w, dirs, mark)
  {
    hide D.FlowEntry, D.FlowPair;
  }

  lemma {:induction false} FlowItemsSpelled(first: bool, c: Tree, dirs: seq<(string, string)>, rest: seq<Token>,
                                            mark: int)
    requires Derives(FlowItems(first), c, dirs)
    ensures D.FlowEntries(Yield(c) + rest, dirs, mark, first) ==
            D.Spelled(Events(FlowItems(first), c, dirs), rest, NoError)
    decreases c, 0, 1
  {
    hide Given, Yield, Optional, NodeEvents, D.FlowEntries, Types;
    if c.Close? {
      EndSpelled(c.end, first, FlowSequenceEndToken, rest, dirs, mark);
      CloseYield(c, rest);
    } else if Paired(c.lead) {
      PairSpelled(first, c, dirs, rest, mark);
    } else {
      LoneSpelled(first, c, dirs, rest, mark);
    }
  }

  lemma {:induction false} LoneSpelled(first: bool, c: Tree, dirs: seq<(string, string)>, rest: seq<Token>, mark: int)
    requires Derives(FlowItems(first), c, dirs) && c.Part? && !Paired(c.lead)
    ensures D.FlowEntries(Yield(c) + rest, dirs, mark, first) ==
            D.Spelled(Events(FlowItems(first), c, dirs), rest, NoError)
    decreases c, 0, 0
  {
    hide Given, Yield, Optional, NodeEvents, D.FlowEntry, D.Node, D.FlowEntries, Types;
    var u, v := Yield(c) + rest, Yield(c.more) + rest;
    assert Comma(first) + [] == Comma(first);
    CommaFront(c, first, rest, []);
    NoTypes(Behind(c.lead, first));
    var w := Yield(c.node) + v;
    assert [] + w == w;
    MoreFollows(FlowItems(false), c.more, dirs, rest);
    NodeFront(c.node, false, false, dirs, v);
    CommaSkipped(u, w, first, dirs, mark);
    NodeSpelled(c.node, false, false, dirs, v);
    FlowItemsSpelled(false, c.more, dirs, rest, mark);
    FlowNode(c.node, dirs);
    LoneItem(w, dirs, mark);
  }

  lemma {:induction false} LoneItem(w: seq<Token>, dirs: seq<(string, string)>, mark: int)
    requires w != [] && !Stops(w[0].typ)
    ensures var n := D.Node(w, dirs, false, false);
            n.error.NoError? ==> D.FlowEntry(w, dirs, mark) == D.After(n, D.FlowEntries(n.rest, dirs, mark, false))
  {
    hide D.FlowEntries, D.Node;
  }

  lemma {:induction false} FlowNode(c: Tree, dirs: seq<(string, string)>)
    requires Derives(ANode(false, false), c, dirs)
    ensures Given(false, false, c, dirs) && Optional(false, false, c, dirs) == NodeEvents(ANode(false, false), c, dirs)
  {
    hide NodeEvents;
  }

  /** The end of a flow collection, perhaps behind a comma. */
  lemma {:induction false} EndSpelled(end: seq<Token>, first: bool, t: TokenType, rest: seq<Token>,
                                      dirs: seq<(string, string)>, mark: int)
    requires Ended(end, first, t)
    ensures t.FlowSequenceEndToken? ==> D.FlowEntries(end + rest, dirs, mark, first) == D.Done(SequenceEnd, rest)
    ensures t.FlowMappingEndToken? ==> D.FlowPairs(end + rest, dirs, mark, first) == D.Done(MappingEnd, rest)
  {
    var u := end + rest;
    if Types(end) == [t] {
      OneType(end, t);
      assert u[1..] == rest;
    } else {
      TwoTypes(end, FlowEntryToken, t);
      assert u[1..][1..] == rest && u[1..][0] == end[1];
    }
  }

  lemma {:induction false} PairSpelled(first: bool, c: Tree, dirs: seq<(string, string)>, rest: seq<Token>, mark: int)
    requires Derives(FlowItems(first), c, dirs) && c.Part? && Paired(c.lead)
    ensures D.FlowEntries(Yield(c) + rest, dirs, mark, first) ==
            D.Spelled(Events(FlowItems(first), c, dirs), rest, NoError)
    decreases c, 0, 0
  {
    hide Given, Yield, Optional, NodeEvents, D.FlowEntry, D.Node, D.PairValue, Types;
    var u, v := Yield(c) + rest, Yield(c.more) + rest;
    MoreFollows(PairValue, c.more, dirs, rest);
    PairValueSpelled(c.more, dirs, rest, mark);
    var lead := Behind(c.lead, first);
    var w := lead + (Yield(c.node) + v);
    if c.node.Omitted? {
      var t :| t in ENDS_PAIR_KEY && Types(c.lead) == Comma(first) + [KeyToken, t];
      CommaFront(c, first, rest, [KeyToken, t]);
      TwoTypes(lead, KeyToken, t);
      NothingThere(c, v, false, false, dirs);
      CommaSkipped(u, w, first, dirs, mark);
      assert w == [lead[0], lead[1]] + v && w[1..][1..] == v;
      EmptyKey(w, dirs, mark);
    } else {
      CommaFront(c, first, rest, [KeyToken]);
      OneType(lead, KeyToken);
      CommaSkipped(u, w, first, dirs, mark);
      assert w[1..] == Yield(c.node) + v;
      NodeFront(c.node, false, false, dirs, v);
      assert w[1] == w[1..][0];
      NodeSpelled(c.node, false, false, dirs, v);
      FlowNode(c.node, dirs);
      GivenKey(w, dirs, mark);
    }
    PairEvents(first, c, dirs);
  }

  lemma {:induction false} PairEvents(first: bool, c: Tree, dirs: seq<(string, string)>)
    requires Derives(FlowItems(first), c, dirs) && c.Part? && Paired(c.lead)
    ensures Derives(PairValue, c.more, dirs) && Given(false, false, c.node, dirs)
    ensures Events(FlowItems(first), c, dirs) ==
            [MappingStart("", "", true, Flow)] +
              (Optional(false, false, c.node, dirs) + Events(PairValue, c.more, dirs))
  {
    hide Types, Optional;
  }

  lemma {:induction false} EmptyKey(w: seq<Token>, dirs: seq<(string, string)>, mark: int)
    requires |w| > 1 && w[0].typ.KeyToken? && w[1].typ in ENDS_PAIR_KEY
    ensures D.FlowEntry(w, dirs, mark) ==
            D.Before(MappingStart("", "", true, Flow), D.Before(EMPTY, D.PairValue(w[1..][1..], dirs, mark)))
  {
    hide D.PairValue;
  }

  lemma {:induction false} GivenKey(w: seq<Token>, dirs: seq<(string, string)>, mark: int)
    requires |w| > 1 && w[0].typ.KeyToken? && !Stops(w[1].typ)
    ensures var n := D.Node(w[1..], dirs, false, false);
            n.error.NoError? ==>
              D.FlowEntry(w, dirs, mark) ==
              D.Before(MappingStart("", "", true, Flow), D.After(n, D.PairValue(n.rest, dirs, mark)))
  {
    hide D.PairValue, D.Node;
  }

  lemma {:induction false} PairValueSpelled(c: Tree, dirs: seq<(string, string)>, rest: seq<Token>, mark: int)
    requires Derives(PairValue, c, dirs)
    ensures D.PairValue(Yield(c) + rest, dirs, mark) == D.Spelled(Events(PairValue, c, dirs), rest, NoError)
    decreases c, 0, 0
  {
    hide Given, D.Optional, Yield, Optional, D.FlowEntries, Types, D.PairEnd;
    var u, v := Yield(c) + rest, Yield(c.more) + rest;
    PartYield(c, rest);
    ValueEvents(c, dirs);
    MoreFollows(FlowItems(false), c.more, dirs, rest);
    FlowItemsSpelled(false, c.more, dirs, rest, mark);
    PairEndSpelled(v, dirs, mark);
    AsMany(c.lead);
    if c.lead == [] {
      NothingThere(c, v, false, false, dirs);
      assert u == v;
    } else {
      OneType(c.lead, ValueToken);
      assert u[1..] == Yield(c.node) + v && u[0] == c.lead[0];
      GivenSpelled(false, false, c.node, dirs, v, D.ENDS_PAIR);
    }
  }

  lemma {:induction false} PairEndSpelled(v: seq<Token>, dirs: seq<(string, string)>, mark: int)
    requires v != []
    ensures D.PairEnd(v, dirs, mark) == D.Before(MappingEnd, D.FlowEntries(v, dirs, mark, false))
  {
    hide D.FlowEntries;
  }

  lemma {:induction false} ValueEvents(c: Tree, dirs: seq<(string, string)>)
    requires Derives(PairValue, c, dirs)
    ensures c.Part? && Derives(FlowItems(false), c.more, dirs) && Given(false, false, c.node, dirs)
    ensures Events(PairValue, c, dirs) ==
            Optional(false, false, c.node, dirs) + ([MappingEnd] + Events(FlowItems(false), c.more, dirs))
  {
    hide Types, Optional;
  }

  lemma {:induction false} FlowPairsSpelled(first: bool, c: Tree, dirs: seq<(string, string)>, rest: seq<Token>,
                                            mark: int)
    requires Derives(FlowPairs(first), c, dirs)
    ensures D.FlowPairs(Yield(c) + rest, dirs, mark, first) ==
            D.Spelled(Events(FlowPairs(first), c, dirs), rest, NoError)
    decreases c, 0, 0
  {
    hide Given, Yield, Optional, NodeEvents, D.FlowPair, D.Node, D.Optional, D.FlowValue;
    var u := Yield(c) + rest;
    if c.Close? {
      EndSpelled(c.end, first, FlowMappingEndToken, rest, dirs, mark);
      CloseYield(c, rest);
    } else {
      var v, lead, lone := Yield(c.more) + rest, Behind(c.lead, first), !Paired(c.lead);
      MoreFollows(FlowValue(lone), c.more, dirs, rest);
      FlowValueSpelled(lone, c.more, dirs, rest, mark);
      var w := lead + (Yield(c.node) + v);
      if lone {
        assert Comma(first) + [] == Comma(first);
        CommaFront(c, first, rest, []);
        NoTypes(lead);
        assert w == Yield(c.node) + v;
        NodeFront(c.node, false, false, dirs, v);
        CommaSkipped(u, w, first, dirs, mark);
        NodeSpelled(c.node, false, false, dirs, v);
        FlowNode(c.node, dirs);
        LonePair(w, dirs, mark);
      } else {
        CommaFront(c, first, rest, [KeyToken]);
        OneType(lead, KeyToken);
        CommaSkipped(u, w, first, dirs, mark);
        assert w[1..] == Yield(c.node) + v;
        GivenSpelled(false, false, c.node, dirs, v, D.ENDS_FLOW_KEY);
        KeyedPair(w, dirs, mark);
      }
    }
  }

  lemma {:induction false} LonePair(w: seq<Token>, dirs: seq<(string, string)>, mark: int)
    requires w != [] && !Stops(w[0].typ)
    ensures var n := D.Node(w, dirs, false, false);
            n.error.NoError? ==> D.FlowPair(w, dirs, mark) == D.After(n, D.FlowValue(n.rest, dirs, mark, true))
  {
    hide D.FlowValue, D.Node;
  }

  lemma {:induction false} KeyedPair(w: seq<Token>, dirs: seq<(string, string)>, mark: int)
    requires w != [] && w[0].typ.KeyToken?
    ensures var n := D.Optional(w[1..], dirs, false, false, D.ENDS_FLOW_KEY);
            n.error.NoError? ==> D.FlowPair(w, dirs, mark) == D.After(n, D.FlowValue(n.rest, dirs, mark, false))
  {
    hide D.FlowValue, D.Optional;
  }

  lemma {:induction false} FlowValueSpelled(lone: bool, c: Tree, dirs: seq<(string, string)>, rest: seq<Token>,
                                            mark: int)
    requires Derives(FlowValue(lone), c, dirs)
    ensures D.FlowValue(Yield(c) + rest, dirs, mark, lone) ==
            D.Spelled(Events(FlowValue(lone), c, dirs), rest, NoError)
    decreases c, 0, 0
  {
    hide Given, D.Optional, Yield, Optional, D.FlowPairs;
    var u, v := Yield(c) + rest, Yield(c.more) + rest;
    PartYield(c, rest);
    MoreFollows(FlowPairs(false), c.more, dirs, rest);
    FlowPairsSpelled(false, c.more, dirs, rest, mark);
    if c.lead == [] {
      NothingThere(c, v, false, false, dirs);
      assert u == v;
    } else {
      OneType(c.lead, ValueToken);
      assert u[1..] == Yield(c.node) + v && u[0] == c.lead[0];
      GivenSpelled(false, false, c.node, dirs, v, D.ENDS_FLOW);
    }
  }

  // ---- And nothing else is accepted ----

  lemma PropsOf(ts: seq<Token>, dirs: seq<(string, string)>) returns (props: seq<Token>)
    requires ts != [] && D.NodeProperties(ts, dirs).error.NoError?
    ensures var p := D.NodeProperties(ts, dirs);
            PropsOk(props, dirs) && ts == props + p.rest && p.anchor == AnchorIn(props) && p.tag == TagIn(props, dirs)
  {
    hide Expand;
    var p := D.NodeProperties(ts, dirs);
    if !ts[0].typ.AnchorToken? && !ts[0].typ.TagToken? {
      props := [];
      assert ts == [] + ts && Types(props) == [];
    } else if |p.rest| == |ts| - 1 {
      props := [ts[0]];
      assert Types(props) == [ts[0].typ] && props[1..] == [];
      assert ts == props + ts[1..];
    } else {
      props := [ts[0], ts[1]];
      assert Types(props) == [ts[0].typ, ts[1].typ];
      assert props[1..] == [ts[1]] && [ts[1]][1..] == [];
      assert AnchorIn([]) == "" && TagIn([], dirs) == "";
      assert ts == props + ts[2..];
    }
  }

  lemma One(t: Token)
    ensures Types([t]) == [t.typ]
  {
  }

  lemma {:induction false} NodeParsed(ts: seq<Token>, dirs: seq<(string, string)>, block: bool, indentless: bool)
    returns (c: Tree)
    requires D.Node(ts, dirs, block, indentless).error.NoError?
    ensures Parsed(ANode(block, indentless), c, ts, dirs, D.Node(ts, dirs, block, indentless))
    ensures Derives(ANode(block, indentless), c, dirs)
    ensures Events(ANode(block, indentless), c, dirs) == NodeEvents(ANode(block, indentless), c, dirs)
    decreases |ts|, 2
  {
    hide Expand, Types, PropsOk, AnchorIn, TagIn, D.Body, D.NodeProperties, NodeEvents, Derives, Events, Yield;
    if ts[0].typ.AliasToken? {
      c := Node([], [ts[0]], Omitted);
      AliasMade(c, ts[0], block, indentless, dirs);
      EventsOfNode(c, block, indentless, dirs);
      assert ts == [ts[0]] + ts[1..];
    } else {
      var props := PropsOf(ts, dirs);
      var p := D.NodeProperties(ts, dirs);
      c := BodyParsed(props, p.rest, dirs, block, indentless, ts[0].startMark);
      EventsOfNode(c, block, indentless, dirs);
    }
  }

  lemma {:induction false} EventsOfNode(c: Tree, block: bool, indentless: bool, dirs: seq<(string, string)>)
    requires Derives(ANode(block, indentless), c, dirs)
    ensures Events(ANode(block, indentless), c, dirs) == NodeEvents(ANode(block, indentless), c, dirs)
  {
    hide NodeEvents;
  }

  lemma {:induction false} AliasMade(c: Tree, t: Token, block: bool, indentless: bool, dirs: seq<(string, string)>)
    requires c == Node([], [t], Omitted) && t.typ.AliasToken?
    ensures Derives(ANode(block, indentless), c, dirs)
    ensures NodeEvents(ANode(block, indentless), c, dirs) == [Alias(t.value)] && Yield(c) == [t]
  {
    One(t);
    assert Types([]) == [];
  }

  lemma {:induction false} BodyParsed(props: seq<Token>, ts: seq<Token>, dirs: seq<(string, string)>,
                                      block: bool, indentless: bool, mark: int) returns (c: Tree)
    requires PropsOk(props, dirs) && ts != []
    requires D.Body(ts, dirs, block, indentless, AnchorIn(props), TagIn(props, dirs), mark).error.NoError?
    ensures var r := D.Body(ts, dirs, block, indentless, AnchorIn(props), TagIn(props, dirs), mark);
            && Derives(ANode(block, indentless), c, dirs) && props + ts == Yield(c) + r.rest
            && r.events == NodeEvents(ANode(block, indentless), c, dirs)
    decreases |ts|, 1
  {
    hide Expand, Types, PropsOk, AnchorIn, TagIn, NodeEvents, Derives, D.Collection;
    if D.Opens(ts[0].typ, block, indentless) {
      c := CollectionParsed(props, ts, dirs, block, indentless);
    } else {
      c := Node(props, if ts[0].typ.ScalarToken? then [ts[0]] else [], Omitted);
      LeafMade(c, block, indentless, dirs);
      if ts[0].typ.ScalarToken? {
        assert props + ts == props + [ts[0]] + [] + ts[1..];
      } else {
        assert props + ts == props + [] + [] + ts;
      }
    }
  }

  lemma {:induction false} LeafMade(c: Tree, block: bool, indentless: bool, dirs: seq<(string, string)>)
    requires c.Node? && c.body.Omitted? && PropsOk(c.props, dirs)
    requires if c.content == [] then AnchorIn(c.props) != "" || TagIn(c.props, dirs) != ""
             else |c.content| == 1 && c.content[0].typ.ScalarToken?
    ensures Derives(ANode(block, indentless), c, dirs)
    ensures NodeEvents(ANode(block, indentless), c, dirs) ==
            var anchor, tag := AnchorIn(c.props), TagIn(c.props, dirs);
            if c.content == [] then [Scalar(anchor, tag, "", tag == "", false, Plain)]
            else
              var plain := (tag == "" && c.content[0].style.Plain?) || tag == "!";
              [Scalar(anchor, tag, c.content[0].value, plain, !plain && tag == "", c.content[0].style)]
  {
    hide Expand, AnchorIn, TagIn, PropsOk;
    if c.content != [] {
      assert c.content == [c.content[0]];
      One(c.content[0]);
    }
  }

  lemma {:induction false} CollectionMade(c: Tree, rule: Rule, block: bool, indentless: bool,
                                          dirs: seq<(string, string)>)
    requires c.Node? && PropsOk(c.props, dirs) && Derives(rule, c.body, dirs)
    requires if c.content == [] then indentless && rule.IndentlessItems? && c.body.Part?
             else |c.content| == 1 && Starts([c.content[0].typ], block) && rule == BodyOf(c.content[0].typ)
    ensures !c.body.Omitted? && Derives(ANode(block, indentless), c, dirs)
    ensures var anchor, tag, es := AnchorIn(c.props), TagIn(c.props, dirs), Events(rule, c.body, dirs);
            NodeEvents(ANode(block, indentless), c, dirs) ==
            if c.content == [] then [SequenceStart(anchor, tag, tag == "", Block)] + es
            else
              [match c.content[0].typ
               case FlowSequenceStartToken => SequenceStart(anchor, tag, tag == "", Flow)
               case FlowMappingStartToken => MappingStart(anchor, tag, tag == "", Flow)
               case BlockSequenceStartToken => SequenceStart(anchor, tag, tag == "", Block)
               case _ => MappingStart(anchor, tag, tag == "", Block)] + es
  {
    hide Expand, AnchorIn, TagIn, PropsOk, Events;
    BodyIsBody(rule, c.body, dirs);
    if c.content != [] {
      assert c.content == [c.content[0]];
      One(c.content[0]);
      assert Types(c.content)[0] == c.content[0].typ;
    }
  }

  lemma {:induction false} BodyIsBody(rule: Rule, c: Tree, dirs: seq<(string, string)>)
    requires Derives(rule, c, dirs) && !rule.ANode?
    ensures !c.Omitted?
  {
  }

  lemma {:induction false} CollectionParsed(props: seq<Token>, ts: seq<Token>, dirs: seq<(string, string)>,
                                            block: bool, indentless: bool) returns (c: Tree)
    requires PropsOk(props, dirs) && ts != [] && D.Opens(ts[0].typ, block, indentless)
    requires D.Collection(ts, dirs, block, indentless, AnchorIn(props), TagIn(props, dirs)).error.NoError?
    ensures var r := D.Collection(ts, dirs, block, indentless, AnchorIn(props), TagIn(props, dirs));
            && Derives(ANode(block, indentless), c, dirs) && props + ts == Yield(c) + r.rest
            && r.events == NodeEvents(ANode(block, indentless), c, dirs)
    decreases |ts|, 0, 1
  {
    hide Expand, Types, PropsOk, AnchorIn, TagIn, NodeEvents, Derives, Events;
    hide D.IndentlessEntries, D.BlockEntries, D.BlockPairs, D.FlowEntries, D.FlowPairs;
    var body, rule, mark := Omitted, BodyOf(ts[0].typ), ts[0].startMark;
    match ts[0].typ {
      case BlockEntryToken =>
        rule := IndentlessItems;
        body := IndentlessParsed(ts, dirs);
      case FlowSequenceStartToken => body := FlowItemsParsed(true, ts[1..], dirs, mark);
      case FlowMappingStartToken => body := FlowPairsParsed(true, ts[1..], dirs, mark);
      case BlockSequenceStartToken => body := BlockItemsParsed(ts[1..], dirs, mark);
      case BlockMappingStartToken => body := BlockPairsParsed(ts[1..], dirs, mark);
    }
    var content := if ts[0].typ.BlockEntryToken? then [] else [ts[0]];
    c := Node(props, content, body);
    CollectionMade(c, rule, block, indentless, dirs);
    NodeJoins(props, content, body, ts,
      D.Collection(ts, dirs, block, indentless, AnchorIn(props), TagIn(props, dirs)).rest);
  }

  lemma {:induction false} NodeJoins(props: seq<Token>, content: seq<Token>, body: Tree, ts: seq<Token>,
                                     rest: seq<Token>)
    requires content <= ts && ts[|content|..] == Yield(body) + rest
    ensures props + ts == Yield(Node(props, content, body)) + rest
  {
    assert ts == content + (Yield(body) + rest);
  }

  /** What was spelled is the tree of a nonterminal. */
  ghost predicate Parsed(rule: Rule, c: Tree, ts: seq<Token>, dirs: seq<(string, string)>, r: D.Spelled) {
    r.error.NoError? && Derives(rule, c, dirs) && ts == Yield(c) + r.rest && r.events == Events(rule, c, dirs)
  }

  lemma {:induction false} PartJoins(lead: seq<Token>, item: Tree, more: Tree, ts: seq<Token>, us: seq<Token>,
                                     rest: seq<Token>)
    requires ts == lead + (Yield(item) + us) && us == Yield(more) + rest
    ensures ts == Yield(Part(lead, item, more)) + rest
  {
  }

  lemma CloseJoins(end: seq<Token>, ts: seq<Token>)
    requires end <= ts
    ensures ts == Yield(Close(end)) + ts[|end|..]
  {
  }

  lemma {:induction false} GivenParsed(ts: seq<Token>, dirs: seq<(string, string)>, block: bool, indentless: bool,
                                       ends: set<TokenType>) returns (c: Tree)
    requires D.Optional(ts, dirs, block, indentless, ends).error.NoError?
    ensures var r := D.Optional(ts, dirs, block, indentless, ends);
            && Given(block, indentless, c, dirs) && ts == Yield(c) + r.rest
            && r.events == Optional(block, indentless, c, dirs)
    decreases |ts|, 3
  {
    hide D.Node, Derives, NodeEvents;
    if ts[0].typ in ends {
      c := Omitted;
      assert ts == [] + ts;
    } else {
      c := NodeParsed(ts, dirs, block, indentless);
      NotOmitted(c, block, indentless, dirs);
    }
  }

  lemma {:induction false} NotOmitted(c: Tree, block: bool, indentless: bool, dirs: seq<(string, string)>)
    requires Derives(ANode(block, indentless), c, dirs)
    ensures !c.Omitted?
  {
  }

  // ---- What the parts of each body are ----

  lemma {:induction false} BlockItemMade(indentless: bool, c: Tree, dirs: seq<(string, string)>)
    requires c.Part? && |c.lead| == 1 && c.lead[0].typ.BlockEntryToken? && Given(true, false, c.node, dirs)
    requires Derives(if indentless then IndentlessItems else BlockItems, c.more, dirs)
    ensures var rule := if indentless then IndentlessItems else BlockItems;
            && Derives(rule, c, dirs)
            && Events(rule, c, dirs) == Optional(true, false, c.node, dirs) + Events(rule, c.more, dirs)
  {
    hide Given, Optional, Types;
    assert c.lead == [c.lead[0]];
    One(c.lead[0]);
  }

  lemma {:induction false} CloseMade(rule: Rule, c: Tree, first: bool, dirs: seq<(string, string)>)
    requires c.Close?
    requires match rule
             case BlockItems => |c.end| == 1 && c.end[0].typ.BlockEndToken?
             case IndentlessItems => c.end == []
             case BlockPairs => |c.end| == 1 && c.end[0].typ.BlockEndToken?
             case FlowItems(_) => rule.first == first && Ended(c.end, first, FlowSequenceEndToken)
             case FlowPairs(_) => rule.first == first && Ended(c.end, first, FlowMappingEndToken)
             case _ => false
    ensures Derives(rule, c, dirs)
    ensures Events(rule, c, dirs) ==
            if rule.BlockItems? || rule.IndentlessItems? || rule.FlowItems? then [SequenceEnd] else [MappingEnd]
  {
    hide Given, Optional, Types;
    if |c.end| == 1 {
      assert c.end == [c.end[0]];
      One(c.end[0]);
    }
  }

  lemma {:induction false} BlockPairMade(c: Tree, dirs: seq<(string, string)>)
    requires c.Part? && |c.lead| == 1 && c.lead[0].typ.KeyToken? && Given(true, true, c.node, dirs)
    requires Derives(BlockValue, c.more, dirs)
    ensures Derives(BlockPairs, c, dirs)
    ensures Events(BlockPairs, c, dirs) == Optional(true, true, c.node, dirs) + Events(BlockValue, c.more, dirs)
  {
    hide Given, Optional, Types;
    assert c.lead == [c.lead[0]];
    One(c.lead[0]);
  }

  /** The value of a pair, or none. */
  lemma {:induction false} ValueDerived(rule: Rule, c: Tree, block: bool, dirs: seq<(string, string)>)
    requires c.Part? && Given(block, block, c.node, dirs) && (rule.BlockValue? || rule.PairValue? || rule.FlowValue?)
    requires if c.lead == [] then c.node.Omitted? else |c.lead| == 1 && c.lead[0].typ.ValueToken?
    requires block == rule.BlockValue? && Derives(MoreOf(rule), c.more, dirs)
    requires rule.FlowValue? && rule.lone ==> c.lead == []
    ensures Derives(rule, c, dirs)
  {
    hide Given, Types;
    if c.lead != [] {
      assert c.lead == [c.lead[0]];
      One(c.lead[0]);
    }
  }

  lemma {:induction false} ValueMade(rule: Rule, c: Tree, block: bool, dirs: seq<(string, string)>)
    requires c.Part? && Given(block, block, c.node, dirs) && (rule.BlockValue? || rule.PairValue? || rule.FlowValue?)
    requires if c.lead == [] then c.node.Omitted? else |c.lead| == 1 && c.lead[0].typ.ValueToken?
    requires block == rule.BlockValue? && Derives(MoreOf(rule), c.more, dirs)
    requires rule.FlowValue? && rule.lone ==> c.lead == []
    ensures Derives(rule, c, dirs)
    ensures Events(rule, c, dirs) ==
            Optional(block, block, c.node, dirs) +
            ((if rule.PairValue? then [MappingEnd] else []) + Events(MoreOf(rule), c.more, dirs))
  {
    hide Given, Optional, Types, NodeEvents, Derives;
    ValueDerived(rule, c, block, dirs);
    Joined(Optional(block, block, c.node, dirs), [MappingEnd], Events(MoreOf(rule), c.more, dirs));
  }

  lemma Joined<T>(a: seq<T>, b: seq<T>, c: seq<T>)
    ensures a + (b + c) == a + b + c && [] + c == c
  {
  }

  /** What comes behind the value of a pair. */
  function MoreOf(rule: Rule): Rule {
    if rule.BlockValue? then BlockPairs else if rule.PairValue? then FlowItems(false) else FlowPairs(false)
  }

  // ---- Block collections ----

  lemma {:induction false} BlockItemsParsed(ts: seq<Token>, dirs: seq<(string, string)>, mark: int) returns (c: Tree)
    requires D.BlockEntries(ts, dirs, mark).error.NoError?
    ensures Parsed(BlockItems, c, ts, dirs, D.BlockEntries(ts, dirs, mark))
    decreases |ts|, 0
  {
    hide D.Optional, Given, Optional, Types, Yield, Derives, Events;
    if ts[0].typ.BlockEntryToken? {
      var n := D.Optional(ts[1..], dirs, true, false, D.ENDS_ENTRY);
      var item := GivenParsed(ts[1..], dirs, true, false, D.ENDS_ENTRY);
      var more := BlockItemsParsed(n.rest, dirs, mark);
      c := Part([ts[0]], item, more);
      BlockItemMade(false, c, dirs);
      PartJoins([ts[0]], item, more, ts, n.rest, D.BlockEntries(n.rest, dirs, mark).rest);
    } else {
      c := Close([ts[0]]);
      CloseMade(BlockItems, c, true, dirs);
      CloseJoins([ts[0]], ts);
    }
  }

  lemma {:induction false} IndentlessParsed(ts: seq<Token>, dirs: seq<(string, string)>) returns (c: Tree)
    requires D.IndentlessEntries(ts, dirs).error.NoError?
    ensures Parsed(IndentlessItems, c, ts, dirs, D.IndentlessEntries(ts, dirs))
    ensures ts != [] && ts[0].typ.BlockEntryToken? ==> c.Part?
    decreases |ts|, 0, 0
  {
    hide D.Optional, Given, Optional, Types, Yield, Derives, Events;
    if ts[0].typ.BlockEntryToken? {
      var n := D.Optional(ts[1..], dirs, true, false, D.ENDS_INDENTLESS);
      var item := GivenParsed(ts[1..], dirs, true, false, D.ENDS_INDENTLESS);
      var more := IndentlessParsed(n.rest, dirs);
      c := Part([ts[0]], item, more);
      BlockItemMade(true, c, dirs);
      PartJoins([ts[0]], item, more, ts, n.rest, D.IndentlessEntries(n.rest, dirs).rest);
    } else {
      c := Close([]);
      CloseMade(IndentlessItems, c, true, dirs);
      CloseJoins([], ts);
    }
  }

  lemma {:induction false} BlockPairsParsed(ts: seq<Token>, dirs: seq<(string, string)>, mark: int) returns (c: Tree)
    requires D.BlockPairs(ts, dirs, mark).error.NoError?
    ensures Parsed(BlockPairs, c, ts, dirs, D.BlockPairs(ts, dirs, mark))
    decreases |ts|, 0
  {
    hide D.Optional, Given, Optional, Types, Yield, Derives, Events, D.BlockValue;
    if ts[0].typ.KeyToken? {
      var n := D.Optional(ts[1..], dirs, true, true, D.ENDS_BLOCK);
      var key := GivenParsed(ts[1..], dirs, true, true, D.ENDS_BLOCK);
      var more := BlockValueParsed(n.rest, dirs, mark);
      c := Part([ts[0]], key, more);
      BlockPairMade(c, dirs);
      PartJoins([ts[0]], key, more, ts, n.rest, D.BlockValue(n.rest, dirs, mark).rest);
    } else {
      c := Close([ts[0]]);
      CloseMade(BlockPairs, c, true, dirs);
      CloseJoins([ts[0]], ts);
    }
  }

  lemma {:induction false} BlockValueParsed(ts: seq<Token>, dirs: seq<(string, string)>, mark: int) returns (c: Tree)
    requires D.BlockValue(ts, dirs, mark).error.NoError?
    ensures Parsed(BlockValue, c, ts, dirs, D.BlockValue(ts, dirs, mark))
    decreases |ts|, 1
  {
    hide D.Optional, Given, Optional, Types, Yield, Derives, Events, D.BlockPairs;
    if ts[0].typ.ValueToken? {
      var n := D.Optional(ts[1..], dirs, true, true, D.ENDS_BLOCK);
      var value := GivenParsed(ts[1..], dirs, true, true, D.ENDS_BLOCK);
      var more := BlockPairsParsed(n.rest, dirs, mark);
      c := Part([ts[0]], value, more);
      assert [] + Events(BlockPairs, more, dirs) == Events(BlockPairs, more, dirs);
      ValueMade(BlockValue, c, true, dirs);
      PartJoins([ts[0]], value, more, ts, n.rest, D.BlockPairs(n.rest, dirs, mark).rest);
    } else {
      var more := BlockPairsParsed(ts, dirs, mark);
      c := Part([], Omitted, more);
      assert [] + Events(BlockPairs, more, dirs) == Events(BlockPairs, more, dirs);
      NothingThere(c, ts, true, true, dirs);
      ValueMade(BlockValue, c, true, dirs);
      PartJoins([], Omitted, more, ts, ts, D.BlockPairs(ts, dirs, mark).rest);
    }
  }

  // ---- Flow collections ----

  lemma LoneMade(rule: Rule, first: bool, c: Tree, dirs: seq<(string, string)>)
    requires rule == FlowItems(first) || rule == FlowPairs(first)
    requires c.Part? && Types(c.lead) == Comma(first) && Derives(ANode(false, false), c.node, dirs)
    requires Derives(if rule.FlowItems? then FlowItems(false) else FlowValue(true), c.more, dirs)
    ensures Derives(rule, c, dirs) && Given(false, false, c.node, dirs)
    ensures Events(rule, c, dirs) ==
            Optional(false, false, c.node, dirs) +
            Events(if rule.FlowItems? then FlowItems(false) else FlowValue(true), c.more, dirs)
  {
    hide Optional, NodeEvents;
    NotOmitted(c.node, false, false, dirs);
    assert |Types(c.lead)| == |c.lead|;
    assert forall i :: 0 <= i < |c.lead| ==> c.lead[i].typ == Types(c.lead)[i];
  }

  lemma {:induction false} PairMade(first: bool, c: Tree, dirs: seq<(string, string)>)
    requires c.Part? && Derives(PairValue, c.more, dirs)
    requires if c.node.Omitted? then exists t | t in ENDS_PAIR_KEY :: Types(c.lead) == Comma(first) + [KeyToken, t]
             else Types(c.lead) == Comma(first) + [KeyToken] && Derives(ANode(false, false), c.node, dirs)
    ensures Derives(FlowItems(first), c, dirs) && Given(false, false, c.node, dirs) && Paired(c.lead)
  {
    hide Optional, NodeEvents;
    var k := |Comma(first)|;
    assert |Types(c.lead)| == |c.lead| && Types(c.lead)[k] == c.lead[k].typ;
  }

  lemma {:induction false} KeyedMade(first: bool, c: Tree, dirs: seq<(string, string)>)
    requires c.Part? && Derives(FlowValue(false), c.more, dirs) && Given(false, false, c.node, dirs)
    requires Types(c.lead) == Comma(first) + [KeyToken]
    ensures Derives(FlowPairs(first), c, dirs)
    ensures Events(FlowPairs(first), c, dirs) ==
            Optional(false, false, c.node, dirs) + Events(FlowValue(false), c.more, dirs)
  {
    hide Optional, Given;
    var k := |Comma(first)|;
    assert |Types(c.lead)| == |c.lead| && Types(c.lead)[k] == c.lead[k].typ;
  }

  /** The comma in front, if any, and where reading goes on. */
  lemma CommaOf(ts: seq<Token>, first: bool, end: TokenType) returns (comma: seq<Token>)
    requires ts != [] && !first ==> ts[0].typ == end || ts[0].typ.FlowEntryToken?
    requires end.FlowSequenceEndToken? || end.FlowMappingEndToken?
    ensures comma == if ts == [] || first || ts[0].typ == end then [] else [ts[0]]
    ensures comma <= ts && ts == comma + ts[|comma|..]
    ensures ts != [] && ts[0].typ != end ==> Types(comma) == Comma(first)
    ensures ts != [] && ts[|comma|..] != [] && ts[|comma|..][0].typ == end ==>
              Ended(comma + [ts[|comma|..][0]], first, end)
  {
    comma := if ts == [] || first || ts[0].typ == end then [] else [ts[0]];
    assert Types([]) == [];
    if ts != [] { One(ts[0]); }
    if ts[|comma|..] != [] {
      var u := comma + [ts[|comma|..][0]];
      assert Types(u) == Types(comma) + [u[|comma|].typ];
    }
  }

  lemma {:induction false} FlowItemsParsed(first: bool, ts: seq<Token>, dirs: seq<(string, string)>, mark: int)
    returns (c: Tree)
    requires D.FlowEntries(ts, dirs, mark, first).error.NoError?
    ensures Parsed(FlowItems(first), c, ts, dirs, D.FlowEntries(ts, dirs, mark, first))
    decreases |ts|, 4
  {
    hide Given, Optional, Types, Yield, Derives, Events, D.FlowEntry;
    var comma := CommaOf(ts, first, FlowSequenceEndToken);
    c := FlowItemParsed(first, comma, ts[|comma|..], ts, dirs, mark);
  }

  lemma {:induction false} FlowItemParsed(first: bool, comma: seq<Token>, us: seq<Token>, ts: seq<Token>,
                                          dirs: seq<(string, string)>, mark: int) returns (c: Tree)
    requires us != [] && ts == comma + us && D.FlowEntry(us, dirs, mark).error.NoError?
    requires us[0].typ.FlowSequenceEndToken? ==> Ended(comma + [us[0]], first, FlowSequenceEndToken)
    requires !us[0].typ.FlowSequenceEndToken? || comma != [] ==> Types(comma) == Comma(first)
    ensures Parsed(FlowItems(first), c, ts, dirs, D.FlowEntry(us, dirs, mark))
    decreases |us|, 3
  {
    hide Given, Optional, Types, Yield, Derives, Events, NodeEvents, D.Node, D.PairKey, D.FlowEntries;
    if us[0].typ.FlowSequenceEndToken? {
      c := Close(comma + [us[0]]);
      CloseMade(FlowItems(first), c, first, dirs);
      assert comma + [us[0]] <= ts && ts[|comma| + 1..] == us[1..];
      CloseJoins(comma + [us[0]], ts);
    } else if us[0].typ.KeyToken? {
      c := PairParsed(first, comma, us, ts, dirs, mark);
    } else {
      var n := D.Node(us, dirs, false, false);
      var item := NodeParsed(us, dirs, false, false);
      var more := FlowItemsParsed(false, n.rest, dirs, mark);
      c := Part(comma, item, more);
      LoneMade(FlowItems(first), first, c, dirs);
      FlowNode(item, dirs);
      PartJoins(comma, item, more, ts, n.rest, D.FlowEntries(n.rest, dirs, mark, false).rest);
    }
  }

  lemma {:induction false} PairParsed(first: bool, comma: seq<Token>, us: seq<Token>, ts: seq<Token>,
                                      dirs: seq<(string, string)>, mark: int) returns (c: Tree)
    requires us != [] && ts == comma + us && us[0].typ.KeyToken? && D.PairKey(us[1..], dirs, mark).error.NoError?
    requires Types(comma) == Comma(first)
    ensures Parsed(FlowItems(first), c, ts, dirs,
              D.Before(MappingStart("", "", true, Flow), D.PairKey(us[1..], dirs, mark)))
    decreases |us|, 2
  {
    hide Given, Optional, Types, Yield, Derives, Events, NodeEvents, D.Node, D.PairValue, Parsed;
    var vs := us[1..];
    if vs[0].typ in D.ENDS_PAIR_KEY {
      var more := PairValueParsed(vs[1..], dirs, mark);
      c := Part(comma + [us[0], vs[0]], Omitted, more);
      EmptyPairMade(first, comma, us, ts, dirs, mark, more);
    } else {
      var key := NodeParsed(vs, dirs, false, false);
      var more := PairValueParsed(D.Node(vs, dirs, false, false).rest, dirs, mark);
      c := Part(comma + [us[0]], key, more);
      PairIsMade(first, comma, us, ts, dirs, mark, key, more);
    }
  }

  lemma {:induction false} KeyLeftOut(vs: seq<Token>, dirs: seq<(string, string)>, mark: int)
    requires vs != [] && vs[0].typ in D.ENDS_PAIR_KEY
    ensures D.PairKey(vs, dirs, mark) == D.Before(EMPTY, D.PairValue(vs[1..], dirs, mark))
    ensures vs[0].typ in ENDS_PAIR_KEY
  {
    hide D.PairValue;
  }

  lemma {:induction false} EmptyPairMade(first: bool, comma: seq<Token>, us: seq<Token>, ts: seq<Token>,
                                         dirs: seq<(string, string)>,
                      mark: int, more: Tree)
    requires |us| > 1 && ts == comma + us && us[0].typ.KeyToken? && us[1..][0].typ in D.ENDS_PAIR_KEY
    requires Types(comma) == Comma(first)
    requires Parsed(PairValue, more, us[1..][1..], dirs, D.PairValue(us[1..][1..], dirs, mark))
    ensures Parsed(FlowItems(first), Part(comma + [us[0], us[1..][0]], Omitted, more), ts, dirs,
              D.Before(MappingStart("", "", true, Flow), D.PairKey(us[1..], dirs, mark)))
  {
    hide Given, Optional, Types, Yield, Derives, Events, NodeEvents, D.PairKey, D.PairValue;
    var vs := us[1..];
    var lead, r := comma + [us[0], vs[0]], D.PairValue(vs[1..], dirs, mark);
    var c := Part(lead, Omitted, more);
    KeyLeftOut(vs, dirs, mark);
    TwoMore(comma, us[0], vs[0]);
    var t := vs[0].typ;
    assert Types(lead) == Comma(first) + [KeyToken, t];
    PairMade(first, c, dirs);
    PairEvents(first, c, dirs);
    NothingThere(c, vs[1..], false, false, dirs);
    LeadSplit(comma, us, ts);
    PartJoins(lead, Omitted, more, ts, vs[1..], r.rest);
  }

  lemma LeadSplit(comma: seq<Token>, us: seq<Token>, ts: seq<Token>)
    requires |us| > 1 && ts == comma + us
    ensures ts == comma + [us[0], us[1..][0]] + us[1..][1..]
  {
    assert us == [us[0], us[1..][0]] + us[1..][1..];
  }

  lemma {:induction false} PairIsMade(first: bool, comma: seq<Token>, us: seq<Token>, ts: seq<Token>,
                                      dirs: seq<(string, string)>,
                   mark: int, key: Tree, more: Tree)
    requires |us| > 1 && ts == comma + us && us[0].typ.KeyToken? && us[1..][0].typ !in D.ENDS_PAIR_KEY
    requires Types(comma) == Comma(first)
    requires var n := D.Node(us[1..], dirs, false, false);
             && Parsed(ANode(false, false), key, us[1..], dirs, n)
             && Parsed(PairValue, more, n.rest, dirs, D.PairValue(n.rest, dirs, mark))
    ensures Parsed(FlowItems(first), Part(comma + [us[0]], key, more), ts, dirs,
              D.Before(MappingStart("", "", true, Flow), D.PairKey(us[1..], dirs, mark)))
  {
    hide Given, Optional, Types, Yield, Derives, NodeEvents, D.Node, D.PairValue;
    var vs := us[1..];
    var n, lead := D.Node(vs, dirs, false, false), comma + [us[0]];
    var c := Part(lead, key, more);
    OneMoreType(comma, us[0]);
    NotOmitted(key, false, false, dirs);
    PairMade(first, c, dirs);
    PairEvents(first, c, dirs);
    FlowNode(key, dirs);
    assert us == [us[0]] + vs && ts == lead + vs;
    PartJoins(lead, key, more, ts, n.rest, D.PairValue(n.rest, dirs, mark).rest);
  }

  lemma OneMoreType(ts: seq<Token>, t: Token)
    ensures Types(ts + [t]) == Types(ts) + [t.typ]
  {
  }

  lemma TwoMore(ts: seq<Token>, t: Token, u: Token)
    ensures Types(ts + [t, u]) == Types(ts) + [t.typ, u.typ]
  {
  }

  lemma {:induction false} PairValueParsed(ts: seq<Token>, dirs: seq<(string, string)>, mark: int) returns (c: Tree)
    requires D.PairValue(ts, dirs, mark).error.NoError?
    ensures Parsed(PairValue, c, ts, dirs, D.PairValue(ts, dirs, mark))
    decreases |ts|, 6
  {
    hide D.Optional, Given, Optional, Types, Yield, Derives, Events, D.FlowEntries;
    if ts[0].typ.ValueToken? {
      var n := D.Optional(ts[1..], dirs, false, false, D.ENDS_PAIR);
      var value := GivenParsed(ts[1..], dirs, false, false, D.ENDS_PAIR);
      var more := FlowItemsParsed(false, n.rest, dirs, mark);
      c := Part([ts[0]], value, more);
      ValueMade(PairValue, c, false, dirs);
      PartJoins([ts[0]], value, more, ts, n.rest, D.FlowEntries(n.rest, dirs, mark, false).rest);
    } else {
      var more := FlowItemsParsed(false, ts, dirs, mark);
      c := Part([], Omitted, more);
      NothingThere(c, ts, false, false, dirs);
      ValueMade(PairValue, c, false, dirs);
      PartJoins([], Omitted, more, ts, ts, D.FlowEntries(ts, dirs, mark, false).rest);
    }
  }

  lemma {:induction false} FlowPairsParsed(first: bool, ts: seq<Token>, dirs: seq<(string, string)>, mark: int)
    returns (c: Tree)
    requires D.FlowPairs(ts, dirs, mark, first).error.NoError?
    ensures Parsed(FlowPairs(first), c, ts, dirs, D.FlowPairs(ts, dirs, mark, first))
    decreases |ts|, 4
  {
    hide Given, Optional, Types, Yield, Derives, Events, D.FlowPair;
    var comma := CommaOf(ts, first, FlowMappingEndToken);
    c := FlowPairParsed(first, comma, ts[|comma|..], ts, dirs, mark);
  }

  lemma {:induction false} FlowPairParsed(first: bool, comma: seq<Token>, us: seq<Token>, ts: seq<Token>,
                                          dirs: seq<(string, string)>, mark: int) returns (c: Tree)
    requires us != [] && ts == comma + us && D.FlowPair(us, dirs, mark).error.NoError?
    requires us[0].typ.FlowMappingEndToken? ==> Ended(comma + [us[0]], first, FlowMappingEndToken)
    requires !us[0].typ.FlowMappingEndToken? || comma != [] ==> Types(comma) == Comma(first)
    ensures Parsed(FlowPairs(first), c, ts, dirs, D.FlowPair(us, dirs, mark))
    decreases |us|, 3
  {
    hide Given, Optional, Types, Yield, Derives, Events, NodeEvents, D.Node, D.Optional, D.FlowValue;
    if us[0].typ.FlowMappingEndToken? {
      c := Close(comma + [us[0]]);
      CloseMade(FlowPairs(first), c, first, dirs);
      assert comma + [us[0]] <= ts && ts[|comma| + 1..] == us[1..];
      CloseJoins(comma + [us[0]], ts);
    } else if us[0].typ.KeyToken? {
      var n := D.Optional(us[1..], dirs, false, false, D.ENDS_FLOW_KEY);
      var key := GivenParsed(us[1..], dirs, false, false, D.ENDS_FLOW_KEY);
      var more := FlowValueParsed(false, n.rest, dirs, mark);
      var lead := comma + [us[0]];
      c := Part(lead, key, more);
      OneMoreType(comma, us[0]);
      KeyedMade(first, c, dirs);
      assert us == [us[0]] + us[1..] && ts == lead + us[1..];
      PartJoins(lead, key, more, ts, n.rest, D.FlowValue(n.rest, dirs, mark, false).rest);
    } else {
      var n := D.Node(us, dirs, false, false);
      var key := NodeParsed(us, dirs, false, false);
      var more := FlowValueParsed(true, n.rest, dirs, mark);
      c := Part(comma, key, more);
      LoneMade(FlowPairs(first), first, c, dirs);
      FlowNode(key, dirs);
      PartJoins(comma, key, more, ts, n.rest, D.FlowValue(n.rest, dirs, mark, true).rest);
    }
  }

  lemma {:induction false} FlowValueParsed(lone: bool, ts: seq<Token>, dirs: seq<(string, string)>, mark: int)
    returns (c: Tree)
    requires D.FlowValue(ts, dirs, mark, lone).error.NoError?
    ensures Parsed(FlowValue(lone), c, ts, dirs, D.FlowValue(ts, dirs, mark, lone))
    decreases |ts|, 5
  {
    hide D.Optional, Given, Optional, Types, Yield, Derives, Events, D.FlowPairs;
    if !lone && ts[0].typ.ValueToken? {
      var n := D.Optional(ts[1..], dirs, false, false, D.ENDS_FLOW);
      var value := GivenParsed(ts[1..], dirs, false, false, D.ENDS_FLOW);
      var more := FlowPairsParsed(false, n.rest, dirs, mark);
      c := Part([ts[0]], value, more);
      assert [] + Events(FlowPairs(false), more, dirs) == Events(FlowPairs(false), more, dirs);
      ValueMade(FlowValue(lone), c, false, dirs);
      PartJoins([ts[0]], value, more, ts, n.rest, D.FlowPairs(n.rest, dirs, mark, false).rest);
    } else {
      var more := FlowPairsParsed(false, ts, dirs, mark);
      c := Part([], Omitted, more);
      assert [] + Events(FlowPairs(false), more, dirs) == Events(FlowPairs(false), more, dirs);
      NothingThere(c, ts, false, false, dirs);
      ValueMade(FlowValue(lone), c, false, dirs);
      PartJoins([], Omitted, more, ts, ts, D.FlowPairs(ts, dirs, mark, false).rest);
    }
  }

  // ---- Documents ----

  /** Directives, the marker, the node, which may be left out behind the marker, and any
      number of end markers. Only the first document may do without directives and marker. */
  datatype Doc = Doc(prologue: seq<Token>, start: seq<Token>, root: Tree, close: seq<Token>)

  /** At most one %YAML, which is 1.1, and no two %TAG for one handle. */
  predicate DirectivesOk(ts: seq<Token>) {
    && (forall i :: 0 <= i < |ts| ==> D.IsDirective(ts[i]))
    && (forall i :: 0 <= i < |ts| && ts[i].typ.VersionDirectiveToken? ==> ts[i].major == 1 && ts[i].minor == 1)
    && (forall i, j :: 0 <= i < j < |ts| ==>
          !(ts[i].typ.VersionDirectiveToken? && ts[j].typ.VersionDirectiveToken?) &&
          !(ts[i].typ.TagDirectiveToken? && ts[j].typ.TagDirectiveToken? && ts[i].value == ts[j].value))
  }

  /** What the %TAG directives declare. */
  function Owned(ts: seq<Token>): seq<(string, string)> {
    if ts == [] then []
    else Owned(ts[..|ts| - 1]) + if ts[|ts| - 1].typ.TagDirectiveToken? then [(ts[|ts| - 1].value, ts[|ts| - 1].prefix)]
      else []
  }

  predicate Versioned(ts: seq<Token>) {
    exists i :: 0 <= i < |ts| && ts[i].typ.VersionDirectiveToken?
  }

  predicate AllEnds(ts: seq<Token>) {
    forall i :: 0 <= i < |ts| ==> ts[i].typ.DocumentEndToken?
  }

  predicate DocumentOk(d: Doc, first: bool) {
    && AllEnds(d.close)
    && if d.start == [] then first && d.prologue == [] && Derives(ANode(true, false), d.root, InForce([]))
       else Types(d.start) == [DocumentStartToken] && DirectivesOk(d.prologue) &&
            Given(true, false, d.root, InForce(Owned(d.prologue)))
  }

  predicate DocumentsOk(ds: seq<Doc>, first: bool) {
    ds == [] || (DocumentOk(ds[0], first) && DocumentsOk(ds[1..], false))
  }

  function DocumentYield(d: Doc): seq<Token> {
    d.prologue + (d.start + (Yield(d.root) + d.close))
  }

  function DocumentsYield(ds: seq<Doc>): seq<Token> {
    if ds == [] then [] else DocumentYield(ds[0]) + DocumentsYield(ds[1..])
  }

  function DocumentEvents(d: Doc, first: bool): seq<Event>
    requires DocumentOk(d, first)
  {
    [DocumentStart(Versioned(d.prologue), Owned(d.prologue), false)] +
    (if d.start == [] then NodeEvents(ANode(true, false), d.root, InForce([]))
     else Optional(true, false, d.root, InForce(Owned(d.prologue)))) +
    [DocumentEnd(d.close == [])]
  }

  function DocumentsEvents(ds: seq<Doc>, first: bool): seq<Event>
    requires DocumentsOk(ds, first)
  {
    if ds == [] then [] else DocumentEvents(ds[0], first) + DocumentsEvents(ds[1..], false)
  }

  /** The tokens of a stream, up to its end. */
  ghost predicate StreamOf(ts: seq<Token>, ds: seq<Doc>, rest: seq<Token>) {
    && |ts| >= 2 && ts[0].typ.StreamStartToken? && DocumentsOk(ds, true)
    && exists end: Token :: end.typ.StreamEndToken? && ts == [ts[0]] + (DocumentsYield(ds) + ([end] + rest))
  }

  function StreamEvents(ds: seq<Doc>): seq<Event>
    requires DocumentsOk(ds, true)
  {
    [StreamStart] + DocumentsEvents(ds, true) + [StreamEnd]
  }

  // ---- Directives ----

  lemma {:induction false} DirectivesRead(ts: seq<Token>, k: nat, rest: seq<Token>)
    requires DirectivesOk(ts) && k <= |ts| && rest != [] && !D.IsDirective(rest[0])
    ensures D.Directives(ts[k..] + rest, Versioned(ts[..k]), Owned(ts[..k])) ==
            D.Prologue(Versioned(ts), Owned(ts), rest, NoError)
    decreases |ts| - k
  {
    hide Versioned, Owned;
    var u := ts[k..] + rest;
    if k == |ts| {
      assert u == rest && ts[..k] == ts;
    } else {
      assert u[0] == ts[k] && u[1..] == ts[k + 1..] + rest;
      OneMoreDirective(ts, k);
      DirectivesRead(ts, k + 1, rest);
    }
  }

  lemma OneMoreDirective(ts: seq<Token>, k: nat)
    requires DirectivesOk(ts) && k < |ts|
    ensures Versioned(ts[..k + 1]) == (Versioned(ts[..k]) || ts[k].typ.VersionDirectiveToken?)
    ensures Owned(ts[..k + 1]) ==
            if ts[k].typ.TagDirectiveToken? then Owned(ts[..k]) + [(ts[k].value, ts[k].prefix)] else Owned(ts[..k])
    ensures ts[k].typ.VersionDirectiveToken? ==> !Versioned(ts[..k])
    ensures ts[k].typ.TagDirectiveToken? ==> !Declares(Owned(ts[..k]), ts[k].value)
  {
    var a, b := ts[..k], ts[..k + 1];
    assert b[..k] == a && b[k] == ts[k];
    assert forall i :: 0 <= i < k ==> a[i] == b[i] == ts[i];
    assert Versioned(a) ==> Versioned(b) by {
      if i :| 0 <= i < |a| && a[i].typ.VersionDirectiveToken? { assert b[i].typ.VersionDirectiveToken?; }
    }
    if Declares(Owned(a), ts[k].value) { var i := Declared(a, ts[k].value); }
    assert Owned(a) + [] == Owned(a);
  }

  lemma {:induction false} Declared(ts: seq<Token>, handle: string) returns (i: nat)
    requires Declares(Owned(ts), handle)
    ensures i < |ts| && ts[i].typ.TagDirectiveToken? && ts[i].value == handle
  {
    var k := |ts| - 1;
    if ts[k].typ.TagDirectiveToken? && ts[k].value == handle {
      i := k;
    } else {
      i := Declared(ts[..k], handle);
    }
  }

  /** The directives that were read. */
  lemma {:induction false} DirectivesOf(ts: seq<Token>, done: seq<Token>) returns (ds: seq<Token>)
    requires DirectivesOk(done) && D.Directives(ts, Versioned(done), Owned(done)).error.NoError?
    ensures var p := D.Directives(ts, Versioned(done), Owned(done));
            && DirectivesOk(ds) && done <= ds && done + ts == ds + p.rest
            && p.version == Versioned(ds) && p.own == Owned(ds)
    decreases |ts|
  {
    hide Declares;
    ds := done;
    if D.IsDirective(ts[0]) {
      NextDirective(done, ts[0]);
      assert done + ts == done + [ts[0]] + ts[1..];
      ds := DirectivesOf(ts[1..], done + [ts[0]]);
    }
  }

  lemma {:induction false} NextDirective(done: seq<Token>, t: Token)
    requires DirectivesOk(done) && D.IsDirective(t)
    requires t.typ.VersionDirectiveToken? ==> !Versioned(done) && t.major == 1 && t.minor == 1
    requires t.typ.TagDirectiveToken? ==> !Declares(Owned(done), t.value)
    ensures DirectivesOk(done + [t])
    ensures Versioned(done + [t]) == (Versioned(done) || t.typ.VersionDirectiveToken?)
    ensures Owned(done + [t]) == if t.typ.TagDirectiveToken? then Owned(done) + [(t.value, t.prefix)] else Owned(done)
  {
    hide Declares;
    var b := done + [t];
    assert b[..|done|] == done && b[|done|] == t;
    forall i | 0 <= i < |done| && done[i].typ.TagDirectiveToken? ensures Declares(Owned(done), done[i].value) {
      IsDeclared(done, i);
    }
    assert Versioned(done) ==> Versioned(b) by {
      if i :| 0 <= i < |done| && done[i].typ.VersionDirectiveToken? { assert b[i].typ.VersionDirectiveToken?; }
    }
    assert Owned(done) + [] == Owned(done);
  }

  lemma {:induction false} IsDeclared(ts: seq<Token>, i: nat)
    requires i < |ts| && ts[i].typ.TagDirectiveToken?
    ensures Declares(Owned(ts), ts[i].value)
  {
    var k := |ts| - 1;
    if i < k {
      IsDeclared(ts[..k], i);
      var t :| t in Owned(ts[..k]) && t.0 == ts[i].value;
      assert t in Owned(ts);
    } else {
      assert (ts[k].value, ts[k].prefix) in Owned(ts);
    }
  }

  // ---- Streams ----

  /** What may stand behind a document, its end markers apart. */
  predicate Next(ts: seq<Token>) {
    ts != [] && (D.IsDirective(ts[0]) || ts[0].typ.DocumentStartToken? || ts[0].typ.StreamEndToken?)
  }

  lemma {:induction false} EndsSkipped(close: seq<Token>, more: seq<Token>)
    requires AllEnds(close) && Next(more)
    ensures D.SkipDocumentEnds(close + more) == more
  {
    var u := close + more;
    if close == [] { assert u == more; } else {
      assert u[1..] == close[1..] + more;
      EndsSkipped(close[1..], more);
    }
  }

  lemma {:induction false} CloseSpelled(close: seq<Token>, more: seq<Token>)
    requires AllEnds(close) && Next(more)
    ensures D.DocumentClose(close + more) == D.Before(DocumentEnd(close == []), D.Documents(more, false))
  {
    hide D.ImplicitDocument, D.ExplicitDocument;
    var u := close + more;
    EndsSkipped([], more);
    assert [] + more == more;
    if close == [] {
      assert u == more;
    } else {
      assert u[1..] == close[1..] + more;
      EndsSkipped(close[1..], more);
    }
  }

  lemma RootFollows(d: Doc, more: seq<Token>)
    requires AllEnds(d.close) && Next(more)
    ensures var u := d.close + more; Follows(u, false) && u[0].typ in D.ENDS_CONTENT
  {
    var u := d.close + more;
    if d.close == [] { assert u == more; } else { assert u[0] == d.close[0]; }
  }

  lemma {:induction false} Closed(n: D.Spelled, es: seq<Event>, u: seq<Token>, close: seq<Token>, more: seq<Token>,
                                  start: Event)
    requires n == D.Spelled(es, u, NoError) && u == close + more && AllEnds(close) && Next(more)
    ensures D.Before(start, D.After(n, D.DocumentClose(n.rest))) ==
            var r := D.Documents(more, false);
            D.Spelled([start] + es + [DocumentEnd(close == [])] + r.events, r.rest, r.error)
  {
    hide D.Documents, D.DocumentClose;
    CloseSpelled(close, more);
    var r := D.Documents(more, false);
    assert [start] + (es + ([DocumentEnd(close == [])] + r.events)) ==
           [start] + es + [DocumentEnd(close == [])] + r.events;
  }

  lemma {:induction false} ImplicitSpelled(d: Doc, more: seq<Token>)
    requires DocumentOk(d, true) && d.start == [] && Next(more)
    ensures var r, u := D.Documents(more, false), DocumentYield(d) + more;
            && u != [] && !D.IsDirective(u[0]) && !u[0].typ.DocumentStartToken? && !u[0].typ.StreamEndToken?
            && D.ImplicitDocument(u) == D.Spelled(DocumentEvents(d, true) + r.events, r.rest, r.error)
  {
    hide Yield, Derives, NodeEvents, D.Node, D.Documents, D.DocumentClose, Types, InForce;
    var u, v := DocumentYield(d) + more, d.close + more;
    assert u == Yield(d.root) + v;
    RootFollows(d, more);
    NodeFront(d.root, true, false, InForce([]), v);
    NodeSpelled(d.root, true, false, InForce([]), v);
    assert Owned([]) == [] && !Versioned([]);
    Closed(D.Node(u, InForce([]), true, false), NodeEvents(ANode(true, false), d.root, InForce([])), v, d.close, more,
      DocumentStart(false, [], false));
  }

  lemma {:induction false} ExplicitSpelled(d: Doc, first: bool, more: seq<Token>)
    requires DocumentOk(d, first) && d.start != [] && Next(more)
    ensures var r, u := D.Documents(more, false), DocumentYield(d) + more;
            && u != [] && (D.IsDirective(u[0]) || u[0].typ.DocumentStartToken?)
            && D.ExplicitDocument(u) == D.Spelled(DocumentEvents(d, first) + r.events, r.rest, r.error)
  {
    hide Yield, Given, Optional, D.Optional, D.Documents, D.DocumentClose, Types, InForce, Versioned, Owned;
    hide D.Directives;
    hide DirectivesOk;
    var v := d.close + more;
    var w := Yield(d.root) + v;
    var u, dirs := DocumentYield(d) + more, InForce(Owned(d.prologue));
    OneType(d.start, DocumentStartToken);
    assert u == d.prologue + (d.start + w) && (d.start + w)[1..] == w && (d.start + w)[0] == d.start[0];
    RootFollows(d, more);
    NoDirectives();
    DirectivesRead(d.prologue, 0, d.start + w);
    assert d.prologue[0..] == d.prologue && d.prologue[..0] == [];
    PrologueFront(d.prologue, d.start + w);
    GivenSpelled(true, false, d.root, dirs, v, D.ENDS_CONTENT);
    Closed(D.Optional(w, dirs, true, false, D.ENDS_CONTENT), Optional(true, false, d.root, dirs), v, d.close, more,
      DocumentStart(Versioned(d.prologue), Owned(d.prologue), false));
  }

  lemma NoDirectives()
    ensures Owned([]) == [] && !Versioned([])
  {
  }

  lemma PrologueFront(ts: seq<Token>, rest: seq<Token>)
    requires DirectivesOk(ts) && rest != [] && rest[0].typ.DocumentStartToken?
    ensures var u := ts + rest; u != [] && (D.IsDirective(u[0]) || u[0].typ.DocumentStartToken?)
  {
    var u := ts + rest;
    if ts == [] { assert u == rest; } else { assert u[0] == ts[0]; }
  }

  lemma {:induction false} DocumentsSpelled(ds: seq<Doc>, first: bool, end: Token, rest: seq<Token>)
    requires DocumentsOk(ds, first) && end.typ.StreamEndToken?
    ensures var u := DocumentsYield(ds) + ([end] + rest);
            && D.Documents(u, first) == D.Spelled(DocumentsEvents(ds, first) + [StreamEnd], rest, NoError)
            && (first || Next(u))
    decreases |ds|
  {
    hide DocumentOk, DocumentYield, DocumentEvents, D.ImplicitDocument, D.ExplicitDocument;
    var u := DocumentsYield(ds) + ([end] + rest);
    if ds == [] {
      assert u == [end] + rest && u[1..] == rest && [] + [StreamEnd] == [StreamEnd];
      EndsSkipped([], u);
      assert [] + u == u;
    } else {
      var more := DocumentsYield(ds[1..]) + ([end] + rest);
      assert u == DocumentYield(ds[0]) + more;
      DocumentsSpelled(ds[1..], false, end, rest);
      assert DocumentEvents(ds[0], first) + (DocumentsEvents(ds[1..], false) + [StreamEnd]) ==
             DocumentsEvents(ds, first) + [StreamEnd];
      if ds[0].start == [] {
        ImplicitFirst(ds[0], first);
        ImplicitSpelled(ds[0], more);
      } else {
        ExplicitSpelled(ds[0], first, more);
        EndsSkipped([], u);
        assert [] + u == u;
      }
    }
  }

  lemma ImplicitFirst(d: Doc, first: bool)
    requires DocumentOk(d, first) && d.start == []
    ensures first
  {
  }

  /** The documents that were read, behind some end markers that belong to the one before. */
  lemma {:induction false} DocumentsParsed(ts: seq<Token>, first: bool)
    returns (ends: seq<Token>, ds: seq<Doc>, end: Token)
    requires D.Documents(ts, first).error.NoError?
    ensures AllEnds(ends) && DocumentsOk(ds, first) && end.typ.StreamEndToken?
    ensures first || (ts != [] && !ts[0].typ.DocumentEndToken?) ==> ends == []
    ensures var r := D.Documents(ts, first);
            && ts == ends + (DocumentsYield(ds) + ([end] + r.rest))
            && r.events == DocumentsEvents(ds, first) + [StreamEnd]
    decreases |ts|, 1
  {
    hide DocumentOk, DocumentYield, DocumentsYield, DocumentEvents, D.ImplicitDocument, D.ExplicitDocument, AllEnds;
    hide DocumentsOk, DocumentsEvents;
    NoDocuments(first);
    ends := [];
    var us := ts;
    if !first {
      ends := EndsOf(ts);
      us := D.SkipDocumentEnds(ts);
    }
    assert ts == ends + us;
    if us[0].typ.StreamEndToken? {
      ds, end := [], us[0];
      assert us == [] + ([end] + us[1..]) && [] + [StreamEnd] == [StreamEnd];
    } else {
      var d, more;
      if first && !us[0].typ.DocumentStartToken? && !D.IsDirective(us[0]) {
        d, more, end := ImplicitParsed(us);
      } else {
        d, more, end := ExplicitParsed(us, first);
      }
      ds := [d] + more;
      DocumentAdded(d, more, first);
      DocumentJoins(d, more, us, end, D.Documents(ts, first).rest);
    }
  }

  lemma {:induction false} NoDocuments(first: bool)
    ensures AllEnds([]) && DocumentsOk([], first) && DocumentsYield([]) == [] && DocumentsEvents([], first) == []
  {
  }

  lemma {:induction false} DocumentAdded(d: Doc, more: seq<Doc>, first: bool)
    requires DocumentOk(d, first) && DocumentsOk(more, false)
    ensures DocumentsOk([d] + more, first)
    ensures DocumentsEvents([d] + more, first) + [StreamEnd] ==
            DocumentEvents(d, first) + (DocumentsEvents(more, false) + [StreamEnd])
  {
    hide DocumentOk, DocumentEvents;
    assert ([d] + more)[0] == d && ([d] + more)[1..] == more;
  }

  lemma {:induction false} DocumentJoins(d: Doc, more: seq<Doc>, us: seq<Token>, end: Token, rest: seq<Token>)
    requires us == DocumentYield(d) + (DocumentsYield(more) + ([end] + rest))
    ensures us == DocumentsYield([d] + more) + ([end] + rest)
  {
    hide DocumentYield;
    assert ([d] + more)[0] == d && ([d] + more)[1..] == more;
  }

  lemma {:induction false} EndsOf(ts: seq<Token>) returns (ends: seq<Token>)
    ensures AllEnds(ends) && ts == ends + D.SkipDocumentEnds(ts)
    ensures ts != [] && !ts[0].typ.DocumentEndToken? ==> ends == []
  {
    ends := [];
    if ts != [] && ts[0].typ.DocumentEndToken? {
      ends := EndsOf(ts[1..]);
      ends := [ts[0]] + ends;
    }
  }

  /** The end markers of a document, and the documents behind it. */
  lemma {:induction false} CloseParsed(ts: seq<Token>) returns (close: seq<Token>, ds: seq<Doc>, end: Token)
    requires D.DocumentClose(ts).error.NoError?
    ensures AllEnds(close) && DocumentsOk(ds, false) && end.typ.StreamEndToken?
    ensures var r := D.DocumentClose(ts);
            && ts == close + (DocumentsYield(ds) + ([end] + r.rest))
            && r.events == [DocumentEnd(close == [])] + (DocumentsEvents(ds, false) + [StreamEnd])
    decreases |ts|, 2
  {
    hide D.Documents, DocumentsYield, DocumentsEvents, DocumentsOk;
    if ts[0].typ.DocumentEndToken? {
      close, ds, end := DocumentsParsed(ts[1..], false);
      close := [ts[0]] + close;
      assert ts == [ts[0]] + ts[1..];
    } else {
      close, ds, end := DocumentsParsed(ts, false);
    }
  }

  lemma {:induction false} ImplicitParsed(ts: seq<Token>) returns (d: Doc, ds: seq<Doc>, end: Token)
    requires D.ImplicitDocument(ts).error.NoError?
    ensures DocumentOk(d, true) && DocumentsOk(ds, false) && end.typ.StreamEndToken?
    ensures var r := D.ImplicitDocument(ts);
            && ts == DocumentYield(d) + (DocumentsYield(ds) + ([end] + r.rest))
            && r.events == DocumentEvents(d, true) + (DocumentsEvents(ds, false) + [StreamEnd])
    decreases |ts|, 0
  {
    hide Yield, Derives, NodeEvents, Events, D.Node, D.Documents, D.DocumentClose, InForce, DocumentsYield;
    hide DocumentsEvents;
    hide DocumentsOk;
    var dirs := InForce([]);
    var n := D.Node(ts, dirs, true, false);
    var root := NodeParsed(ts, dirs, true, false);
    var close;
    close, ds, end := CloseParsed(n.rest);
    d := Doc([], [], root, close);
    NoDirectives();
    var w, es := DocumentsYield(ds) + ([end] + D.ImplicitDocument(ts).rest), DocumentsEvents(ds, false) + [StreamEnd];
    assert ts == Yield(root) + (close + w) && [] + ([] + (Yield(root) + close)) + w == Yield(root) + (close + w);
    var a, b := [DocumentStart(false, [], false)], [DocumentEnd(close == [])];
    assert a + (n.events + (b + es)) == a + n.events + b + es;
  }

  lemma {:induction false} ExplicitParsed(ts: seq<Token>, first: bool)
    returns (d: Doc, ds: seq<Doc>, end: Token)
    requires D.ExplicitDocument(ts).error.NoError?
    ensures DocumentOk(d, first) && DocumentsOk(ds, false) && end.typ.StreamEndToken?
    ensures var r := D.ExplicitDocument(ts);
            && ts == DocumentYield(d) + (DocumentsYield(ds) + ([end] + r.rest))
            && r.events == DocumentEvents(d, first) + (DocumentsEvents(ds, false) + [StreamEnd])
    decreases |ts|, 0
  {
    hide Yield, Given, Optional, D.Optional, D.Documents, D.DocumentClose, InForce, DocumentsYield, DocumentsEvents;
    hide Types;
    hide DocumentsOk, Versioned, Owned, DirectivesOk, D.Directives;
    NoDirectives();
    var p := D.Directives(ts, false, []);
    NothingDirected();
    var prologue := DirectivesOf(ts, []);
    var us, dirs := p.rest[1..], InForce(p.own);
    var n := D.Optional(us, dirs, true, false, D.ENDS_CONTENT);
    var root := GivenParsed(us, dirs, true, false, D.ENDS_CONTENT);
    var close;
    close, ds, end := CloseParsed(n.rest);
    One(p.rest[0]);
    d := Doc(prologue, [p.rest[0]], root, close);
    Fronted(ts, p.rest);
    DocumentMade(d, n.events, us, n.rest, DocumentsYield(ds) + ([end] + D.ExplicitDocument(ts).rest),
      DocumentsEvents(ds, false) + [StreamEnd]);
  }

  lemma Fronted(ts: seq<Token>, us: seq<Token>)
    requires us != []
    ensures [] + ts == ts && us == [us[0]] + us[1..]
  {
  }

  /** A document and what is behind it. */
  lemma DocumentMade(d: Doc, es: seq<Event>, us: seq<Token>, vs: seq<Token>, more: seq<Token>, fs: seq<Event>)
    requires us == Yield(d.root) + vs && vs == d.close + more
    ensures d.prologue + (d.start + us) == DocumentYield(d) + more
    ensures var a, b := [DocumentStart(Versioned(d.prologue), Owned(d.prologue), false)], [DocumentEnd(d.close == [])];
            a + (es + (b + fs)) == a + es + b + fs
  {
    hide Yield, Versioned, Owned;
  }

  lemma NothingDirected()
    ensures DirectivesOk([])
  {
  }

  /** The parser accepts a token stream if and only if the grammar derives it, and the
      events are those of its derivation. */
  lemma {:induction false} StreamExactly(ts: seq<Token>, es: seq<Event>, rest: seq<Token>)
    ensures D.Stream(ts) == D.Spelled(es, rest, NoError) <==>
            exists ds :: StreamOf(ts, ds, rest) && es == StreamEvents(ds)
  {
    hide DocumentsOk, DocumentsYield, DocumentsEvents, D.Documents;
    if ds :| StreamOf(ts, ds, rest) && es == StreamEvents(ds) {
      var end: Token :| end.typ.StreamEndToken? && ts == [ts[0]] + (DocumentsYield(ds) + ([end] + rest));
      DocumentsSpelled(ds, true, end, rest);
      assert ts[1..] == DocumentsYield(ds) + ([end] + rest);
      assert [StreamStart] + (DocumentsEvents(ds, true) + [StreamEnd]) == StreamEvents(ds);
    }
    if D.Stream(ts) == D.Spelled(es, rest, NoError) {
      var ends, ds, end := DocumentsParsed(ts[1..], true);
      assert [] + (DocumentsYield(ds) + ([end] + rest)) == DocumentsYield(ds) + ([end] + rest);
      assert ts == [ts[0]] + ts[1..];
      assert |ts| >= 2;
      assert StreamOf(ts, ds, rest);
      assert [StreamStart] + (DocumentsEvents(ds, true) + [StreamEnd]) == StreamEvents(ds);
    }
  }

  /** At the end of its run the pushdown parser has delivered the events of the derivation. */
  lemma EmittedIsDerived(p: P.Parser)
    requires p.Valid() && p.error.NoError? && p.state.ParseEnd?
    ensures exists ds :: StreamOf(p.tokens, ds, p.Rest()) && p.emitted == StreamEvents(ds)
  {
    hide D.Stream, StreamOf, StreamEvents;
    P.EmittedIsSpelled(p);
    StreamExactly(p.tokens, p.emitted, p.Rest());
  }
}
