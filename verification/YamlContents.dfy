/** What a token stream says, whatever its structure: anchors, tags, aliases and texts. The
    parser delivers all of it, in order, and nothing else but empty scalars. */
module YamlContents {
  import opened YamlGrammar
  import opened YamlTokens
  import opened YamlTags
  import D = YamlDescent
  import P = YamlParser

  datatype Item = Anchored(name: string) | Tagged(tag: string) | Aliased(name: string) | Written(text: string,
    style: Style)

  /** An empty plain text says no more than none at all. */
  function Say(i: Item): seq<Item> {
    if i == Anchored("") || i == Tagged("") || i == Written("", Plain) then [] else [i]
  }

  /** What a tag stands for under the directives in force. */
  function TagText(t: Token, dirs: seq<(string, string)>): string {
    if t.value == "" then t.suffix else Expand(dirs, t.value, t.suffix)
  }

  /** What the tokens say, up to the end of the stream: the anchor of a node before its
      tag, in whichever order they are written. `own` are the directives read for the next
      document, `dirs` those in force. */
  function TokenItems(ts: seq<Token>, own: seq<(string, string)>, dirs: seq<(string, string)>): seq<Item> {
    if ts == [] then []
    else match ts[0].typ
      case AnchorToken =>
        if |ts| > 1 && ts[1].typ.TagToken?
        then Say(Anchored(ts[0].value)) + Say(Tagged(TagText(ts[1], dirs))) + TokenItems(ts[2..], own, dirs)
        else Say(Anchored(ts[0].value)) + TokenItems(ts[1..], own, dirs)
      case TagToken =>
        if |ts| > 1 && ts[1].typ.AnchorToken?
        then Say(Anchored(ts[1].value)) + Say(Tagged(TagText(ts[0], dirs))) + TokenItems(ts[2..], own, dirs)
        else Say(Tagged(TagText(ts[0], dirs))) + TokenItems(ts[1..], own, dirs)
      case AliasToken => Say(Aliased(ts[0].value)) + TokenItems(ts[1..], own, dirs)
      case ScalarToken => Say(Written(ts[0].value, ts[0].style)) + TokenItems(ts[1..], own, dirs)
      case TagDirectiveToken => TokenItems(ts[1..], own + [(ts[0].value, ts[0].prefix)], dirs)
      case DocumentStartToken => TokenItems(ts[1..], [], InForce(own))
      case StreamEndToken => []
      case _ => TokenItems(ts[1..], own, dirs)
  }

  /** What an event says. */
  function EventItem(e: Event): seq<Item> {
    match e
    case Alias(name) => Say(Aliased(name))
    case Scalar(anchor, tag, value, _, _, style) =>
      Say(Anchored(anchor)) + Say(Tagged(tag)) + Say(Written(value, style))
    case SequenceStart(anchor, tag, _, _) => Say(Anchored(anchor)) + Say(Tagged(tag))
    case MappingStart(anchor, tag, _, _) => Say(Anchored(anchor)) + Say(Tagged(tag))
    case _ => []
  }

  function EventItems(es: seq<Event>): seq<Item> {
    if es == [] then [] else EventItem(es[0]) + EventItems(es[1..])
  }

  /** The events say what the tokens in front of the rest do; if there is an error, they
      say it up to some place. */
  ghost predicate Tells(ts: seq<Token>, dirs: seq<(string, string)>, r: D.Spelled) {
    if r.error.NoError? then TokenItems(ts, [], dirs) == EventItems(r.events) + TokenItems(r.rest, [], dirs)
    else EventItems(r.events) <= TokenItems(ts, [], dirs)
  }

  // ---- How it is put together ----

  lemma {:induction false} ItemsJoin(a: seq<Event>, b: seq<Event>)
    ensures EventItems(a + b) == EventItems(a) + EventItems(b)
    decreases |a|
  {
    hide EventItem;
    if a == [] {
      assert a + b == b;
    } else {
      assert (a + b)[1..] == a[1..] + b;
      ItemsJoin(a[1..], b);
    }
  }

  lemma FailedTells(ts: seq<Token>, dirs: seq<(string, string)>, error: Error)
    requires !error.NoError?
    ensures Tells(ts, dirs, D.Failed(error))
  {
  }

  lemma AfterTells(ts: seq<Token>, dirs: seq<(string, string)>, s: D.Spelled, more: D.Spelled)
    requires Tells(ts, dirs, s) && (s.error.NoError? ==> Tells(s.rest, dirs, more))
    ensures Tells(ts, dirs, D.After(s, more))
  {
    hide TokenItems, EventItems;
    if s.error.NoError? {
      ItemsJoin(s.events, more.events);
      if more.error.NoError? {
        assert EventItems(s.events) + (EventItems(more.events) + TokenItems(more.rest, [], dirs)) ==
               EventItems(s.events) + EventItems(more.events) + TokenItems(more.rest, [], dirs);
      }
    }
  }

  /** A token that says nothing. */
  predicate Silent(t: TokenType) {
    !t.AnchorToken? && !t.TagToken? && !t.AliasToken? && !t.ScalarToken? && !t.TagDirectiveToken? &&
    !t.DocumentStartToken? && !t.StreamEndToken?
  }

  lemma SilentTells(ts: seq<Token>, dirs: seq<(string, string)>, r: D.Spelled)
    requires ts != [] && Silent(ts[0].typ) && Tells(ts[1..], dirs, r)
    ensures Tells(ts, dirs, r)
  {
    hide EventItems;
  }

  /** An event that says nothing. */
  lemma BeforeTells(ts: seq<Token>, dirs: seq<(string, string)>, e: Event, r: D.Spelled)
    requires EventItem(e) == [] && Tells(ts, dirs, r)
    ensures Tells(ts, dirs, D.Before(e, r))
  {
    hide TokenItems, EventItem;
    assert ([e] + r.events)[1..] == r.events && [] + EventItems(r.events) == EventItems(r.events);
    assert EventItems([e] + r.events) == EventItems(r.events);
  }

  lemma DoneTells(ts: seq<Token>, dirs: seq<(string, string)>, e: Event)
    requires EventItem(e) == []
    ensures Tells(ts, dirs, D.Done(e, ts))
  {
    hide TokenItems, EventItem, EventItems;
    OneItem(e);
    assert [] + TokenItems(ts, [], dirs) == TokenItems(ts, [], dirs);
  }

  lemma Quiet()
    ensures EventItem(D.EMPTY) == [] && EventItem(SequenceEnd) == [] && EventItem(MappingEnd) == []
    ensures EventItem(MappingStart("", "", true, Flow)) == []
  {
  }

  // ---- Nodes ----

  /** What the properties of a node say, their error apart. */
  lemma {:induction false} PropertiesTell(ts: seq<Token>, dirs: seq<(string, string)>)
    requires ts != [] && !ts[0].typ.AliasToken?
    ensures var p := D.NodeProperties(ts, dirs);
            p.error.NoError? ==>
              TokenItems(ts, [], dirs) ==
              Say(Anchored(p.anchor)) + Say(Tagged(p.tag)) + TokenItems(p.rest, [], dirs)
  {
    hide Expand;
    var p := D.NodeProperties(ts, dirs);
    if p.error.NoError? && p.rest != ts {
      assert ts[0].typ.AnchorToken? || ts[0].typ.TagToken?;
      assert Say(Anchored("")) == [] && Say(Tagged("")) == [];
      var a := Say(Anchored(p.anchor));
      assert a + [] == a && [] + Say(Tagged(p.tag)) == Say(Tagged(p.tag));
    } else {
      assert [] + [] + TokenItems(p.rest, [], dirs) == TokenItems(p.rest, [], dirs);
    }
  }

  /** TAG ANCHOR and ANCHOR TAG are the same properties. */
  lemma {:induction false} EitherOrder(a: Token, t: Token, rest: seq<Token>, dirs: seq<(string, string)>)
    requires a.typ.AnchorToken? && t.typ.TagToken?
    ensures var p, q := D.NodeProperties([a, t] + rest, dirs), D.NodeProperties([t, a] + rest, dirs);
            if p.error.NoError? then p == q && p.anchor == a.value && p.tag == TagText(t, dirs) && p.rest == rest
            else !q.error.NoError?
    ensures D.NodeProperties([a, t] + rest, dirs).error.NoError? <==>
            rest != [] && (t.value == "" || Expand(dirs, t.value, t.suffix) != "")
  {
    hide Expand;
    var u, v := [a, t] + rest, [t, a] + rest;
    assert u[2..] == rest && v[2..] == rest;
  }

  lemma {:induction false} NodeTells(ts: seq<Token>, dirs: seq<(string, string)>, block: bool, indentless: bool)
    ensures Tells(ts, dirs, D.Node(ts, dirs, block, indentless))
    decreases |ts|, 2
  {
    hide D.Body, D.NodeProperties, EventItems, Tells;
    if ts == [] {
      FailedTells(ts, dirs, ScannerError);
    } else if ts[0].typ.AliasToken? {
      OneTells(ts, dirs, Alias(ts[0].value), ts[1..]);
    } else {
      var p := D.NodeProperties(ts, dirs);
      PropertiesTell(ts, dirs);
      if p.error.NoError? {
        BodyTells(p.rest, dirs, block, indentless, p.anchor, p.tag, ts[0].startMark);
        FrontTells(ts, p.rest, dirs, Say(Anchored(p.anchor)) + Say(Tagged(p.tag)),
          D.Body(p.rest, dirs, block, indentless, p.anchor, p.tag, ts[0].startMark));
      } else {
        FailedTells(ts, dirs, p.error);
      }
    }
  }

  /** The events begin with some items, and go on as the tokens do. */
  ghost predicate TellsBehind(items: seq<Item>, ts: seq<Token>, dirs: seq<(string, string)>, r: D.Spelled) {
    if r.error.NoError? then items + TokenItems(ts, [], dirs) == EventItems(r.events) + TokenItems(r.rest, [], dirs)
    else EventItems(r.events) <= items + TokenItems(ts, [], dirs)
  }

  lemma {:induction false} FrontTells(ts: seq<Token>, rest: seq<Token>, dirs: seq<(string, string)>, items: seq<Item>,
                                      r: D.Spelled)
    requires TokenItems(ts, [], dirs) == items + TokenItems(rest, [], dirs) && TellsBehind(items, rest, dirs, r)
    ensures Tells(ts, dirs, r)
  {
    hide TokenItems, EventItems;
  }

  lemma {:induction false} OneTells(ts: seq<Token>, dirs: seq<(string, string)>, e: Event, rest: seq<Token>)
    requires TokenItems(ts, [], dirs) == EventItem(e) + TokenItems(rest, [], dirs)
    ensures Tells(ts, dirs, D.Done(e, rest))
  {
    hide TokenItems, EventItem, EventItems;
    OneItem(e);
  }

  lemma {:induction false} OptionalTells(ts: seq<Token>, dirs: seq<(string, string)>, block: bool, indentless: bool,
                                         ends: set<TokenType>)
    ensures Tells(ts, dirs, D.Optional(ts, dirs, block, indentless, ends))
    decreases |ts|, 3
  {
    hide D.Node, EventItems, Tells;
    if ts == [] {
      FailedTells(ts, dirs, ScannerError);
    } else if ts[0].typ in ends {
      Quiet();
      DoneTells(ts, dirs, D.EMPTY);
    } else {
      NodeTells(ts, dirs, block, indentless);
    }
  }

  lemma {:induction false} BodyTells(ts: seq<Token>, dirs: seq<(string, string)>, block: bool, indentless: bool,
                                     anchor: string, tag: string, mark: int)
    requires ts != []
    ensures TellsBehind(Say(Anchored(anchor)) + Say(Tagged(tag)), ts, dirs,
              D.Body(ts, dirs, block, indentless, anchor, tag, mark))
    decreases |ts|, 1
  {
    hide EventItems, TokenItems, D.Collection;
    var items, t := Say(Anchored(anchor)) + Say(Tagged(tag)), ts[0];
    if D.Opens(t.typ, block, indentless) {
      CollectionTells(ts, dirs, block, indentless, anchor, tag);
    } else if t.typ.ScalarToken? {
      var plain := (tag == "" && t.style.Plain?) || tag == "!";
      ScalarTells(ts, dirs, anchor, tag, plain, !plain && tag == "");
    } else if anchor != "" || tag != "" {
      var e := Scalar(anchor, tag, "", tag == "", false, Plain);
      OneItem(e);
      assert items + [] == items;
    } else {
      NoItems();
    }
  }

  lemma ScalarTells(ts: seq<Token>, dirs: seq<(string, string)>, anchor: string, tag: string, plain: bool, quoted: bool)
    requires ts != [] && ts[0].typ.ScalarToken?
    ensures TellsBehind(Say(Anchored(anchor)) + Say(Tagged(tag)), ts, dirs,
              D.Done(Scalar(anchor, tag, ts[0].value, plain, quoted, ts[0].style), ts[1..]))
  {
    hide EventItems, TokenItems, Say;
    var e := Scalar(anchor, tag, ts[0].value, plain, quoted, ts[0].style);
    OneItem(e);
    ScalarItems(ts, dirs);
    Joined(Say(Anchored(anchor)) + Say(Tagged(tag)), Say(Written(ts[0].value, ts[0].style)),
      TokenItems(ts[1..], [], dirs));
  }

  lemma {:induction false} ScalarItems(ts: seq<Token>, dirs: seq<(string, string)>)
    requires ts != [] && ts[0].typ.ScalarToken?
    ensures TokenItems(ts, [], dirs) == Say(Written(ts[0].value, ts[0].style)) + TokenItems(ts[1..], [], dirs)
  {
  }

  lemma Joined<T>(a: seq<T>, b: seq<T>, c: seq<T>)
    ensures a + (b + c) == a + b + c
  {
  }

  lemma OneItem(e: Event)
    ensures EventItems([e]) == EventItem(e)
  {
    assert [e][1..] == [] && EventItem(e) + [] == EventItem(e);
  }

  lemma NoItems()
    ensures EventItems([]) == []
  {
  }

  /** A collection starts, and its first event says what its properties do. */
  lemma StartTells(ts: seq<Token>, dirs: seq<(string, string)>, e: Event, r: D.Spelled)
    requires Tells(ts, dirs, r)
    ensures TellsBehind(EventItem(e), ts, dirs, D.Before(e, r))
  {
    hide TokenItems, EventItem;
    assert ([e] + r.events)[1..] == r.events;
    assert EventItems([e] + r.events) == EventItem(e) + EventItems(r.events);
  }

  lemma {:induction false} CollectionTells(ts: seq<Token>, dirs: seq<(string, string)>, block: bool, indentless: bool,
                                           anchor: string, tag: string)
    requires ts != [] && D.Opens(ts[0].typ, block, indentless)
    ensures TellsBehind(Say(Anchored(anchor)) + Say(Tagged(tag)), ts, dirs,
              D.Collection(ts, dirs, block, indentless, anchor, tag))
    decreases |ts|, 0, 1
  {
    hide TokenItems, EventItems, Tells, TellsBehind;
    hide D.IndentlessEntries, D.FlowEntries, D.FlowPairs, D.BlockEntries, D.BlockPairs;
    var mark := ts[0].startMark;
    match ts[0].typ
    case BlockEntryToken =>
      IndentlessTells(ts, dirs);
      StartTells(ts, dirs, SequenceStart(anchor, tag, tag == "", Block), D.IndentlessEntries(ts, dirs));
    case FlowSequenceStartToken =>
      FlowEntriesTell(ts[1..], dirs, mark, true);
      SilentTells(ts, dirs, D.FlowEntries(ts[1..], dirs, mark, true));
      StartTells(ts, dirs, SequenceStart(anchor, tag, tag == "", Flow), D.FlowEntries(ts[1..], dirs, mark, true));
    case FlowMappingStartToken =>
      FlowPairsTell(ts[1..], dirs, mark, true);
      SilentTells(ts, dirs, D.FlowPairs(ts[1..], dirs, mark, true));
      StartTells(ts, dirs, MappingStart(anchor, tag, tag == "", Flow), D.FlowPairs(ts[1..], dirs, mark, true));
    case BlockSequenceStartToken =>
      BlockEntriesTell(ts[1..], dirs, mark);
      SilentTells(ts, dirs, D.BlockEntries(ts[1..], dirs, mark));
      StartTells(ts, dirs, SequenceStart(anchor, tag, tag == "", Block), D.BlockEntries(ts[1..], dirs, mark));
    case BlockMappingStartToken =>
      BlockPairsTell(ts[1..], dirs, mark);
      SilentTells(ts, dirs, D.BlockPairs(ts[1..], dirs, mark));
      StartTells(ts, dirs, MappingStart(anchor, tag, tag == "", Block), D.BlockPairs(ts[1..], dirs, mark));
  }

  // ---- Block collections ----

  lemma {:induction false} BlockEntriesTell(ts: seq<Token>, dirs: seq<(string, string)>, mark: int)
    ensures Tells(ts, dirs, D.BlockEntries(ts, dirs, mark))
    decreases |ts|, 0
  {
    hide TokenItems, EventItems, Tells, D.Optional;
    var r := D.BlockEntries(ts, dirs, mark);
    if ts != [] && ts[0].typ.BlockEntryToken? {
      var n := D.Optional(ts[1..], dirs, true, false, D.ENDS_ENTRY);
      OptionalTells(ts[1..], dirs, true, false, D.ENDS_ENTRY);
      if n.error.NoError? {
        BlockEntriesTell(n.rest, dirs, mark);
        AfterTells(ts[1..], dirs, n, D.BlockEntries(n.rest, dirs, mark));
      }
      SilentTells(ts, dirs, r);
    } else if ts != [] && ts[0].typ.BlockEndToken? {
      EndTells(ts, dirs, SequenceEnd);
    } else {
      FailedTells(ts, dirs, r.error);
    }
  }

  /** The token that ends a collection. */
  lemma EndTells(ts: seq<Token>, dirs: seq<(string, string)>, e: Event)
    requires ts != [] && Silent(ts[0].typ) && (e.SequenceEnd? || e.MappingEnd?)
    ensures Tells(ts, dirs, D.Done(e, ts[1..]))
  {
    hide TokenItems, EventItems, Tells;
    Quiet();
    DoneTells(ts[1..], dirs, e);
    SilentTells(ts, dirs, D.Done(e, ts[1..]));
  }

  lemma {:induction false} IndentlessTells(ts: seq<Token>, dirs: seq<(string, string)>)
    ensures Tells(ts, dirs, D.IndentlessEntries(ts, dirs))
    decreases |ts|, 0, 0
  {
    hide TokenItems, EventItems, Tells, D.Optional;
    if ts == [] {
      FailedTells(ts, dirs, ScannerError);
    } else if ts[0].typ.BlockEntryToken? {
      var n := D.Optional(ts[1..], dirs, true, false, D.ENDS_INDENTLESS);
      OptionalTells(ts[1..], dirs, true, false, D.ENDS_INDENTLESS);
      if n.error.NoError? {
        IndentlessTells(n.rest, dirs);
        AfterTells(ts[1..], dirs, n, D.IndentlessEntries(n.rest, dirs));
      }
      SilentTells(ts, dirs, D.IndentlessEntries(ts, dirs));
    } else {
      Quiet();
      DoneTells(ts, dirs, SequenceEnd);
    }
  }

  lemma {:induction false} BlockPairsTell(ts: seq<Token>, dirs: seq<(string, string)>, mark: int)
    ensures Tells(ts, dirs, D.BlockPairs(ts, dirs, mark))
    decreases |ts|, 0
  {
    hide TokenItems, EventItems, Tells, D.Optional, D.BlockValue;
    var r := D.BlockPairs(ts, dirs, mark);
    if ts != [] && ts[0].typ.KeyToken? {
      var n := D.Optional(ts[1..], dirs, true, true, D.ENDS_BLOCK);
      OptionalTells(ts[1..], dirs, true, true, D.ENDS_BLOCK);
      if n.error.NoError? {
        BlockValueTells(n.rest, dirs, mark);
        AfterTells(ts[1..], dirs, n, D.BlockValue(n.rest, dirs, mark));
      }
      SilentTells(ts, dirs, r);
    } else if ts != [] && ts[0].typ.BlockEndToken? {
      EndTells(ts, dirs, MappingEnd);
    } else {
      FailedTells(ts, dirs, r.error);
    }
  }

  lemma {:induction false} BlockValueTells(ts: seq<Token>, dirs: seq<(string, string)>, mark: int)
    ensures Tells(ts, dirs, D.BlockValue(ts, dirs, mark))
    decreases |ts|, 1
  {
    hide TokenItems, EventItems, Tells, D.Optional, D.BlockPairs;
    var r := D.BlockValue(ts, dirs, mark);
    if ts == [] {
      FailedTells(ts, dirs, ScannerError);
    } else if ts[0].typ.ValueToken? {
      var n := D.Optional(ts[1..], dirs, true, true, D.ENDS_BLOCK);
      OptionalTells(ts[1..], dirs, true, true, D.ENDS_BLOCK);
      if n.error.NoError? {
        BlockPairsTell(n.rest, dirs, mark);
        AfterTells(ts[1..], dirs, n, D.BlockPairs(n.rest, dirs, mark));
      }
      SilentTells(ts, dirs, r);
    } else {
      Quiet();
      BlockPairsTell(ts, dirs, mark);
      BeforeTells(ts, dirs, D.EMPTY, D.BlockPairs(ts, dirs, mark));
    }
  }

  // ---- Flow collections ----

  lemma {:induction false} FlowEntriesTell(ts: seq<Token>, dirs: seq<(string, string)>, mark: int, first: bool)
    ensures Tells(ts, dirs, D.FlowEntries(ts, dirs, mark, first))
    decreases |ts|, 4
  {
    hide TokenItems, EventItems, Tells, D.FlowEntry;
    var r := D.FlowEntries(ts, dirs, mark, first);
    if ts != [] && (first || ts[0].typ.FlowSequenceEndToken?) {
      FlowEntryTells(ts, dirs, mark);
    } else if |ts| > 1 && ts[0].typ.FlowEntryToken? {
      FlowEntryTells(ts[1..], dirs, mark);
      SilentTells(ts, dirs, r);
    } else {
      FailedTells(ts, dirs, r.error);
    }
  }

  lemma {:induction false} FlowEntryTells(ts: seq<Token>, dirs: seq<(string, string)>, mark: int)
    requires ts != []
    ensures Tells(ts, dirs, D.FlowEntry(ts, dirs, mark))
    decreases |ts|, 3
  {
    hide TokenItems, EventItems, Tells, D.Node, D.PairKey, D.FlowEntries;
    Quiet();
    if ts[0].typ.FlowSequenceEndToken? {
      EndTells(ts, dirs, SequenceEnd);
    } else if ts[0].typ.KeyToken? {
      PairKeyTells(ts[1..], dirs, mark);
      SilentTells(ts, dirs, D.PairKey(ts[1..], dirs, mark));
      BeforeTells(ts, dirs, MappingStart("", "", true, Flow), D.PairKey(ts[1..], dirs, mark));
    } else {
      var n := D.Node(ts, dirs, false, false);
      NodeTells(ts, dirs, false, false);
      if n.error.NoError? {
        FlowEntriesTell(n.rest, dirs, mark, false);
        AfterTells(ts, dirs, n, D.FlowEntries(n.rest, dirs, mark, false));
      }
    }
  }

  lemma {:induction false} PairKeyTells(ts: seq<Token>, dirs: seq<(string, string)>, mark: int)
    ensures Tells(ts, dirs, D.PairKey(ts, dirs, mark))
    decreases |ts|, 7
  {
    hide TokenItems, EventItems, Tells, D.Node, D.PairValue;
    if ts == [] {
      FailedTells(ts, dirs, ScannerError);
    } else if ts[0].typ in D.ENDS_PAIR_KEY {
      Quiet();
      PairValueTells(ts[1..], dirs, mark);
      SilentTells(ts, dirs, D.PairValue(ts[1..], dirs, mark));
      BeforeTells(ts, dirs, D.EMPTY, D.PairValue(ts[1..], dirs, mark));
    } else {
      var n := D.Node(ts, dirs, false, false);
      NodeTells(ts, dirs, false, false);
      if n.error.NoError? {
        PairValueTells(n.rest, dirs, mark);
        AfterTells(ts, dirs, n, D.PairValue(n.rest, dirs, mark));
      }
    }
  }

  lemma {:induction false} PairValueTells(ts: seq<Token>, dirs: seq<(string, string)>, mark: int)
    ensures Tells(ts, dirs, D.PairValue(ts, dirs, mark))
    decreases |ts|, 6
  {
    hide TokenItems, EventItems, Tells, D.Optional, D.PairEnd;
    if ts == [] {
      FailedTells(ts, dirs, ScannerError);
    } else if ts[0].typ.ValueToken? {
      var n := D.Optional(ts[1..], dirs, false, false, D.ENDS_PAIR);
      OptionalTells(ts[1..], dirs, false, false, D.ENDS_PAIR);
      if n.error.NoError? {
        PairEndTells(n.rest, dirs, mark);
        AfterTells(ts[1..], dirs, n, D.PairEnd(n.rest, dirs, mark));
      }
      SilentTells(ts, dirs, D.PairValue(ts, dirs, mark));
    } else {
      Quiet();
      PairEndTells(ts, dirs, mark);
      BeforeTells(ts, dirs, D.EMPTY, D.PairEnd(ts, dirs, mark));
    }
  }

  lemma {:induction false} PairEndTells(ts: seq<Token>, dirs: seq<(string, string)>, mark: int)
    ensures Tells(ts, dirs, D.PairEnd(ts, dirs, mark))
    decreases |ts|, 5
  {
    hide TokenItems, EventItems, Tells, D.FlowEntries;
    if ts == [] {
      FailedTells(ts, dirs, ScannerError);
    } else {
      Quiet();
      FlowEntriesTell(ts, dirs, mark, false);
      BeforeTells(ts, dirs, MappingEnd, D.FlowEntries(ts, dirs, mark, false));
    }
  }

  lemma {:induction false} FlowPairsTell(ts: seq<Token>, dirs: seq<(string, string)>, mark: int, first: bool)
    ensures Tells(ts, dirs, D.FlowPairs(ts, dirs, mark, first))
    decreases |ts|, 4
  {
    hide TokenItems, EventItems, Tells, D.FlowPair;
    var r := D.FlowPairs(ts, dirs, mark, first);
    if ts != [] && (first || ts[0].typ.FlowMappingEndToken?) {
      FlowPairTells(ts, dirs, mark);
    } else if |ts| > 1 && ts[0].typ.FlowEntryToken? {
      FlowPairTells(ts[1..], dirs, mark);
      SilentTells(ts, dirs, r);
    } else {
      FailedTells(ts, dirs, r.error);
    }
  }

  lemma {:induction false} FlowPairTells(ts: seq<Token>, dirs: seq<(string, string)>, mark: int)
    requires ts != []
    ensures Tells(ts, dirs, D.FlowPair(ts, dirs, mark))
    decreases |ts|, 3
  {
    hide TokenItems, EventItems, Tells, D.Node, D.Optional, D.FlowValue;
    if ts[0].typ.FlowMappingEndToken? {
      EndTells(ts, dirs, MappingEnd);
    } else if ts[0].typ.KeyToken? {
      var n := D.Optional(ts[1..], dirs, false, false, D.ENDS_FLOW_KEY);
      OptionalTells(ts[1..], dirs, false, false, D.ENDS_FLOW_KEY);
      if n.error.NoError? {
        FlowValueTells(n.rest, dirs, mark, false);
        AfterTells(ts[1..], dirs, n, D.FlowValue(n.rest, dirs, mark, false));
      }
      SilentTells(ts, dirs, D.FlowPair(ts, dirs, mark));
    } else {
      var n := D.Node(ts, dirs, false, false);
      NodeTells(ts, dirs, false, false);
      if n.error.NoError? {
        FlowValueTells(n.rest, dirs, mark, true);
        AfterTells(ts, dirs, n, D.FlowValue(n.rest, dirs, mark, true));
      }
    }
  }

  lemma {:induction false} FlowValueTells(ts: seq<Token>, dirs: seq<(string, string)>, mark: int, none: bool)
    ensures Tells(ts, dirs, D.FlowValue(ts, dirs, mark, none))
    decreases |ts|, 5
  {
    hide TokenItems, EventItems, Tells, D.Optional, D.FlowPairs;
    if ts == [] {
      FailedTells(ts, dirs, ScannerError);
    } else if !none && ts[0].typ.ValueToken? {
      var n := D.Optional(ts[1..], dirs, false, false, D.ENDS_FLOW);
      OptionalTells(ts[1..], dirs, false, false, D.ENDS_FLOW);
      if n.error.NoError? {
        FlowPairsTell(n.rest, dirs, mark, false);
        AfterTells(ts[1..], dirs, n, D.FlowPairs(n.rest, dirs, mark, false));
      }
      SilentTells(ts, dirs, D.FlowValue(ts, dirs, mark, none));
    } else {
      Quiet();
      FlowPairsTell(ts, dirs, mark, false);
      BeforeTells(ts, dirs, D.EMPTY, D.FlowPairs(ts, dirs, mark, false));
    }
  }

  // ---- The stream ----

  /** The same for documents, where the rest of the tokens is the end. */
  ghost predicate TellsAll(ts: seq<Token>, own: seq<(string, string)>, dirs: seq<(string, string)>, r: D.Spelled) {
    if r.error.NoError? then TokenItems(ts, own, dirs) == EventItems(r.events)
    else EventItems(r.events) <= TokenItems(ts, own, dirs)
  }

  lemma FailedTellsAll(ts: seq<Token>, own: seq<(string, string)>, dirs: seq<(string, string)>, error: Error)
    requires !error.NoError?
    ensures TellsAll(ts, own, dirs, D.Failed(error))
  {
  }

  lemma BeforeTellsAll(ts: seq<Token>, own: seq<(string, string)>, dirs: seq<(string, string)>, e: Event, r: D.Spelled)
    requires EventItem(e) == [] && TellsAll(ts, own, dirs, r)
    ensures TellsAll(ts, own, dirs, D.Before(e, r))
  {
    hide TokenItems, EventItem;
    assert ([e] + r.events)[1..] == r.events;
    assert [] + EventItems(r.events) == EventItems(r.events) && EventItems([e] + r.events) == EventItems(r.events);
  }

  /** The node of a document, and what comes behind it. */
  lemma RootTells(ts: seq<Token>, dirs: seq<(string, string)>, s: D.Spelled, more: D.Spelled)
    requires Tells(ts, dirs, s) && (s.error.NoError? ==> TellsAll(s.rest, [], dirs, more))
    ensures TellsAll(ts, [], dirs, D.After(s, more))
  {
    hide TokenItems, EventItems;
    if s.error.NoError? { ItemsJoin(s.events, more.events); }
  }

  lemma {:induction false} EndsSkipped(ts: seq<Token>, own: seq<(string, string)>, dirs: seq<(string, string)>)
    ensures TokenItems(D.SkipDocumentEnds(ts), own, dirs) == TokenItems(ts, own, dirs)
  {
    if ts != [] && ts[0].typ.DocumentEndToken? { EndsSkipped(ts[1..], own, dirs); }
  }

  lemma {:induction false} DirectivesTell(ts: seq<Token>, version: bool, own: seq<(string, string)>,
                                          dirs: seq<(string, string)>)
    ensures var p := D.Directives(ts, version, own);
            p.error.NoError? ==> TokenItems(ts, own, dirs) == TokenItems(p.rest, p.own, dirs)
    decreases |ts|
  {
    hide Declares;
    if ts != [] && ts[0].typ.VersionDirectiveToken? { DirectivesTell(ts[1..], true, own, dirs); }
    if ts != [] && ts[0].typ.TagDirectiveToken? {
      DirectivesTell(ts[1..], version, own + [(ts[0].value, ts[0].prefix)], dirs);
    }
  }

  lemma {:induction false} DocumentsTell(ts: seq<Token>, first: bool, dirs: seq<(string, string)>)
    requires first ==> dirs == InForce([])
    ensures TellsAll(ts, [], dirs, D.Documents(ts, first))
    decreases |ts|, 1
  {
    hide EventItems, TellsAll, InForce, D.ImplicitDocument, D.ExplicitDocument, D.SkipDocumentEnds;
    var us := if first then ts else D.SkipDocumentEnds(ts);
    EndsSkipped(ts, [], dirs);
    if us == [] {
      FailedTellsAll(ts, [], dirs, ScannerError);
    } else if us[0].typ.StreamEndToken? {
      StreamEnds(us, dirs);
      SameItems(us, ts, dirs, D.Done(StreamEnd, us[1..]));
    } else if first && !us[0].typ.DocumentStartToken? && !D.IsDirective(us[0]) {
      ImplicitTells(us);
    } else {
      ExplicitTells(us, dirs);
      SameItems(us, ts, dirs, D.ExplicitDocument(us));
    }
  }

  lemma {:induction false} SameItems(us: seq<Token>, ts: seq<Token>, dirs: seq<(string, string)>, r: D.Spelled)
    requires TokenItems(us, [], dirs) == TokenItems(ts, [], dirs) && TellsAll(us, [], dirs, r)
    ensures TellsAll(ts, [], dirs, r)
  {
    hide TokenItems, EventItems;
  }

  lemma StreamEnds(ts: seq<Token>, dirs: seq<(string, string)>)
    requires ts != [] && ts[0].typ.StreamEndToken?
    ensures TellsAll(ts, [], dirs, D.Done(StreamEnd, ts[1..]))
  {
    OneItem(StreamEnd);
  }

  lemma {:induction false} ImplicitTells(ts: seq<Token>)
    ensures TellsAll(ts, [], InForce([]), D.ImplicitDocument(ts))
    decreases |ts|, 0
  {
    hide TokenItems, EventItems, Tells, TellsAll, InForce, D.Node, D.DocumentClose;
    var n := D.Node(ts, InForce([]), true, false);
    NodeTells(ts, InForce([]), true, false);
    if n.error.NoError? { CloseTells(n.rest, InForce([])); }
    RootTells(ts, InForce([]), n, D.DocumentClose(n.rest));
    BeforeTellsAll(ts, [], InForce([]), DocumentStart(false, [], false), D.After(n, D.DocumentClose(n.rest)));
  }

  lemma {:induction false} ExplicitTells(ts: seq<Token>, dirs: seq<(string, string)>)
    ensures TellsAll(ts, [], dirs, D.ExplicitDocument(ts))
    decreases |ts|, 0
  {
    hide EventItems, Tells, InForce, D.Optional, D.Directives, D.DocumentClose;
    var p := D.Directives(ts, false, []);
    DirectivesTell(ts, false, [], dirs);
    if !p.error.NoError? || !p.rest[0].typ.DocumentStartToken? {
      FailedTellsAll(ts, [], dirs, D.ExplicitDocument(ts).error);
    } else {
      var us, dirs' := p.rest[1..], InForce(p.own);
      var n := D.Optional(us, dirs', true, false, D.ENDS_CONTENT);
      OptionalTells(us, dirs', true, false, D.ENDS_CONTENT);
      if n.error.NoError? { CloseTells(n.rest, dirs'); }
      RootTells(us, dirs', n, D.DocumentClose(n.rest));
      BeforeTellsAll(us, [], dirs', DocumentStart(p.version, p.own, false), D.After(n, D.DocumentClose(n.rest)));
      assert TokenItems(ts, [], dirs) == TokenItems(us, [], dirs');
    }
  }

  lemma {:induction false} CloseTells(ts: seq<Token>, dirs: seq<(string, string)>)
    ensures TellsAll(ts, [], dirs, D.DocumentClose(ts))
    decreases |ts|, 2
  {
    hide EventItems, D.Documents, TellsAll;
    if ts == [] {
      FailedTellsAll(ts, [], dirs, ScannerError);
    } else if ts[0].typ.DocumentEndToken? {
      DocumentsTell(ts[1..], false, dirs);
      SameItems(ts[1..], ts, dirs, D.Documents(ts[1..], false));
      BeforeTellsAll(ts, [], dirs, DocumentEnd(false), D.Documents(ts[1..], false));
    } else {
      DocumentsTell(ts, false, dirs);
      BeforeTellsAll(ts, [], dirs, DocumentEnd(true), D.Documents(ts, false));
    }
  }

  /** What the tokens of a stream say. */
  function Said(ts: seq<Token>): seq<Item> {
    TokenItems(ts, [], InForce([]))
  }

  lemma {:induction false} StreamTells(ts: seq<Token>)
    ensures var r := D.Stream(ts);
            if r.error.NoError? then EventItems(r.events) == Said(ts) else EventItems(r.events) <= Said(ts)
  {
    hide EventItems, InForce, D.Documents;
    var r := D.Stream(ts);
    if ts != [] && ts[0].typ.StreamStartToken? {
      DocumentsTell(ts[1..], true, InForce([]));
      BeforeTellsAll(ts[1..], [], InForce([]), StreamStart, D.Documents(ts[1..], true));
    } else {
      FailedTellsAll(ts, [], InForce([]), r.error);
    }
  }

  /** Whatever the parser has delivered says what the tokens do up to some place, and at the
      end all of it: every anchor with its node, every tag in force, alias and text, each
      once and in order. */
  lemma EmittedSays(p: P.Parser)
    requires p.Valid()
    ensures EventItems(p.emitted) <= Said(p.tokens)
    ensures p.error.NoError? && p.state.ParseEnd? ==> EventItems(p.emitted) == Said(p.tokens)
  {
    hide EventItems, Said, D.Stream;
    P.EmittedIsSpelled(p);
    StreamTells(p.tokens);
    var es := D.Stream(p.tokens).events;
    ItemsJoin(p.emitted, es[|p.emitted|..]);
    assert p.emitted + es[|p.emitted|..] == es;
  }
}
