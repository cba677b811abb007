/** The parser's grammar by recursive descent: the events a token stream spells, up to
    the first error. It has no stacks and no states; the pushdown parser is proved to
    deliver exactly these events and this error. */
module YamlDescent {
  import opened YamlGrammar
  import opened YamlTokens
  import opened YamlTags

  /** Events, the tokens after them, and the error that ended it, if any. */
  datatype Spelled = Spelled(events: seq<Event>, rest: seq<Token>, error: Error)

  function Done(e: Event, rest: seq<Token>): Spelled {
    Spelled([e], rest, NoError)
  }

  function Failed(error: Error): Spelled {
    Spelled([], [], error)
  }

  function Before(e: Event, s: Spelled): Spelled {
    s.(events := [e] + s.events)
  }

  /** `s`, and after it what follows. */
  function After(s: Spelled, more: Spelled): Spelled {
    if s.error.NoError? then more.(events := s.events + more.events) else s
  }

  const EMPTY := Scalar("", "", "", true, false, Plain)

  predicate Within(a: seq<Token>, b: seq<Token>) {
    forall t | t in a :: t in b
  }

  predicate HasEnd(ts: seq<Token>) {
    exists t | t in ts :: t.typ.StreamEndToken?
  }

  // ---- The stream ----

  function Stream(ts: seq<Token>): (r: Spelled)
    ensures r.error.NoError? ==> HasEnd(ts)
  {
    if ts == [] then Failed(ScannerError)
    else if !ts[0].typ.StreamStartToken? then Failed(ParserError(NoContext, 0, ExpectedStreamStart, ts[0].startMark))
    else Before(StreamStart, Documents(ts[1..], true))
  }

  function SkipDocumentEnds(ts: seq<Token>): (r: seq<Token>)
    ensures |r| <= |ts| && Within(r, ts)
  {
    if ts != [] && ts[0].typ.DocumentEndToken? then SkipDocumentEnds(ts[1..]) else ts
  }

  /** The documents that are left; the first of all may start without a marker. */
  function Documents(ts: seq<Token>, first: bool): (r: Spelled)
    ensures r.error.NoError? ==> HasEnd(ts)
    decreases |ts|, 1
  {
    var us := if first then ts else SkipDocumentEnds(ts);
    if us == [] then Failed(ScannerError)
    else if us[0].typ.StreamEndToken? then Done(StreamEnd, us[1..])
    else if first && !us[0].typ.DocumentStartToken? && !IsDirective(us[0]) then
      ImplicitDocument(us)
    else ExplicitDocument(us)
  }

  function ImplicitDocument(ts: seq<Token>): (r: Spelled)
    ensures r.error.NoError? ==> HasEnd(ts)
    decreases |ts|, 0
  {
    var n := Node(ts, InForce([]), true, false);
    Before(DocumentStart(false, [], false), if n.error.NoError? then After(n, DocumentClose(n.rest)) else n)
  }

  function ExplicitDocument(ts: seq<Token>): (r: Spelled)
    ensures r.error.NoError? ==> HasEnd(ts)
    decreases |ts|, 0
  {
    var p := Directives(ts, false, []);
    if !p.error.NoError? then Failed(p.error)
    else if !p.rest[0].typ.DocumentStartToken? then
      Failed(ParserError(NoContext, 0, ExpectedDocumentStart, p.rest[0].startMark))
    else
      var n := Optional(p.rest[1..], InForce(p.own), true, false, ENDS_CONTENT);
      Before(DocumentStart(p.version, p.own, false), if n.error.NoError? then After(n, DocumentClose(n.rest)) else n)
  }

  /** The end of a document, and the documents after it. */
  function DocumentClose(ts: seq<Token>): (r: Spelled)
    ensures r.error.NoError? ==> HasEnd(ts)
    decreases |ts|, 2
  {
    if ts == [] then Failed(ScannerError)
    else if ts[0].typ.DocumentEndToken? then Before(DocumentEnd(false), Documents(ts[1..], false))
    else Before(DocumentEnd(true), Documents(ts, false))
  }

  const ENDS_CONTENT := {VersionDirectiveToken, TagDirectiveToken, DocumentStartToken, DocumentEndToken, StreamEndToken}

  // ---- Directives ----

  predicate IsDirective(t: Token) {
    t.typ.VersionDirectiveToken? || t.typ.TagDirectiveToken?
  }

  datatype Prologue = Prologue(version: bool, own: seq<(string, string)>, rest: seq<Token>, error: Error)

  /** At most one %YAML 1.1, and no two %TAG for one handle. */
  function Directives(ts: seq<Token>, version: bool, own: seq<(string, string)>): (r: Prologue)
    ensures r.error.NoError? ==> r.rest != [] && |r.rest| <= |ts| && !IsDirective(r.rest[0]) && Within(r.rest, ts)
  {
    if ts == [] then Prologue(version, own, [], ScannerError)
    else if ts[0].typ.VersionDirectiveToken? then
      if version then Prologue(version, own, [], ParserError(NoContext, 0, DuplicateVersionDirective, ts[0].startMark))
      else if ts[0].major != 1 || ts[0].minor != 1 then
        Prologue(version, own, [], ParserError(NoContext, 0, IncompatibleDocument, ts[0].startMark))
      else Directives(ts[1..], true, own)
    else if ts[0].typ.TagDirectiveToken? then
      if Declares(own, ts[0].value) then
        Prologue(version, own, [], ParserError(NoContext, 0, DuplicateTagDirective, ts[0].startMark))
      else Directives(ts[1..], version, own + [(ts[0].value, ts[0].prefix)])
    else Prologue(version, own, ts, NoError)
  }

  // ---- Nodes ----

  datatype Properties = Properties(anchor: string, tag: string, rest: seq<Token>, error: Error)

  /** TAG ANCHOR? | ANCHOR TAG? | nothing */
  function NodeProperties(ts: seq<Token>, dirs: seq<(string, string)>): (r: Properties)
    requires ts != []
    ensures r.error.NoError? ==> r.rest != [] && |r.rest| <= |ts| && Within(r.rest, ts)
    ensures r.error.NoError? && (r.anchor != "" || r.tag != "") ==> |r.rest| < |ts|
  {
    if ts[0].typ.AnchorToken? then
      if |ts| > 1 && ts[1].typ.TagToken? then Tagged(ts[0].value, ts[1], ts[2..], dirs, ts[0].startMark)
      else if |ts| > 1 then Properties(ts[0].value, "", ts[1..], NoError)
      else Properties("", "", [], ScannerError)
    else if ts[0].typ.TagToken? then
      if |ts| > 1 && ts[1].typ.AnchorToken? then Tagged(ts[1].value, ts[0], ts[2..], dirs, ts[0].startMark)
      else Tagged("", ts[0], ts[1..], dirs, ts[0].startMark)
    else Properties("", "", ts, NoError)
  }

  function Tagged(anchor: string, t: Token, rest: seq<Token>, dirs: seq<(string, string)>, mark: int): (r: Properties)
    ensures r.error.NoError? ==> rest != [] && r.rest == rest
  {
    if rest == [] then Properties("", "", [], ScannerError)
    else if t.value == "" then Properties(anchor, t.suffix, rest, NoError)
    else if Expand(dirs, t.value, t.suffix) == "" then
      Properties("", "", [], ParserError(InNode, mark, UndefinedTagHandle, t.startMark))
    else Properties(anchor, Expand(dirs, t.value, t.suffix), rest, NoError)
  }

  /** ALIAS | properties content? | content */
  function Node(ts: seq<Token>, dirs: seq<(string, string)>, block: bool, indentless: bool): (r: Spelled)
    ensures r.error.NoError? ==> Within(r.rest, ts)
    ensures r.error.NoError? ==> |r.rest| < |ts|
    decreases |ts|, 2
  {
    if ts == [] then Failed(ScannerError)
    else if ts[0].typ.AliasToken? then Done(Alias(ts[0].value), ts[1..])
    else
      var p := NodeProperties(ts, dirs);
      if !p.error.NoError? then Failed(p.error)
      else Body(p.rest, dirs, block, indentless, p.anchor, p.tag, ts[0].startMark)
  }

  /** A node that may be left out where one of the tokens in `ends` follows. */
  function Optional(ts: seq<Token>, dirs: seq<(string, string)>, block: bool, indentless: bool,
                    ends: set<TokenType>): (r: Spelled)
    ensures r.error.NoError? ==> Within(r.rest, ts)
    ensures r.error.NoError? ==> |r.rest| <= |ts|
    decreases |ts|, 3
  {
    if ts == [] then Failed(ScannerError)
    else if ts[0].typ in ends then Done(EMPTY, ts)
    else Node(ts, dirs, block, indentless)
  }

  /** A collection, a scalar, or the empty scalar if there are properties. */
  function Body(ts: seq<Token>, dirs: seq<(string, string)>, block: bool, indentless: bool,
                anchor: string, tag: string, mark: int): (r: Spelled)
    requires ts != []
    ensures r.error.NoError? ==> Within(r.rest, ts)
    ensures r.error.NoError? ==> |r.rest| <= |ts| && (anchor == "" && tag == "" ==> |r.rest| < |ts|)
    decreases |ts|, 1
  {
    var t := ts[0];
    if Opens(t.typ, block, indentless) then Collection(ts, dirs, block, indentless, anchor, tag)
    else if t.typ.ScalarToken? then
      var plain := (tag == "" && t.style.Plain?) || tag == "!";
      Done(Scalar(anchor, tag, t.value, plain, !plain && tag == "", t.style), ts[1..])
    else if anchor != "" || tag != "" then Done(Scalar(anchor, tag, "", tag == "", false, Plain), ts)
    else Failed(ParserError(if block then InBlockNode else InFlowNode, mark, ExpectedNodeContent, t.startMark))
  }

  /** Whether a collection can start with the token. */
  predicate Opens(t: TokenType, block: bool, indentless: bool) {
    t.FlowSequenceStartToken? || t.FlowMappingStartToken? ||
    (block && (t.BlockSequenceStartToken? || t.BlockMappingStartToken?)) || (indentless && t.BlockEntryToken?)
  }

  function Collection(ts: seq<Token>, dirs: seq<(string, string)>, block: bool, indentless: bool,
                      anchor: string, tag: string): (r: Spelled)
    requires ts != [] && Opens(ts[0].typ, block, indentless)
    ensures r.error.NoError? ==> Within(r.rest, ts)
    ensures r.error.NoError? ==> |r.rest| < |ts|
    decreases |ts|, 0, 1
  {
    var mark := ts[0].startMark;
    match ts[0].typ
    case BlockEntryToken => Before(SequenceStart(anchor, tag, tag == "", Block), IndentlessEntries(ts, dirs))
    case FlowSequenceStartToken =>
      Before(SequenceStart(anchor, tag, tag == "", Flow), FlowEntries(ts[1..], dirs, mark, true))
    case FlowMappingStartToken =>
      Before(MappingStart(anchor, tag, tag == "", Flow), FlowPairs(ts[1..], dirs, mark, true))
    case BlockSequenceStartToken =>
      Before(SequenceStart(anchor, tag, tag == "", Block), BlockEntries(ts[1..], dirs, mark))
    case _ => Before(MappingStart(anchor, tag, tag == "", Block), BlockPairs(ts[1..], dirs, mark))
  }

  // ---- Block collections ----

  const ENDS_ENTRY := {BlockEntryToken, BlockEndToken}
  const ENDS_INDENTLESS := {BlockEntryToken, KeyToken, ValueToken, BlockEndToken}
  const ENDS_BLOCK := {KeyToken, ValueToken, BlockEndToken}

  /** (BLOCK-ENTRY block_node?)* BLOCK-END */
  function BlockEntries(ts: seq<Token>, dirs: seq<(string, string)>, mark: int): (r: Spelled)
    ensures r.error.NoError? ==> Within(r.rest, ts)
    ensures r.error.NoError? ==> |r.rest| < |ts|
    decreases |ts|, 0
  {
    if ts == [] then Failed(ScannerError)
    else if ts[0].typ.BlockEntryToken? then
      var n := Optional(ts[1..], dirs, true, false, ENDS_ENTRY);
      if n.error.NoError? then After(n, BlockEntries(n.rest, dirs, mark)) else n
    else if ts[0].typ.BlockEndToken? then Done(SequenceEnd, ts[1..])
    else Failed(ParserError(InBlockCollection, mark, ExpectedBlockEntry, ts[0].startMark))
  }

  /** (BLOCK-ENTRY block_node?)*, to the first token that starts no entry. */
  function IndentlessEntries(ts: seq<Token>, dirs: seq<(string, string)>): (r: Spelled)
    ensures r.error.NoError? ==> Within(r.rest, ts)
    ensures r.error.NoError? ==> |r.rest| <= |ts| && (ts != [] && ts[0].typ.BlockEntryToken? ==> |r.rest| < |ts|)
    decreases |ts|, 0, 0
  {
    if ts == [] then Failed(ScannerError)
    else if ts[0].typ.BlockEntryToken? then
      var n := Optional(ts[1..], dirs, true, false, ENDS_INDENTLESS);
      if n.error.NoError? then After(n, IndentlessEntries(n.rest, dirs)) else n
    else Done(SequenceEnd, ts)
  }

  /** (KEY block_node_or_indentless_sequence? (VALUE block_node_or_indentless_sequence?)?)* BLOCK-END */
  function BlockPairs(ts: seq<Token>, dirs: seq<(string, string)>, mark: int): (r: Spelled)
    ensures r.error.NoError? ==> Within(r.rest, ts)
    ensures r.error.NoError? ==> |r.rest| < |ts|
    decreases |ts|, 0
  {
    if ts == [] then Failed(ScannerError)
    else if ts[0].typ.KeyToken? then
      var n := Optional(ts[1..], dirs, true, true, ENDS_BLOCK);
      if n.error.NoError? then After(n, BlockValue(n.rest, dirs, mark)) else n
    else if ts[0].typ.BlockEndToken? then Done(MappingEnd, ts[1..])
    else Failed(ParserError(InBlockMapping, mark, ExpectedKey, ts[0].startMark))
  }

  /** The value of a pair, and the pairs after it. */
  function BlockValue(ts: seq<Token>, dirs: seq<(string, string)>, mark: int): (r: Spelled)
    ensures r.error.NoError? ==> Within(r.rest, ts)
    ensures r.error.NoError? ==> |r.rest| < |ts|
    decreases |ts|, 1
  {
    if ts == [] then Failed(ScannerError)
    else if ts[0].typ.ValueToken? then
      var n := Optional(ts[1..], dirs, true, true, ENDS_BLOCK);
      if n.error.NoError? then After(n, BlockPairs(n.rest, dirs, mark)) else n
    else Before(EMPTY, BlockPairs(ts, dirs, mark))
  }

  // ---- Flow collections ----

  const ENDS_PAIR_KEY := {ValueToken, FlowEntryToken, FlowSequenceEndToken}
  const ENDS_PAIR := {FlowEntryToken, FlowSequenceEndToken}
  const ENDS_FLOW_KEY := {ValueToken, FlowEntryToken, FlowMappingEndToken}
  const ENDS_FLOW := {FlowEntryToken, FlowMappingEndToken}

  /** The entries that are left and FLOW-SEQUENCE-END; all but the first follow a comma. */
  function FlowEntries(ts: seq<Token>, dirs: seq<(string, string)>, mark: int, first: bool): (r: Spelled)
    ensures r.error.NoError? ==> Within(r.rest, ts)
    ensures r.error.NoError? ==> |r.rest| < |ts|
    decreases |ts|, 4
  {
    if ts == [] then Failed(ScannerError)
    else if first || ts[0].typ.FlowSequenceEndToken? then FlowEntry(ts, dirs, mark)
    else if !ts[0].typ.FlowEntryToken? then
      Failed(ParserError(InFlowSequence, mark, ExpectedCommaOrBracket, ts[0].startMark))
    else if |ts| == 1 then Failed(ScannerError)
    else FlowEntry(ts[1..], dirs, mark)
  }

  /** One entry and the rest, or the end, also after a comma. */
  function FlowEntry(ts: seq<Token>, dirs: seq<(string, string)>, mark: int): (r: Spelled)
    requires ts != []
    ensures r.error.NoError? ==> Within(r.rest, ts)
    ensures r.error.NoError? ==> |r.rest| < |ts|
    decreases |ts|, 3
  {
    if ts[0].typ.FlowSequenceEndToken? then Done(SequenceEnd, ts[1..])
    else if ts[0].typ.KeyToken? then Before(MappingStart("", "", true, Flow), PairKey(ts[1..], dirs, mark))
    else
      var n := Node(ts, dirs, false, false);
      if n.error.NoError? then After(n, FlowEntries(n.rest, dirs, mark, false)) else n
  }

  /** The single pair of an entry that starts with KEY. Where the key is empty, the
      token that shows it is taken along, whatever it is. */
  function PairKey(ts: seq<Token>, dirs: seq<(string, string)>, mark: int): (r: Spelled)
    ensures r.error.NoError? ==> Within(r.rest, ts)
    ensures r.error.NoError? ==> |r.rest| < |ts|
    decreases |ts|, 7
  {
    if ts == [] then Failed(ScannerError)
    else if ts[0].typ in ENDS_PAIR_KEY then Before(EMPTY, PairValue(ts[1..], dirs, mark))
    else
      var n := Node(ts, dirs, false, false);
      if n.error.NoError? then After(n, PairValue(n.rest, dirs, mark)) else n
  }

  function PairValue(ts: seq<Token>, dirs: seq<(string, string)>, mark: int): (r: Spelled)
    ensures r.error.NoError? ==> Within(r.rest, ts)
    ensures r.error.NoError? ==> |r.rest| < |ts|
    decreases |ts|, 6
  {
    if ts == [] then Failed(ScannerError)
    else if ts[0].typ.ValueToken? then
      var n := Optional(ts[1..], dirs, false, false, ENDS_PAIR);
      if n.error.NoError? then After(n, PairEnd(n.rest, dirs, mark)) else n
    else Before(EMPTY, PairEnd(ts, dirs, mark))
  }

  function PairEnd(ts: seq<Token>, dirs: seq<(string, string)>, mark: int): (r: Spelled)
    ensures r.error.NoError? ==> Within(r.rest, ts)
    ensures r.error.NoError? ==> |r.rest| < |ts|
    decreases |ts|, 5
  {
    if ts == [] then Failed(ScannerError) else Before(MappingEnd, FlowEntries(ts, dirs, mark, false))
  }

  /** The pairs that are left and FLOW-MAPPING-END; all but the first follow a comma. */
  function FlowPairs(ts: seq<Token>, dirs: seq<(string, string)>, mark: int, first: bool): (r: Spelled)
    ensures r.error.NoError? ==> Within(r.rest, ts)
    ensures r.error.NoError? ==> |r.rest| < |ts|
    decreases |ts|, 4
  {
    if ts == [] then Failed(ScannerError)
    else if first || ts[0].typ.FlowMappingEndToken? then FlowPair(ts, dirs, mark)
    else if !ts[0].typ.FlowEntryToken? then
      Failed(ParserError(InFlowMapping, mark, ExpectedCommaOrBrace, ts[0].startMark))
    else if |ts| == 1 then Failed(ScannerError)
    else FlowPair(ts[1..], dirs, mark)
  }

  /** One pair and the rest, or the end, also after a comma. */
  function FlowPair(ts: seq<Token>, dirs: seq<(string, string)>, mark: int): (r: Spelled)
    requires ts != []
    ensures r.error.NoError? ==> Within(r.rest, ts)
    ensures r.error.NoError? ==> |r.rest| < |ts|
    decreases |ts|, 3
  {
    if ts[0].typ.FlowMappingEndToken? then Done(MappingEnd, ts[1..])
    else if ts[0].typ.KeyToken? then
      var n := Optional(ts[1..], dirs, false, false, ENDS_FLOW_KEY);
      if n.error.NoError? then After(n, FlowValue(n.rest, dirs, mark, false)) else n
    else
      var n := Node(ts, dirs, false, false);
      if n.error.NoError? then After(n, FlowValue(n.rest, dirs, mark, true)) else n
  }

  /** The value of a pair, which a pair without KEY does not have, and the pairs after it. */
  function FlowValue(ts: seq<Token>, dirs: seq<(string, string)>, mark: int, none: bool): (r: Spelled)
    ensures r.error.NoError? ==> Within(r.rest, ts)
    ensures r.error.NoError? ==> |r.rest| < |ts|
    decreases |ts|, 5
  {
    if ts == [] then Failed(ScannerError)
    else if !none && ts[0].typ.ValueToken? then
      var n := Optional(ts[1..], dirs, false, false, ENDS_FLOW);
      if n.error.NoError? then After(n, FlowPairs(n.rest, dirs, mark, false)) else n
    else Before(EMPTY, FlowPairs(ts, dirs, mark, false))
  }

  // ---- Where the grammar of the comments is not met ----

  /** A pair with an empty key as the grammar derives it, KEY (VALUE flow_node?)?: the token
      that shows the key to be empty still counts. */
  function PairMeant(ts: seq<Token>, dirs: seq<(string, string)>, mark: int): Spelled {
    Before(EMPTY, PairValue(ts, dirs, mark))
  }

  /** `? : ,` and `? : ]` and `? , ]`: what is lost with the token makes no difference. */
  predicate NothingLost(ts: seq<Token>) {
    |ts| > 1 && if ts[0].typ.ValueToken? then ts[1].typ in ENDS_PAIR
      else ts[0].typ.FlowEntryToken? && ts[1].typ.FlowSequenceEndToken?
  }

  /** The parser takes that token along, so that a pair with an empty key is read as it is
      meant if and only if nothing is lost by it. Otherwise a value, an entry or the end
      of the sequence stands where a comma should, unless a stray VALUE or end follows. */
  lemma {:induction false} EmptyPairKey(ts: seq<Token>, dirs: seq<(string, string)>, mark: int)
    requires ts != [] && ts[0].typ in ENDS_PAIR_KEY
    ensures NothingLost(ts) ==> PairKey(ts, dirs, mark) == PairMeant(ts, dirs, mark)
    ensures PairMeant(ts, dirs, mark).error.NoError? && PairKey(ts, dirs, mark) == PairMeant(ts, dirs, mark) ==>
              NothingLost(ts)
    ensures |ts| > 1 && ts[1].typ !in ENDS_PAIR_KEY ==>
              PairKey(ts, dirs, mark) ==
              Spelled([EMPTY, EMPTY, MappingEnd], [],
                ParserError(InFlowSequence, mark, ExpectedCommaOrBracket, ts[1].startMark))
  {
    hide Node, EMPTY, PairKey, PairValue, FlowEntries;
    var us := ts[1..];
    KeyTaken(ts, dirs, mark);
    if us != [] && us[0].typ !in ENDS_PAIR_KEY { NoComma(us, dirs, mark); }
    if us != [] && !us[0].typ.ValueToken? { NoPairValue(us, dirs, mark); }
    if ts[0].typ.ValueToken? { ValueMeant(ts, dirs, mark); } else { NoPairValue(ts, dirs, mark); }
    if ts[0].typ.FlowEntryToken? { EntryMeant(ts, dirs, mark); }
    if ts[0].typ.FlowSequenceEndToken? { EndMeant(ts, dirs, mark); }
  }

  /** What comes where a comma is expected. */
  lemma {:induction false} NoComma(ts: seq<Token>, dirs: seq<(string, string)>, mark: int)
    requires ts != [] && ts[0].typ !in ENDS_PAIR_KEY
    ensures PairValue(ts, dirs, mark) ==
            Spelled([EMPTY, MappingEnd], [], ParserError(InFlowSequence, mark, ExpectedCommaOrBracket, ts[0].startMark))
  {
    hide PairValue, EMPTY;
    NoPairValue(ts, dirs, mark);
    assert [EMPTY] + ([MappingEnd] + []) == [EMPTY, MappingEnd];
  }

  /** After VALUE. */
  lemma {:induction false} ValueMeant(ts: seq<Token>, dirs: seq<(string, string)>, mark: int)
    requires ts != [] && ts[0].typ.ValueToken?
    ensures |ts| > 1 && ts[1].typ in ENDS_PAIR ==>
              PairValue(ts, dirs, mark) == Before(EMPTY, Before(MappingEnd, FlowEntries(ts[1..], dirs, mark, false)))
    ensures |ts| == 1 || ts[1].typ.ValueToken? ==> !PairValue(ts, dirs, mark).error.NoError?
  {
    hide Node, EMPTY, FlowEntries;
    if |ts| > 1 && ts[1].typ.ValueToken? { NoContent(ts[1..], dirs); }
  }

  /** After a comma. */
  lemma {:induction false} EntryMeant(ts: seq<Token>, dirs: seq<(string, string)>, mark: int)
    requires ts != [] && ts[0].typ.FlowEntryToken?
    ensures |ts| > 1 && ts[1].typ.FlowSequenceEndToken? ==>
              FlowEntries(ts, dirs, mark, false) == FlowEntries(ts[1..], dirs, mark, false)
    ensures |ts| == 1 || ts[1].typ.ValueToken? || ts[1].typ.FlowEntryToken? ==>
              !FlowEntries(ts, dirs, mark, false).error.NoError?
  {
    hide Node, EMPTY, PairKey;
    if |ts| > 1 && ts[1].typ in ENDS_PAIR_KEY { NoContent(ts[1..], dirs); }
  }

  /** At the end nothing may be left of the end. */
  lemma {:induction false} EndMeant(ts: seq<Token>, dirs: seq<(string, string)>, mark: int)
    requires ts != [] && ts[0].typ.FlowSequenceEndToken?
    ensures FlowEntries(ts, dirs, mark, false) == Done(SequenceEnd, ts[1..])
    ensures PairValue(ts[1..], dirs, mark).error.NoError? ==> PairValue(ts[1..], dirs, mark).rest != ts[1..]
  {
    hide PairValue;
  }

  lemma {:induction false} KeyTaken(ts: seq<Token>, dirs: seq<(string, string)>, mark: int)
    requires ts != [] && ts[0].typ in ENDS_PAIR_KEY
    ensures PairKey(ts, dirs, mark) == Before(EMPTY, PairValue(ts[1..], dirs, mark))
  {
    hide PairValue, EMPTY;
  }

  lemma {:induction false} NoPairValue(ts: seq<Token>, dirs: seq<(string, string)>, mark: int)
    requires ts != [] && !ts[0].typ.ValueToken?
    ensures PairValue(ts, dirs, mark) == Before(EMPTY, Before(MappingEnd, FlowEntries(ts, dirs, mark, false)))
  {
    hide FlowEntries, EMPTY;
  }

  /** No flow node starts with these. */
  lemma {:induction false} NoContent(ts: seq<Token>, dirs: seq<(string, string)>)
    requires ts != [] && ts[0].typ in ENDS_PAIR_KEY
    ensures !Node(ts, dirs, false, false).error.NoError?
  {
  }

  /** `? : v ]`, `? , a ]` and `? ]`, each with what comes behind it. */
  lemma {:induction false} PairsMisread(colon: Token, comma: Token, word: Token, end: Token, ts: seq<Token>,
                                        dirs: seq<(string, string)>, mark: int)
    requires colon.typ.ValueToken? && comma.typ.FlowEntryToken? && word.typ.ScalarToken? &&
             end.typ.FlowSequenceEndToken?
    ensures PairMeant([colon, word, end] + ts, dirs, mark).error.NoError? &&
            !PairKey([colon, word, end] + ts, dirs, mark).error.NoError?
    ensures PairMeant([comma, word, end] + ts, dirs, mark).error.NoError? &&
            !PairKey([comma, word, end] + ts, dirs, mark).error.NoError?
    ensures PairMeant([end] + ts, dirs, mark).error.NoError? &&
            PairKey([end] + ts, dirs, mark) != PairMeant([end] + ts, dirs, mark)
  {
    hide PairKey, PairValue, Node;
    var us, vs := [word, end] + ts, [end] + ts;
    assert [colon, word, end] + ts == [colon] + us && [comma, word, end] + ts == [comma] + us;
    assert ([colon] + us)[1..] == us && ([comma] + us)[1..] == us && us[1..] == vs && vs[1..] == ts;
    EmptyPairKey([colon] + us, dirs, mark);
    EmptyPairKey([comma] + us, dirs, mark);
    EmptyPairKey(vs, dirs, mark);
    WordRead(us, dirs, false, false);
    ClosesPair(vs, dirs, mark);
    NoPairValue([comma] + us, dirs, mark);
    NoPairValue(vs, dirs, mark);
    WordMeant([colon] + us, dirs, mark);
  }

  lemma {:induction false} WordRead(ts: seq<Token>, dirs: seq<(string, string)>, block: bool, indentless: bool)
    requires ts != [] && ts[0].typ.ScalarToken?
    ensures Node(ts, dirs, block, indentless).error.NoError? && Node(ts, dirs, block, indentless).rest == ts[1..]
  {
  }

  lemma {:induction false} ClosesPair(ts: seq<Token>, dirs: seq<(string, string)>, mark: int)
    requires ts != [] && ts[0].typ.FlowSequenceEndToken?
    ensures FlowEntries(ts, dirs, mark, false).error.NoError? && PairEnd(ts, dirs, mark).error.NoError?
  {
  }

  lemma {:induction false} WordMeant(ts: seq<Token>, dirs: seq<(string, string)>, mark: int)
    requires |ts| > 2 && ts[0].typ.ValueToken? && ts[1].typ.ScalarToken? && ts[2].typ.FlowSequenceEndToken?
    ensures PairValue(ts, dirs, mark).error.NoError?
  {
    hide Node, PairEnd;
    WordRead(ts[1..], dirs, false, false);
    assert ts[1..][1..] == ts[2..];
    ClosesPair(ts[2..], dirs, mark);
  }

  /** The pairs of a block mapping as the grammar derives them: the key may be missing. */
  function BlockMeant(ts: seq<Token>, dirs: seq<(string, string)>, mark: int): Spelled {
    if ts != [] && ts[0].typ.ValueToken? then Before(EMPTY, BlockValue(ts, dirs, mark)) else BlockPairs(ts, dirs, mark)
  }

  /** The parser demands the KEY: pairs are read as they are meant if and only if the next
      one does not start with VALUE. */
  lemma {:induction false} MissingBlockKey(ts: seq<Token>, dirs: seq<(string, string)>, mark: int)
    ensures BlockPairs(ts, dirs, mark) == BlockMeant(ts, dirs, mark) <==> ts == [] || !ts[0].typ.ValueToken?
    ensures ts != [] && ts[0].typ.ValueToken? ==>
              BlockPairs(ts, dirs, mark) == Failed(ParserError(InBlockMapping, mark, ExpectedKey, ts[0].startMark))
  {
    hide BlockValue;
  }

  /** `: v` alone. */
  lemma {:induction false} KeyDemanded(colon: Token, word: Token, end: Token, ts: seq<Token>,
                                       dirs: seq<(string, string)>, mark: int)
    requires colon.typ.ValueToken? && word.typ.ScalarToken? && end.typ.BlockEndToken?
    ensures BlockMeant([colon, word, end] + ts, dirs, mark).error.NoError? &&
            !BlockPairs([colon, word, end] + ts, dirs, mark).error.NoError?
  {
    hide Node;
    var us := [colon, word, end] + ts;
    assert us[1..] == [word, end] + ts && us[1..][1..] == [end] + ts;
    WordRead(us[1..], dirs, true, true);
    MissingBlockKey(us, dirs, mark);
    assert BlockPairs([end] + ts, dirs, mark).error.NoError?;
    assert Optional(us[1..], dirs, true, true, ENDS_BLOCK) == Node(us[1..], dirs, true, true);
    assert us[0] == colon && BlockValue(us, dirs, mark).error.NoError?;
  }
}
