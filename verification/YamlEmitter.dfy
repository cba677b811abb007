/** The event-to-text emitter as a pushdown automaton: which state follows which,
    what the stacks hold, how far it looks ahead, and which tokens it writes. The
    text of names and scalars moves the column by any amount. */
module YamlEmitter {
  import opened YamlGrammar
  import opened YamlTags
  import T = YamlTokens
  import D = YamlDescent
  import P = YamlParser
  import R = YamlReadBack
  import F = YamlFolded
  import opened Wrappers

  datatype State =
    | EmitStreamStart
    | EmitFirstDocumentStart
    | EmitDocumentStart
    | EmitDocumentContent
    | EmitDocumentEnd
    | EmitFlowSequenceFirstItem
    | EmitFlowSequenceItem
    | EmitFlowMappingFirstKey
    | EmitFlowMappingKey
    | EmitFlowMappingSimpleValue
    | EmitFlowMappingValue
    | EmitBlockSequenceFirstItem
    | EmitBlockSequenceItem
    | EmitBlockMappingFirstKey
    | EmitBlockMappingKey
    | EmitBlockMappingSimpleValue
    | EmitBlockMappingValue
    | EmitEnd

  /** What the emitter refuses. The first six are about the order of events. */
  datatype Problem =
    | NoProblem
    | ExpectedStreamStart | ExpectedDocumentStartOrStreamEnd | ExpectedDocumentEnd | ExpectedNode
    | ExpectedNothing
    | BadAnchor | BadTagHandle | EmptyTagPrefix | DuplicateTagDirective | NeitherTagNorImplicit

  predicate Structural(p: Problem) {
    p.ExpectedStreamStart? || p.ExpectedDocumentStartOrStreamEnd? || p.ExpectedDocumentEnd? ||
    p.ExpectedNode? || p.ExpectedNothing?
  }

  // ---- What a state stands for ----

  datatype Bracket = Square | Curly

  datatype Shape = Whole | More | Root | Close | Entries | Keys | Values | Over

  /** Where a state occurs: outside any node, at a collection just begun, or below
      an open node, as the state to return to. */
  datatype Place = Outside | First | Return

  /** `open` collections have saved an indent, and `flow` holds the bracket of one in
      flow style. A block collection is never within one. */
  datatype Meaning = Meaning(shape: Shape, open: nat, flow: seq<Bracket>, place: Place, block: bool)

  function Means(s: State): Meaning {
    match s
    case EmitStreamStart => Meaning(Whole, 0, [], Outside, false)
    case EmitFirstDocumentStart => Meaning(More, 0, [], Outside, false)
    case EmitDocumentStart => Meaning(More, 0, [], Outside, false)
    case EmitDocumentContent => Meaning(Root, 0, [], Outside, false)
    case EmitDocumentEnd => Meaning(Close, 0, [], Outside, false)
    case EmitFlowSequenceFirstItem => Meaning(Entries, 0, [], First, false)
    case EmitFlowSequenceItem => Meaning(Entries, 1, [Square], Return, false)
    case EmitFlowMappingFirstKey => Meaning(Keys, 0, [], First, false)
    case EmitFlowMappingKey => Meaning(Keys, 1, [Curly], Return, false)
    case EmitFlowMappingSimpleValue => Meaning(Values, 1, [Curly], Return, false)
    case EmitFlowMappingValue => Meaning(Values, 1, [Curly], Return, false)
    case EmitBlockSequenceFirstItem => Meaning(Entries, 0, [], First, true)
    case EmitBlockSequenceItem => Meaning(Entries, 1, [], Return, true)
    case EmitBlockMappingFirstKey => Meaning(Keys, 0, [], First, true)
    case EmitBlockMappingKey => Meaning(Keys, 1, [], Return, true)
    case EmitBlockMappingSimpleValue => Meaning(Values, 1, [], Return, true)
    case EmitBlockMappingValue => Meaning(Values, 1, [], Return, true)
    case EmitEnd => Meaning(Over, 0, [], Outside, false)
  }

  function Owe(shape: Shape, rest: Owed): Owed {
    match shape
    case Whole => Stream
    case More => Documents
    case Root => Single(EndOfDocument)
    case Close => EndOfDocument
    case Entries => Items(rest)
    case Keys => Pairs(rest)
    case Values => Value(rest)
    case Over => Nothing
  }

  /** What a stack of return states amounts to. It is `nested` when it has the
      document end at the bottom and only states that continue a collection above. */
  datatype Summary = Summary(nested: bool, owed: Owed, open: nat, flow: seq<Bracket>)

  function Sum(states: seq<State>): Summary {
    if states == [] then Summary(false, Nothing, 0, [])
    else
      Extend(|states| == 1, Sum(states[..|states| - 1]), states[|states| - 1])
  }

  predicate Fits(m: Meaning, flow: seq<Bracket>) {
    m.block ==> flow == []
  }

  function Extend(bottom: bool, below: Summary, top: State): Summary {
    var m := Means(top);
    Summary(if bottom then top.EmitDocumentEnd? else below.nested && m.place.Return? && Fits(m, below.flow),
            Owe(m.shape, below.owed), m.open + below.open, below.flow + m.flow)
  }

  lemma NoStates()
    ensures Sum([]) == Summary(false, Nothing, 0, [])
  {
  }

  lemma {:induction false} StatePushed(states: seq<State>, s: State)
    ensures Sum(states + [s]) == Extend(states == [], Sum(states), s)
  {
    assert (states + [s])[..|states|] == states;
  }

  lemma {:induction false} DocumentSum(states: seq<State>)
    requires states == [EmitDocumentEnd]
    ensures Sum(states) == Summary(true, EndOfDocument, 0, [])
  {
    assert states[..0] == [];
    NoStates();
    assert Means(EmitDocumentEnd).flow + [] == [];
  }

  /** What the state on top of a stack adds to what is below. */
  lemma {:induction false} TopState(states: seq<State>)
    requires Sum(states).nested
    ensures states != []
    ensures var below, m := Sum(states[..|states| - 1]), Means(states[|states| - 1]);
            && Owe(m.shape, below.owed) == Sum(states).owed && m.open + below.open == Sum(states).open
            && below.flow + m.flow == Sum(states).flow + []
            && (states[|states| - 1].EmitDocumentEnd? || m.place.Return?)
            && (if m.place.Outside? then states[..|states| - 1] == [] else below.nested && Fits(m, below.flow))
            && !states[|states| - 1].EmitStreamStart? && !Owe(m.shape, below.owed).Stream? &&
                 !Owe(m.shape, below.owed).Documents?
  {
    NoStates();
  }

  lemma {:induction false} ChildSum(states: seq<State>, s: State)
    requires Sum(states).nested && Means(s).place.Return? && Fits(Means(s), Sum(states).flow)
    ensures var below, m := Sum(states), Means(s);
            Sum(states + [s]) == Summary(true, Owe(m.shape, below.owed), m.open + below.open, below.flow + m.flow)
    ensures Means(s).open == 1 && Sum(states + [s]).flow + [] == Sum(states).flow + Means(s).flow
  {
    StatePushed(states, s);
    NoStates();
  }

  // ---- The flow brackets written ----

  datatype Mark = Opens(bracket: Bracket) | Closes(bracket: Bracket)

  /** The brackets left open, or nothing when one is closed that is not the last open. */
  function Pending(marks: seq<Mark>): Option<seq<Bracket>> {
    if marks == [] then Some([])
    else
      var m := marks[|marks| - 1];
      match Pending(marks[..|marks| - 1])
      case None => None
      case Some(s) =>
        match m
        case Opens(b) => Some(s + [b])
        case Closes(b) => if s != [] && s[|s| - 1] == b then Some(s[..|s| - 1]) else None
  }

  // ---- Indicators ----

  datatype Indicator =
    | Dash | Question | Colon | Comma
    | Opening(bracket: Bracket) | Closing(bracket: Bracket)
    | DocumentStarts | DocumentEnds
    | YamlDirective | Version | TagDirective
    | Ampersand | Asterisk | OpenVerbatim | CloseVerbatim

  function Text(i: Indicator): string {
    match i
    case Dash => "-"
    case Question => "?"
    case Colon => ":"
    case Comma => ","
    case Opening(b) => if b.Square? then "[" else "{"
    case Closing(b) => if b.Square? then "]" else "}"
    case DocumentStarts => "---"
    case DocumentEnds => "..."
    case YamlDirective => "%YAML"
    case Version => "1.1"
    case TagDirective => "%TAG"
    case Ampersand => "&"
    case Asterisk => "*"
    case OpenVerbatim => "!<"
    case CloseVerbatim => ">"
  }

  /** The tokens that an indicator is by itself. */
  function Tokens(i: Indicator): seq<T.Token> {
    match i
    case Dash => [R.Tok(T.BlockEntryToken)]
    case Question => [R.Tok(T.KeyToken)]
    case Colon => [R.Tok(T.ValueToken)]
    case Comma => [R.Tok(T.FlowEntryToken)]
    case Opening(b) => [R.Tok(if b.Square? then T.FlowSequenceStartToken else T.FlowMappingStartToken)]
    case Closing(b) => [R.Tok(if b.Square? then T.FlowSequenceEndToken else T.FlowMappingEndToken)]
    case DocumentStarts => [R.Tok(T.DocumentStartToken)]
    case DocumentEnds => [R.Tok(T.DocumentEndToken)]
    case Version => [R.VERSION]
    case _ => []
  }

  // ---- How the parser stands ----

  /** Where the parser is that has read what the emitter wrote. */
  predicate Stands(s: State, p: P.State) {
    match s
    case EmitStreamStart => p.ParseStreamStart?
    case EmitFirstDocumentStart => p.ParseImplicitDocumentStart?
    case EmitDocumentStart => p.ParseDocumentStart?
    case EmitDocumentContent => p.ParseBlockNode? || p.ParseDocumentContent?
    case EmitDocumentEnd => p.ParseDocumentEnd?
    case EmitFlowSequenceFirstItem => p.ParseFlowSequenceFirstEntry?
    case EmitFlowSequenceItem => p.ParseFlowSequenceEntry?
    case EmitFlowMappingFirstKey => p.ParseFlowMappingFirstKey?
    case EmitFlowMappingKey => p.ParseFlowMappingKey?
    case EmitFlowMappingSimpleValue => p.ParseFlowMappingValue?
    case EmitFlowMappingValue => p.ParseFlowMappingValue?
    case EmitBlockSequenceFirstItem => p.ParseBlockSequenceFirstEntry? || p.ParseIndentlessSequenceEntry?
    case EmitBlockSequenceItem => p.ParseBlockSequenceEntry? || p.ParseIndentlessSequenceEntry?
    case EmitBlockMappingFirstKey => p.ParseBlockMappingFirstKey?
    case EmitBlockMappingKey => p.ParseBlockMappingKey?
    case EmitBlockMappingSimpleValue => p.ParseBlockMappingValue?
    case EmitBlockMappingValue => p.ParseBlockMappingValue?
    case EmitEnd => p.ParseEnd?
  }

  predicate AllStand(states: seq<State>, below: seq<P.State>) {
    |states| == |below| && forall i :: 0 <= i < |states| ==> Stands(states[i], below[i])
  }

  /** On top is a mapping in block style. */
  predicate InMapping(below: seq<P.State>) {
    below != [] && (below[|below| - 1].ParseBlockMappingKey? || below[|below| - 1].ParseBlockMappingValue?)
  }

  /** A sequence without indent of its own is directly in a mapping. */
  predicate IndentlessInMapping(below: seq<P.State>) {
    forall i :: 0 <= i < |below| && below[i].ParseIndentlessSequenceEntry? ==> InMapping(below[..i])
  }

  /** The reader stands below as the stack does. */
  predicate OnStack(states: seq<State>, r: R.Reader) {
    && AllStand(states, r.below) && IndentlessInMapping(r.below)
    && (r.top.ParseIndentlessSequenceEntry? ==> InMapping(r.below))
  }

  /** The parser has not noticed a document, for nothing was written for it. */
  predicate Unnoticed(state: State, r: R.Reader) {
    r.top.ParseImplicitDocumentStart? && !state.EmitFirstDocumentStart?
  }

  /** The reader stands where the emitter does between two events. */
  predicate Along(state: State, states: seq<State>, directives: seq<(string, string)>, indentless: bool,
                  openEnded: bool, r: R.Reader) {
    && (if state.EmitDocumentContent? then r == R.AtContent(r.top.ParseDocumentContent?, directives)
        else if Unnoticed(state, r)
          then (state.EmitDocumentEnd? || state.EmitDocumentStart?) && states == [] && r == R.Outside(true)
        else OnStack(states, r) && Stands(state, r.top) && r.dirs == directives)
    && (r.isNew <==> Means(state).place.First?)
    && (state.EmitBlockSequenceFirstItem? ==> (r.top.ParseIndentlessSequenceEntry? <==> indentless))
    && (state.EmitStreamStart? || state.EmitFirstDocumentStart? ==> !openEnded)
  }

  /** Before a node, the reader knows in which context it stands. */
  predicate BeforeNode(states: seq<State>, directives: seq<(string, string)>, flow: bool, mapping: bool, r: R.Reader) {
    && R.AtNode(r) && !r.isNew && OnStack(states, r) && r.dirs == directives
    && r.top == (if flow then P.ParseFlowNode else if mapping then P.ParseBlockNodeOrIndentlessSequence
         else P.ParseBlockNode)
    && (r.top.ParseBlockNodeOrIndentlessSequence? ==> InMapping(r.below))
  }

  /** The reader at a collection that begins. */
  function Started(state: State, indentless: bool, r: R.Reader): R.Reader {
    R.Reader(ParserState(state, indentless), r.below, r.dirs, true)
  }

  lemma StartedAlong(state: State, states: seq<State>, directives: seq<(string, string)>, mapping: bool,
                     indention: bool, flow: bool,
                     openEnded: bool, r: R.Reader)
    requires BeforeNode(states, directives, flow, mapping, r) && Means(state).place.First? &&
             (Means(state).block ==> !flow)
    ensures Along(state, states, directives, mapping && !indention, openEnded, Started(state, mapping && !indention, r))
  {
    hide AllStand, IndentlessInMapping, InMapping;
  }

  /** The properties of a collection are read as its start. */
  lemma StartReads(canonical: bool, state: State, states: seq<State>, directives: seq<(string, string)>, mapping: bool,
                   indention: bool, flow: bool,
                   r: R.Reader, e: Event, style: Style, inFlow: bool)
    requires BeforeNode(states, directives, flow, mapping, r) && Named(directives)
    requires e.SequenceStart? || e.MappingStart?
    requires state == FirstState(e, inFlow) && (flow || e.style.Flow? ==> inFlow)
    requires var t := TagWritten(canonical, directives, e, style); !Unscannable(t)
    ensures var (handle, suffix) := TagWritten(canonical, directives, e, style);
            R.Step(r, R.Properties(AnchorOf(e), handle, suffix), e, Started(state, mapping && !indention, r))
  {
    hide AllStand, IndentlessInMapping, InMapping, Split, Named, R.Step, R.Readable, R.TagRead, R.Agrees, R.Properties;
    var t := TagWritten(canonical, directives, e, style);
    var first := ParserState(state, mapping && !indention);
    var shown := if first.ParseFlowSequenceFirstEntry? || first.ParseFlowMappingFirstKey? then Flow else Block;
    CollectionAgrees(canonical, directives, e, shown, style);
    R.CollectionReads(r, AnchorOf(e), t.0, t.1, first, e);
  }

  /** Where the emitter goes for the start of a collection. */
  function FirstState(e: Event, flow: bool): State {
    if e.SequenceStart? then if flow then EmitFlowSequenceFirstItem else EmitBlockSequenceFirstItem
    else if flow then EmitFlowMappingFirstKey else EmitBlockMappingFirstKey
  }

  /** The state of the parser after an entry of a sequence in block style. */
  function EntryBack(r: R.Reader): P.State {
    if r.top.ParseIndentlessSequenceEntry? then P.ParseIndentlessSequenceEntry else P.ParseBlockSequenceEntry
  }

  lemma EntryRead(r: R.Reader, first: bool, prefix: seq<T.Token>)
    requires if first then r.top.ParseBlockSequenceFirstEntry? || r.top.ParseIndentlessSequenceEntry?
             else r.top.ParseBlockSequenceEntry? || r.top.ParseIndentlessSequenceEntry?
    requires prefix ==
             R.OptionalToken(first && !r.top.ParseIndentlessSequenceEntry?, R.Tok(T.BlockSequenceStartToken)) +
             [R.Tok(T.BlockEntryToken)]
    ensures R.Leads(r, prefix, R.Child(r, EntryBack(r)))
  {
    hide R.Leads;
    if r.top.ParseIndentlessSequenceEntry? {
      R.IndentlessRead(r);
      assert prefix == [R.Tok(T.BlockEntryToken)];
    } else {
      R.BlockEntryRead(r, first);
    }
  }

  lemma EntriesEnd(r: R.Reader, chunk: seq<T.Token>)
    requires r.top.ParseBlockSequenceEntry? || (r.top.ParseIndentlessSequenceEntry? && !r.isNew && InMapping(r.below))
    requires r.below != []
    requires chunk == [] + R.OptionalToken(!r.top.ParseIndentlessSequenceEntry?, R.Tok(T.BlockEndToken))
    ensures R.Step(r, chunk, SequenceEnd, R.Popped(r))
  {
    hide R.Step;
    if r.top.ParseIndentlessSequenceEntry? {
      R.IndentlessCloses(r);
      assert chunk == [];
    } else {
      R.BlockCloses(r, true, false);
      assert chunk == R.OptionalToken(false, R.Tok(T.BlockSequenceStartToken)) + [R.Tok(T.BlockEndToken)];
    }
  }

  /** The parser's state at a collection just begun. */
  function ParserState(s: State, indentless: bool): P.State {
    match s
    case EmitFlowSequenceFirstItem => P.ParseFlowSequenceFirstEntry
    case EmitFlowMappingFirstKey => P.ParseFlowMappingFirstKey
    case EmitBlockMappingFirstKey => P.ParseBlockMappingFirstKey
    case _ => if indentless then P.ParseIndentlessSequenceEntry else P.ParseBlockSequenceFirstEntry
  }

  lemma Unframed(states: seq<State>, blocks: seq<int>, levels: seq<int>, indents: seq<int>, indent: int, flowLevel: int,
                 r: R.Reader)
    requires states != [] && AllStand(states, r.below) && Leveled(blocks, levels, indents, indent, flowLevel, r.below)
    requires if Means(states[|states| - 1]).place.Outside? then |states| == 1
               else Means(states[|states| - 1]).place.Return?
    ensures Leveled(blocks, levels, indents, indent, flowLevel, Frames(states[|states| - 1], R.Popped(r)))
  {
    hide Levels;
    assert r.below[..|r.below| - 1] + [r.below[|r.below| - 1]] == r.below;
  }

  /** The state below takes over, for the emitter and for the reader. */
  lemma Unstacked(states: seq<State>, directives: seq<(string, string)>, indentless: bool, openEnded: bool, r: R.Reader)
    requires states != [] && OnStack(states, r) && r.dirs == directives
    requires states[|states| - 1].EmitDocumentEnd? || Means(states[|states| - 1]).place.Return?
    ensures r.below != []
    ensures Along(states[|states| - 1], states[..|states| - 1], directives, indentless, openEnded, R.Popped(r))
    ensures !states[|states| - 1].EmitBlockSequenceFirstItem? && !states[|states| - 1].EmitEnd?
    ensures !R.Popped(r).top.ParseBlockNode? && !R.Popped(r).top.ParseImplicitDocumentStart?
    ensures !states[|states| - 1].EmitStreamStart? && !states[|states| - 1].EmitFirstDocumentStart?
  {
    var below := r.below[..|r.below| - 1];
    forall i | 0 <= i < |below| && below[i].ParseIndentlessSequenceEntry? ensures InMapping(below[..i]) {
      assert below[..i] == r.below[..i];
    }
    var k := |states| - 1;
    assert Stands(states[k], r.below[k]);
    assert forall i :: 0 <= i < k ==> Stands(states[i], r.below[i]);
  }

  lemma ChildStacked(states: seq<State>, s: State, r: R.Reader, back: P.State)
    requires OnStack(states, r) && Stands(s, back) && (back.ParseIndentlessSequenceEntry? ==> InMapping(r.below))
    ensures OnStack(states + [s], R.Child(r, back))
    ensures back.ParseBlockMappingKey? || back.ParseBlockMappingValue? ==> InMapping(R.Child(r, back).below)
  {
    hide Stands, InMapping;
    var below := r.below + [back];
    forall i | 0 <= i < |below| && below[i].ParseIndentlessSequenceEntry? ensures InMapping(below[..i]) {
      assert below[..i] == r.below[..i];
      if i == |r.below| { assert below[..i] == r.below; }
    }
    LastInMapping(r.below, back);
  }

  lemma LastInMapping(below: seq<P.State>, back: P.State)
    ensures back.ParseBlockMappingKey? || back.ParseBlockMappingValue? ==> InMapping(below + [back])
  {
  }

  lemma Composed(em: Emitter, r: R.Reader, prefix: seq<T.Token>, hole: R.Reader, e: Event)
    requires R.Leads(r, prefix, hole) && em.ChunkRead(prefix, hole, e)
    ensures !em.broken ==> R.Step(r, em.chunk, Heard(e, em.Looks()), em.reader)
  {
    hide R.Leads, R.Step, R.Skipped, Bare, Heard;
    if !em.broken {
      var more := if Bare(em.canonical, e, em.scalarStyle) then [] else em.chunk[|prefix|..];
      BareIsHeard(em.canonical, e, em.Looks());
      R.Composed(r, prefix, hole, more, Heard(e, em.Looks()), em.reader);
      assert prefix + more == em.chunk;
    }
  }

  // ---- The columns of block collections ----

  /** The levels of the scanner: the indents of the block collections, those without
      an indent of their own left out. */
  function Levels(blocks: seq<int>): seq<int> {
    if |blocks| <= 1 then blocks
    else if blocks[|blocks| - 1] == blocks[|blocks| - 2] then Levels(blocks[..|blocks| - 1])
    else Levels(blocks[..|blocks| - 1]) + [blocks[|blocks| - 1]]
  }

  /** The collections that are open, over the document, as the parser has them. */
  function Frames(state: State, r: R.Reader): seq<P.State> {
    if Means(state).place.Return? then r.below + [r.top] else if Means(state).place.First? then r.below
      else [P.ParseDocumentEnd]
  }

  /** Under the collections in flow style the saved indents are those of block collections,
      and only indentless sequences have the indent of what they are in. */
  predicate Leveled(blocks: seq<int>, levels: seq<int>, indents: seq<int>, indent: int, flowLevel: int,
                    frames: seq<P.State>) {
    && |blocks| >= 1 && blocks[0] == -1 && flowLevel >= 0 && |blocks| + flowLevel == |indents| + 1 == |frames|
    && blocks <= indents + [indent] && levels == Levels(blocks)
    && forall j :: 1 <= j < |blocks| ==>
         blocks[j] >= 0 && (frames[j].ParseIndentlessSequenceEntry? <==> blocks[j] == blocks[j - 1])
  }

  lemma {:induction false} LastLevel(blocks: seq<int>)
    requires blocks != []
    ensures Levels(blocks) != [] && Levels(blocks)[|Levels(blocks)| - 1] == blocks[|blocks| - 1]
    decreases |blocks|
  {
    if |blocks| > 1 && blocks[|blocks| - 1] == blocks[|blocks| - 2] { LastLevel(blocks[..|blocks| - 1]); }
  }

  lemma FlowOpened(blocks: seq<int>, levels: seq<int>, indents: seq<int>, indent: int, flowLevel: int,
                   frames: seq<P.State>, indent': int, frame: P.State)
    requires Leveled(blocks, levels, indents, indent, flowLevel, frames)
    ensures Leveled(blocks, levels, indents + [indent], indent', flowLevel + 1, frames + [frame])
  {
    hide Levels;
  }

  lemma FlowClosed(blocks: seq<int>, levels: seq<int>, indents: seq<int>, indent: int, flowLevel: int,
                   frames: seq<P.State>)
    requires Leveled(blocks, levels, indents, indent, flowLevel, frames) && flowLevel > 0
    ensures indents != []
    ensures Leveled(blocks, levels, indents[..|indents| - 1], indents[|indents| - 1], flowLevel - 1,
              frames[..|frames| - 1])
  {
    hide Levels;
    assert indents[..|indents| - 1] + [indents[|indents| - 1]] == indents;
  }

  /** The first token at the new indent starts the collection, unless it has no indent of its own. */
  lemma BlockOpened(blocks: seq<int>, levels: seq<int>, indents: seq<int>, indent: int, frames: seq<P.State>,
                    indent': int, frame: P.State, start: T.TokenType)
    requires Leveled(blocks, levels, indents, indent, 0, frames) && indent <= indent' && 0 <= indent'
    requires frame.ParseIndentlessSequenceEntry? <==> indent' == indent
    ensures levels != []
    ensures var (levels', tokens) := R.Roll(levels, indent', start);
            && tokens == R.OptionalToken(!frame.ParseIndentlessSequenceEntry?, R.Tok(start))
            && Leveled(blocks + [indent'], levels', indents + [indent], indent', 0, frames + [frame])
  {
    LastLevel(blocks);
    assert (blocks + [indent'])[..|blocks|] == blocks;
    assert blocks == indents + [indent];
  }

  lemma EntryIndent(blocks: seq<int>, levels: seq<int>, indents: seq<int>, indent: int, frames: seq<P.State>)
    requires Leveled(blocks, levels, indents, indent, 0, frames)
    ensures indent >= -1 && (|frames| > 1 ==> indent >= 0)
  {
    hide Levels;
    assert blocks == indents + [indent];
    var j := |blocks| - 1;
    assert blocks[j] == indent && (j >= 1 ==> frames[j] in frames);
  }

  lemma LastIndent(blocks: seq<int>, levels: seq<int>, indents: seq<int>, indent: int, frames: seq<P.State>)
    requires Leveled(blocks, levels, indents, indent, 0, frames) && indents != []
    ensures indent >= 0
  {
    hide Levels;
    assert blocks == indents + [indent];
    var j := |blocks| - 1;
    assert blocks[j] == indent && (j >= 1 ==> frames[j] in frames);
  }

  /** Further tokens at the indent start nothing. */
  lemma BlockGoesOn(blocks: seq<int>, levels: seq<int>, indents: seq<int>, indent: int, frames: seq<P.State>,
                    start: T.TokenType)
    requires Leveled(blocks, levels, indents, indent, 0, frames)
    ensures levels != [] && R.Roll(levels, indent, start) == (levels, [])
  {
    LastLevel(blocks);
    assert blocks == indents + [indent];
  }

  /** What follows at the indent before ends the collection, unless it has no indent of its own. */
  lemma {:induction false} BlockClosed(blocks: seq<int>, levels: seq<int>, indents: seq<int>, indent: int,
                                       frames: seq<P.State>)
    requires Leveled(blocks, levels, indents, indent, 0, frames) && indents != [] && Nondecreasing(indents + [indent])
    ensures var k := |indents| - 1;
            var (levels', tokens) := R.Unroll(levels, indents[k]);
            && tokens == R.OptionalToken(!frames[k + 1].ParseIndentlessSequenceEntry?, R.Tok(T.BlockEndToken))
            && Leveled(blocks[..k + 1], levels', indents[..k], indents[k], 0, frames[..k + 1])
  {
    hide R.Unroll, R.OptionalToken, Levels;
    var k := |indents| - 1;
    assert blocks == indents + [indent];
    var rest := blocks[..k + 1];
    assert rest == indents && indents[..k] + [indents[k]] == indents;
    assert (indents + [indent])[k] <= (indents + [indent])[k + 1];
    LevelClosed(rest, indent);
  }

  lemma {:induction false} LevelClosed(rest: seq<int>, indent: int)
    requires rest != [] && rest[|rest| - 1] <= indent
    ensures R.Unroll(Levels(rest + [indent]), rest[|rest| - 1]) ==
            (Levels(rest), R.OptionalToken(indent != rest[|rest| - 1], R.Tok(T.BlockEndToken)))
  {
    var blocks, k := rest + [indent], |rest|;
    assert blocks[..k] == rest && blocks[k] == indent && blocks[k - 1] == rest[k - 1];
    LastLevel(rest);
    var levels := Levels(blocks);
    if indent != rest[k - 1] {
      assert levels == Levels(rest) + [indent] && levels[..|levels| - 1] == Levels(rest);
      assert R.Unroll(Levels(rest), rest[k - 1]) == (Levels(rest), []);
      assert [R.Tok(T.BlockEndToken)] + [] == [R.Tok(T.BlockEndToken)];
    }
  }

  /** Only a frame in flow style may take the place of one in flow style; in block style
      the one that does must be as indentless. */
  lemma Reframed(blocks: seq<int>, levels: seq<int>, indents: seq<int>, indent: int, flowLevel: int,
                 below: seq<P.State>, a: P.State, b: P.State)
    requires Leveled(blocks, levels, indents, indent, flowLevel, below + [a])
    requires flowLevel > 0 || a.ParseIndentlessSequenceEntry? == b.ParseIndentlessSequenceEntry?
    ensures Leveled(blocks, levels, indents, indent, flowLevel, below + [b])
  {
    hide Levels;
  }

  function OutsideReader(s: State): P.State {
    match s
    case EmitStreamStart => P.ParseStreamStart
    case EmitFirstDocumentStart => P.ParseImplicitDocumentStart
    case EmitDocumentStart => P.ParseDocumentStart
    case EmitDocumentEnd => P.ParseDocumentEnd
    case _ => P.ParseEnd
  }

  lemma OneIndent(x: int)
    ensures Nondecreasing([x])
  {
  }

  // ---- Tags ----

  /** Whether the tag of a node is written. */
  predicate Tagged(canonical: bool, e: Event) {
    match e
    case Scalar(_, tag, _, implicit, quotedImplicit, _) => tag != "" && (canonical || (!implicit && !quotedImplicit))
    case SequenceStart(_, tag, implicit, _) => tag != "" && (canonical || !implicit)
    case MappingStart(_, tag, implicit, _) => tag != "" && (canonical || !implicit)
    case _ => false
  }

  function TagOf(e: Event): string {
    if e.Scalar? || e.SequenceStart? || e.MappingStart? then e.tag else ""
  }

  function AnchorOf(e: Event): string {
    match e
    case Alias(name) => name
    case Scalar(name, _, _, _, _, _) => name
    case SequenceStart(name, _, _, _) => name
    case MappingStart(name, _, _, _) => name
    case _ => ""
  }

  /** Handle and suffix that are written for an event: its tag, or the non-specific tag
      of a scalar that is not plain and may not lose its tag in quotes. */
  function TagWritten(canonical: bool, directives: seq<(string, string)>, e: Event, style: Style): (string, string) {
    if Tagged(canonical, e) then Split(directives, TagOf(e))
    else if e.Scalar? && !style.Plain? && !e.quotedImplicit then ("!", "")
    else ("", "")
  }

  /** A handle alone is no tag to the scanner. */
  predicate Unscannable(t: (string, string)) {
    t.0 != "" && t.1 == ""
  }

  lemma {:induction false} SplitReads(directives: seq<(string, string)>, tag: string)
    requires Named(directives) && tag != ""
    ensures var (handle, suffix) := Split(directives, tag);
            && (handle != "" || suffix != "") && R.TagRead(directives, handle, suffix) == tag
            && (R.Readable(directives, handle, suffix) <==> !Unscannable((handle, suffix)))
  {
    hide Named, Expand, Split;
    SplitExpands(directives, 0, tag);
    assert directives[0..] == directives;
  }

  /** What is written of a scalar is read as that scalar. */
  lemma ScalarAgrees(canonical: bool, directives: seq<(string, string)>, e: Event, style: Style)
    requires Named(directives) && e.Scalar? && (e.tag != "" || e.implicit || e.quotedImplicit)
    requires !Tagged(canonical, e) && style.Plain? ==> e.implicit
    ensures var (handle, suffix) := TagWritten(canonical, directives, e, style);
            !Unscannable((handle, suffix)) ==>
              R.Readable(directives, handle, suffix) &&
              R.Agrees(e, R.ScalarRead(e.anchor, R.TagRead(directives, handle, suffix), e.value, style))
  {
    hide Named, Expand, Split;
    if Tagged(canonical, e) { SplitReads(directives, e.tag); }
  }

  /** What is written of a scalar is read as it is heard. */
  lemma ScalarHeard(canonical: bool, directives: seq<(string, string)>, r: R.Reader, e: Event, l: Layout)
    requires R.AtNode(r) && r.dirs == directives && Named(directives) && e.Scalar? && !Bare(canonical, e, l.style)
    requires e.tag != "" || e.implicit || e.quotedImplicit
    requires !Tagged(canonical, e) && l.style.Plain? ==> e.implicit
    requires l.style.Plain? && e.value == "" ==> !r.top.ParseFlowNode?
    requires !Unscannable(TagWritten(canonical, directives, e, l.style))
    ensures var (handle, suffix) := TagWritten(canonical, directives, e, l.style);
            R.Step(r, R.Properties(e.anchor, handle, suffix) + ScalarTokens(e.value, l), Heard(e, l), R.Popped(r))
  {
    hide Named, Split, R.Step, R.Properties, R.Readable, R.TagRead, R.Agrees, F.RefoldedText, R.AtNode;
    var h, t := Heard(e, l), TagWritten(canonical, directives, e, l.style);
    assert TagWritten(canonical, directives, h, l.style) == t;
    ScalarAgrees(canonical, directives, h, l.style);
    if l.style.Plain? && e.value == "" {
      if Tagged(canonical, e) { SplitReads(directives, e.tag); }
      R.EmptyReads(r, e.anchor, t.0, t.1, e);
      assert R.Properties(e.anchor, t.0, t.1) + [] == R.Properties(e.anchor, t.0, t.1);
    } else {
      R.ScalarReads(r, e.anchor, t.0, t.1, h.value, l.style, h);
    }
  }

  lemma BareRead(canonical: bool, directives: seq<(string, string)>, e: Event, l: Layout)
    requires Bare(canonical, e, l.style) && e.implicit
    ensures TagWritten(canonical, directives, e, l.style) == ("", "") && R.Properties("", "", "") == [] &&
            ScalarTokens(e.value, l) == []
    ensures R.Agrees(e, D.EMPTY)
  {
  }

  lemma Untagged(canonical: bool, directives: seq<(string, string)>, e: Event, style: Style)
    requires !e.Scalar? && !e.SequenceStart? && !e.MappingStart?
    ensures !Unscannable(TagWritten(canonical, directives, e, style))
  {
  }

  lemma CollectionAgrees(canonical: bool, directives: seq<(string, string)>, e: Event, style: Style, scalarStyle: Style)
    requires Named(directives) && (e.SequenceStart? || e.MappingStart?)
    requires e.style.Flow? ==> style.Flow?
    ensures var (handle, suffix) := TagWritten(canonical, directives, e, scalarStyle);
            !Unscannable((handle, suffix)) ==>
              R.Readable(directives, handle, suffix) &&
              R.Agrees(e, R.StartRead(e.SequenceStart?, AnchorOf(e), R.TagRead(directives, handle, suffix), style))
  {
    hide Named, Expand, Split;
    if Tagged(canonical, e) { SplitReads(directives, TagOf(e)); }
  }

  // ---- What of an event is written ----

  /** How the text of a scalar is laid out: its style, the indent of its lines, and the width. */
  datatype Layout = Layout(style: Style, indent: nat, width: int)

  /** The event as its text has it: the lines of a folded scalar may come out as others. */
  function Heard(e: Event, l: Layout): Event {
    if e.Scalar? && l.style.Folded? then e.(value := F.RefoldedText(e.value, l.indent, l.width)) else e
  }

  /** The text of the event comes back. */
  predicate Keeps(e: Event, l: Layout) {
    e.Scalar? && l.style.Folded? ==> F.KeptText(e.value, l.indent, l.width)
  }

  lemma KeptIsHeard(e: Event, l: Layout)
    ensures Heard(e, l) == e <==> Keeps(e, l)
  {
    hide F.RefoldedText, F.KeptText;
    if e.Scalar? { F.RefoldedTextKept(e.value, l.indent, l.width); }
  }

  /** Nothing at all is written for an empty plain scalar without properties. */
  predicate Bare(canonical: bool, e: Event, style: Style) {
    e.Scalar? && style.Plain? && e.value == "" && e.anchor == "" && !Tagged(canonical, e)
  }

  lemma BareIsHeard(canonical: bool, e: Event, l: Layout)
    ensures Bare(canonical, e, l.style) ==> Heard(e, l) == e
  {
  }

  /** What the scanner makes of the text of a scalar. */
  function ScalarTokens(value: string, l: Layout): seq<R.Written> {
    if l.style.Plain? && value == "" then []
    else [R.Tok(T.ScalarToken).(value :=
      if l.style.Folded? then F.RefoldedText(value, l.indent, l.width) else value, style := l.style)]
  }

  /** The scanner crashes on a directive for a lone exclamation mark. */
  predicate MarksAlone(directives: seq<(string, string)>) {
    exists k :: 0 <= k < |directives| && directives[k].0 == "!"
  }

  /** The scanner does not get past what is written for the event. */
  predicate CutsOff(canonical: bool, directives: seq<(string, string)>, e: Event, style: Style) {
    Unscannable(TagWritten(canonical, directives, e, style)) || (e.DocumentStart? && MarksAlone(e.directives))
  }

  /** The style of a scalar is the one its event asks for, or a quoted one. */
  predicate Styled(canonical: bool, e: Event, style: Style) {
    e.Scalar? && !style.SingleQuoted? && !style.DoubleQuoted? ==>
      !canonical && style == if e.style.Block? || e.style.Flow? then Plain else e.style
  }

  /** Nothing is written for the start of the first document. */
  predicate StartsUnmarked(canonical: bool, e: Event) {
    e.DocumentStart? && e.implicitStart && !canonical && !e.explicitVersion && e.directives == []
  }

  // ---- The story so far ----

  /** Where the emitter was before an event. */
  datatype Before = Before(owes: Owed, state: State, reader: R.Reader, broken: bool, doomed: bool,
    directives: seq<(string, string)>)

  /** What has been written for which events, with which layouts, and how it is read. */
  datatype Story = Story(written: seq<T.Token>, events: seq<Event>, layouts: seq<Layout>, heard: seq<Event>)

  function InForceAfter(directives: seq<(string, string)>, e: Event): seq<(string, string)> {
    if e.DocumentStart? then InForce(e.directives) else if e.DocumentEnd? then [] else directives
  }

  /** The directives in force behind the events. */
  function InForceBehind(events: seq<Event>): seq<(string, string)> {
    if events == [] then [] else InForceAfter(InForceBehind(events[..|events| - 1]), events[|events| - 1])
  }

  /** The scanner stops at what is written for the event. */
  predicate CannotScan(canonical: bool, events: seq<Event>, layouts: seq<Layout>, i: nat)
    requires i < |events| && i < |layouts|
  {
    CutsOff(canonical, InForceAfter(InForceBehind(events[..i]), events[i]), events[i], layouts[i].style)
  }

  ghost predicate SomeCannotScan(canonical: bool, events: seq<Event>, layouts: seq<Layout>)
    requires |events| <= |layouts|
  {
    exists i :: 0 <= i < |events| && CannotScan(canonical, events, layouts, i)
  }

  /** For the first document nothing was written. */
  predicate RootMissed(canonical: bool, events: seq<Event>, layouts: seq<Layout>)
    requires |events| <= |layouts|
  {
    |events| >= 3 && StartsUnmarked(canonical, events[1]) && Bare(canonical, events[2], layouts[2].style)
  }

  function HeardAll(events: seq<Event>, layouts: seq<Layout>): (r: seq<Event>)
    requires |events| == |layouts|
    ensures |r| == |events| && forall i :: 0 <= i < |events| ==> r[i] == Heard(events[i], layouts[i])
  {
    seq(|events|, i requires 0 <= i < |events| => Heard(events[i], layouts[i]))
  }

  lemma {:induction false} OneMoreTag(canonical: bool, events: seq<Event>, layouts: seq<Layout>, e: Event, l: Layout)
    requires |events| == |layouts|
    ensures InForceBehind(events + [e]) == InForceAfter(InForceBehind(events), e)
    ensures SomeCannotScan(canonical, events + [e], layouts + [l]) <==>
            SomeCannotScan(canonical, events, layouts) ||
            CutsOff(canonical, InForceAfter(InForceBehind(events), e), e, l.style)
  {
    hide CutsOff, InForceAfter;
    var evs, ls := events + [e], layouts + [l];
    assert evs[..|events|] == events;
    assert forall i :: 0 <= i < |events| ==> evs[..i] == events[..i];
    assert CannotScan(canonical, evs, ls, |events|) <==>
             CutsOff(canonical, InForceAfter(InForceBehind(events), e), e, l.style);
    if SomeCannotScan(canonical, events, layouts) {
      var i :| 0 <= i < |events| && CannotScan(canonical, events, layouts, i);
      assert CannotScan(canonical, evs, ls, i);
    }
    if SomeCannotScan(canonical, evs, ls) {
      var i :| 0 <= i < |evs| && CannotScan(canonical, evs, ls, i);
      assert i < |events| ==> CannotScan(canonical, events, layouts, i);
    }
  }

  const BEGUN: seq<T.Token> := [R.Tok(T.StreamStartToken)]

  predicate Ends(chunk: seq<T.Token>) {
    chunk != [] && chunk[0] == R.Tok(T.DocumentEndToken)
  }

  /** Where the first events have led. */
  ghost predicate Phase(canonical: bool, st: Story, b: Before)
    requires |st.events| == |st.layouts|
  {
    && (b.state.EmitStreamStart? <==> st.events == []) && (b.state.EmitFirstDocumentStart? <==> |st.events| == 1)
    && (st.events == [] ==> st.written == []) && (|st.events| == 1 ==> st.written == BEGUN)
    && (b.reader.top.ParseBlockNode? <==> |st.events| == 2 && StartsUnmarked(canonical, st.events[1]))
    && (b.reader.top.ParseBlockNode? ==> st.written == BEGUN)
    && (Unnoticed(b.state, b.reader) ==> RootMissed(canonical, st.events, st.layouts) && st.written == BEGUN)
  }

  ghost predicate AllStyled(canonical: bool, events: seq<Event>, layouts: seq<Layout>)
    requires |events| == |layouts|
  {
    forall i :: 0 <= i < |events| ==> Styled(canonical, events[i], layouts[i].style)
  }

  /** What was written is read as what is heard of the events, up to where the scanner
      stops; unless the first document was not noticed that is all of them. The parser is
      doomed if then a marker ends that document. */
  ghost predicate Told(canonical: bool, st: Story, b: Before) {
    && |st.layouts| == |st.events| && b.directives == InForceBehind(st.events)
    && AllStyled(canonical, st.events, st.layouts)
    && (b.broken <==> SomeCannotScan(canonical, st.events, st.layouts))
    && (!b.broken && !b.doomed ==> R.ReadsBack(st.written, st.heard, b.reader))
    && (if RootMissed(canonical, st.events, st.layouts) then |st.heard| < |st.events|
        else st.heard == HeardAll(st.events, st.layouts) && !b.doomed)
    && (b.doomed ==> BEGUN + [R.Tok(T.DocumentEndToken)] <= st.written)
    && Phase(canonical, st, b)
  }

  /** How one more event leads from phase to phase. */
  ghost predicate Phased(canonical: bool, was: Before, chunk: seq<T.Token>, e: Event, now: Before) {
    && (was.state.EmitStreamStart? <==> e.StreamStart?) && (now.state.EmitFirstDocumentStart? <==> e.StreamStart?)
    && !now.state.EmitStreamStart? && (e.StreamStart? ==> chunk == BEGUN)
    && (now.reader.top.ParseBlockNode? <==> was.state.EmitFirstDocumentStart? && StartsUnmarked(canonical, e))
    && (now.reader.top.ParseBlockNode? ==> chunk == [])
  }

  /** Nothing was written for the only node of the first document. */
  predicate Misses(canonical: bool, was: Before, e: Event, l: Layout) {
    was.reader.top.ParseBlockNode? && Bare(canonical, e, l.style)
  }

  /** Nothing was written for its end either. */
  predicate StillUnnoticed(was: Before, chunk: seq<T.Token>, e: Event) {
    Unnoticed(was.state, was.reader) && e.DocumentEnd? && chunk == []
  }

  /** What was written for an event is read as what is heard of it, or not noticed. */
  ghost predicate Heeded(canonical: bool, was: Before, chunk: seq<T.Token>, e: Event, l: Layout, now: Before) {
    && now.directives == InForceAfter(was.directives, e) && Styled(canonical, e, l.style)
    && now.broken == (was.broken || CutsOff(canonical, now.directives, e, l.style))
    && now.doomed == (was.doomed || (Unnoticed(was.state, was.reader) && Ends(chunk)))
    && Phased(canonical, was, chunk, e, now)
    && (if Misses(canonical, was, e, l) then chunk == [] && now.reader == R.Outside(true)
        else if StillUnnoticed(was, chunk, e) then now.reader == was.reader
        else !Unnoticed(now.state, now.reader) &&
             (!now.broken && !now.doomed ==> R.Step(was.reader, chunk, Heard(e, l), now.reader)))
  }

  /** Nothing special about the first document or its end. */
  predicate WasInward(b: Before) {
    && !b.state.EmitStreamStart? && !b.state.EmitFirstDocumentStart?
    && !b.reader.top.ParseBlockNode? && !b.reader.top.ParseImplicitDocumentStart?
  }

  /** A step for a node or the end of a collection. */
  lemma NodeHeeded(canonical: bool, was: Before, chunk: seq<T.Token>, e: Event, l: Layout, now: Before)
    requires !e.StreamStart? && !e.DocumentStart? && !e.DocumentEnd? && !Misses(canonical, was, e, l) && WasInward(now)
    requires Styled(canonical, e, l.style)
    requires !was.state.EmitStreamStart? && !was.state.EmitFirstDocumentStart? &&
             !was.reader.top.ParseImplicitDocumentStart?
    requires now.directives == was.directives && now.doomed == was.doomed
    requires now.broken == (was.broken || Unscannable(TagWritten(canonical, now.directives, e, l.style)))
    requires !now.broken ==> R.Step(was.reader, chunk, Heard(e, l), now.reader)
    ensures Heeded(canonical, was, chunk, e, l, now)
  {
    hide Unscannable, TagWritten, R.Step, Heard, Bare, Misses;
  }

  /** The step for the start of a document. */
  lemma StartHeeded(canonical: bool, was: Before, chunk: seq<T.Token>, e: Event, l: Layout, now: Before)
    requires e.DocumentStart? && now.state.EmitDocumentContent? && !was.state.EmitStreamStart? &&
             !was.reader.top.ParseBlockNode?
    requires var unmarked := was.state.EmitFirstDocumentStart? && StartsUnmarked(canonical, e);
             now.reader.top == if unmarked then P.ParseBlockNode else P.ParseDocumentContent
    requires was.state.EmitFirstDocumentStart? && StartsUnmarked(canonical, e) ==> chunk == []
    requires now.directives == InForce(e.directives) && now.broken == (was.broken || MarksAlone(e.directives))
    requires now.doomed == (was.doomed || (Unnoticed(was.state, was.reader) && Ends(chunk)))
    requires !Unscannable(TagWritten(canonical, now.directives, e, l.style))
    requires !now.broken && !now.doomed ==> R.Step(was.reader, chunk, e, now.reader)
    ensures Heeded(canonical, was, chunk, e, l, now)
  {
    hide Unscannable, TagWritten, R.Step, InForce, MarksAlone, StartsUnmarked;
  }

  /** The step for the end of the stream. */
  lemma EndHeeded(canonical: bool, was: Before, chunk: seq<T.Token>, e: Event, l: Layout, now: Before)
    requires e.StreamEnd? && now.state.EmitEnd? && !was.state.EmitStreamStart?
    requires !was.reader.top.ParseBlockNode? && !now.reader.top.ParseBlockNode? && !Unnoticed(now.state, now.reader)
    requires now.directives == was.directives && now.broken == was.broken
    requires now.doomed == (was.doomed || (Unnoticed(was.state, was.reader) && Ends(chunk)))
    requires !Unscannable(TagWritten(canonical, now.directives, e, l.style))
    requires !now.doomed ==> R.Step(was.reader, chunk, e, now.reader)
    ensures Heeded(canonical, was, chunk, e, l, now)
  {
    hide Unscannable, TagWritten, R.Step;
  }

  /** The step in which the only node of the first document is missed. */
  lemma RootHeeded(canonical: bool, was: Before, e: Event, l: Layout, now: Before)
    requires e.Scalar? && Misses(canonical, was, e, l) && was.state.EmitDocumentContent? &&
             Styled(canonical, e, l.style)
    requires now.state.EmitDocumentEnd? && now.reader == R.Outside(true)
    requires now.directives == was.directives && now.doomed == was.doomed
    requires now.broken == (was.broken || Unscannable(TagWritten(canonical, now.directives, e, l.style)))
    ensures Heeded(canonical, was, [], e, l, now)
  {
    hide Unscannable, TagWritten, R.Step, Heard, Misses;
  }

  /** The story with one more event. */
  function Onward(canonical: bool, st: Story, was: Before, chunk: seq<T.Token>, e: Event, l: Layout): Story {
    Story(st.written + chunk, st.events + [e], st.layouts + [l],
          if Misses(canonical, was, e, l) then [StreamStart] else if StillUnnoticed(was, chunk, e) then st.heard
            else st.heard + [Heard(e, l)])
  }

  lemma MissedOn(canonical: bool, st: Story, was: Before, e: Event, l: Layout)
    requires |st.events| == |st.layouts| && Phase(canonical, st, was)
    ensures RootMissed(canonical, st.events + [e], st.layouts + [l]) <==>
            RootMissed(canonical, st.events, st.layouts) || Misses(canonical, was, e, l)
  {
    hide Bare, StartsUnmarked;
  }

  lemma PhaseOn(canonical: bool, st: Story, was: Before, chunk: seq<T.Token>, e: Event, l: Layout, now: Before)
    requires |st.events| == |st.layouts| && Phase(canonical, st, was) && Heeded(canonical, was, chunk, e, l, now)
    ensures Phase(canonical, Onward(canonical, st, was, chunk, e, l), now)
  {
    hide Bare, StartsUnmarked, CutsOff, R.Step, Heard, RootMissed, InForceAfter;
    MissedOn(canonical, st, was, e, l);
    assert st.written + [] == st.written && [] + chunk == chunk;
  }

  lemma DoomedOn(canonical: bool, st: Story, was: Before, chunk: seq<T.Token>)
    requires |st.events| == |st.layouts| && Phase(canonical, st, was)
    requires was.doomed ==> BEGUN + [R.Tok(T.DocumentEndToken)] <= st.written
    ensures was.doomed || (Unnoticed(was.state, was.reader) && Ends(chunk)) ==>
              BEGUN + [R.Tok(T.DocumentEndToken)] <= st.written + chunk
  {
  }

  lemma OnlyBegun()
    ensures R.ReadsBack(BEGUN, [StreamStart], R.Outside(true))
  {
    hide R.ReadsBack, R.Step;
    R.NothingWritten();
    R.StreamStarts();
    R.ReadsOn([], [], R.BEGIN, BEGUN, StreamStart, R.Outside(true));
    assert [] + BEGUN == BEGUN && [] + [StreamStart] == [StreamStart];
  }

  lemma ToldOn(canonical: bool, st: Story, was: Before, chunk: seq<T.Token>, e: Event, l: Layout, now: Before)
    requires Told(canonical, st, was) && Heeded(canonical, was, chunk, e, l, now)
    ensures Told(canonical, Onward(canonical, st, was, chunk, e, l), now)
  {
    hide CutsOff, InForceBehind, InForceAfter, SomeCannotScan, R.ReadsBack, R.Step, RootMissed, Heard, Bare;
    hide StartsUnmarked;
    OneMoreTag(canonical, st.events, st.layouts, e, l);
    MissedOn(canonical, st, was, e, l);
    PhaseOn(canonical, st, was, chunk, e, l, now);
    DoomedOn(canonical, st, was, chunk);
    if !now.broken && !now.doomed {
      if Misses(canonical, was, e, l) {
        OnlyBegun();
        assert st.written + [] == st.written;
      } else if StillUnnoticed(was, chunk, e) {
        assert st.written + [] == st.written;
      } else {
        R.ReadsOn(st.written, st.heard, was.reader, chunk, Heard(e, l), now.reader);
      }
    }
    assert HeardAll(st.events + [e], st.layouts + [l]) == HeardAll(st.events, st.layouts) + [Heard(e, l)];
  }

  lemma NothingToldYet(canonical: bool, b: Before)
    requires b.state.EmitStreamStart? && b.reader == R.BEGIN && !b.broken && !b.doomed && b.directives == []
    ensures Told(canonical, Story([], [], [], []), b)
  {
    hide R.ReadsBack;
    R.NothingWritten();
  }

  // ---- Events whose content the emitter takes ----

  predicate IsAlpha(c: char) {
    '0' <= c <= '9' || 'A' <= c <= 'Z' || 'a' <= c <= 'z' || c == '_' || c == '-'
  }

  predicate ValidAnchor(s: string) {
    s != "" && forall i :: 0 <= i < |s| ==> IsAlpha(s[i])
  }

  predicate ValidHandle(s: string) {
    s != "" && s[0] == '!' && s[|s| - 1] == '!' && forall i :: 1 <= i < |s| - 1 ==> IsAlpha(s[i])
  }

  predicate ValidDirectives(directives: seq<(string, string)>) {
    forall i :: 0 <= i < |directives| ==>
      ValidHandle(directives[i].0) && directives[i].1 != "" && !Declares(directives[..i], directives[i].0)
  }

  predicate AnchorIsValid(e: Event) {
    match e
    case Alias(name) => ValidAnchor(name)
    case Scalar(anchor, _, _, _, _, _) => anchor == "" || ValidAnchor(anchor)
    case SequenceStart(anchor, _, _, _) => anchor == "" || ValidAnchor(anchor)
    case MappingStart(anchor, _, _, _) => anchor == "" || ValidAnchor(anchor)
    case _ => true
  }

  predicate Acceptable(e: Event) {
    match e
    case DocumentStart(_, directives, _) => ValidDirectives(directives)
    case Scalar(_, tag, _, implicit, quotedImplicit, _) => AnchorIsValid(e) && (tag != "" || implicit || quotedImplicit)
    case _ => AnchorIsValid(e)
  }

  // ---- Lookahead ----

  /** How many events after `e` the emitter wants to see first. */
  function Wanted(e: Event): nat {
    if e.DocumentStart? then 1 else if e.SequenceStart? then 2 else if e.MappingStart? then 3 else 0
  }

  function Nesting(e: Event): int {
    if e.StreamStart? || e.DocumentStart? || e.SequenceStart? || e.MappingStart? then 1
    else if e.StreamEnd? || e.DocumentEnd? || e.SequenceEnd? || e.MappingEnd? then -1 else 0
  }

  function Level(evs: seq<Event>): int {
    if evs == [] then 0 else Level(evs[..|evs| - 1]) + Nesting(evs[|evs| - 1])
  }

  /** The queue holds all of what its first event opens. */
  ghost predicate Complete(queue: seq<Event>) {
    exists n :: 1 <= n <= |queue| && Level(queue[..n]) == 0
  }

  /** The emitter waits for more. */
  ghost predicate Waits(queue: seq<Event>) {
    queue == [] || (Wanted(queue[0]) > 0 && |queue| <= Wanted(queue[0]) && !Complete(queue))
  }

  /** How many streams, documents and collections are open when `o` is owed. */
  function Opened(o: Owed): nat {
    match o
    case Nothing => 0
    case Stream => 0
    case Documents => 1
    case EndOfDocument => 2
    case Single(rest) => Opened(rest)
    case Items(rest) => 1 + Opened(rest)
    case Pairs(rest) => 1 + Opened(rest)
    case Value(rest) => 1 + Opened(rest)
  }

  lemma {:induction false} LevelCons(e: Event, evs: seq<Event>)
    ensures Level([e] + evs) == Nesting(e) + Level(evs)
  {
    if evs == [] {
      assert Level([]) == 0 && [e][..0] == [];
      assert [e] + evs == [e];
    } else {
      assert ([e] + evs)[..|evs|] == [e] + evs[..|evs| - 1];
      LevelCons(e, evs[..|evs| - 1]);
    }
  }

  lemma {:induction false} StepOpened(o: Owed, e: Event)
    requires Step(o, e).Some?
    ensures Opened(Step(o, e).value) == Opened(o) + Nesting(e)
  {
  }

  lemma {:induction false} RunOpened(o: Owed, evs: seq<Event>)
    requires Run(o, evs).Some?
    ensures Opened(Run(o, evs).value) == Opened(o) + Level(evs)
    decreases |evs|
  {
    if evs != [] {
      StepOpened(o, evs[0]);
      RunOpened(Step(o, evs[0]).value, evs[1..]);
      assert evs == [evs[0]] + evs[1..];
      LevelCons(evs[0], evs[1..]);
    }
  }

  /** A level that starts positive and ends at zero or below passes through zero. */
  lemma {:induction false} PassesZero(evs: seq<Event>, m: nat)
    requires 1 <= m <= |evs| && Level(evs[..1]) > 0 && Level(evs[..m]) <= 0
    ensures exists n :: 1 <= n <= m && Level(evs[..n]) == 0
    decreases m
  {
    assert evs[..m][..m - 1] == evs[..m - 1];
    if Level(evs[..m]) < 0 { PassesZero(evs, m - 1); }
  }

  /** Nothing is held back once the stream is complete. */
  lemma {:induction false} NothingHeldBack(o: Owed, queue: seq<Event>)
    requires Run(o, queue) == Some(Nothing) && queue != []
    ensures !Waits(queue)
  {
    if Wanted(queue[0]) > 0 {
      RunOpened(o, queue);
      assert queue[..1][..0] == [] && queue[..1] == [queue[0]];
      assert Level(queue[..1]) == 1;
      assert queue[..|queue|] == queue;
      PassesZero(queue, |queue|);
    }
  }

  /** The start of a collection alone is waited on, so that whoever handles it has
      the event after it to look at. */
  lemma LoneStartWaits(e: Event)
    requires e.SequenceStart? || e.MappingStart?
    ensures Waits([e])
  {
    assert Level([]) == 0 && [e][..0] == [];
    assert Level([e]) == 1 && [e][..1] == [e];
  }

  predicate Nondecreasing(s: seq<int>) {
    forall i, j :: 0 <= i < j < |s| ==> s[i] <= s[j]
  }

  datatype ScalarData = ScalarData(multiline: bool, flowPlainAllowed: bool, blockPlainAllowed: bool,
                                   singleQuotedAllowed: bool, blockAllowed: bool)

  class Emitter {
    const canonical: bool
    var bestIndent: int
    var bestWidth: int
    var problem: Problem
    var state: State
    var states: seq<State>
    var events: seq<Event>
    var eventsHead: nat
    var indent: int
    var indents: seq<int>
    var flowLevel: int
    var column: nat
    var whitespace: bool
    var indention: bool
    var openEnded: bool
    var mappingContext: bool
    var simpleKeyContext: bool
    var tagDirectives: seq<(string, string)>
    var anchor: string
    var tagHandle: string
    var tagSuffix: string
    var scalarData: ScalarData
    var scalarStyle: Style
    ghost var marks: seq<Mark>
    ghost var chunk: seq<R.Written>      // written for the event at hand
    ghost var written: seq<R.Written>    // written for the events before it
    ghost var broken: bool               // the scanner does not get past what was written
    ghost var doomed: bool               // the end was marked of a document not noticed
    ghost var layouts: seq<Layout>       // of the scalars among the events before it
    ghost var heard: seq<Event>          // what the parser hears of the events before it
    ghost var levels: seq<int>           // the scanner's, once it has scanned all that
    ghost var blocks: seq<int>           // the indents of the block collections, over -1
    ghost var reader: R.Reader           // the parser, once it has read all that

    ghost function Owes(): Owed
      reads `state, `states
    {
      Owe(Means(state).shape, Sum(states).owed)
    }

    /** What holds between two events: the stacks fit the state. */
    ghost predicate Between()
      reads `problem, `state, `bestIndent, `indent, `states, `indents, `flowLevel, `marks, `tagDirectives
    {
      problem.NoProblem? && Stacked()
    }

    ghost predicate Stacked()
      reads `state, `bestIndent, `indent, `states, `indents, `flowLevel, `marks, `tagDirectives
    {
      && (if Means(state).place.Outside? then states == []
          else Sum(states).nested && Fits(Means(state), Sum(states).flow))
      && Holds(Means(state).open, Means(state).flow)
      && (!state.EmitStreamStart? ==> Indented())
      && (Owes().Stream? || Owes().Documents? ==> tagDirectives == [])
    }

    /** The indents, the level and the brackets are those of the stack, and `open` and `flow` more. */
    ghost predicate Holds(open: nat, flow: seq<Bracket>)
      reads `states, `indents, `flowLevel, `marks, `tagDirectives
    {
      && |indents| == open + Sum(states).open
      && flowLevel == |Sum(states).flow + flow|
      && Pending(marks) == Some(Sum(states).flow + flow)
      && Named(tagDirectives)
    }

    /** A node is about to be emitted, after which the top state goes on. */
    ghost predicate Awaiting()
      reads `problem, `bestIndent, `indent, `states, `indents, `flowLevel, `marks, `tagDirectives
    {
      problem.NoProblem? && Expecting()
    }

    ghost predicate Expecting()
      reads `bestIndent, `indent, `states, `indents, `flowLevel, `marks, `tagDirectives
    {
      Sum(states).nested && Indented() && Holds(0, [])
    }

    /** Within a collection whose opening is done, with the bracket it holds open. */
    ghost predicate Inside(flow: seq<Bracket>, block: bool)
      reads `problem, `bestIndent, `indent, `states, `indents, `flowLevel, `marks, `tagDirectives
    {
      problem.NoProblem? && Sum(states).nested && (block ==> Sum(states).flow == []) && Indented() && Holds(1, flow)
    }

    /** What the scanner delivers of the whole text; when it stops at a tag or a directive,
        some of what stands before that. */
    ghost predicate Delivers(tokens: seq<T.Token>)
      reads `written, `broken
    {
      if broken then tokens <= written else tokens == written + [R.Tok(T.StreamEndToken)]
    }

    lemma NoProblemBetween()
      requires Between()
      ensures problem.NoProblem?
    {
      hide Pending, Nondecreasing, Sum, Indented, Holds;
    }

    lemma DirectivesNamed()
      requires Between()
      ensures Named(tagDirectives)
    {
      hide Pending, Nondecreasing, Sum, Indented;
    }

    lemma GoesOn()
      requires Between() && Means(state).place.Return?
      ensures Inside(Means(state).flow, Means(state).block)
    {
      hide Pending, Nondecreasing, Sum, Holds;
    }

    /** The event at the head of the queue has been analyzed. */
    ghost predicate Analyzed(e: Event)
      reads `events, `eventsHead, `anchor, `tagHandle, `tagSuffix, `tagDirectives
    {
      && eventsHead < |events| && e == events[eventsHead] && !Waits(events[eventsHead..])
      && AnchorIsValid(e) && anchor == AnchorOf(e)
      && (tagHandle, tagSuffix) == (if Tagged(canonical, e) then Split(tagDirectives, TagOf(e)) else ("", ""))
    }

    /** The parser that reads along stands where the emitter does. */
    ghost predicate Linked()
      reads `state, `states, `reader, `tagDirectives, `mappingContext, `indention, `openEnded
      reads `indents, `indent, `flowLevel, `blocks, `levels
    {
      && Along(state, states, tagDirectives, mappingContext && !indention, openEnded, reader)
      && (!state.EmitStreamStart? ==> Leveled(blocks, levels, indents, indent, flowLevel, Frames(state, reader)))
    }

    /** The tag at hand cannot be scanned. */
    ghost predicate BadTag()
      reads `tagHandle, `tagSuffix
    {
      Unscannable((tagHandle, tagSuffix))
    }

    /** A collection in block style has been begun for an item, which is in the queue. */
    ghost predicate ItemAhead(head: nat)
      reads `state, `events
    {
      && (state.EmitBlockSequenceFirstItem? ==> head < |events| && !events[head].SequenceEnd?)
      && (state.EmitBlockMappingFirstKey? ==> head < |events| && !events[head].MappingEnd?)
    }

    ghost predicate Settled()
      reads `state, `reader
    {
      !Means(state).place.First? && !state.EmitBlockSequenceFirstItem? && !state.EmitBlockMappingFirstKey? && Inward()
    }

    /** In a document of which something has been read. */
    ghost predicate Inward()
      reads `state, `reader
    {
      && !state.EmitEnd? && !state.EmitStreamStart? && !state.EmitFirstDocumentStart?
      && !reader.top.ParseBlockNode? && !reader.top.ParseImplicitDocumentStart?
    }

    /** How the text of a scalar is laid out here. */
    ghost function Looks(): Layout
      reads `scalarStyle, `indent, `bestIndent, `bestWidth
    {
      var n := if indent < 0 then bestIndent else indent + bestIndent;
      Layout(scalarStyle, if n < 0 then 0 else n, bestWidth)
    }

    /** Nothing has been written for the event at the head of the queue yet. */
    ghost predicate Ready(e: Event)
      reads `events, `eventsHead, `anchor, `tagHandle, `tagSuffix, `chunk
      reads `state, `states, `reader, `tagDirectives, `mappingContext, `indention, `openEnded
      reads `indents, `indent, `flowLevel, `blocks, `levels
    {
      && Analyzed(e) && chunk == [] && Linked()
      && (state.EmitBlockSequenceFirstItem? ==> !e.SequenceEnd?) && (state.EmitBlockMappingFirstKey? ==> !e.MappingEnd?)
    }

    /** Tokens written, with the one that ends the text. */
    ghost function Closed(tokens: seq<T.Token>): seq<T.Token>
      reads `state
    {
      if state.EmitEnd? then tokens + [R.Tok(T.StreamEndToken)] else tokens
    }

    /** The first event of a node was taken, or refused for a reason that is so. */
    ghost predicate NodeTaken(rest: Owed, was: bool, ok: bool, e: Event)
      reads this
    {
      && (ok ==> Between() && StepNode(rest, e) == Some(Owes()) && Acceptable(e))
      && (ok ==> Linked() && ItemAhead(eventsHead + 1) && TagsTold(was, e) && Inward() && P.StartsNode(e))
      && (!ok ==> !problem.NoProblem? && (StepNode(rest, e).None? || !Acceptable(e)))
      && (!ok && Structural(problem) ==> StepNode(rest, e).None?)
    }

    /** What was written behind `before`, if anything, is read as what is heard of the event. */
    ghost predicate ChunkRead(before: seq<T.Token>, r: R.Reader, e: Event)
      reads `chunk, `reader, `broken, `scalarStyle, `indent, `bestIndent, `bestWidth
    {
      && (Bare(canonical, e, scalarStyle) ==> chunk == before && R.Skipped(r, [], e, reader))
      && (!broken && !Bare(canonical, e, scalarStyle) ==>
            before <= chunk && R.Step(r, chunk[|before|..], Heard(e, Looks()), reader))
    }

    ghost predicate AtNode(mapping: bool)
      reads `states, `reader, `tagDirectives, `indents, `indent, `flowLevel, `blocks, `levels
    {
      BeforeNode(states, tagDirectives, flowLevel > 0, mapping, reader) &&
        Leveled(blocks, levels, indents, indent, flowLevel, reader.below)
    }

    /** What one step does: it takes the event exactly when the stream owes it and its
        content is acceptable, and what it writes is read as what is heard of the event. */
    ghost predicate Advanced(was: Before, ok: bool, e: Event)
      reads this
    {
      && (ok ==> Between() && Step(was.owes, e) == Some(Owes()) && Acceptable(e))
      && (ok ==> Linked() && ItemAhead(eventsHead + 1))
      && (ok ==> Heeded(canonical, was, Closed(chunk), e, Looks(), Now()))
      && (!ok ==> Rejected(was.owes, e))
    }

    ghost function Now(): Before
      reads `state, `states, `reader, `broken, `doomed, `tagDirectives
    {
      Before(Owes(), state, reader, broken, doomed, tagDirectives)
    }

    ghost function SoFar(): Story
      reads `state, `written, `events, `eventsHead, `layouts, `heard
    {
      Story(Closed(written), if eventsHead <= |events| then events[..eventsHead] else [], layouts, heard)
    }

    /** The tag that is written for the event tells whether the scanner stops, and its style
        suits the event. */
    ghost predicate TagsTold(was: bool, e: Event)
      reads `broken, `tagDirectives, `scalarStyle
    {
      && broken == (was || Unscannable(TagWritten(canonical, tagDirectives, e, scalarStyle)))
      && Styled(canonical, e, scalarStyle)
    }

    ghost predicate Rejected(o: Owed, e: Event)
      reads `problem
    {
      && !problem.NoProblem?
      && (Step(o, e).None? || !Acceptable(e))
      && (Structural(problem) ==> Step(o, e).None?)
    }

    /** The indents saved and the current one never decrease, from -1 up. */
    ghost predicate Indented()
      reads `bestIndent, `indent, `indents
    {
      2 <= bestIndent <= 9 && Nondecreasing(indents + [indent]) && (indents + [indent])[0] == -1
    }

    ghost predicate Valid() reads this {
      && Between()
      && eventsHead <= |events|
      && Run(Stream, events[..eventsHead]) == Some(Owes())
      && (forall i :: 0 <= i < eventsHead ==> Acceptable(events[i]))
      && Linked() && ItemAhead(eventsHead)
      && Told(canonical, SoFar(), Now())
    }

    constructor (canonical: bool, bestIndent: int, bestWidth: int)
      ensures Valid() && events == [] && eventsHead == 0 && this.canonical == canonical
    {
      this.canonical, this.bestIndent, this.bestWidth := canonical, bestIndent, bestWidth;
      problem, state, states, events, eventsHead := NoProblem, EmitStreamStart, [], [], 0;
      indent, indents, flowLevel, column := 0, [], 0, 0;
      whitespace, indention, openEnded := false, false, false;
      mappingContext, simpleKeyContext, tagDirectives := false, false, [];
      anchor, tagHandle, tagSuffix := "", "", "";
      scalarData, scalarStyle := ScalarData(false, false, false, false, false), Plain;
      marks, chunk, written, broken, doomed, layouts, heard, reader := [], [], [], false, false, [], [], R.BEGIN;
      new;
      NothingToldYet(canonical, Now());
    }

    /** After each event the emitter has taken all it does not have to wait for. It
        refuses only what breaks the order of events or has unacceptable content. */
    method Emit(e: Event) returns (ok: bool)
      requires Valid()
      modifies this
      ensures events == old(events) + [e] && eventsHead <= |events|
      ensures ok ==> Valid() && Waits(events[eventsHead..]) && |events| - eventsHead <= 3
      ensures Run(Stream, events).Some? ==> !Structural(problem)
      ensures Run(Stream, events).Some? && (forall i :: 0 <= i < |events| ==> Acceptable(events[i])) ==> ok
      ensures ok && Run(Stream, events) == Some(Nothing) ==> eventsHead == |events| && state.EmitEnd?
    {
      hide Waits, Between, Acceptable, Emitter.Linked, Told;
      events := events + [e];
      assert events[..eventsHead] == old(events)[..eventsHead];
      var more := NeedMoreEvents();
      while !more
        invariant Valid() && events == old(events) + [e] && more == Waits(events[eventsHead..])
        decreases |events| - eventsHead
      {
        WaitsForNone(events[eventsHead..]);
        HeadStep(events, eventsHead);
        ok := EmitHead();
        if !ok { return false; }
        more := NeedMoreEvents();
      }
      FewHeldBack(events[eventsHead..]);
      HeldBackAtEnd(events, eventsHead);
      NoProblemBetween();
      assert eventsHead == |events| ==> events[..eventsHead] == events;
      return true;
    }

    /** Takes the event at the head of the queue. */
    method EmitHead() returns (ok: bool)
      requires Valid() && eventsHead < |events| && !Waits(events[eventsHead..])
      modifies this
      ensures events == old(events)
      ensures ok ==> Valid() && eventsHead == old(eventsHead) + 1
      ensures !ok ==> eventsHead == old(eventsHead) && Rejected(old(Owes()), events[eventsHead])
    {
      hide Emitter.Owes, Waits, Acceptable, Emitter.Stacked, Emitter.Linked, Emitter.Analyzed, Told, Heeded;
      hide Emitter.Advanced;
      hide Step, Run, Emitter.Holds, Emitter.Between, Emitter.TagsTold, Means;
      var e := events[eventsHead];
      chunk := [];
      ghost var was, told, tokens := Now(), SoFar(), written;
      assert Passed(was, told);
      if state.EmitEnd? { NotOver(e); }
      ok := AnalyzeEvent(e);
      if !ok { BadAnchorIsUnacceptable(e); return false; }
      ok := StateMachine(e);
      if !ok { Refused(was, e); return false; }
      HasAdvanced(was, e);
      HeadTaken(was, e, told, tokens);
      return true;
    }

    lemma NotOver(e: Event)
      requires Between() && state.EmitEnd?
      ensures Step(Owes(), e).None?
    {
    }

    lemma Refused(was: Before, e: Event)
      requires Advanced(was, false, e)
      ensures Rejected(was.owes, e)
    {
    }

    /** The events before were taken, and led to where the emitter was. */
    ghost predicate Passed(was: Before, told: Story) {
      && Run(Stream, told.events) == Some(was.owes) &&
           (forall i :: 0 <= i < |told.events| ==> Acceptable(told.events[i]))
      && Told(canonical, told, was)
    }

    lemma HasAdvanced(was: Before, e: Event)
      requires Advanced(was, true, e)
      ensures Between() && Step(was.owes, e) == Some(Owes()) && Acceptable(e) && Linked() && ItemAhead(eventsHead + 1)
      ensures Heeded(canonical, was, Closed(chunk), e, Looks(), Now())
    {
      hide Between, Emitter.Linked, Heeded, Step, Acceptable, Emitter.ItemAhead;
    }

    /** The events taken so far with one more lead to where the emitter is now. */
    lemma PassedOn(was: Before, e: Event, told: Story)
      requires Passed(was, told) && Step(was.owes, e) == Some(Owes()) && Acceptable(e)
      requires Heeded(canonical, was, Closed(chunk), e, Looks(), Now())
      ensures Passed(Now(), Onward(canonical, told, was, Closed(chunk), e, Looks()))
    {
      hide Acceptable, Told, Heeded, Misses, StillUnnoticed, Heard, Step, Run, Emitter.Owes, Looks, Emitter.Closed;
      RunSnoc(Stream, told.events, e);
      ToldOn(canonical, told, was, Closed(chunk), e, Looks(), Now());
    }

    /** The event at the head of the queue is done with. */
    method HeadTaken(ghost was: Before, ghost e: Event, ghost told: Story, ghost tokens: seq<R.Written>)
      requires eventsHead < |events| && e == events[eventsHead] && Advanced(was, true, e)
      requires told.written == tokens && told.events == events[..eventsHead] && Passed(was, told)
      modifies `eventsHead, `written, `layouts, `heard
      ensures Valid() && eventsHead == old(eventsHead) + 1
    {
      hide Waits, Acceptable, Between, Emitter.Linked, Told, Heeded, Misses, StillUnnoticed, Heard, Step, Run;
      hide Emitter.Owes;
      hide Emitter.Advanced, Emitter.ItemAhead, Looks, Styled;
      HasAdvanced(was, e);
      PassedOn(was, e, told);
      assert events[..eventsHead + 1] == events[..eventsHead] + [e];
      ghost var after := Onward(canonical, told, was, Closed(chunk), e, Looks());
      assert tokens + Closed(chunk) == Closed(tokens + chunk);
      written, layouts, heard := tokens + chunk, after.layouts, after.heard;
      eventsHead := eventsHead + 1;
      assert SoFar() == after;
    }

    method NeedMoreEvents() returns (more: bool)
      requires eventsHead <= |events|
      ensures more == Waits(events[eventsHead..])
    {
      ghost var queue := events[eventsHead..];
      if eventsHead == |events| { return true; }
      var accumulate := 0;
      match events[eventsHead] {
        case DocumentStart(_, _, _) => accumulate := 1;
        case SequenceStart(_, _, _, _) => accumulate := 2;
        case MappingStart(_, _, _, _) => accumulate := 3;
        case _ => return false;
      }
      if |events| - eventsHead > accumulate { return false; }
      var level, i := 0, eventsHead;
      while i < |events|
        invariant eventsHead <= i <= |events|
        invariant level == Level(queue[..i - eventsHead])
        invariant forall n :: 1 <= n <= i - eventsHead ==> Level(queue[..n]) != 0
      {
        assert queue[..i + 1 - eventsHead][..i - eventsHead] == queue[..i - eventsHead];
        match events[i] {
          case StreamStart | DocumentStart(_, _, _) | SequenceStart(_, _, _, _) | MappingStart(_, _, _, _) =>
            level := level + 1;
          case StreamEnd | DocumentEnd(_) | SequenceEnd | MappingEnd => level := level - 1;
          case _ =>
        }
        i := i + 1;
        if level == 0 { return false; }
      }
      return true;
    }

    // ---- Analysis ----

    method Fail(p: Problem) returns (ok: bool)
      modifies `problem
      ensures !ok && problem == p
    {
      problem := p;
      return false;
    }

    method AnalyzeAnchor(name: string) returns (ok: bool)
      modifies `problem, `anchor
      ensures ok == ValidAnchor(name) && (ok ==> anchor == name)
      ensures if ok then problem == old(problem) else problem == BadAnchor
    {
      if |name| == 0 { ok := Fail(BadAnchor); return; }
      var i := 0;
      while i < |name|
        invariant 0 <= i <= |name| && forall j :: 0 <= j < i ==> IsAlpha(name[j])
        invariant problem == old(problem)
      {
        if !IsAlpha(name[i]) { ok := Fail(BadAnchor); return; }
        i := i + 1;
      }
      anchor := name;
      return true;
    }

    /** Splits a tag at the first directive whose prefix it has. */
    method AnalyzeTag(tag: string)
      requires tagHandle == ""
      modifies `tagHandle, `tagSuffix
      ensures (tagHandle, tagSuffix) == Split(tagDirectives, tag)
    {
      var i := 0;
      assert tagDirectives[0..] == tagDirectives;
      while i < |tagDirectives|
        invariant 0 <= i <= |tagDirectives| && tagHandle == "" &&
                  Split(tagDirectives, tag) == Split(tagDirectives[i..], tag)
      {
        assert tagDirectives[i..][1..] == tagDirectives[i + 1..];
        if tagDirectives[i].1 <= tag {
          tagHandle, tagSuffix := tagDirectives[i].0, tag[|tagDirectives[i].1|..];
          return;
        }
        i := i + 1;
      }
      tagSuffix := tag;
    }

    method AnalyzeEvent(e: Event) returns (ok: bool)
      requires eventsHead < |events| && e == events[eventsHead] && !Waits(events[eventsHead..])
      modifies `problem, `anchor, `tagHandle, `tagSuffix, `scalarData
      ensures ok ==> Analyzed(e)
      ensures ok == AnchorIsValid(e) && problem == if ok then old(problem) else BadAnchor
    {
      hide Waits, ValidAnchor, Split;
      anchor, tagHandle, tagSuffix := "", "", "";
      match e
      case Alias(name) =>
        ok := AnalyzeAnchor(name);
      case Scalar(name, tag, value, implicit, quotedImplicit, _) =>
        ok := AnalyzeProperties(name, tag, canonical || (!implicit && !quotedImplicit));
        if ok { AnalyzeScalar(value); }
      case SequenceStart(name, tag, implicit, _) =>
        ok := AnalyzeProperties(name, tag, canonical || !implicit);
      case MappingStart(name, tag, implicit, _) =>
        ok := AnalyzeProperties(name, tag, canonical || !implicit);
      case _ =>
        ok := true;
    }

    /** The anchor of a node and its tag, if it is to be written. */
    method AnalyzeProperties(name: string, tag: string, tagged: bool) returns (ok: bool)
      requires anchor == "" && tagHandle == "" && tagSuffix == ""
      modifies `problem, `anchor, `tagHandle, `tagSuffix
      ensures ok == (name == "" || ValidAnchor(name))
      ensures if ok then problem == old(problem) else problem == BadAnchor
      ensures ok ==>
                anchor == name &&
                (tagHandle, tagSuffix) == (if tag != "" && tagged then Split(tagDirectives, tag) else ("", ""))
    {
      if |name| > 0 {
        ok := AnalyzeAnchor(name);
        if !ok { return false; }
      }
      if |tag| > 0 && tagged { AnalyzeTag(tag); }
      return true;
    }

    /** What the text of a scalar allows, whatever that is. */
    method AnalyzeScalar(value: string)
      modifies `scalarData
    {
      scalarData := *;
    }

    // ---- Writing ----

    method WriteIndicator(indicator: Indicator, needWhitespace: bool, isWhitespace: bool, isIndention: bool)
      modifies `column, `whitespace, `indention, `openEnded, `chunk
      ensures column == old(column) + |Text(indicator)| + if needWhitespace && !old(whitespace) then 1 else 0
      ensures chunk == old(chunk) + Tokens(indicator)
      ensures whitespace == isWhitespace && indention == (old(indention) && isIndention) && !openEnded
    {
      if needWhitespace && !whitespace { column := column + 1; }
      column := column + |Text(indicator)|;
      chunk := chunk + Tokens(indicator);
      whitespace := isWhitespace;
      indention := indention && isIndention;
      openEnded := false;
    }

    /** Breaks the line where that is needed, and fills up to the indent. */
    method WriteIndent()
      modifies `column, `whitespace, `indention
      ensures column == (if indent < 0 then 0 else indent) && whitespace && indention
    {
      var target := if indent < 0 then 0 else indent;
      if !indention || column > target || (column == target && !whitespace) { column := 0; }
      while column < target
        invariant column <= target
      {
        column := column + 1;
      }
      whitespace, indention := true, true;
    }

    /** Text of which only the place where it ends matters here. */
    method WriteText(text: string)
      modifies `column, `whitespace, `indention, `openEnded
    {
      column, whitespace, indention, openEnded := *, *, *, *;
    }

    method WriteBracket(opening: bool, bracket: Bracket)
      modifies `column, `whitespace, `indention, `openEnded, `marks, `chunk
      ensures marks == old(marks) + [if opening then Opens(bracket) else Closes(bracket)]
      ensures chunk == old(chunk) + Tokens(if opening then Opening(bracket) else Closing(bracket))
    {
      WriteIndicator(if opening then Opening(bracket) else Closing(bracket), opening, opening, false);
      marks := marks + [if opening then Opens(bracket) else Closes(bracket)];
    }

    // ---- Stacks ----

    method IncreaseIndent(flow: bool, indentless: bool)
      requires Indented()
      modifies `indent, `indents
      ensures Indented() && indents == old(indents) + [old(indent)]
      ensures flow && !indentless ==> indent >= 2
      ensures indent == if old(indent) < 0 then if flow then bestIndent else 0
                        else if indentless then old(indent) else old(indent) + bestIndent
    {
      hide Nondecreasing;
      ghost var was := indents + [indent];
      indents := indents + [indent];
      LastIsAtLeast(was);
      if indent < 0 {
        indent := if flow then bestIndent else 0;
      } else if !indentless {
        indent := indent + bestIndent;
      }
      Grows(was, indent);
    }

    method DecreaseIndent()
      requires Indented() && indents != []
      modifies `indent, `indents
      ensures Indented() && indents + [indent] == old(indents)
    {
      hide Nondecreasing;
      Shrinks(indents, indent);
      indent := indents[|indents| - 1];
      indents := indents[..|indents| - 1];
      assert indents + [indent] == old(indents);
    }

    /** Goes on with the state on top of the stack. */
    method PopState()
      requires Awaiting() && OnStack(states, reader) && reader.dirs == tagDirectives
      requires Leveled(blocks, levels, indents, indent, flowLevel, reader.below)
      modifies `state, `states, `reader
      ensures Between() && Owes() == old(Sum(states).owed)
      ensures old(reader).below != [] && reader == R.Popped(old(reader)) && Linked()
      ensures Settled()
    {
      hide Pending, Nondecreasing, Indented, Along, Named, Sum, Owe, Leveled;
      TopState(states);
      Unstacked(states, tagDirectives, mappingContext && !indention, openEnded, reader);
      Unframed(states, blocks, levels, indents, indent, flowLevel, reader);
      reader := R.Popped(reader);
      state := states[|states| - 1];
      states := states[..|states| - 1];
    }

    /** Puts `s`, which goes on with an open collection, on the stack, and emits a node. */
    method EmitChild(s: State, e: Event, mapping: bool, simpleKey: bool, ghost back: P.State) returns (ok: bool)
      requires Inside(Means(s).flow, Means(s).block) && Means(s).place.Return? && Analyzed(e)
      requires AtChild(s, back, mapping)
      requires Leveled(blocks, levels, indents, indent, flowLevel, reader.below + [back])
      modifies this
      ensures NodeTaken(Owe(Means(s).shape, old(Sum(states).owed)), old(broken), ok, e) &&
              unchanged(`events, `eventsHead, `tagDirectives, `doomed)
      ensures ok ==> ChunkRead(old(chunk), R.Child(old(reader), back), e)
    {
      hide Pending, Nondecreasing, Sum, Waits, Between, Analyzed, Acceptable, Indented, Means, Owe, Leveled, BeforeNode;
      hide OnStack;
      hide Emitter.AtChild, Emitter.ChunkRead, Emitter.NodeTaken, R.Step, Named;
      ChildSum(states, s);
      ChildContext(s, back, mapping);
      states := states + [s];
      reader := R.Child(reader, back);
      ok := EmitNode(e, mapping, simpleKey);
    }

    /** A key, after a question mark unless it may be and is a simple one. */
    method EmitKey(simpleValue: State, value: State, e: Event, maybeSimple: bool, isIndention: bool,
                   ghost back: P.State) returns (ok: bool)
      requires Inside(Means(value).flow, Means(value).block) && Means(value).place.Return? && Analyzed(e)
      requires Means(simpleValue) == Means(value)
      requires AtChild(simpleValue, back, true) && AtChild(value, back, true)
      requires Leveled(blocks, levels, indents, indent, flowLevel, reader.below + [back])
      modifies this
      ensures NodeTaken(Owe(Means(value).shape, old(Sum(states).owed)), old(broken), ok, e) &&
              unchanged(`events, `eventsHead, `tagDirectives, `doomed)
      ensures ok ==> ChunkRead(old(chunk) + [R.Tok(T.KeyToken)], R.Child(old(reader), back), e)
    {
      hide Inside, Sum, Between, Analyzed, Acceptable, StepNode, Means, Owe, OnStack, R.Step;
      hide Emitter.Linked, Emitter.AtChild, Emitter.ChunkRead, Emitter.NodeTaken;
      var simple := false;
      if maybeSimple { simple := CheckSimpleKey(e); }
      if !simple {
        ok := EmitMarkedKey(value, e, isIndention, back);
        return;
      }
      chunk := chunk + [R.Tok(T.KeyToken)];    // the scanner puts it before a simple key
      ok := EmitChild(simpleValue, e, true, true, back);
    }

    method EmitMarkedKey(value: State, e: Event, isIndention: bool, ghost back: P.State) returns (ok: bool)
      requires Inside(Means(value).flow, Means(value).block) && Means(value).place.Return? && Analyzed(e)
      requires AtChild(value, back, true)
      requires Leveled(blocks, levels, indents, indent, flowLevel, reader.below + [back])
      modifies this
      ensures NodeTaken(Owe(Means(value).shape, old(Sum(states).owed)), old(broken), ok, e) &&
              unchanged(`events, `eventsHead, `tagDirectives, `doomed)
      ensures ok ==> ChunkRead(old(chunk) + [R.Tok(T.KeyToken)], R.Child(old(reader), back), e)
    {
      hide Inside, Sum, Between, Analyzed, Acceptable, StepNode, Means, Owe, OnStack, R.Step;
      hide Emitter.Linked, Emitter.AtChild, Emitter.ChunkRead, Emitter.NodeTaken;
      WriteIndicator(Question, true, false, isIndention);
      ok := EmitChild(value, e, true, false, back);
    }

    /** The parser is to go on with `back` behind a node, as the emitter is with `s`. */
    ghost predicate AtChild(s: State, back: P.State, mapping: bool)
      reads `states, `reader, `tagDirectives
    {
      && OnStack(states, reader) && Stands(s, back) && Means(s).place.Return? && reader.dirs == tagDirectives
      && (back.ParseIndentlessSequenceEntry? ==> InMapping(reader.below))
      && (back.ParseBlockMappingKey? || back.ParseBlockMappingValue? ==> mapping)
      && (mapping && Means(s).block ==> back.ParseBlockMappingKey? || back.ParseBlockMappingValue?)
    }

    /** The context the parser takes for a child is the one the emitter is in. */
    lemma ChildContext(s: State, back: P.State, mapping: bool)
      requires Inside(Means(s).flow, Means(s).block) && AtChild(s, back, mapping)
      ensures BeforeNode(states + [s], tagDirectives, flowLevel > 0, mapping, R.Child(reader, back))
    {
      hide Pending, Nondecreasing, Sum, Indented, OnStack, Named;
      ChildStacked(states, s, reader, back);
    }

    /** Within a step that a node is to end, nothing else has changed. */
    ghost predicate Underway(was: Before, e: Event, owed: Owed)
      reads `events, `eventsHead, `anchor, `tagHandle, `tagSuffix, `tagDirectives, `reader, `broken, `doomed
    {
      && Analyzed(e) && was.reader == reader && was.broken == broken && was.doomed == doomed &&
           was.directives == tagDirectives
      && Step(was.owes, e) == StepNode(owed, e) && WasInward(was)
    }

    /** A step that ends with a node within a collection. */
    lemma ChildTaken(was: Before, rest: Owed, prefix: seq<T.Token>, hole: R.Reader, ok: bool, e: Event)
      requires NodeTaken(rest, was.broken, ok, e) && Step(was.owes, e) == StepNode(rest, e)
      requires tagDirectives == was.directives && doomed == was.doomed && WasInward(was)
      requires ok ==> R.Leads(was.reader, prefix, hole) && ChunkRead(prefix, hole, e)
      ensures Advanced(was, ok, e)
    {
      hide Between, Emitter.Linked, Acceptable, R.Step, R.Leads, Emitter.ChunkRead, Step, StepNode, Heard, Heeded;
      hide Unscannable, TagWritten;
      if ok {
        Composed(this, was.reader, prefix, hole, e);
        NodeHeeded(canonical, was, chunk, e, Looks(), Now());
      }
    }

    /** A step that ends a collection. */
    lemma CollectionEnded(was: Before, e: Event)
      requires Between() && Linked() && (e.SequenceEnd? || e.MappingEnd?) && Step(was.owes, e) == Some(Owes())
      requires R.Step(was.reader, chunk, e, reader) && Settled() && WasInward(was)
      requires broken == was.broken && doomed == was.doomed && tagDirectives == was.directives
      ensures Advanced(was, true, e)
    {
      hide Between, Emitter.Linked, R.Step, Step, TagWritten, Unscannable, Heeded;
      Untagged(canonical, tagDirectives, e, scalarStyle);
      NodeHeeded(canonical, was, chunk, e, Looks(), Now());
    }

    /** A mapping is not at the bottom of the stack. */
    lemma InMappingDeep()
      requires Inside([], true) && OnStack(states, reader)
      ensures InMapping(reader.below) ==> |reader.below| > 1
    {
      hide Pending, Indented, Named, IndentlessInMapping;
      TopState(states);
    }

    /** What is read goes on in step with what is written. */
    lemma ReadsAlong(s: State, back: P.State, mapping: bool)
      requires Linked() && !Means(state).place.Outside?
      requires Stands(s, back) && Means(s).place.Return?
      requires back.ParseIndentlessSequenceEntry? ==> reader.top.ParseIndentlessSequenceEntry?
      requires back.ParseBlockMappingKey? || back.ParseBlockMappingValue? ==> mapping
      requires mapping && Means(s).block ==> back.ParseBlockMappingKey? || back.ParseBlockMappingValue?
      ensures AtChild(s, back, mapping)
      ensures OnStack(states, reader) && Stands(state, reader.top) && reader.dirs == tagDirectives && WasInward(Now())
      ensures Leveled(blocks, levels, indents, indent, flowLevel, Frames(state, reader))
      ensures reader.isNew <==> Means(state).place.First?
      ensures reader.top.ParseIndentlessSequenceEntry? ==> InMapping(reader.below)
      ensures state.EmitBlockSequenceFirstItem? ==>
                (reader.top.ParseIndentlessSequenceEntry? <==> mappingContext && !indention)
    {
      hide Leveled, AllStand, IndentlessInMapping, InMapping;
    }

    // ---- The states ----

    method StateMachine(e: Event) returns (ok: bool)
      requires Between() && Ready(e)
      modifies this
      ensures Advanced(old(Now()), ok, e) && unchanged(`events, `eventsHead)
    {
      hide Emitter.Between, Emitter.Ready, Emitter.Advanced;
      match state
      case EmitStreamStart => ok := EmitStreamStartState(e);
      case EmitFirstDocumentStart => ok := EmitDocumentStartState(e, true);
      case EmitDocumentStart => ok := EmitDocumentStartState(e, false);
      case EmitDocumentContent => ok := EmitDocumentContentState(e);
      case EmitDocumentEnd => ok := EmitDocumentEndState(e);
      case EmitFlowSequenceFirstItem => ok := EmitFlowSequenceItemState(e, true);
      case EmitFlowSequenceItem => ok := EmitFlowSequenceItemState(e, false);
      case EmitFlowMappingFirstKey => ok := EmitFlowMappingKeyState(e, true);
      case EmitFlowMappingKey => ok := EmitFlowMappingKeyState(e, false);
      case EmitFlowMappingSimpleValue => ok := EmitFlowMappingValueState(e, true);
      case EmitFlowMappingValue => ok := EmitFlowMappingValueState(e, false);
      case EmitBlockSequenceFirstItem => ok := EmitBlockSequenceItemState(e, true);
      case EmitBlockSequenceItem => ok := EmitBlockSequenceItemState(e, false);
      case EmitBlockMappingFirstKey => ok := EmitBlockMappingKeyState(e, true);
      case EmitBlockMappingKey => ok := EmitBlockMappingKeyState(e, false);
      case EmitBlockMappingSimpleValue => ok := EmitBlockMappingValueState(e, true);
      case EmitBlockMappingValue => ok := EmitBlockMappingValueState(e, false);
      case EmitEnd =>
        ghost var was := Now();
        NotOver(e);
        ok := Fail(ExpectedNothing);
        OverRefused(was, e);
    }

    lemma OverRefused(was: Before, e: Event)
      requires Step(was.owes, e).None? && problem.ExpectedNothing?
      ensures Advanced(was, false, e)
    {
    }

    method EmitStreamStartState(e: Event) returns (ok: bool)
      requires Between() && Ready(e) && state.EmitStreamStart?
      modifies this
      ensures Advanced(old(Now()), ok, e) && unchanged(`events, `eventsHead)
    {
      hide Between, Emitter.Linked, Analyzed, TagWritten, Unscannable, Emitter.Outdoors, R.Step;
      GoesOutdoors();
      BeginStands();
      if !e.StreamStart? { ok := Fail(ExpectedStreamStart); return; }
      StartStream();
      Untagged(canonical, tagDirectives, e, scalarStyle);
      return true;
    }

    /** Indent and width in range. */
    method SetBest()
      modifies `bestIndent, `bestWidth
      ensures 2 <= bestIndent <= 9 && bestWidth > 2 * bestIndent
    {
      if bestIndent < 2 || bestIndent > 9 { bestIndent := 2; }
      if 0 <= bestWidth <= bestIndent * 2 { bestWidth := 80; }
      if bestWidth < 0 { bestWidth := 0x7FFF_FFFF; }
    }

    method StartStream()
      requires Outdoors() && state.EmitStreamStart?
      modifies `bestIndent, `bestWidth, `indent, `column, `whitespace, `indention, `state, `blocks, `levels, `chunk,
                 `reader
      ensures Between() && Linked() && state.EmitFirstDocumentStart? && Owes() == Documents
      ensures chunk == BEGUN && reader == R.Outside(true) && R.Step(old(reader), chunk, StreamStart, reader)
    {
      hide Between, Emitter.Linked, Pending, Named, R.Step, Emitter.Flat;
      SetBest();
      indent := -1;
      column := 0;
      whitespace, indention := true, true;
      blocks, levels := [-1], [-1];
      chunk := BEGUN;
      R.StreamStarts();
      GoOutside(EmitFirstDocumentStart, R.Outside(true));
    }

    /** All that holds outside of nodes. */
    ghost predicate Outdoors()
      reads `problem, `state, `states, `bestIndent, `indent, `indents, `flowLevel, `marks, `tagDirectives, `openEnded
      reads `reader, `blocks, `levels
    {
      && problem.NoProblem? && Means(state).place.Outside? && Flat() && Named(tagDirectives)
      && (!state.EmitStreamStart? ==> AtMargin())
      && (Means(state).shape.Whole? || Means(state).shape.More? ==> tagDirectives == [])
      && reader == (if state.EmitDocumentContent? then R.AtContent(reader.top.ParseDocumentContent?, tagDirectives)
                    else if Unnoticed(state, reader) then R.Outside(true)
                      else R.Reader(OutsideReader(state), [], tagDirectives, false))
      && (Unnoticed(state, reader) ==> state.EmitDocumentEnd? || state.EmitDocumentStart?)
      && (state.EmitStreamStart? || state.EmitFirstDocumentStart? ==> !openEnded)
    }

    /** Nothing is open. */
    ghost predicate Flat()
      reads `states, `indents, `flowLevel, `marks
    {
      states == [] && indents == [] && flowLevel == 0 && Pending(marks) == Some([])
    }

    ghost predicate AtMargin()
      reads `bestIndent, `indent, `blocks, `levels
    {
      2 <= bestIndent <= 9 && indent == -1 && blocks == [-1] && levels == [-1]
    }

    lemma GoesOutdoors()
      requires Between() && Linked() && Means(state).place.Outside?
      ensures Outdoors() && Owes() == Owe(Means(state).shape, Nothing)
    {
      hide Pending, Nondecreasing, Named, IndentlessInMapping, InMapping;
      NoStates();
    }

    lemma OutdoorsBetween()
      requires Outdoors()
      ensures Between() && Owes() == Owe(Means(state).shape, Nothing)
    {
      hide Pending, Nondecreasing, Named;
      NoStates();
      OneIndent(indent);
      assert indents + [indent] == [indent];
    }

    /** Goes on outside of nodes. */
    method GoOutside(s: State, ghost r: R.Reader)
      requires problem.NoProblem? && Means(s).place.Outside? && Flat() && Named(tagDirectives) && AtMargin()
      requires !s.EmitStreamStart? && (Means(s).shape.More? ==> tagDirectives == []) &&
               (s.EmitFirstDocumentStart? ==> !openEnded)
      requires if s.EmitDocumentContent? then r == R.AtContent(r.top.ParseDocumentContent?, tagDirectives)
               else if Unnoticed(s, r) then r == R.Outside(true) && s.EmitDocumentStart?
               else r == R.Reader(OutsideReader(s), [], tagDirectives, false)
      modifies `state, `reader
      ensures state == s && reader == r && Between() && Linked() && Owes() == Owe(Means(s).shape, Nothing)
    {
      hide Between, Emitter.Linked, Named, Emitter.Flat, Emitter.AtMargin;
      state, reader := s, r;
      OutdoorsBetween();
      OutdoorsLinked();
    }

    lemma OutdoorsLinked()
      requires Outdoors()
      ensures Linked()
    {
      hide Pending, Named;
      assert indents + [indent] == [indent];
    }

    method EmitDocumentStartState(e: Event, first: bool) returns (ok: bool)
      requires Between() && Ready(e) && state == if first then EmitFirstDocumentStart else EmitDocumentStart
      modifies this
      ensures Advanced(old(Now()), ok, e) && unchanged(`events, `eventsHead)
    {
      hide Between, Emitter.Linked, Analyzed, TagWritten, Unscannable, Emitter.Outdoors, ValidDirectives, R.Step;
      hide StartsUnmarked, MarksAlone, InForce, Heeded;
      hide Means, Emitter.Advanced;
      BetweenMean();
      GoesOutdoors();
      OutsideStands();
      ghost var was := Now();
      if e.DocumentStart? {
        ok := StartDocument(e, first);
        Untagged(canonical, tagDirectives, e, scalarStyle);
        if ok { StartHeeded(canonical, was, chunk, e, Looks(), Now()); }
      } else if e.StreamEnd? {
        EndStream(first);
        ok := true;
        Untagged(canonical, tagDirectives, e, scalarStyle);
        EndHeeded(canonical, was, Closed(chunk), e, Looks(), Now());
      } else {
        ok := Fail(ExpectedDocumentStartOrStreamEnd);
      }
      DocumentsAdvanced(was, ok, e);
    }

    lemma DocumentsAdvanced(was: Before, ok: bool, e: Event)
      requires was.owes == Documents
      requires ok ==> Between() && Linked() && Heeded(canonical, was, Closed(chunk), e, Looks(), Now())
      requires ok ==>
                 if state.EmitDocumentContent?
                 then e.DocumentStart? && Owes() == Single(EndOfDocument) && ValidDirectives(e.directives)
                      else state.EmitEnd? && e.StreamEnd? && Owes() == Nothing
      requires !ok ==> !problem.NoProblem?
      requires !ok ==>
                 if e.DocumentStart? then !ValidDirectives(e.directives) && !Structural(problem) else !e.StreamEnd?
      ensures Advanced(was, ok, e)
    {
      hide Between, Emitter.Linked, Heeded, ValidDirectives, Emitter.Owes;
    }

    method StartDocument(e: Event, first: bool) returns (ok: bool)
      requires Outdoors() && chunk == [] && state == (if first then EmitFirstDocumentStart else EmitDocumentStart) &&
               e.DocumentStart?
      modifies `problem, `column, `whitespace, `indention, `openEnded, `tagDirectives, `chunk, `state, `reader, `broken,
                 `doomed
      ensures ok == ValidDirectives(e.directives)
      ensures if ok then Between() && Linked() && state.EmitDocumentContent? && Owes() == Single(EndOfDocument)
              else !problem.NoProblem? && !Structural(problem)
      ensures ok ==> tagDirectives == InForce(e.directives) && broken == (old(broken) || MarksAlone(e.directives))
      ensures ok ==> doomed == (old(doomed) || (Unnoticed(old(state), old(reader)) && Ends(chunk)))
      ensures ok ==>
                reader.top ==
                (if first && StartsUnmarked(canonical, e) then P.ParseBlockNode else P.ParseDocumentContent)
      ensures ok && first && StartsUnmarked(canonical, e) ==> chunk == []
      ensures ok && !broken && !doomed ==> R.Step(old(reader), chunk, e, reader)
    {
      hide Between, Emitter.Linked, Pending, InForce, Named, ValidDirectives, R.Step, StartsUnmarked, MarksAlone;
      hide Emitter.Flat, Emitter.AtMargin;
      OutsideStands();
      ok := DeclareTags(e.directives);
      if !ok { return; }
      ghost var atFirst := reader.top.ParseImplicitDocumentStart?;
      WriteDocumentStart(e, first, atFirst);
      doomed := doomed || (Unnoticed(state, reader) && Ends(chunk));
      GoOutside(EmitDocumentContent, R.InDocument(!(first && StartsUnmarked(canonical, e)), e.directives));
    }

    method EndStream(first: bool)
      requires Outdoors() && chunk == [] && state == if first then EmitFirstDocumentStart else EmitDocumentStart
      modifies `column, `whitespace, `indention, `openEnded, `chunk, `state, `reader, `doomed
      ensures Between() && Linked() && state.EmitEnd? && Owes() == Nothing
      ensures doomed == (old(doomed) || (Unnoticed(old(state), old(reader)) && Ends(Closed(chunk))))
      ensures !Unnoticed(state, reader) && !reader.top.ParseBlockNode?
      ensures !doomed ==> R.Step(old(reader), Closed(chunk), StreamEnd, reader)
    {
      hide Between, Emitter.Linked, Pending, Named, R.Step, Emitter.Flat, Emitter.AtMargin;
      OutsideStands();
      ghost var atFirst, ended := reader.top.ParseImplicitDocumentStart?, openEnded;
      if !(atFirst && ended) { R.StreamEnds(atFirst, ended); }
      EndDocumentOpen();
      doomed := doomed || (Unnoticed(state, reader) && ended);
      GoOutside(EmitEnd, R.Reader(P.ParseEnd, [], [], false));
      EndsFirst(ended);
    }

    /** The marker, if any, is the first that is written at the end. */
    lemma EndsFirst(ended: bool)
      requires state.EmitEnd? && chunk == R.OptionalToken(ended, R.Tok(T.DocumentEndToken))
      ensures Ends(Closed(chunk)) == ended &&
              Closed(chunk) == R.OptionalToken(ended, R.Tok(T.DocumentEndToken)) + [R.Tok(T.StreamEndToken)]
    {
    }

    /** Where the reader is between documents. */
    lemma OutsideStands()
      requires Outdoors() && (state.EmitFirstDocumentStart? || state.EmitDocumentStart?)
      ensures reader == R.Outside(reader.top.ParseImplicitDocumentStart?) && !reader.top.ParseBlockNode?
      ensures state.EmitFirstDocumentStart? ==> reader.top.ParseImplicitDocumentStart? && !openEnded
    {
      hide Pending, Named, Emitter.Flat, Emitter.AtMargin;
    }

    lemma BeginStands()
      requires Outdoors() && state.EmitStreamStart?
      ensures !reader.top.ParseBlockNode? && !Unnoticed(state, reader)
    {
      hide Pending, Named, Emitter.Flat, Emitter.AtMargin;
    }

    /** Marks the end of a document that might go on. */
    method EndDocumentOpen()
      requires chunk == []
      modifies `column, `whitespace, `indention, `openEnded, `chunk
      ensures chunk == R.OptionalToken(old(openEnded), R.Tok(T.DocumentEndToken))
    {
      if openEnded {
        WriteIndicator(DocumentEnds, true, false, false);
        WriteIndent();
      }
    }

    method WriteDocumentStart(e: Event, first: bool, ghost atFirst: bool)
      requires e.DocumentStart? && chunk == [] && (first ==> !openEnded && atFirst) && Named(e.directives)
      modifies `column, `whitespace, `indention, `openEnded, `chunk, `broken
      ensures broken == (old(broken) || MarksAlone(e.directives))
      ensures first && StartsUnmarked(canonical, e) ==> chunk == []
      ensures !broken && (first || !atFirst || !Ends(chunk)) ==>
                R.Step(R.Outside(atFirst), chunk, e,
                  R.InDocument(!(first && StartsUnmarked(canonical, e)), e.directives))
    {
      hide R.Step, R.InDocument, Named, Styled;
      var implicit := e.implicitStart;
      if !first || canonical { implicit := false; }
      ghost var ended := openEnded && (e.explicitVersion || |e.directives| > 0);
      if openEnded && (e.explicitVersion || |e.directives| > 0) { EndDocumentOpen(); }
      assert chunk == R.OptionalToken(ended, R.Tok(T.DocumentEndToken));
      if e.explicitVersion {
        implicit := false;
        WriteVersion();
      }
      ghost var before :=
        R.OptionalToken(ended, R.Tok(T.DocumentEndToken)) + R.OptionalToken(e.explicitVersion, R.VERSION);
      assert chunk == before;
      if |e.directives| > 0 {
        implicit := false;
        WriteDirectives(e.directives);
      }
      assert !broken ==> chunk == before + R.TagDirectives(e.directives);
      assert implicit == (first && StartsUnmarked(canonical, e));
      if !implicit {
        WriteIndent();
        WriteIndicator(DocumentStarts, true, false, false);
        if canonical { WriteIndent(); }
        if !(atFirst && ended) { R.ExplicitDocument(atFirst, ended, e); }
      } else {
        R.ImplicitDocument(e);
        assert before + R.TagDirectives([]) == [];
      }
      assert ended ==> Ends(chunk);
    }

    method WriteVersion()
      modifies `column, `whitespace, `indention, `openEnded, `chunk
      ensures chunk == old(chunk) + [R.VERSION]
    {
      WriteIndicator(YamlDirective, true, false, false);
      WriteIndicator(Version, true, false, false);
      WriteIndent();
    }

    method WriteDirectives(directives: seq<(string, string)>)
      modifies `column, `whitespace, `indention, `openEnded, `chunk, `broken
      ensures broken == (old(broken) || MarksAlone(directives)) && old(chunk) <= chunk
      ensures !broken ==> chunk == old(chunk) + R.TagDirectives(directives)
      ensures directives == [] ==> chunk == old(chunk)
    {
      assert directives[0..] == directives;
      for i := 0 to |directives|
        invariant broken == (old(broken) || MarksAlone(directives[..i])) && old(chunk) <= chunk
        invariant !broken ==> chunk + R.TagDirectives(directives[i..]) == old(chunk) + R.TagDirectives(directives)
        invariant i == 0 ==> chunk == old(chunk)
      {
        assert directives[i..][1..] == directives[i + 1..];
        MarkAloneNext(directives, i);
        WriteTagDirective(directives[i].0, directives[i].1);
      }
      assert directives[..|directives|] == directives;
    }

    /** The scanner crashes on a handle that is but an exclamation mark. */
    method WriteTagDirective(handle: string, prefix: string)
      modifies `column, `whitespace, `indention, `openEnded, `chunk, `broken
      ensures broken == (old(broken) || handle == "!")
      ensures chunk == old(chunk) + if handle == "!" then []
                else [R.Tok(T.TagDirectiveToken).(value := handle, prefix := prefix)]
    {
      WriteIndicator(TagDirective, true, false, false);
      WriteText(handle);
      WriteText(prefix);
      WriteIndent();
      if handle == "!" { broken := true; } else {
        chunk := chunk + [R.Tok(T.TagDirectiveToken).(value := handle, prefix := prefix)];
      }
    }

    /** Checks the directives of a document and adds them and the default ones. */
    method DeclareTags(directives: seq<(string, string)>) returns (ok: bool)
      requires tagDirectives == []
      modifies `tagDirectives, `problem
      ensures ok == ValidDirectives(directives)
      ensures ok ==>
                problem == old(problem) && tagDirectives == InForce(directives) && Named(tagDirectives) &&
                Named(directives)
      ensures !ok ==> !problem.NoProblem? && !Structural(problem)
    {
      hide ValidHandle, Declares, Named;
      for i := 0 to |directives|
        invariant tagDirectives == directives[..i] && ValidDirectives(directives[..i]) && problem == old(problem)
      {
        PrefixDirectives(directives, i);
        ok := AnalyzeTagDirective(directives[i]);
        if !ok { return false; }
        ok := AppendTagDirective(directives[i], false);
        if !ok { return false; }
      }
      assert directives[..|directives|] == directives;
      for i := 0 to |DEFAULT_TAG_DIRECTIVES|
        invariant problem == old(problem)
        invariant tagDirectives == if i == 0 then directives
                                   else if i == 1 then WithDefault(directives, DEFAULT_TAG_DIRECTIVES[0])
                                   else InForce(directives)
      {
        ok := AppendTagDirective(DEFAULT_TAG_DIRECTIVES[i], true);
      }
      ValidIsNamed(directives);
      NamedInForce(directives);
      return true;
    }

    method AnalyzeTagDirective(d: (string, string)) returns (ok: bool)
      modifies `problem
      ensures ok == (ValidHandle(d.0) && d.1 != "")
      ensures if ok then problem == old(problem) else !problem.NoProblem? && !Structural(problem)
    {
      var handle := d.0;
      if |handle| == 0 || handle[0] != '!' || handle[|handle| - 1] != '!' { ok := Fail(BadTagHandle); return; }
      var i := 1;
      while i < |handle| - 1
        invariant 1 <= i && forall j :: 1 <= j < i && j < |handle| - 1 ==> IsAlpha(handle[j])
        invariant problem == old(problem)
      {
        if !IsAlpha(handle[i]) { ok := Fail(BadTagHandle); return; }
        i := i + 1;
      }
      if |d.1| == 0 { ok := Fail(EmptyTagPrefix); return; }
      return true;
    }

    method AppendTagDirective(d: (string, string), allowDuplicates: bool) returns (ok: bool)
      modifies `tagDirectives, `problem
      ensures ok == (allowDuplicates || !Declares(old(tagDirectives), d.0))
      ensures tagDirectives == old(tagDirectives) + if Declares(old(tagDirectives), d.0) then [] else [d]
      ensures problem == if ok then old(problem) else DuplicateTagDirective
    {
      for i := 0 to |tagDirectives|
        invariant tagDirectives == old(tagDirectives) && problem == old(problem)
        invariant !Declares(tagDirectives[..i], d.0)
      {
        if d.0 == tagDirectives[i].0 {
          if allowDuplicates { return true; }
          ok := Fail(DuplicateTagDirective);
          return;
        }
      }
      assert tagDirectives[..|tagDirectives|] == tagDirectives;
      tagDirectives := tagDirectives + [d];
      return true;
    }

    method EmitDocumentContentState(e: Event) returns (ok: bool)
      requires Between() && Ready(e) && state.EmitDocumentContent?
      modifies this
      ensures Advanced(old(Now()), ok, e) && unchanged(`events, `eventsHead)
    {
      hide Between, Emitter.Linked, Sum, Waits, Analyzed, Acceptable, Emitter.AtNode, Awaiting, R.Step, InForce;
      hide R.Leads, Heeded;
      hide Emitter.NodeTaken, Emitter.ChunkRead;
      GoesOutdoors();
      ghost var was, hole := Now(), R.AtContent(false, tagDirectives);
      R.ContentLeads(tagDirectives);
      states := states + [EmitDocumentEnd];
      reader := hole;
      ContentAhead();
      ok := EmitNode(e, false, false);
      if ok { RootTaken(was, hole, e); } else { RootRefused(was, e); }
    }

    lemma AtDocumentEnd(canonical: bool, e: Event)
      requires Between() && Bare(canonical, e, scalarStyle) && StepNode(EndOfDocument, e) == Some(Owes())
      ensures state.EmitDocumentEnd?
    {
      hide Pending, Nondecreasing, Named, Sum;
    }

    lemma RootRefused(was: Before, e: Event)
      requires was.owes == Single(EndOfDocument) && NodeTaken(EndOfDocument, was.broken, false, e)
      ensures Advanced(was, false, e)
    {
      hide Acceptable;
    }

    /** The node of a document was taken; if nothing was written for it at all in a document
        without a marker, the reader does not notice. */
    ghost method RootTaken(was: Before, hole: R.Reader, e: Event)
      requires was.owes == Single(EndOfDocument) && was.state.EmitDocumentContent? &&
               NodeTaken(EndOfDocument, was.broken, true, e)
      requires ChunkRead([], hole, e) && tagDirectives == was.directives && doomed == was.doomed
      requires was.reader == R.AtContent(was.reader.top.ParseDocumentContent?, was.directives) &&
               hole == R.AtContent(false, was.directives)
      requires R.Leads(R.AtContent(true, was.directives), [], hole)
      modifies `reader
      ensures Advanced(was, true, e)
    {
      hide Between, Emitter.Linked, Acceptable, R.Step, R.Leads, Heard, Heeded, Unscannable, TagWritten, Bare;
      hide StartsUnmarked;
      if was.reader.top.ParseDocumentContent? {
        Composed(this, was.reader, [], hole, e);
        NodeHeeded(canonical, was, chunk, e, Looks(), Now());
      } else if Bare(canonical, e, scalarStyle) {
        AtDocumentEnd(canonical, e);
        GoesOutdoors();
        reader := R.Outside(true);
        OutdoorsLinked();
        RootHeeded(canonical, was, e, Looks(), Now());
      } else {
        assert chunk[0..] == chunk;
        NodeHeeded(canonical, was, chunk, e, Looks(), Now());
      }
    }

    lemma ContentAhead()
      requires problem.NoProblem? && states == [EmitDocumentEnd] && indents == [] && flowLevel == 0 &&
               Pending(marks) == Some([])
      requires Named(tagDirectives) && 2 <= bestIndent <= 9 && indent == -1 && blocks == [-1] && levels == [-1]
      requires reader == R.AtContent(false, tagDirectives)
      ensures Awaiting() && AtNode(false) && Sum(states).owed == EndOfDocument
    {
      hide Pending, Nondecreasing, Named, Sum;
      DocumentSum(states);
      OneIndent(indent);
      assert indents + [indent] == [indent];
    }

    method EmitDocumentEndState(e: Event) returns (ok: bool)
      requires Between() && Ready(e) && state.EmitDocumentEnd?
      modifies this
      ensures Advanced(old(Now()), ok, e) && unchanged(`events, `eventsHead)
    {
      hide Between, Emitter.Linked, Analyzed, TagWritten, Unscannable, Emitter.Outdoors, R.Step;
      GoesOutdoors();
      if !e.DocumentEnd? { ok := Fail(ExpectedDocumentEnd); return; }
      EndDocument(e.implicitEnd);
      Untagged(canonical, tagDirectives, e, scalarStyle);
      return true;
    }

    method EndDocument(implicit: bool)
      requires Outdoors() && chunk == [] && state.EmitDocumentEnd?
      modifies `column, `whitespace, `indention, `openEnded, `tagDirectives, `chunk, `state, `reader, `doomed
      ensures Between() && Linked() && state.EmitDocumentStart? && Owes() == Documents && tagDirectives == []
      ensures doomed == (old(doomed) || (Unnoticed(old(state), old(reader)) && Ends(chunk)))
      ensures if Unnoticed(old(state), old(reader)) && chunk == [] then reader == old(reader)
              else !Unnoticed(state, reader) && (!doomed ==> R.Step(old(reader), chunk, DocumentEnd(implicit), reader))
      ensures !reader.top.ParseBlockNode?
    {
      hide Between, Emitter.Linked, Pending, R.Step, Emitter.Flat, Emitter.AtMargin;
      ghost var missed := Unnoticed(state, reader);
      R.DocumentEnds(implicit, tagDirectives);
      WriteIndent();
      if !implicit {
        WriteIndicator(DocumentEnds, true, false, false);
        WriteIndent();
      }
      assert chunk == R.OptionalToken(!implicit, R.Tok(T.DocumentEndToken));
      doomed := doomed || (missed && !implicit);
      tagDirectives := [];
      GoOutside(EmitDocumentStart, R.Outside(missed && implicit));
    }

    /** Begins a collection in flow style. */
    method OpenFlow(bracket: Bracket)
      requires Between() && Means(state).place.First? && !Means(state).block
      modifies `column, `whitespace, `indention, `openEnded, `marks, `indent, `indents, `flowLevel, `chunk
      ensures chunk == old(chunk) + Tokens(Opening(bracket))
      ensures Inside([bracket], false)
      ensures indents == old(indents) + [old(indent)] && flowLevel == old(flowLevel) + 1
    {
      hide Nondecreasing, Sum, Pending, Indented;
      assert Indented();
      WriteBracket(true, bracket);
      MarkAdded(old(marks), Opens(bracket));
      IncreaseIndent(true, false);
      flowLevel := flowLevel + 1;
      assert Sum(states).flow + [] == Sum(states).flow;
    }

    method EnterFlow(first: bool, bracket: Bracket, ghost back: P.State)
      requires Between() && !Means(state).block &&
               Leveled(blocks, levels, indents, indent, flowLevel, Frames(state, reader))
      requires if first then Means(state).place.First? else Means(state).place.Return? && Means(state).flow == [bracket]
      modifies `column, `whitespace, `indention, `openEnded, `marks, `indent, `indents, `flowLevel, `chunk
      ensures chunk == if first then old(chunk) + Tokens(Opening(bracket)) else old(chunk)
      ensures Inside([bracket], false) && Leveled(blocks, levels, indents, indent, flowLevel, reader.below + [back])
    {
      hide Between, Leveled;
      if first {
        OpenFlow(bracket);
        FlowOpened(blocks, levels, old(indents), old(indent), old(flowLevel), reader.below, indent, back);
      } else {
        GoesOn();
        InFlow(bracket);
        Reframed(blocks, levels, indents, indent, flowLevel, reader.below, reader.top, back);
      }
    }

    lemma InFlow(bracket: Bracket)
      requires Inside([bracket], false)
      ensures flowLevel > 0
    {
      hide Sum, Pending, Indented, Named;
    }

    lemma InBlock()
      requires Inside([], true)
      ensures flowLevel == 0 && Nondecreasing(indents + [indent]) && bestIndent >= 2
    {
      hide Sum, Pending, Nondecreasing, Named;
    }

    /** Begins a collection in block style, or goes on with it. */
    method EnterBlock(first: bool, indentless: bool)
      requires Between() && Means(state).block
      requires Means(state).place == if first then First else Return
      modifies `indent, `indents
      ensures Inside([], true)
      ensures if first then BlockIndent(old(indents), old(indent), indentless)
              else indents == old(indents) && indent == old(indent)
    {
      hide Between, Inside;
      if first { OpenBlock(indentless); } else { GoesOn(); BlockHasNoBracket(state); }
    }

    ghost predicate BlockIndent(wereIndents: seq<int>, wasIndent: int, indentless: bool)
      reads `indent, `indents, `bestIndent
    {
      && indents == wereIndents + [wasIndent]
      && indent == if wasIndent < 0 then 0 else if indentless then wasIndent else wasIndent + bestIndent
    }

    /** The scanner takes the token at the column that comes next in block context. */
    ghost method RollTo(start: T.TokenType)
      requires levels != [] && (start.BlockSequenceStartToken? || start.BlockMappingStartToken?)
      modifies `levels, `chunk
      ensures levels == R.Roll(old(levels), column, start).0
      ensures chunk == old(chunk) + R.Roll(old(levels), column, start).1
    {
      if levels[|levels| - 1] < column { chunk := chunk + [R.Tok(start)]; }
      levels := R.Roll(levels, column, start).0;
    }

    /** At its indent, the first entry starts a block collection and further ones do not. */
    ghost method AtEntry(first: bool, wereIndents: seq<int>, wasIndent: int, indentless: bool, back: P.State,
                         start: T.TokenType)
      requires Inside([], true) && column == (if indent < 0 then 0 else indent)
      requires start.BlockSequenceStartToken? || start.BlockMappingStartToken?
      requires first ==>
                 BlockIndent(wereIndents, wasIndent, indentless) && (indentless <==> back.ParseIndentlessSequenceEntry?)
      requires first ==>
                 Leveled(blocks, levels, wereIndents, wasIndent, flowLevel, reader.below) &&
                 (indentless ==> |reader.below| > 1)
      requires !first ==> Leveled(blocks, levels, indents, indent, flowLevel, reader.below + [back])
      modifies `blocks, `levels, `chunk
      ensures Leveled(blocks, levels, indents, indent, flowLevel, reader.below + [back])
      ensures chunk == old(chunk) + R.OptionalToken(first && !back.ParseIndentlessSequenceEntry?, R.Tok(start))
    {
      hide Inside, Leveled, R.Roll;
      InBlock();
      SomeIndent();
      if first {
        EntryIndent(blocks, levels, wereIndents, wasIndent, reader.below);
        BlockOpened(blocks, levels, wereIndents, wasIndent, reader.below, indent, back, start);
        RollTo(start);
        blocks := blocks + [indent];
      } else {
        LastIndent(blocks, levels, indents, indent, reader.below + [back]);
        BlockGoesOn(blocks, levels, indents, indent, reader.below + [back], start);
        RollTo(start);
      }
    }

    /** What is written for the end of a collection in flow style is read as it. */
    lemma FlowEnded(r: R.Reader, sequence: bool, first: bool, tokens: seq<T.Token>)
      requires r.below != []
      requires r.top == if sequence then if first then P.ParseFlowSequenceFirstEntry else P.ParseFlowSequenceEntry
                        else if first then P.ParseFlowMappingFirstKey else P.ParseFlowMappingKey
      requires var bracket := if sequence then Square else Curly;
               tokens == (if first then [] + Tokens(Opening(bracket)) else []) +
                 (if canonical && !first then Tokens(Comma) else []) +
                         Tokens(Closing(bracket))
      ensures R.Step(r, tokens, if sequence then SequenceEnd else MappingEnd, R.Popped(r))
    {
      hide R.Step;
      R.FlowCloses(r, sequence, first, canonical);
      assert tokens ==
             R.OptionalToken(first, R.Tok(if sequence then T.FlowSequenceStartToken else T.FlowMappingStartToken)) +
                       R.OptionalToken(canonical && !first, R.Tok(T.FlowEntryToken)) +
                       [R.Tok(if sequence then T.FlowSequenceEndToken else T.FlowMappingEndToken)];
    }

    /** Ends a collection in flow style and goes on below it. */
    method CloseFlow(bracket: Bracket, first: bool)
      requires Inside([bracket], false) && OnStack(states, reader) && reader.dirs == tagDirectives
      requires exists back :: Leveled(blocks, levels, indents, indent, flowLevel, reader.below + [back])
      modifies `column, `whitespace, `indention, `openEnded, `marks, `chunk, `indent, `indents, `flowLevel, `state,
                 `states, `reader
      ensures Between() && Owes() == old(Sum(states).owed)
      ensures chunk == old(chunk) + (if canonical && !first then Tokens(Comma) else []) + Tokens(Closing(bracket))
      ensures old(reader).below != [] && reader == R.Popped(old(reader)) && Linked() && Settled()
    {
      hide Nondecreasing, Sum, Pending, Indented, Between, Leveled, OnStack, Emitter.Linked;
      ghost var flow := Sum(states).flow;
      ghost var back :| Leveled(blocks, levels, indents, indent, flowLevel, reader.below + [back]);
      InFlow(bracket);
      FlowClosed(blocks, levels, indents, indent, flowLevel, reader.below + [back]);
      assert (reader.below + [back])[..|reader.below|] == reader.below;
      flowLevel := flowLevel - 1;
      DecreaseIndent();
      WriteFlowEnd(bracket, first);
      MarkAdded(old(marks), Closes(bracket));
      assert flow + [] == (flow + [bracket])[..|flow|];
      PopState();
    }

    method WriteFlowEnd(bracket: Bracket, first: bool)
      modifies `column, `whitespace, `indention, `openEnded, `marks, `chunk
      ensures chunk == old(chunk) + (if canonical && !first then Tokens(Comma) else []) + Tokens(Closing(bracket))
      ensures marks == old(marks) + [Closes(bracket)]
    {
      if canonical && !first {
        WriteIndicator(Comma, false, false, false);
        WriteIndent();
      }
      WriteBracket(false, bracket);
    }

    method SeparateItem(first: bool)
      modifies `column, `whitespace, `indention, `openEnded, `chunk
      ensures chunk == if first then old(chunk) else old(chunk) + Tokens(Comma)
    {
      if !first { WriteIndicator(Comma, false, false, false); }
      if canonical || column > bestWidth { WriteIndent(); }
    }

    /** Begins a collection in block style. */
    method OpenBlock(indentless: bool)
      requires Between() && Means(state).place.First? && Means(state).block
      modifies `indent, `indents
      ensures Inside([], true) && BlockIndent(old(indents), old(indent), indentless)
    {
      hide Nondecreasing, Sum, Pending, Indented;
      assert Indented();
      IncreaseIndent(false, indentless);
    }

    /** What comes next stands at the indent, or further to the left. */
    ghost method UnrollTo()
      requires blocks != []
      modifies `levels, `blocks, `chunk
      ensures levels == R.Unroll(old(levels), indent).0 && blocks == old(blocks)[..|old(blocks)| - 1]
      ensures chunk == old(chunk) + R.Unroll(old(levels), indent).1
    {
      R.OnlyEnds(levels, indent);
      chunk := chunk + R.Unroll(levels, indent).1;
      levels, blocks := R.Unroll(levels, indent).0, blocks[..|blocks| - 1];
    }

    lemma SomeIndent()
      requires Inside([], true)
      ensures indents != []
    {
      hide Sum, Pending, Named, Indented;
    }

    /** Ends a collection in block style and goes on below it. */
    method CloseBlock()
      requires Inside([], true) && OnStack(states, reader) && reader.dirs == tagDirectives
      requires Leveled(blocks, levels, indents, indent, flowLevel, reader.below + [reader.top])
      modifies `indent, `indents, `state, `states, `reader, `chunk, `levels, `blocks
      ensures Between() && Owes() == old(Sum(states).owed)
      ensures chunk ==
              old(chunk) + R.OptionalToken(!old(reader).top.ParseIndentlessSequenceEntry?, R.Tok(T.BlockEndToken))
      ensures old(reader).below != [] && reader == R.Popped(old(reader)) && Linked() && Settled()
    {
      hide Pending, Nondecreasing, Sum, Indented, Between;
      InBlock();
      SomeIndent();
      BlockClosed(blocks, levels, indents, indent, reader.below + [reader.top]);
      assert (reader.below + [reader.top])[..|reader.below|] == reader.below;
      DecreaseIndent();
      UnrollTo();
      PopState();
    }

    method EmitFlowSequenceItemState(e: Event, first: bool) returns (ok: bool)
      requires Between() && Ready(e)
      requires state == if first then EmitFlowSequenceFirstItem else EmitFlowSequenceItem
      modifies this
      ensures Advanced(old(Now()), ok, e) && unchanged(`events, `eventsHead)
    {
      hide Sum, Inside, Between, Analyzed, Acceptable, Step, StepNode, OnStack, Leveled, R.Step, R.Leads;
      hide Emitter.Linked, Emitter.AtChild, Emitter.ChunkRead, Emitter.NodeTaken, Emitter.Advanced, Means;
      FlowEntriesMean(state, first);
      StepsWithin(Sum(states).owed, e);
      ghost var was, r, rest := Now(), reader, Sum(states).owed;
      ReadsAlong(EmitFlowSequenceItem, P.ParseFlowSequenceEntry, false);
      EnterFlow(first, Square, P.ParseFlowSequenceEntry);
      if e.SequenceEnd? {
        CloseFlow(Square, first);
        FlowEnded(r, true, first, chunk);
        CollectionEnded(was, e);
        return true;
      }
      ok := EmitFlowItem(e, first, was);
    }

    method EmitFlowItem(e: Event, first: bool, ghost was: Before) returns (ok: bool)
      requires Inside([Square], false) && Underway(was, e, Items(Sum(states).owed))
      requires chunk == if first then [] + Tokens(Opening(Square)) else []
      requires AtChild(EmitFlowSequenceItem, P.ParseFlowSequenceEntry, false)
      requires reader.top == if first then P.ParseFlowSequenceFirstEntry else P.ParseFlowSequenceEntry
      requires Leveled(blocks, levels, indents, indent, flowLevel, reader.below + [P.ParseFlowSequenceEntry])
      modifies this
      ensures Advanced(was, ok, e) && unchanged(`events, `eventsHead)
    {
      hide Sum, Inside, Between, Analyzed, Acceptable, Step, StepNode, OnStack, Leveled, R.Step, R.Leads;
      hide Emitter.Linked, Emitter.AtChild, Emitter.ChunkRead, Emitter.NodeTaken, Emitter.Advanced, Means;
      FlowEntriesMean(state, first);
      ghost var r, rest := reader, Sum(states).owed;
      SeparateItem(first);
      ghost var prefix := chunk;
      R.FlowEntryRead(r, first);
      assert prefix == [R.Tok(if first then T.FlowSequenceStartToken else T.FlowEntryToken)];
      ok := EmitChild(EmitFlowSequenceItem, e, false, false, P.ParseFlowSequenceEntry);
      ChildTaken(was, Items(rest), prefix, R.Child(r, P.ParseFlowSequenceEntry), ok, e);
    }

    method EmitFlowMappingKeyState(e: Event, first: bool) returns (ok: bool)
      requires Between() && Ready(e)
      requires state == if first then EmitFlowMappingFirstKey else EmitFlowMappingKey
      modifies this
      ensures Advanced(old(Now()), ok, e) && unchanged(`events, `eventsHead)
    {
      hide Sum, Inside, Between, Analyzed, Acceptable, Step, StepNode, OnStack, Leveled, R.Step, R.Leads, Styled;
      hide Emitter.Linked, Emitter.AtChild, Emitter.ChunkRead, Emitter.NodeTaken, Emitter.Advanced, Means;
      FlowPairsMean(state, first);
      StepsWithin(Sum(states).owed, e);
      ghost var was, r, rest := Now(), reader, Sum(states).owed;
      ReadsAlong(EmitFlowMappingSimpleValue, P.ParseFlowMappingValue, true);
      ReadsAlong(EmitFlowMappingValue, P.ParseFlowMappingValue, true);
      EnterFlow(first, Curly, P.ParseFlowMappingValue);
      if e.MappingEnd? {
        CloseFlow(Curly, first);
        FlowEnded(r, false, first, chunk);
        CollectionEnded(was, e);
        return true;
      }
      ok := EmitFlowKey(e, first, was);
    }

    method EmitFlowKey(e: Event, first: bool, ghost was: Before) returns (ok: bool)
      requires Inside([Curly], false) && Underway(was, e, Value(Sum(states).owed))
      requires chunk == if first then [] + Tokens(Opening(Curly)) else []
      requires AtChild(EmitFlowMappingSimpleValue, P.ParseFlowMappingValue, true) &&
               AtChild(EmitFlowMappingValue, P.ParseFlowMappingValue, true)
      requires reader.top == if first then P.ParseFlowMappingFirstKey else P.ParseFlowMappingKey
      requires Leveled(blocks, levels, indents, indent, flowLevel, reader.below + [P.ParseFlowMappingValue])
      modifies this
      ensures Advanced(was, ok, e) && unchanged(`events, `eventsHead)
    {
      hide Sum, Inside, Between, Analyzed, Acceptable, Step, StepNode, OnStack, Leveled, R.Step, R.Leads;
      hide Emitter.Linked, Emitter.AtChild, Emitter.ChunkRead, Emitter.NodeTaken, Emitter.Advanced, Means;
      FlowPairsMean(state, first);
      ghost var r, rest := reader, Sum(states).owed;
      SeparateItem(first);
      ghost var prefix := chunk + [R.Tok(T.KeyToken)];
      R.FlowKeyRead(r, first);
      assert prefix == [R.Tok(if first then T.FlowMappingStartToken else T.FlowEntryToken), R.Tok(T.KeyToken)];
      ok := EmitKey(EmitFlowMappingSimpleValue, EmitFlowMappingValue, e, !canonical, false, P.ParseFlowMappingValue);
      ChildTaken(was, Value(rest), prefix, R.Child(r, P.ParseFlowMappingValue), ok, e);
    }

    method EmitFlowMappingValueState(e: Event, simple: bool) returns (ok: bool)
      requires Between() && Ready(e)
      requires state == if simple then EmitFlowMappingSimpleValue else EmitFlowMappingValue
      modifies this
      ensures Advanced(old(Now()), ok, e) && unchanged(`events, `eventsHead)
    {
      hide Sum, Inside, Between, Analyzed, Acceptable, Step, StepNode, OnStack, Leveled, R.Step, R.Leads;
      hide Emitter.Linked, Emitter.AtChild, Emitter.ChunkRead, Emitter.NodeTaken, Emitter.Advanced, Means;
      FlowPairsMean(state, false);
      StepsWithin(Sum(states).owed, e);
      ghost var was, r, rest := Now(), reader, Sum(states).owed;
      GoesOn();
      InFlow(Curly);
      ReadsAlong(EmitFlowMappingKey, P.ParseFlowMappingKey, true);
      Reframed(blocks, levels, indents, indent, flowLevel, reader.below, reader.top, P.ParseFlowMappingKey);
      WriteFlowColon(simple);
      ghost var prefix := chunk;
      R.FlowValueRead(r);
      assert prefix == [R.Tok(T.ValueToken)];
      ok := EmitChild(EmitFlowMappingKey, e, true, false, P.ParseFlowMappingKey);
      ChildTaken(was, Pairs(rest), prefix, R.Child(r, P.ParseFlowMappingKey), ok, e);
    }

    method WriteFlowColon(simple: bool)
      modifies `column, `whitespace, `indention, `openEnded, `chunk
      ensures chunk == old(chunk) + Tokens(Colon)
    {
      if simple {
        WriteIndicator(Colon, false, false, false);
      } else {
        if canonical || column > bestWidth { WriteIndent(); }
        WriteIndicator(Colon, true, false, false);
      }
    }

    method WriteBlockColon(simple: bool)
      requires Inside([], true) &&
               Leveled(blocks, levels, indents, indent, flowLevel, reader.below + [P.ParseBlockMappingKey])
      modifies `column, `whitespace, `indention, `openEnded, `chunk, `blocks, `levels
      ensures Leveled(blocks, levels, indents, indent, flowLevel, reader.below + [P.ParseBlockMappingKey])
      ensures chunk == old(chunk) + Tokens(Colon)
    {
      hide Inside, Leveled;
      if simple {
        WriteIndicator(Colon, false, false, false);
      } else {
        WriteIndent();
        AtEntry(false, [], 0, false, P.ParseBlockMappingKey, T.BlockMappingStartToken);
        WriteIndicator(Colon, true, false, true);
      }
    }

    method EmitBlockSequenceItemState(e: Event, first: bool) returns (ok: bool)
      requires Between() && Ready(e)
      requires state == if first then EmitBlockSequenceFirstItem else EmitBlockSequenceItem
      modifies this
      ensures Advanced(old(Now()), ok, e) && unchanged(`events, `eventsHead)
    {
      hide Sum, Inside, Between, Analyzed, Acceptable, Step, StepNode, OnStack, Leveled, R.Step, R.Leads;
      hide Emitter.Linked, Emitter.AtChild, Emitter.ChunkRead, Emitter.NodeTaken, Emitter.Advanced, Means, InMapping;
      EntriesMean(state, first);
      StepsWithin(Sum(states).owed, e);
      ghost var was, r, rest := Now(), reader, Sum(states).owed;
      ghost var back := EntryBack(r);
      ReadsAlong(EmitBlockSequenceItem, back, false);
      ghost var wereIndents, wasIndent, indentless := indents, indent, mappingContext && !indention;
      EnterBlock(first, mappingContext && !indention);
      if e.SequenceEnd? {
        EndBlockSequence(e, was);
        return true;
      }
      ok := EmitBlockEntry(e, first, was, wereIndents, wasIndent, indentless);
    }

    method EndBlockSequence(e: Event, ghost was: Before)
      requires Inside([], true) && OnStack(states, reader) && reader.dirs == tagDirectives && chunk == [] &&
               e.SequenceEnd?
      requires Leveled(blocks, levels, indents, indent, flowLevel, reader.below + [reader.top])
      requires reader.top.ParseBlockSequenceEntry? ||
               (reader.top.ParseIndentlessSequenceEntry? && !reader.isNew && InMapping(reader.below))
      requires was.reader == reader && was.broken == broken && was.doomed == doomed &&
               was.directives == tagDirectives && WasInward(was)
      requires Step(was.owes, e) == Some(Sum(states).owed)
      modifies `indent, `indents, `state, `states, `reader, `chunk, `levels, `blocks
      ensures Advanced(was, true, e)
    {
      hide Sum, Inside, Between, OnStack, Leveled, R.Step, Emitter.Linked, Emitter.Advanced, Step, InMapping;
      ghost var r := reader;
      CloseBlock();
      EntriesEnd(r, chunk);
      CollectionEnded(was, e);
    }

    method EmitBlockEntry(e: Event, first: bool, ghost was: Before, ghost wereIndents: seq<int>, ghost wasIndent: int,
                          ghost indentless: bool)
      returns (ok: bool)
      requires Inside([], true) && OnStack(states, reader) && Underway(was, e, Items(Sum(states).owed)) && chunk == []
      requires AtChild(EmitBlockSequenceItem, EntryBack(reader), false)
      requires if first then reader.top.ParseBlockSequenceFirstEntry? || reader.top.ParseIndentlessSequenceEntry?
               else reader.top.ParseBlockSequenceEntry? || reader.top.ParseIndentlessSequenceEntry?
      requires first ==>
                 BlockIndent(wereIndents, wasIndent, indentless) &&
                 (indentless <==> reader.top.ParseIndentlessSequenceEntry?)
      requires first ==>
                 Leveled(blocks, levels, wereIndents, wasIndent, flowLevel, reader.below) &&
                 (indentless ==> InMapping(reader.below))
      requires !first ==> Leveled(blocks, levels, indents, indent, flowLevel, reader.below + [EntryBack(reader)])
      modifies this
      ensures Advanced(was, ok, e) && unchanged(`events, `eventsHead)
    {
      hide Sum, Inside, Between, Analyzed, Acceptable, Step, StepNode, OnStack, Leveled, R.Step, R.Leads, Styled;
      hide Emitter.Linked, Emitter.AtChild, Emitter.ChunkRead, Emitter.NodeTaken, Emitter.Advanced, Means;
      EntriesMean(EmitBlockSequenceItem, false);
      ghost var r, rest, back := reader, Sum(states).owed, EntryBack(reader);
      WriteIndent();
      InMappingDeep();
      AtEntry(first, wereIndents, wasIndent, indentless, back, T.BlockSequenceStartToken);
      WriteIndicator(Dash, true, false, true);
      ghost var prefix := chunk;
      EntryRead(r, first, prefix);
      ok := EmitChild(EmitBlockSequenceItem, e, false, false, back);
      ChildTaken(was, Items(rest), prefix, R.Child(r, back), ok, e);
    }

    method EmitBlockMappingKeyState(e: Event, first: bool) returns (ok: bool)
      requires Between() && Ready(e)
      requires state == if first then EmitBlockMappingFirstKey else EmitBlockMappingKey
      modifies this
      ensures Advanced(old(Now()), ok, e) && unchanged(`events, `eventsHead)
    {
      hide Sum, Inside, Between, Analyzed, Acceptable, Step, StepNode, OnStack, Leveled, R.Step, R.Leads, Styled;
      hide Emitter.Linked, Emitter.AtChild, Emitter.ChunkRead, Emitter.NodeTaken, Emitter.Advanced, Means;
      BlockPairsMean(state, first);
      StepsWithin(Sum(states).owed, e);
      ghost var was, r, rest := Now(), reader, Sum(states).owed;
      ReadsAlong(EmitBlockMappingSimpleValue, P.ParseBlockMappingValue, true);
      if !e.MappingEnd? { ReadsAlong(EmitBlockMappingValue, P.ParseBlockMappingValue, true); }
      ghost var wereIndents, wasIndent := indents, indent;
      EnterBlock(first, false);
      if e.MappingEnd? {
        CloseBlock();
        R.BlockCloses(r, false, false);
        assert chunk == [R.Tok(T.BlockEndToken)];
        CollectionEnded(was, e);
        return true;
      }
      ok := EmitBlockKey(e, first, was, wereIndents, wasIndent);
    }

    method EmitBlockKey(e: Event, first: bool, ghost was: Before, ghost wereIndents: seq<int>, ghost wasIndent: int)
      returns (ok: bool)
      requires Inside([], true) && Underway(was, e, Value(Sum(states).owed)) && chunk == []
      requires AtChild(EmitBlockMappingSimpleValue, P.ParseBlockMappingValue, true) &&
               AtChild(EmitBlockMappingValue, P.ParseBlockMappingValue, true)
      requires reader.top == if first then P.ParseBlockMappingFirstKey else P.ParseBlockMappingKey
      requires first ==>
                 BlockIndent(wereIndents, wasIndent, false) &&
                 Leveled(blocks, levels, wereIndents, wasIndent, flowLevel, reader.below)
      requires !first ==> Leveled(blocks, levels, indents, indent, flowLevel, reader.below + [reader.top])
      modifies this
      ensures Advanced(was, ok, e) && unchanged(`events, `eventsHead)
    {
      hide Sum, Inside, Between, Analyzed, Acceptable, Step, StepNode, OnStack, Leveled, R.Step, R.Leads;
      hide Emitter.Linked, Emitter.AtChild, Emitter.ChunkRead, Emitter.NodeTaken, Emitter.Advanced, Means;
      BlockPairsMean(state, first);
      ghost var r, rest := reader, Sum(states).owed;
      WriteIndent();
      if !first {
        Reframed(blocks, levels, indents, indent, flowLevel, reader.below, reader.top, P.ParseBlockMappingValue);
      }
      AtEntry(first, wereIndents, wasIndent, false, P.ParseBlockMappingValue, T.BlockMappingStartToken);
      ghost var prefix := chunk + [R.Tok(T.KeyToken)];
      R.BlockKeyRead(r, first);
      assert prefix == R.OptionalToken(first, R.Tok(T.BlockMappingStartToken)) + [R.Tok(T.KeyToken)];
      ok := EmitKey(EmitBlockMappingSimpleValue, EmitBlockMappingValue, e, true, true, P.ParseBlockMappingValue);
      ChildTaken(was, Value(rest), prefix, R.Child(r, P.ParseBlockMappingValue), ok, e);
    }

    method EmitBlockMappingValueState(e: Event, simple: bool) returns (ok: bool)
      requires Between() && Ready(e)
      requires state == if simple then EmitBlockMappingSimpleValue else EmitBlockMappingValue
      modifies this
      ensures Advanced(old(Now()), ok, e) && unchanged(`events, `eventsHead)
    {
      hide Sum, Inside, Between, Analyzed, Acceptable, Step, StepNode, OnStack, Leveled, R.Step, R.Leads, Styled;
      hide Emitter.Linked, Emitter.AtChild, Emitter.ChunkRead, Emitter.NodeTaken, Emitter.Advanced, Means;
      BlockPairsMean(state, false);
      StepsWithin(Sum(states).owed, e);
      ghost var was, r, rest := Now(), reader, Sum(states).owed;
      GoesOn();
      BlockHasNoBracket(state);
      ReadsAlong(EmitBlockMappingKey, P.ParseBlockMappingKey, true);
      Reframed(blocks, levels, indents, indent, flowLevel, reader.below, reader.top, P.ParseBlockMappingKey);
      WriteBlockColon(simple);
      ghost var prefix := chunk;
      R.BlockValueRead(r);
      assert prefix == [R.Tok(T.ValueToken)];
      ok := EmitChild(EmitBlockMappingKey, e, true, false, P.ParseBlockMappingKey);
      ChildTaken(was, Pairs(rest), prefix, R.Child(r, P.ParseBlockMappingKey), ok, e);
    }

    // ---- Nodes ----

    /** The first event of a node; the state on top of the stack goes on after the node. */
    method EmitNode(e: Event, mapping: bool, simpleKey: bool) returns (ok: bool)
      requires Awaiting() && Analyzed(e) && AtNode(mapping)
      modifies this
      ensures NodeTaken(old(Sum(states).owed), old(broken), ok, e) &&
              unchanged(`events, `eventsHead, `tagDirectives, `doomed)
      ensures ok ==> ChunkRead(old(chunk), old(reader), e)
    {
      hide Sum, Awaiting, Between, Waits, Means, Owe, ValidAnchor, ValidDirectives, Styled;
      hide Emitter.Linked, Emitter.AtNode, Emitter.ChunkRead, Split;
      mappingContext, simpleKeyContext := mapping, simpleKey;
      match e
      case Alias(_) =>
        EmitAlias(e);
        ok := true;
      case Scalar(_, _, _, _, _, _) => ok := EmitScalar(e);
      case SequenceStart(_, _, _, _) =>
        EmitSequenceStart(e);
        ok := true;
      case MappingStart(_, _, _, _) =>
        EmitMappingStart(e);
        ok := true;
      case _ => ok := Fail(ExpectedNode);
    }

    method EmitAlias(e: Event)
      requires Awaiting() && Analyzed(e) && e.Alias? && AtNode(mappingContext)
      modifies `column, `whitespace, `indention, `openEnded, `state, `states, `chunk, `reader
      ensures NodeTaken(old(Sum(states).owed), old(broken), true, e) && ChunkRead(old(chunk), old(reader), e)
    {
      hide Awaiting, Between, Sum, Waits, Means, Emitter.Linked, OnStack, R.Step, Split;
      ghost var r := reader;
      ProcessAnchor(true);
      R.AliasReads(r, anchor);
      PopState();
      assert chunk[|old(chunk)|..] == [R.Tok(T.AliasToken).(value := anchor)];
    }

    /** A collection is in flow style within another that is, where flow style is
        asked for, and when it is empty. */
    method EmitSequenceStart(e: Event)
      requires Awaiting() && Analyzed(e) && e.SequenceStart? && AtNode(mappingContext)
      modifies `column, `whitespace, `indention, `openEnded, `state, `chunk, `reader, `broken
      ensures Between() && Owes() == Items(Sum(states).owed)
      ensures |events| - eventsHead >= 2
      ensures state == if flowLevel > 0 || canonical || e.style.Flow? || events[eventsHead + 1].SequenceEnd?
                       then EmitFlowSequenceFirstItem else EmitBlockSequenceFirstItem
      ensures NodeTaken(Sum(states).owed, old(broken), true, e) && ChunkRead(old(chunk), old(reader), e)
    {
      hide Sum, Expecting, Between, Waits, Emitter.Linked, Emitter.AtNode, Emitter.ChunkRead, Emitter.TagsTold;
      hide Emitter.NodeTaken;
      hide Split, ValidAnchor, Unscannable, R.Properties, TagWritten, Tagged;
      ghost var was, before := broken, chunk;
      WriteProperties();
      var empty := CheckEmptySequence(e);
      state := if flowLevel > 0 || canonical || e.style.Flow? || empty
        then EmitFlowSequenceFirstItem else EmitBlockSequenceFirstItem;
      CollectionStarted(was, before, e, !state.EmitBlockSequenceFirstItem?);
    }

    method EmitMappingStart(e: Event)
      requires Awaiting() && Analyzed(e) && e.MappingStart? && AtNode(mappingContext)
      modifies `column, `whitespace, `indention, `openEnded, `state, `chunk, `reader, `broken
      ensures Between() && Owes() == Pairs(Sum(states).owed)
      ensures |events| - eventsHead >= 2
      ensures state == if flowLevel > 0 || canonical || e.style.Flow? || events[eventsHead + 1].MappingEnd?
                       then EmitFlowMappingFirstKey else EmitBlockMappingFirstKey
      ensures NodeTaken(Sum(states).owed, old(broken), true, e) && ChunkRead(old(chunk), old(reader), e)
    {
      hide Sum, Expecting, Between, Waits, Emitter.Linked, Emitter.AtNode, Emitter.ChunkRead, Emitter.TagsTold;
      hide Emitter.NodeTaken;
      hide Split, ValidAnchor, Unscannable, R.Properties, TagWritten, Tagged;
      ghost var was, before := broken, chunk;
      WriteProperties();
      var empty := CheckEmptyMapping(e);
      state := if flowLevel > 0 || canonical || e.style.Flow? || empty
        then EmitFlowMappingFirstKey else EmitBlockMappingFirstKey;
      CollectionStarted(was, before, e, !state.EmitBlockMappingFirstKey?);
    }

    /** Anchor and tag of a scalar or a collection. */
    method WriteProperties()
      modifies `column, `whitespace, `indention, `openEnded, `chunk, `broken
      ensures !BadTag() ==> chunk == old(chunk) + R.Properties(anchor, tagHandle, tagSuffix)
      ensures broken == (old(broken) || BadTag())
    {
      ProcessAnchor(false);
      ghost var before := chunk;
      ProcessTag();
      assert !BadTag() ==>
               chunk == before + R.OptionalToken(tagHandle != "" || tagSuffix != "", R.TagAs(tagHandle, tagSuffix));
    }

    lemma StartTaken(was: bool, e: Event, rest: Owed)
      requires Between() && Linked() && TagsTold(was, e) &&
               Owes() == (if e.SequenceStart? then Items(rest) else Pairs(rest))
      requires (e.SequenceStart? || e.MappingStart?) && AnchorIsValid(e) && ItemAhead(eventsHead + 1) && Inward()
      ensures NodeTaken(rest, was, true, e)
    {
      hide Between, Emitter.Linked, ValidAnchor, Emitter.TagsTold, Emitter.Owes, Emitter.ItemAhead;
    }

    ghost method CollectionStarted(was: bool, before: seq<T.Token>, e: Event, inFlow: bool)
      requires Awaiting() && Analyzed(e) && (e.SequenceStart? || e.MappingStart?) && AtNode(mappingContext)
      requires state == FirstState(e, inFlow) && (flowLevel > 0 || e.style.Flow? ==> inFlow) &&
               ItemAhead(eventsHead + 1)
      requires broken == (was || BadTag()) &&
               (!BadTag() ==> chunk == before + R.Properties(anchor, tagHandle, tagSuffix))
      modifies `reader
      ensures Between() && Owes() == if e.SequenceStart? then Items(Sum(states).owed) else Pairs(Sum(states).owed)
      ensures NodeTaken(Sum(states).owed, was, true, e) && ChunkRead(before, old(reader), e)
    {
      hide Sum, Awaiting, Between, Waits, Emitter.Linked, Emitter.AtNode, Emitter.ChunkRead, Emitter.TagsTold;
      hide Emitter.NodeTaken;
      hide Split, ValidAnchor, Emitter.ItemAhead, R.Properties, Unscannable;
      Begun();
      ReadStart(was, before, e, inFlow);
      StartTaken(was, e, Sum(states).owed);
    }

    /** The reader goes on to the collection that has begun. */
    ghost method ReadStart(was: bool, before: seq<T.Token>, e: Event, inFlow: bool)
      requires AtNode(mappingContext) && Between() && Analyzed(e) && (e.SequenceStart? || e.MappingStart?)
      requires state == FirstState(e, inFlow) && (flowLevel > 0 || e.style.Flow? ==> inFlow)
      requires broken == (was || BadTag()) &&
               (!BadTag() ==> chunk == before + R.Properties(anchor, tagHandle, tagSuffix))
      modifies `reader
      ensures Linked() && ChunkRead(before, old(reader), e) && TagsTold(was, e) && Inward()
    {
      hide Between, Waits, BeforeNode, Along, Split, R.Step, R.Properties;
      DirectivesNamed();
      StartedAlong(state, states, tagDirectives, mappingContext, indention, flowLevel > 0, openEnded, reader);
      if !broken {
        StartReads(canonical, state, states, tagDirectives, mappingContext, indention, flowLevel > 0, reader, e,
          scalarStyle, inFlow);
        assert chunk[|before|..] == R.Properties(AnchorOf(e), tagHandle, tagSuffix);
      }
      reader := Started(state, mappingContext && !indention, reader);
    }

    /** A collection begins at the level its stack is at. */
    lemma Begun()
      requires Awaiting() && Means(state).place.First? && (Means(state).block ==> flowLevel <= 0)
      ensures Between()
    {
      hide Pending, Nondecreasing, Sum, Indented;
    }

    method EmitScalar(e: Event) returns (ok: bool)
      requires Awaiting() && Analyzed(e) && e.Scalar? && AtNode(mappingContext)
      modifies this
      ensures ok == Acceptable(e) && unchanged(`events, `eventsHead, `tagDirectives, `doomed)
      ensures NodeTaken(old(Sum(states).owed), old(broken), ok, e)
      ensures !ok ==> problem == NeitherTagNorImplicit
      ensures ok ==> ChunkRead(old(chunk), old(reader), e)
    {
      hide Expecting, Between, Sum, Waits, Split, Named, Emitter.AtNode, Emitter.Linked, Emitter.ChunkRead, TagWritten;
      WaitingNamed();
      ok := SelectScalarStyle(e);
      assert ok ==> Styled(canonical, e, scalarStyle);
      if ok { WriteChosen(e); }
    }

    lemma WaitingNamed()
      requires Awaiting()
      ensures Named(tagDirectives)
    {
      hide Sum, Pending, Indented, Named;
    }

    /** Writes a scalar in the style chosen, and goes on. */
    method WriteChosen(e: Event)
      requires Awaiting() && AtNode(mappingContext) && e.Scalar? && anchor == e.anchor && Acceptable(e)
      requires !Tagged(canonical, e) && scalarStyle.Plain? ==> e.implicit
      requires scalarStyle.Plain? && e.value == "" ==> flowLevel <= 0
      requires (tagHandle, tagSuffix) == TagWritten(canonical, tagDirectives, e, scalarStyle)
      requires Styled(canonical, e, scalarStyle)
      modifies `column, `whitespace, `indention, `openEnded, `chunk, `broken, `indent, `indents, `state, `states,
                 `reader
      ensures NodeTaken(old(Sum(states).owed), old(broken), true, e) && ChunkRead(old(chunk), old(reader), e)
    {
      hide Pending, Nondecreasing, Sum, Indented, Between, Named, Split, TagWritten, Unscannable, Tagged, AnchorIsValid;
      hide Bare, Heard, ScalarTokens, Styled;
      hide Emitter.Linked, Emitter.AtNode, OnStack, Leveled, R.Step, R.Properties, R.Skipped, Emitter.NodeTaken;
      hide Emitter.Owes, Means;
      ghost var before := chunk;
      NodeOnStack(mappingContext);
      ghost var was, rest := broken, Sum(states).owed;
      WriteProperties();
      WriteScalar(e.value);
      ScalarRead(before, e);
      PopState();
      ScalarTaken(was, e, rest);
    }

    lemma ScalarTaken(was: bool, e: Event, rest: Owed)
      requires Between() && Linked() && TagsTold(was, e) && Owes() == rest
      requires e.Scalar? && Acceptable(e) && ItemAhead(eventsHead + 1) && Inward()
      ensures NodeTaken(rest, was, true, e)
    {
      hide Between, Emitter.Linked, Emitter.TagsTold, Emitter.Owes, Emitter.ItemAhead, Acceptable;
    }

    lemma NodeOnStack(mapping: bool)
      requires AtNode(mapping)
      ensures R.AtNode(reader) && OnStack(states, reader) && reader.dirs == tagDirectives
      ensures reader.top.ParseFlowNode? <==> flowLevel > 0
      ensures Leveled(blocks, levels, indents, indent, flowLevel, reader.below)
    {
      hide Leveled, OnStack;
    }

    /** The scalar just written is read back. */
    lemma ScalarRead(before: seq<T.Token>, e: Event)
      requires AtNode(mappingContext) && Named(tagDirectives) && e.Scalar? && anchor == e.anchor
      requires e.tag != "" || e.implicit || e.quotedImplicit
      requires !Tagged(canonical, e) && scalarStyle.Plain? ==> e.implicit
      requires scalarStyle.Plain? && e.value == "" ==> flowLevel <= 0
      requires (tagHandle, tagSuffix) == TagWritten(canonical, tagDirectives, e, scalarStyle)
      requires !broken ==> !BadTag()
      requires !BadTag() ==>
                 chunk == before + R.Properties(anchor, tagHandle, tagSuffix) + ScalarTokens(e.value, Looks())
      ensures Bare(canonical, e, scalarStyle) ==> chunk == before && R.Skipped(reader, [], e, R.Popped(reader))
      ensures !broken && !Bare(canonical, e, scalarStyle) ==>
                before <= chunk && R.Step(reader, chunk[|before|..], Heard(e, Looks()), R.Popped(reader))
    {
      hide Split, Named, R.Step, R.Properties, OnStack, Leveled, ScalarTokens, Heard;
      NodeOnStack(mappingContext);
      if Bare(canonical, e, scalarStyle) {
        BareRead(canonical, tagDirectives, e, Looks());
        assert before + [] + [] == before;
      } else if !broken {
        ScalarHeard(canonical, tagDirectives, reader, e, Looks());
        var more := R.Properties(anchor, tagHandle, tagSuffix) + ScalarTokens(e.value, Looks());
        assert chunk == before + more && chunk[|before|..] == more;
      }
    }

    /** The text one indent further in; the indent is then what it was. */
    method WriteScalar(value: string)
      requires Indented()
      modifies `column, `whitespace, `indention, `openEnded, `indent, `indents, `chunk
      ensures chunk == old(chunk) + ScalarTokens(value, Looks())
      ensures indent == old(indent) && indents == old(indents) && Indented()
    {
      hide Nondecreasing, Indented, ScalarTokens;
      IncreaseIndent(true, false);
      ProcessScalar(value);
      DecreaseIndent();
      assert (indents + [indent])[..|indents|] == indents && (indents + [indent])[|indents|] == indent;
      assert (old(indents) + [old(indent)])[..|old(indents)|] == old(indents);
    }

    method ProcessAnchor(alias: bool)
      modifies `column, `whitespace, `indention, `openEnded, `chunk
      ensures chunk == old(chunk) + if anchor == "" then []
                else [R.Tok(if alias then T.AliasToken else T.AnchorToken).(value := anchor)]
    {
      if anchor == "" { return; }
      WriteName(if alias then Asterisk else Ampersand, anchor);
    }

    method WriteName(indicator: Indicator, name: string)
      requires indicator.Asterisk? || indicator.Ampersand?
      modifies `column, `whitespace, `indention, `openEnded, `chunk
      ensures chunk == old(chunk) + [R.Tok(if indicator.Asterisk? then T.AliasToken else T.AnchorToken).(value := name)]
    {
      WriteIndicator(indicator, true, false, false);
      WriteText(name);
      chunk := chunk + [R.Tok(if indicator.Asterisk? then T.AliasToken else T.AnchorToken).(value := name)];
    }

    method ProcessTag()
      modifies `column, `whitespace, `indention, `openEnded, `chunk, `broken
      ensures chunk == old(chunk) + R.OptionalToken(tagSuffix != "", R.TagAs(tagHandle, tagSuffix))
      ensures broken == (old(broken) || Unscannable((tagHandle, tagSuffix)))
    {
      if |tagHandle| == 0 && |tagSuffix| == 0 { return; }
      if |tagHandle| > 0 {
        WriteText(tagHandle);
        if |tagSuffix| > 0 { WriteText(tagSuffix); }
      } else {
        WriteIndicator(OpenVerbatim, true, false, false);
        WriteText(tagSuffix);
        WriteIndicator(CloseVerbatim, false, false, false);
      }
      if tagSuffix != "" { chunk := chunk + [R.TagAs(tagHandle, tagSuffix)]; } else { broken := true; }
    }

    /** The text of a scalar; continuation lines have an indent of two at least. A plain
        scalar that is empty has none, and a folded one may come out as another. */
    method ProcessScalar(value: string)
      requires indent >= 2
      modifies `column, `whitespace, `indention, `openEnded, `chunk
      ensures chunk == old(chunk) + ScalarTokens(value, Layout(scalarStyle, indent, bestWidth))
    {
      hide F.RefoldedText;
      WriteText(value);
      chunk := chunk + ScalarTokens(value, Layout(scalarStyle, indent, bestWidth));
    }

    /** Whether the collection that begins is empty: the event after its start has been seen. */
    method CheckEmptySequence(e: Event) returns (empty: bool)
      requires Analyzed(e) && e.SequenceStart?
      ensures |events| - eventsHead >= 2 && empty == events[eventsHead + 1].SequenceEnd?
    {
      if |events| - eventsHead < 2 {
        assert events[eventsHead..] == [e];
        LoneStartWaits(e);
        return false;
      }
      return events[eventsHead].SequenceStart? && events[eventsHead + 1].SequenceEnd?;
    }

    method CheckEmptyMapping(e: Event) returns (empty: bool)
      requires Analyzed(e) && e.MappingStart?
      ensures |events| - eventsHead >= 2 && empty == events[eventsHead + 1].MappingEnd?
    {
      if |events| - eventsHead < 2 {
        assert events[eventsHead..] == [e];
        LoneStartWaits(e);
        return false;
      }
      return events[eventsHead].MappingStart? && events[eventsHead + 1].MappingEnd?;
    }

    /** Only a scalar on one line, an alias or an empty collection is a simple key. */
    method CheckSimpleKey(e: Event) returns (simple: bool)
      requires Analyzed(e)
      ensures simple <==>
              && (e.Alias? || (e.Scalar? && !scalarData.multiline) ||
                  (|events| - eventsHead >= 2 &&
                   ((e.SequenceStart? && events[eventsHead + 1].SequenceEnd?) ||
                    (e.MappingStart? && events[eventsHead + 1].MappingEnd?))))
              && |anchor| + (if e.Alias? then 0 else |tagHandle| + |tagSuffix|) +
                   (if e.Scalar? then |e.value| else 0) <= 128
    {
      var length := 0;
      match e {
        case Alias(_) => length := |anchor|;
        case Scalar(_, _, value, _, _, _) =>
          if scalarData.multiline { return false; }
          length := |anchor| + |tagHandle| + |tagSuffix| + |value|;
        case SequenceStart(_, _, _, _) =>
          var empty := CheckEmptySequence(e);
          if !empty { return false; }
          length := |anchor| + |tagHandle| + |tagSuffix|;
        case MappingStart(_, _, _, _) =>
          var empty := CheckEmptyMapping(e);
          if !empty { return false; }
          length := |anchor| + |tagHandle| + |tagSuffix|;
        case _ => return false;
      }
      return length <= 128;
    }

    /** The style a scalar would have if it could have any. */
    ghost function Asked(e: Event): Style
      requires e.Scalar?
      reads `simpleKeyContext, `scalarData
    {
      if canonical || (simpleKeyContext && scalarData.multiline) then DoubleQuoted
      else if e.style.Block? || e.style.Flow? then Plain else e.style
    }

    ghost predicate PlainFits(e: Event)
      requires e.Scalar?
      reads `flowLevel, `scalarData, `simpleKeyContext
    {
      && (if flowLevel > 0 then scalarData.flowPlainAllowed else flowLevel == 0 ==> scalarData.blockPlainAllowed)
      && (e.value == "" ==> flowLevel <= 0 && !simpleKeyContext) && (Tagged(canonical, e) || e.implicit)
    }

    /** The style is one that the place and the text allow: plain and block styles
        only where they may stand, and never a block style in a flow collection or
        a simple key. */
    method SelectScalarStyle(e: Event) returns (ok: bool)
      requires Analyzed(e) && e.Scalar? && Named(tagDirectives)
      modifies `problem, `tagHandle, `scalarStyle
      ensures ok == Acceptable(e)
      ensures if ok then problem == old(problem) else problem == NeitherTagNorImplicit
      ensures ok ==> (tagHandle, tagSuffix) == TagWritten(canonical, tagDirectives, e, scalarStyle)
      ensures ok ==> e.tag != "" || e.implicit || e.quotedImplicit
      ensures ok && !Tagged(canonical, e) && scalarStyle.Plain? ==> e.implicit
      ensures ok ==> (scalarStyle.Plain? <==> Asked(e).Plain? && PlainFits(e))
      ensures ok ==> (scalarStyle.SingleQuoted? <==>
                scalarData.singleQuotedAllowed && (Asked(e).SingleQuoted? || (Asked(e).Plain? && !PlainFits(e))))
      ensures ok && (scalarStyle.Literal? || scalarStyle.Folded?) ==> scalarStyle == Asked(e)
      ensures ok && (Asked(e).Literal? || Asked(e).Folded?) ==>
                (scalarStyle == Asked(e) <==> scalarData.blockAllowed && flowLevel <= 0 && !simpleKeyContext)
      ensures ok ==> !scalarStyle.Block? && !scalarStyle.Flow?
    {
      hide Waits, Split, Named;
      if Tagged(canonical, e) { SplitReads(tagDirectives, e.tag); }
      var noTag := |tagHandle| == 0 && |tagSuffix| == 0;
      if noTag && !e.implicit && !e.quotedImplicit { ok := Fail(NeitherTagNorImplicit); return; }
      var style := e.style;
      if style.Block? || style.Flow? { style := Plain; }
      if canonical { style := DoubleQuoted; }
      if simpleKeyContext && scalarData.multiline { style := DoubleQuoted; }
      if style.Plain? {
        if (flowLevel > 0 && !scalarData.flowPlainAllowed) || (flowLevel == 0 && !scalarData.blockPlainAllowed) {
          style := SingleQuoted;
        }
        if |e.value| == 0 && (flowLevel > 0 || simpleKeyContext) { style := SingleQuoted; }
        if noTag && !e.implicit { style := SingleQuoted; }
      }
      if style.SingleQuoted? && !scalarData.singleQuotedAllowed { style := DoubleQuoted; }
      if style.Literal? || style.Folded? {
        if !scalarData.blockAllowed || flowLevel > 0 || simpleKeyContext { style := DoubleQuoted; }
      }
      if noTag && !e.quotedImplicit && !style.Plain? { tagHandle := "!"; }
      scalarStyle := style;
      return true;
    }
  }

  // ---- Whole runs ----

  /** Around every document the stacks, the level and the indent are as they began,
      and every bracket written is closed. */
  lemma AtRest(em: Emitter)
    requires em.Valid() && (em.Owes().Documents? || em.Owes().EndOfDocument?)
    ensures em.states == [] && em.indents == [] && em.flowLevel == 0 && em.indent == -1
    ensures Pending(em.marks) == Some([])
  {
    hide Pending, Run, Nondecreasing, R.ReadsBack, Emitter.Linked, Named, Acceptable, Told, Emitter.SoFar;
    hide Emitter.ItemAhead;
    NoStates();
    assert Sum(em.states).flow + [] == [];
  }

  /** Whether all that is written comes back. */
  ghost predicate ComesBack(canonical: bool, events: seq<Event>, layouts: seq<Layout>)
    requires |events| == |layouts|
  {
    && !SomeCannotScan(canonical, events, layouts) && !RootMissed(canonical, events, layouts)
    && forall i :: 0 <= i < |events| ==> Keeps(events[i], layouts[i])
  }

  /** Whatever the layouts, the event comes back: no directive is one for a lone
      exclamation mark, the tag can be scanned even if a scalar is quoted, and a folded
      text is one that comes back at any indent and width. */
  ghost predicate SureEvent(canonical: bool, directives: seq<(string, string)>, e: Event) {
    && !CutsOff(canonical, directives, e, DoubleQuoted)
    && (e.Scalar? && e.style.Folded? && !canonical ==> forall n, width :: F.KeptText(e.value, n, width))
  }

  /** Something is written for the first document. */
  predicate SureRoot(canonical: bool, events: seq<Event>) {
    |events| >= 3 && StartsUnmarked(canonical, events[1]) ==>
      !(Bare(canonical, events[2], Plain) && Styled(canonical, events[2], Plain))
  }

  ghost predicate Sure(canonical: bool, events: seq<Event>) {
    SureRoot(canonical, events) &&
    forall i :: 0 <= i < |events| ==>
      SureEvent(canonical, InForceAfter(InForceBehind(events[..i]), events[i]), events[i])
  }

  /** That all comes back whatever the texts allow and wherever they stand depends on the
      events alone. */
  lemma WhateverTheLayouts(canonical: bool, events: seq<Event>)
    ensures Sure(canonical, events) <==>
            forall layouts :: |layouts| == |events| && AllStyled(canonical, events, layouts) ==>
              ComesBack(canonical, events, layouts)
  {
    hide InForceAfter, InForceBehind, ComesBack, SureEvent, F.KeptText;
    if Sure(canonical, events) {
      forall layouts | |layouts| == |events| && AllStyled(canonical, events, layouts)
        ensures ComesBack(canonical, events, layouts)
      {
        SureComesBack(canonical, events, layouts);
      }
    } else {
      var layouts := Doubtful(canonical, events);
      assert !ComesBack(canonical, events, layouts);
    }
  }

  lemma SureComesBack(canonical: bool, events: seq<Event>, layouts: seq<Layout>)
    requires Sure(canonical, events) && |layouts| == |events| && AllStyled(canonical, events, layouts)
    ensures ComesBack(canonical, events, layouts)
  {
    hide InForceAfter, InForceBehind, F.KeptText, StartsUnmarked, Split, Tagged, MarksAlone;
    forall i | 0 <= i < |events|
      ensures !CannotScan(canonical, events, layouts, i) && Keeps(events[i], layouts[i])
    {
      assert SureEvent(canonical, InForceAfter(InForceBehind(events[..i]), events[i]), events[i]);
      assert Styled(canonical, events[i], layouts[i].style);
    }
    if |events| >= 3 { assert Styled(canonical, events[2], layouts[2].style); }
  }

  /** Layouts with which something does not come back. */
  lemma Doubtful(canonical: bool, events: seq<Event>) returns (layouts: seq<Layout>)
    requires !Sure(canonical, events)
    ensures |layouts| == |events| && AllStyled(canonical, events, layouts) && !ComesBack(canonical, events, layouts)
  {
    hide InForceAfter, InForceBehind, F.KeptText, StartsUnmarked, Split, Tagged, MarksAlone;
    layouts := seq(|events|, _ => Layout(DoubleQuoted, 0, 0));
    if !SureRoot(canonical, events) {
      layouts := layouts[2 := Layout(Plain, 0, 0)];
      assert RootMissed(canonical, events, layouts);
    } else {
      var i :| 0 <= i < |events| &&
        !SureEvent(canonical, InForceAfter(InForceBehind(events[..i]), events[i]), events[i]);
      if CutsOff(canonical, InForceAfter(InForceBehind(events[..i]), events[i]), events[i], DoubleQuoted) {
        assert CannotScan(canonical, events, layouts, i);
      } else {
        var n, width :| !F.KeptText(events[i].value, n, width);
        layouts := layouts[i := Layout(Folded, n, width)];
        assert !Keeps(events[i], layouts[i]);
      }
    }
  }

  /** Event by event, every well-formed stream of acceptable events is emitted to its end.
      From what was written the parser reads the same events back if and only if the
      scanner gets past all tags and directives, something was written for the first
      document, and every folded text is one that comes back. */
  method EmitStream(em: Emitter, evs: seq<Event>)
    requires em.Valid() && em.events == []
    requires Sentence(evs) && forall i :: 0 <= i < |evs| ==> Acceptable(evs[i])
    modifies em
    ensures em.Valid() && em.events == evs && em.eventsHead == |evs| && em.state.EmitEnd? && |em.layouts| == |evs|
    ensures AllStyled(em.canonical, evs, em.layouts)
    ensures Sure(em.canonical, evs) ==> forall ts :: em.Delivers(ts) ==> R.ReadAs(ts, evs)
    ensures forall ts :: em.Delivers(ts) ==> (R.ReadAs(ts, evs) <==> ComesBack(em.canonical, evs, em.layouts))
    ensures SomeCannotScan(em.canonical, evs, em.layouts) ==>
              forall ts :: em.Delivers(ts) ==> !D.Stream(ts).error.NoError?
    ensures !SomeCannotScan(em.canonical, evs, em.layouts) && !RootMissed(em.canonical, evs, em.layouts) ==>
              forall ts :: em.Delivers(ts) ==> R.ReadAs(ts, HeardAll(evs, em.layouts))
  {
    hide Acceptable, Run, Emitter.Between, Emitter.Linked, Told, Waits, Structural, SomeCannotScan, Emitter.Delivers;
    hide R.ReadAs, ComesBack, RootMissed;
    hide Sure, AllStyled;
    AcceptsSentence(evs);
    for k := 0 to |evs|
      invariant em.Valid() && em.events == evs[..k]
      invariant k == |evs| > 0 ==> em.eventsHead == |evs| && em.state.EmitEnd?
    {
      assert evs[..k] + [evs[k]] == evs[..k + 1];
      assert evs == evs[..k + 1] + evs[k + 1..];
      RunAppend(Stream, evs[..k + 1], evs[k + 1..]);
      assert evs[..|evs|] == evs;
      var ok := em.Emit(evs[k]);
      assert ok;
    }
    assert evs[..|evs|] == evs;
    NotEmpty(evs);
    assert em.events[..em.eventsHead] == evs;
    ReadAtEnd(em, evs);
    if Sure(em.canonical, evs) { SureComesBack(em.canonical, evs, em.layouts); }
  }

  lemma ReadAtEnd(em: Emitter, evs: seq<Event>)
    requires em.Valid() && em.state.EmitEnd? && em.events[..em.eventsHead] == evs
    ensures |em.layouts| == |evs| && AllStyled(em.canonical, evs, em.layouts)
    ensures forall ts :: em.Delivers(ts) ==> (R.ReadAs(ts, evs) <==> ComesBack(em.canonical, evs, em.layouts))
    ensures SomeCannotScan(em.canonical, evs, em.layouts) ==>
              forall ts :: em.Delivers(ts) ==> !D.Stream(ts).error.NoError?
    ensures !SomeCannotScan(em.canonical, evs, em.layouts) && !RootMissed(em.canonical, evs, em.layouts) ==>
              forall ts :: em.Delivers(ts) ==> R.ReadAs(ts, HeardAll(evs, em.layouts))
  {
    hide Acceptable, Run, Emitter.Between, Waits, SomeCannotScan, R.ReadAs, R.ReadsBack, D.Stream, RootMissed, Keeps;
    em.GoesOutdoors();
    forall ts | em.Delivers(ts)
      ensures R.ReadAs(ts, evs) <==> ComesBack(em.canonical, evs, em.layouts)
      ensures SomeCannotScan(em.canonical, evs, em.layouts) ==> !D.Stream(ts).error.NoError?
      ensures !SomeCannotScan(em.canonical, evs, em.layouts) && !RootMissed(em.canonical, evs, em.layouts) ==>
                R.ReadAs(ts, HeardAll(evs, em.layouts))
    {
      if em.broken {
        R.CutOff(em.written, |ts|);
        assert em.written[..|ts|] == ts;
        NotRead(ts, evs);
      } else if em.doomed {
        R.EndUnopened(ts[2..]);
        assert ts[..2] + ts[2..] == ts && ts[..2] == [R.Tok(T.StreamStartToken), R.Tok(T.DocumentEndToken)];
        NotRead(ts, evs);
      } else {
        R.ReadToTheEnd(ts, em.heard, em.tagDirectives);
        HeardOrNot(em.canonical, ts, evs, em.layouts, em.heard);
      }
    }
  }

  lemma NotRead(ts: seq<T.Token>, evs: seq<Event>)
    requires !D.Stream(ts).error.NoError?
    ensures !R.ReadAs(ts, evs)
  {
    hide D.Stream, R.Agrees;
  }

  lemma HeardOrNot(canonical: bool, ts: seq<T.Token>, evs: seq<Event>, layouts: seq<Layout>, heard: seq<Event>)
    requires |layouts| == |evs| && !SomeCannotScan(canonical, evs, layouts) && R.ReadAs(ts, heard)
    requires if RootMissed(canonical, evs, layouts) then |heard| < |evs| else heard == HeardAll(evs, layouts)
    ensures R.ReadAs(ts, evs) <==> ComesBack(canonical, evs, layouts)
  {
    hide D.Stream, RootMissed, Keeps, R.Agrees, SomeCannotScan, Heard;
    if !RootMissed(canonical, evs, layouts) {
      forall i | 0 <= i < |evs| ensures Heard(evs[i], layouts[i]) == evs[i] <==> Keeps(evs[i], layouts[i]) {
        KeptIsHeard(evs[i], layouts[i]);
      }
      if forall i :: 0 <= i < |evs| ==> Keeps(evs[i], layouts[i]) {
        assert heard == evs;
      } else {
        var i :| 0 <= i < |evs| && !Keeps(evs[i], layouts[i]);
        assert R.Agrees(heard[i], D.Stream(ts).events[i]);
        OtherAgrees(evs[i], layouts[i], D.Stream(ts).events[i]);
      }
    }
  }

  lemma OtherAgrees(e: Event, l: Layout, f: Event)
    requires R.Agrees(Heard(e, l), f) && Heard(e, l) != e
    ensures !R.Agrees(e, f)
  {
    hide F.RefoldedText;
  }

  /** When a tag cannot be scanned: it is all of the first directive prefix that fits, or
      a scalar without a written tag is not plain and may not be quoted without a tag. */
  lemma WhenUnscannable(canonical: bool, directives: seq<(string, string)>, e: Event, style: Style)
    requires Named(directives)
    ensures Unscannable(TagWritten(canonical, directives, e, style)) <==>
            if Tagged(canonical, e) then exists k: nat ::
              FirstPrefix(directives, k, TagOf(e)) && directives[k].1 == TagOf(e)
            else e.Scalar? && !style.Plain? && !e.quotedImplicit
  {
    hide Named, Split;
    if Tagged(canonical, e) { NothingLeft(directives, TagOf(e)); }
  }

  /** A folded text in which a break is doubled for nothing: the emitter takes it, and
      another is heard. */
  lemma FoldedOtherwise(n: nat, width: int)
    ensures var e, l := Scalar("", "", "a\n b", true, true, Folded), Layout(Folded, n, width);
            Acceptable(e) && !Keeps(e, l) && Heard(e, l) == e.(value := "a\n\n b")
  {
    F.SpaceBehindBreak(n, width);
  }

  /** A first document of which nothing is written. If its end is marked, the parser ends
      in an error. */
  lemma RootUnnoticed(n: nat, width: int)
    ensures var evs :=
              [StreamStart, DocumentStart(false, [], true), Scalar("", "", "", true, true, Plain), DocumentEnd(true),
              StreamEnd];
            && Sentence(evs) && (forall i :: 0 <= i < |evs| ==> Acceptable(evs[i]))
            && RootMissed(false, evs, seq(|evs|, _ => Layout(Plain, n, width)))
    ensures forall more :: !D.Stream(BEGUN + [R.Tok(T.DocumentEndToken)] + more).error.NoError?
  {
    hide D.Stream, Sentence;
    var scalar := Scalar("", "", "", true, true, Plain);
    OneScalar(DocumentStart(false, [], true), scalar, DocumentEnd(true));
    forall more ensures !D.Stream(BEGUN + [R.Tok(T.DocumentEndToken)] + more).error.NoError? {
      R.EndUnopened(more);
      assert BEGUN + [R.Tok(T.DocumentEndToken)] == [R.Tok(T.StreamStartToken), R.Tok(T.DocumentEndToken)];
    }
  }

  lemma {:induction false} OneScalar(start: Event, scalar: Event, end: Event)
    requires start.DocumentStart? && scalar.Scalar? && end.DocumentEnd?
    ensures Sentence([StreamStart, start, scalar, end, StreamEnd])
  {
    var d := Document(start, Leaf(scalar), end);
    assert [d][1..] == [] && LinearDocuments([]) == [];
    assert LinearDocument(d) == [start, scalar, end] && LinearDocuments([d]) == [start, scalar, end];
    assert LinearStream([d]) == [StreamStart, start, scalar, end, StreamEnd];
  }

  /** A directive for a lone exclamation mark: the emitter takes it, and the scanner stops. */
  lemma LoneMarkStops(version: bool, prefix: string, implicit: bool, dirs: seq<(string, string)>, style: Style)
    requires prefix != ""
    ensures var e := DocumentStart(version, [("!", prefix)], implicit); Acceptable(e) && CutsOff(false, dirs, e, style)
  {
    var own := [("!", prefix)];
    assert own[0] == ("!", prefix) && own[..0] == [];
    assert MarksAlone(own);
  }

  /** A scalar in double quotes that may only be plain without a tag, and a tag that is the
      default prefix: neither is read back. */
  lemma NotScanned(canonical: bool, style: Style)
    ensures Unscannable(TagWritten(canonical, InForce([]), Scalar("", "", "v", true, false, DoubleQuoted),
              DoubleQuoted))
    ensures Unscannable(TagWritten(canonical, InForce([]), Scalar("", "tag:yaml.org,2002:", "v", false, false, style),
              style))
  {
    var e := Scalar("", "tag:yaml.org,2002:", "v", false, false, style);
    assert InForce([]) == [("!", "!"), ("!!", "tag:yaml.org,2002:")];
    assert InForce([])[0].1 == "!" && TagOf(e)[0] == 't';
    assert InForce([])[1..] == [("!!", "tag:yaml.org,2002:")];
  }

  lemma {:induction false} NotEmpty(evs: seq<Event>)
    requires Run(Stream, evs) == Some(Nothing)
    ensures evs != []
  {
  }

  // ---- Proof steps ----

  /** Within a collection an event that does not end it is the first of a node. */
  lemma StepsWithin(rest: Owed, e: Event)
    ensures Step(Items(rest), e) == if e.SequenceEnd? then Some(rest) else StepNode(Items(rest), e)
    ensures Step(Pairs(rest), e) == if e.MappingEnd? then Some(rest) else StepNode(Value(rest), e)
    ensures Step(Value(rest), e) == StepNode(Pairs(rest), e)
    ensures e.SequenceEnd? || e.MappingEnd? ==> Acceptable(e)
  {
  }

  lemma MarkAloneNext(directives: seq<(string, string)>, i: nat)
    requires i < |directives|
    ensures MarksAlone(directives[..i + 1]) <==> MarksAlone(directives[..i]) || directives[i].0 == "!"
  {
    var ds, es := directives[..i + 1], directives[..i];
    assert ds[i] == directives[i] && forall k :: 0 <= k < i ==> ds[k] == es[k];
  }

  lemma BetweenMean()
    ensures Means(EmitFirstDocumentStart) == Means(EmitDocumentStart) == Meaning(More, 0, [], Outside, false)
    ensures Means(EmitDocumentContent).place.Outside? && Means(EmitEnd).place.Outside?
  {
  }

  lemma BlockPairsMean(s: State, first: bool)
    ensures Means(EmitBlockMappingSimpleValue) == Means(EmitBlockMappingValue) == Meaning(Values, 1, [], Return, true)
    ensures Means(EmitBlockMappingKey) == Meaning(Keys, 1, [], Return, true)
    ensures s == (if first then EmitBlockMappingFirstKey else EmitBlockMappingKey) ==>
              Means(s) == Meaning(Keys, if first then 0 else 1, [], if first then First else Return, true)
  {
  }

  lemma FlowPairsMean(s: State, first: bool)
    ensures Means(EmitFlowMappingSimpleValue) == Means(EmitFlowMappingValue) ==
            Meaning(Values, 1, [Curly], Return, false)
    ensures Means(EmitFlowMappingKey) == Meaning(Keys, 1, [Curly], Return, false)
    ensures s == (if first then EmitFlowMappingFirstKey else EmitFlowMappingKey) ==>
              Means(s) == if first then Meaning(Keys, 0, [], First, false) else Meaning(Keys, 1, [Curly], Return, false)
  {
  }

  lemma FlowEntriesMean(s: State, first: bool)
    ensures Means(EmitFlowSequenceItem) == Meaning(Entries, 1, [Square], Return, false)
    ensures s == (if first then EmitFlowSequenceFirstItem else EmitFlowSequenceItem) ==>
              Means(s) == if first then Meaning(Entries, 0, [], First, false)
                else Meaning(Entries, 1, [Square], Return, false)
  {
  }

  lemma EntriesMean(s: State, first: bool)
    requires s == if first then EmitBlockSequenceFirstItem else EmitBlockSequenceItem
    ensures Means(s) == Meaning(Entries, if first then 0 else 1, [], if first then First else Return, true)
    ensures Means(EmitBlockSequenceItem) == Meaning(Entries, 1, [], Return, true)
  {
  }

  lemma BlockHasNoBracket(s: State)
    requires Means(s).block
    ensures Means(s).flow == []
  {
  }

  lemma {:induction false} MarkAdded(marks: seq<Mark>, m: Mark)
    ensures Pending(marks + [m]) ==
            match Pending(marks)
            case None => None
            case Some(s) =>
              match m
              case Opens(b) => Some(s + [b])
              case Closes(b) => if s != [] && s[|s| - 1] == b then Some(s[..|s| - 1]) else None
  {
    assert (marks + [m])[..|marks|] == marks;
  }

  lemma BadAnchorIsUnacceptable(e: Event)
    requires !AnchorIsValid(e)
    ensures !Acceptable(e)
  {
    hide ValidAnchor;
  }

  lemma LastIsAtLeast(s: seq<int>)
    requires Nondecreasing(s) && s != []
    ensures s[0] <= s[|s| - 1]
  {
  }

  lemma Grows(s: seq<int>, x: int)
    requires Nondecreasing(s) && s != [] && s[|s| - 1] <= x
    ensures Nondecreasing(s + [x])
  {
  }

  lemma Shrinks(s: seq<int>, x: int)
    requires Nondecreasing(s + [x]) && s != []
    ensures Nondecreasing(s[..|s| - 1] + [s[|s| - 1]]) && (s[..|s| - 1] + [s[|s| - 1]])[0] == (s + [x])[0]
  {
    assert s[..|s| - 1] + [s[|s| - 1]] == s && forall i :: 0 <= i < |s| ==> (s + [x])[i] == s[i];
  }

  lemma ValidIsNamed(directives: seq<(string, string)>)
    requires ValidDirectives(directives)
    ensures Named(directives)
  {
    hide Declares;
  }

  lemma PrefixDirectives(directives: seq<(string, string)>, i: nat)
    requires i < |directives| && ValidDirectives(directives[..i])
    ensures ValidDirectives(directives[..i + 1]) <==>
            ValidHandle(directives[i].0) && directives[i].1 != "" && !Declares(directives[..i], directives[i].0)
    ensures !ValidDirectives(directives[..i + 1]) ==> !ValidDirectives(directives)
  {
    hide ValidHandle, Declares;
    var d := directives[..i + 1];
    assert forall j :: 0 <= j <= i ==> d[j] == directives[j] && d[..j] == directives[..j];
    assert forall j :: 0 <= j < i ==> directives[..i][j] == directives[j] && directives[..i][..j] == directives[..j];
  }

  lemma WaitsForNone(queue: seq<Event>)
    requires !Waits(queue)
    ensures queue != []
  {
  }

  lemma FewHeldBack(queue: seq<Event>)
    requires Waits(queue)
    ensures |queue| <= 3
  {
  }

  /** A stream with a good start has good steps all along. */
  lemma {:induction false} HeadStep(events: seq<Event>, head: nat)
    requires head < |events|
    ensures Run(Stream, events).Some? ==>
              Run(Stream, events[..head]).Some? && Step(Run(Stream, events[..head]).value, events[head]).Some?
  {
    var before, after := events[..head], events[head + 1..];
    assert events == before + ([events[head]] + after);
    RunAppend(Stream, before, [events[head]] + after);
  }

  lemma {:induction false} HeldBackAtEnd(events: seq<Event>, head: nat)
    requires head <= |events| && Waits(events[head..]) && Run(Stream, events[..head]).Some?
    ensures Run(Stream, events) == Some(Nothing) ==> head == |events|
  {
    hide Waits;
    assert events == events[..head] + events[head..];
    RunAppend(Stream, events[..head], events[head..]);
    if Run(Stream, events) == Some(Nothing) && head < |events| {
      NothingHeldBack(Run(Stream, events[..head]).value, events[head..]);
    }
  }
}
