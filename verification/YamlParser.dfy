/** The token-to-event parser: a pushdown automaton that delivers one event per call. */
module YamlParser {
  import opened YamlGrammar
  import opened YamlTokens
  import opened YamlTags
  import D = YamlDescent
  import opened Wrappers

  datatype State =
    | ParseStreamStart
    | ParseImplicitDocumentStart
    | ParseDocumentStart
    | ParseDocumentContent
    | ParseDocumentEnd
    | ParseBlockNode
    | ParseBlockNodeOrIndentlessSequence
    | ParseFlowNode
    | ParseBlockSequenceFirstEntry
    | ParseBlockSequenceEntry
    | ParseIndentlessSequenceEntry
    | ParseBlockMappingFirstKey
    | ParseBlockMappingKey
    | ParseBlockMappingValue
    | ParseFlowSequenceFirstEntry
    | ParseFlowSequenceEntry
    | ParseFlowSequenceEntryMappingKey
    | ParseFlowSequenceEntryMappingValue
    | ParseFlowSequenceEntryMappingEnd
    | ParseFlowMappingFirstKey
    | ParseFlowMappingKey
    | ParseFlowMappingValue
    | ParseFlowMappingEmptyValue
    | ParseEnd

  // ---- What a state stands for ----

  /** The shape of what a state owes; PairKey and PairValue are the single-pair
      mapping inside a flow sequence. */
  datatype Shape = Whole | More | Close | One | Entries | Keys | Values | PairKey | PairValue | Over

  /** Where a state occurs: outside any node, inside one, at an opening token that
      is still in the queue, or below an open node, as the state to return to. */
  datatype Place = Outside | Inside | First(opening: TokenType) | Return

  /** `marks` is 1 while the opening mark of a collection is held; `rank` bounds the
      events the state can produce before a token must be consumed. */
  datatype Meaning = Meaning(shape: Shape, marks: nat, rank: nat, place: Place)

  function Means(s: State): Meaning {
    match s
    case ParseStreamStart => Meaning(Whole, 0, 0, Outside)
    case ParseImplicitDocumentStart => Meaning(More, 0, 4, Outside)
    case ParseDocumentStart => Meaning(More, 0, 0, Outside)
    case ParseDocumentContent => Meaning(One, 0, 2, Inside)
    case ParseDocumentEnd => Meaning(Close, 0, 1, Outside)
    case ParseBlockNode => Meaning(One, 0, 2, Inside)
    case ParseBlockNodeOrIndentlessSequence => Meaning(One, 0, 2, Inside)
    case ParseFlowNode => Meaning(One, 0, 2, Inside)
    case ParseBlockSequenceFirstEntry => Meaning(Entries, 0, 1, First(BlockSequenceStartToken))
    case ParseBlockSequenceEntry => Meaning(Entries, 1, 0, Return)
    case ParseIndentlessSequenceEntry => Meaning(Entries, 0, 1, Return)
    case ParseBlockMappingFirstKey => Meaning(Keys, 0, 1, First(BlockMappingStartToken))
    case ParseBlockMappingKey => Meaning(Keys, 1, 0, Return)
    case ParseBlockMappingValue => Meaning(Values, 1, 1, Return)
    case ParseFlowSequenceFirstEntry => Meaning(Entries, 0, 1, First(FlowSequenceStartToken))
    case ParseFlowSequenceEntry => Meaning(Entries, 1, 0, Return)
    case ParseFlowSequenceEntryMappingKey => Meaning(PairKey, 1, 4, Return)
    case ParseFlowSequenceEntryMappingValue => Meaning(PairValue, 1, 2, Return)
    case ParseFlowSequenceEntryMappingEnd => Meaning(PairKey, 1, 1, Return)
    case ParseFlowMappingFirstKey => Meaning(Keys, 0, 1, First(FlowMappingStartToken))
    case ParseFlowMappingKey => Meaning(Keys, 1, 0, Return)
    case ParseFlowMappingValue => Meaning(Values, 1, 1, Return)
    case ParseFlowMappingEmptyValue => Meaning(Values, 1, 1, Return)
    case ParseEnd => Meaning(Over, 0, 0, Outside)
  }

  lemma PairsMean()
    ensures Means(ParseBlockMappingKey) == Meaning(Keys, 1, 0, Return) &&
            Means(ParseBlockMappingValue) == Meaning(Values, 1, 1, Return)
  {
  }

  /** The events owed for a shape, when `rest` is owed by the states below it. */
  function Owe(shape: Shape, rest: Owed): Owed {
    match shape
    case Whole => Stream
    case More => Documents
    case Close => EndOfDocument
    case One => Single(rest)
    case Entries => Items(rest)
    case Keys => Pairs(rest)
    case Values => Value(rest)
    case PairKey => Pairs(Items(rest))
    case PairValue => Value(Items(rest))
    case Over => Nothing
  }

  lemma CollectionsOwe(rest: Owed)
    ensures Owe(Entries, rest) == Items(rest) && Owe(Keys, rest) == Pairs(rest) 
    ensures Owe(PairKey, rest) == Pairs(Items(rest)) && Owe(PairValue, rest) == Value(Items(rest))
  {
  }

  /** What a stack of return states amounts to. It is `nested` when it has the
      document end at the bottom and only states that continue a collection above. */
  datatype Summary = Summary(nested: bool, owed: Owed, marks: nat, rank: nat)

  function Sum(states: seq<State>): Summary {
    if states == [] then Summary(false, Nothing, 0, 0)
    else
      Extend(|states| == 1, Sum(states[..|states| - 1]), states[|states| - 1])
  }

  function Extend(bottom: bool, below: Summary, top: State): Summary {
    var m := Means(top);
    Summary(if bottom then top.ParseDocumentEnd? else below.nested && m.place.Return?,
            Owe(m.shape, below.owed), m.marks + below.marks, m.rank + below.rank)
  }

  lemma NoStates()
    ensures Sum([]) == Summary(false, Nothing, 0, 0)
  {
  }

  lemma {:induction false} StatePushed(states: seq<State>, s: State)
    ensures Sum(states + [s]) == Extend(states == [], Sum(states), s)
  {
    assert (states + [s])[..|states|] == states;
  }

  // ---- What a state spells ----

  predicate StartsNode(e: Event) {
    e.Alias? || e.Scalar? || e.SequenceStart? || e.MappingStart?
  }

  /** What the tokens spell from a state on, down to where the state returns. */
  function Continue(s: State, ts: seq<Token>, dirs: seq<(string, string)>, marks: seq<int>): D.Spelled {
    var mark := if marks == [] then 0 else marks[|marks| - 1];
    match s
    case ParseStreamStart => D.Stream(ts)
    case ParseImplicitDocumentStart => D.Documents(ts, true)
    case ParseDocumentStart => D.Documents(ts, false)
    case ParseDocumentContent => D.Optional(ts, dirs, true, false, D.ENDS_CONTENT)
    case ParseDocumentEnd => D.DocumentClose(ts)
    case ParseBlockNode => D.Node(ts, dirs, true, false)
    case ParseBlockNodeOrIndentlessSequence => D.Node(ts, dirs, true, true)
    case ParseFlowNode => D.Node(ts, dirs, false, false)
    case ParseBlockSequenceFirstEntry =>
      if ts == [] then D.Failed(ScannerError) else D.BlockEntries(ts[1..], dirs, ts[0].startMark)
    case ParseBlockSequenceEntry => D.BlockEntries(ts, dirs, mark)
    case ParseIndentlessSequenceEntry => D.IndentlessEntries(ts, dirs)
    case ParseBlockMappingFirstKey =>
      if ts == [] then D.Failed(ScannerError) else D.BlockPairs(ts[1..], dirs, ts[0].startMark)
    case ParseBlockMappingKey => D.BlockPairs(ts, dirs, mark)
    case ParseBlockMappingValue => D.BlockValue(ts, dirs, mark)
    case ParseFlowSequenceFirstEntry =>
      if ts == [] then D.Failed(ScannerError) else D.FlowEntries(ts[1..], dirs, ts[0].startMark, true)
    case ParseFlowSequenceEntry => D.FlowEntries(ts, dirs, mark, false)
    case ParseFlowSequenceEntryMappingKey => D.PairKey(ts, dirs, mark)
    case ParseFlowSequenceEntryMappingValue => D.PairValue(ts, dirs, mark)
    case ParseFlowSequenceEntryMappingEnd => D.PairEnd(ts, dirs, mark)
    case ParseFlowMappingFirstKey =>
      if ts == [] then D.Failed(ScannerError) else D.FlowPairs(ts[1..], dirs, ts[0].startMark, true)
    case ParseFlowMappingKey => D.FlowPairs(ts, dirs, mark, false)
    case ParseFlowMappingValue => D.FlowValue(ts, dirs, mark, false)
    case ParseFlowMappingEmptyValue => D.FlowValue(ts, dirs, mark, true)
    case ParseEnd => D.Spelled([], ts, NoError)
  }

  /** The marks below a state: it may hold the last one itself. */
  function Below(s: State, marks: seq<int>): seq<int> {
    if Means(s).marks == 1 && marks != [] then marks[..|marks| - 1] else marks
  }

  /** `r`, and what the states on the stack spell after it. */
  function Resume(states: seq<State>, marks: seq<int>, dirs: seq<(string, string)>, r: D.Spelled): D.Spelled {
    if states == [] || !r.error.NoError? then r
    else
      var s := states[|states| - 1];
      Resume(states[..|states| - 1], Below(s, marks), dirs, D.After(r, Continue(s, r.rest, dirs, marks)))
  }

  /** The states a node or an entry returns to, in terms of the grammar. */
  lemma StatesSpell(marks: seq<int>)
    requires marks != []
    ensures var m := marks[|marks| - 1];
            && (forall ts, dirs :: Continue(ParseBlockSequenceEntry, ts, dirs, marks) == D.BlockEntries(ts, dirs, m))
            && (forall ts, dirs :: Continue(ParseBlockMappingKey, ts, dirs, marks) == D.BlockPairs(ts, dirs, m))
            && (forall ts, dirs :: Continue(ParseBlockMappingValue, ts, dirs, marks) == D.BlockValue(ts, dirs, m))
            && (forall ts, dirs ::
                 Continue(ParseFlowSequenceEntry, ts, dirs, marks) == D.FlowEntries(ts, dirs, m, false))
            && (forall ts, dirs ::
                 Continue(ParseFlowSequenceEntryMappingKey, ts, dirs, marks) == D.PairKey(ts, dirs, m))
            && (forall ts, dirs ::
                 Continue(ParseFlowSequenceEntryMappingValue, ts, dirs, marks) == D.PairValue(ts, dirs, m))
            && (forall ts, dirs ::
                 Continue(ParseFlowSequenceEntryMappingEnd, ts, dirs, marks) == D.PairEnd(ts, dirs, m))
            && (forall ts, dirs :: Continue(ParseFlowMappingKey, ts, dirs, marks) == D.FlowPairs(ts, dirs, m, false))
            && (forall ts, dirs :: Continue(ParseFlowMappingValue, ts, dirs, marks) == D.FlowValue(ts, dirs, m, false))
            && (forall ts, dirs ::
                 Continue(ParseFlowMappingEmptyValue, ts, dirs, marks) == D.FlowValue(ts, dirs, m, true))
    ensures forall s | Means(s).marks == 1 :: Below(s, marks) == marks[..|marks| - 1]
  {
    hide D.Node, D.Optional, D.BlockEntries, D.BlockPairs, D.BlockValue, D.IndentlessEntries;
    hide D.FlowEntries, D.PairKey, D.PairValue, D.PairEnd, D.FlowPairs, D.FlowValue;
  }

  /** A state that holds no mark, at the tokens it starts with. */
  lemma {:induction false} StateSpells(s: State, ts: seq<Token>, dirs: seq<(string, string)>, marks: seq<int>)
    requires Means(s).marks == 0
    ensures Below(s, marks) == marks
    ensures var r := Continue(s, ts, dirs, marks);
            && (s.ParseDocumentContent? ==> r == D.Optional(ts, dirs, true, false, D.ENDS_CONTENT))
            && (s.ParseIndentlessSequenceEntry? ==> r == D.IndentlessEntries(ts, dirs))
            && (ts != [] && s.ParseBlockSequenceFirstEntry? ==> r == D.BlockEntries(ts[1..], dirs, ts[0].startMark))
            && (ts != [] && s.ParseBlockMappingFirstKey? ==> r == D.BlockPairs(ts[1..], dirs, ts[0].startMark))
            && (ts != [] && s.ParseFlowSequenceFirstEntry? ==> r == D.FlowEntries(ts[1..], dirs, ts[0].startMark, true))
            && (ts != [] && s.ParseFlowMappingFirstKey? ==> r == D.FlowPairs(ts[1..], dirs, ts[0].startMark, true))
  {
    hide D.Node, D.Optional, D.BlockEntries, D.BlockPairs, D.BlockValue, D.IndentlessEntries;
    hide D.FlowEntries, D.PairKey, D.PairValue, D.PairEnd, D.FlowPairs, D.FlowValue;
  }

  /** A collection spells its first event, and then what its first state does. */
  lemma {:induction false} CollectionSpells(s: State, ts: seq<Token>, dirs: seq<(string, string)>, marks: seq<int>,
                                            block: bool, indentless: bool,
                         anchor: string, tag: string)
    requires ts != [] && D.Opens(ts[0].typ, block, indentless)
    requires if s.ParseIndentlessSequenceEntry? then ts[0].typ.BlockEntryToken? else Means(s).place == First(ts[0].typ)
    ensures var style := if ts[0].typ.FlowSequenceStartToken? || ts[0].typ.FlowMappingStartToken? then Flow else Block;
            var e := if Means(s).shape.Entries? then SequenceStart(anchor, tag, tag == "", style)
                     else MappingStart(anchor, tag, tag == "", style);
            D.Collection(ts, dirs, block, indentless, anchor, tag) == D.Before(e, Continue(s, ts, dirs, marks))
    ensures Below(s, marks) == marks
  {
    hide D.BlockEntries, D.BlockPairs, D.IndentlessEntries, D.FlowEntries, D.FlowPairs;
  }

  lemma IndentlessSpells(marks: seq<int>)
    ensures forall ts, dirs :: Continue(ParseIndentlessSequenceEntry, ts, dirs, marks) == D.IndentlessEntries(ts, dirs)
    ensures Below(ParseIndentlessSequenceEntry, marks) == marks
  {
    hide D.IndentlessEntries;
  }

  /** One event of what was spelled, and the rest is still to come; or its error. */
  predicate Yields(spelled: D.Spelled, ok: bool, e: Event, future: D.Spelled, error: Error) {
    if ok then spelled == D.Before(e, future) else !error.NoError? && spelled == D.Failed(error)
  }

  lemma {:induction false} ResumeBefore(states: seq<State>, marks: seq<int>, dirs: seq<(string, string)>, e: Event,
                                        r: D.Spelled)
    ensures Resume(states, marks, dirs, D.Before(e, r)) == D.Before(e, Resume(states, marks, dirs, r))
  {
    hide Continue, Below;
    if states != [] && r.error.NoError? {
      var s := states[|states| - 1];
      var more := Continue(s, r.rest, dirs, marks);
      assert [e] + r.events + more.events == [e] + (r.events + more.events);
      ResumeBefore(states[..|states| - 1], Below(s, marks), dirs, e, D.After(r, more));
    }
  }

  lemma {:induction false} ResumePushed(states: seq<State>, s: State, marks: seq<int>, dirs: seq<(string, string)>,
                                        r: D.Spelled)
    ensures Resume(states + [s], marks, dirs, r) ==
            Resume(states, Below(s, marks), dirs, D.After(r, Continue(s, r.rest, dirs, marks)))
  {
    hide Continue, Below;
    assert (states + [s])[..|states|] == states;
  }

  /** A single event at the top goes out, and the state below is next. */
  lemma ResumePopped(states: seq<State>, marks: seq<int>, dirs: seq<(string, string)>, rest: seq<Token>)
    requires states != []
    ensures var k, s := |states| - 1, states[|states| - 1];
            forall e: Event :: Resume(states, marks, dirs, D.Done(e, rest)) ==
              D.Before(e, Resume(states[..k], Below(s, marks), dirs, Continue(s, rest, dirs, marks)))
  {
    hide Continue, Below;
    var k, s := |states| - 1, states[|states| - 1];
    var more := Continue(s, rest, dirs, marks);
    forall e: Event
      ensures Resume(states, marks, dirs, D.Done(e, rest)) ==
              D.Before(e, Resume(states[..k], Below(s, marks), dirs, more))
    {
      ResumeBefore(states[..k], Below(s, marks), dirs, e, more);
      assert D.After(D.Done(e, rest), more) == D.Before(e, more);
    }
  }

  /** An error is the end, whatever is on the stack. */
  lemma ResumeFailed(states: seq<State>, marks: seq<int>, dirs: seq<(string, string)>)
    ensures forall r: D.Spelled | !r.error.NoError? :: Resume(states, marks, dirs, r) == r
  {
    hide Continue, Below;
  }

  lemma {:induction false} DocumentSpells(content: State, ts: seq<Token>, dirs: seq<(string, string)>)
    requires content.ParseBlockNode? || content.ParseDocumentContent?
    ensures var r := Continue(content, ts, dirs, []);
            && Resume([ParseDocumentEnd], [], dirs, r) == D.After(r, D.DocumentClose(r.rest))
            && r == if content.ParseBlockNode? then D.Node(ts, dirs, true, false)
                    else D.Optional(ts, dirs, true, false, D.ENDS_CONTENT)
  {
    hide D.Node, D.Optional, D.DocumentClose;
    var r := Continue(content, ts, dirs, []);
    ResumePushed([], ParseDocumentEnd, [], dirs, r);
    assert [] + [ParseDocumentEnd] == [ParseDocumentEnd];
  }

  lemma {:induction false} DocumentSum(states: seq<State>)
    requires states == [ParseDocumentEnd]
    ensures Sum(states) == Summary(true, EndOfDocument, 0, 1)
  {
    assert states[..0] == [];
    NoStates();
  }

  /** Between documents the stacks are empty. */
  lemma {:induction false} DocumentsSpell(first: bool, ts: seq<Token>)
    ensures var s := if first then ParseImplicitDocumentStart else ParseDocumentStart;
            Resume([], Below(s, []), [], Continue(s, ts, [], [])) == D.Documents(ts, first)
  {
    hide D.Documents;
  }

  lemma EndSpells(ts: seq<Token>)
    ensures D.Before(StreamEnd, Resume([], Below(ParseEnd, []), [], Continue(ParseEnd, ts, [], []))) ==
            D.Done(StreamEnd, ts)
  {
    assert [StreamEnd] + [] == [StreamEnd];
  }

  const NO_TOKEN := Token(StreamEndToken, 0, 0, "", "", "", Plain, 0, 0)

  function Prepend(es: seq<Event>, r: D.Spelled): D.Spelled {
    r.(events := es + r.events)
  }

  /** What a parser has delivered is always the start of a well-formed stream,
      and all of one once it has reached its end. */
  lemma EmittedIsPrefix(p: Parser)
    requires p.Valid()
    ensures exists more :: Sentence(p.emitted + more)
    ensures p.error.NoError? && p.state.ParseEnd? ==> Sentence(p.emitted)
  {
    AcceptedIsPrefix(p.emitted);
    MachineIsGrammar(p.emitted);
  }

  /** And it is what the tokens spell by recursive descent, with the same error at the end. */
  lemma EmittedIsSpelled(p: Parser)
    requires p.Valid()
    ensures p.emitted <= D.Stream(p.tokens).events
    ensures p.error.NoError? && p.state.ParseEnd? ==> D.Stream(p.tokens) == D.Spelled(p.emitted, p.Rest(), NoError)
    ensures !p.error.NoError? ==> D.Stream(p.tokens) == D.Spelled(p.emitted, [], p.error)
  {
    hide D.Stream;
    if p.error.NoError? && p.state.ParseEnd? {
      assert p.Future() == D.Spelled([], p.Rest(), NoError);
    }
  }

  class Parser {
    const tokens: seq<Token>     // everything the scanner will produce
    var head: nat
    var tokenAvailable: bool
    var tokensParsed: nat
    var streamEndProduced: bool
    var error: Error
    var state: State
    var states: seq<State>
    var marks: seq<int>
    var tagDirectives: seq<(string, string)>
    ghost var emitted: seq<Event>

    ghost function Owes(): Owed reads this {
      Owe(Means(state).shape, Sum(states).owed)
    }

    /** Bounds the number of events still to come. */
    ghost function Potential(): int reads this {
      5 * (|tokens| - head) + Means(state).rank + Sum(states).rank
    }

    ghost function Rest(): seq<Token>
      reads this`head
      requires head <= |tokens|
    {
      tokens[head..]
    }

    /** What the tokens that are left spell in this state. */
    ghost function Future(): D.Spelled
      reads this
      requires head <= |tokens|
    {
      Resume(states, Below(state, marks), tagDirectives, Continue(state, Rest(), tagDirectives, marks))
    }

    ghost function NextType(): TokenType reads this {
      if head < |tokens| then tokens[head].typ else StreamEndToken
    }

    ghost predicate Queue() reads this {
      head <= |tokens| && (tokenAvailable ==> head < |tokens|)
    }

    ghost predicate Between() reads this {
      && error.NoError?
      && Queue()
      && (Means(state).place.First? ==> tokenAvailable && NextType() == Means(state).place.opening)
      && (if Means(state).place.Outside? then states == [] else Sum(states).nested)
      && |marks| == Means(state).marks + Sum(states).marks
      && (streamEndProduced ==> state.ParseEnd?)
      && (Means(state).shape.Whole? || Means(state).shape.More? ==> tagDirectives == [])
    }

    ghost predicate Valid()
      reads this
      ensures Valid() && error.NoError? ==> Potential() >= 0 && Run(Stream, emitted) == Some(Owes())
    {
      && Run(Stream, emitted).Some?
      && (error.NoError? ==>
            && Between()
            && Run(Stream, emitted) == Some(Owes())
            && |emitted| + Potential() <= 5 * |tokens|
            && D.Stream(tokens) == Prepend(emitted, Future()))
      && (!error.NoError? ==> D.Stream(tokens) == D.Spelled(emitted, [], error))
      && |emitted| <= 5 * |tokens|
    }

    constructor (tokens: seq<Token>)
      ensures Valid() && emitted == [] && this.tokens == tokens && error.NoError? && state.ParseStreamStart?
    {
      this.tokens := tokens;
      head, tokenAvailable, tokensParsed, streamEndProduced := 0, false, 0, false;
      error := NoError;
      state, states, marks, tagDirectives := ParseStreamStart, [], [], [];
      emitted := [];
    }

    // ---- Token queue ----

    method PeekToken() returns (ok: bool, token: Token)
      requires Queue() && error.NoError?
      modifies this`tokenAvailable, this`error
      ensures Queue()
      ensures ok ==> error.NoError? && tokenAvailable && head < |tokens| && token == tokens[head] == Rest()[0]
      ensures !ok ==> error.ScannerError? && Rest() == []
      ensures old(tokenAvailable) ==> ok
    {
      if tokenAvailable || head < |tokens| {
        tokenAvailable := true;
        return true, tokens[head];
      }
      error := ScannerError;
      return false, NO_TOKEN;
    }

    method SkipToken()
      requires Queue() && tokenAvailable
      modifies this`tokenAvailable, this`tokensParsed, this`streamEndProduced, this`head
      ensures Queue() && head == old(head) + 1 && !tokenAvailable
      ensures Rest() == old(Rest())[1..]
      ensures streamEndProduced == tokens[old(head)].typ.StreamEndToken?
    {
      tokenAvailable := false;
      tokensParsed := tokensParsed + 1;
      streamEndProduced := tokens[head].typ.StreamEndToken?;
      head := head + 1;
    }

    /** Skips the current token and looks at the next. */
    method NextToken() returns (ok: bool, token: Token)
      requires Queue() && tokenAvailable && error.NoError?
      modifies this`tokenAvailable, this`tokensParsed, this`streamEndProduced, this`head, this`error
      ensures Queue() && head == old(head) + 1 && Rest() == old(Rest())[1..]
      ensures streamEndProduced == tokens[old(head)].typ.StreamEndToken?
      ensures ok ==> error.NoError? && tokenAvailable && head < |tokens| && token == tokens[head] == Rest()[0]
      ensures !ok ==> error.ScannerError? && Rest() == []
    {
      SkipToken();
      ok, token := PeekToken();
    }

    method SetParserError(context: Context, contextMark: int, problem: Problem, problemMark: int)
      modifies this`error
      ensures error == ParserError(context, contextMark, problem, problemMark)
    {
      error := ParserError(context, contextMark, problem, problemMark);
    }

    /** What one step does: it delivers an event the stream owed and the tokens spell,
        and makes progress, or it finds the error they spell. */
    ghost predicate Advanced(owes: Owed, potential: int, future: D.Spelled, ok: bool, e: Event)
      reads this
    {
      && Queue()
      && (ok ==> Between() && Step(owes, e) == Some(Owes()) && Potential() < potential)
      && Yields(future, ok, e, Future(), error)
    }

    // ---- The dispatcher ----

    /** Every run of the parser spells a prefix of an event stream, in at most
        five events a token; the stacks never underflow and no FIRST state
        misses its token, or the bodies below would not verify. */
    method Parse() returns (ok: bool, e: Event)
      requires Valid()
      modifies this
      ensures Valid()
      ensures ok == (old(error).NoError? ==> error.NoError?)
      ensures !old(error).NoError? || old(state).ParseEnd? ==> ok && e.NoEvent?
      ensures ok && !e.NoEvent? ==>
        emitted == old(emitted) + [e] && Step(old(Owes()), e) == Some(Owes()) &&
        Potential() < old(Potential())
      ensures !ok || e.NoEvent? ==> emitted == old(emitted)
      ensures old(error).NoError? && !old(state).ParseEnd? && ok ==> !e.NoEvent? && error.NoError?
    {
      hide Sum, Continue, Below, Resume, Run, Owe, Step, D.Stream;
      if streamEndProduced || !error.NoError? || state.ParseEnd? {
        return true, NoEvent;
      }
      ok, e := StateMachine();
      if ok {
        RunSnoc(Stream, emitted, e);
        emitted := emitted + [e];
      }
    }

    method StateMachine() returns (ok: bool, e: Event)
      requires Between() && !state.ParseEnd?
      modifies this
      ensures Advanced(old(Owes()), old(Potential()), old(Future()), ok, e) && emitted == old(emitted)
      ensures ok ==> !e.NoEvent?
    {
      match state
      case ParseStreamStart => ok, e := ParseStreamStartState();
      case ParseImplicitDocumentStart => ok, e := ParseDocumentStartState(true);
      case ParseDocumentStart => ok, e := ParseDocumentStartState(false);
      case ParseDocumentContent => ok, e := ParseDocumentContentState();
      case ParseDocumentEnd => ok, e := ParseDocumentEndState();
      case ParseBlockNode => ok, e := ParseNode(true, false);
      case ParseBlockNodeOrIndentlessSequence => ok, e := ParseNode(true, true);
      case ParseFlowNode => ok, e := ParseNode(false, false);
      case ParseBlockSequenceFirstEntry => ok, e := ParseBlockSequenceEntryState(true);
      case ParseBlockSequenceEntry => ok, e := ParseBlockSequenceEntryState(false);
      case ParseIndentlessSequenceEntry => ok, e := ParseIndentlessSequenceEntryState();
      case ParseBlockMappingFirstKey => ok, e := ParseBlockMappingKeyState(true);
      case ParseBlockMappingKey => ok, e := ParseBlockMappingKeyState(false);
      case ParseBlockMappingValue => ok, e := ParseBlockMappingValueState();
      case ParseFlowSequenceFirstEntry => ok, e := ParseFlowSequenceEntryState(true);
      case ParseFlowSequenceEntry => ok, e := ParseFlowSequenceEntryState(false);
      case ParseFlowSequenceEntryMappingKey => ok, e := ParseFlowSequenceEntryMappingKeyState();
      case ParseFlowSequenceEntryMappingValue => ok, e := ParseFlowSequenceEntryMappingValueState();
      case ParseFlowSequenceEntryMappingEnd => ok, e := ParseFlowSequenceEntryMappingEndState();
      case ParseFlowMappingFirstKey => ok, e := ParseFlowMappingKeyState(true);
      case ParseFlowMappingKey => ok, e := ParseFlowMappingKeyState(false);
      case ParseFlowMappingValue => ok, e := ParseFlowMappingValueState(false);
      case ParseFlowMappingEmptyValue => ok, e := ParseFlowMappingValueState(true);
    }

    // ---- Documents ----

    method ParseStreamStartState() returns (ok: bool, e: Event)
      requires Between() && state.ParseStreamStart?
      modifies this
      ensures Advanced(old(Owes()), old(Potential()), old(Future()), ok, e) && emitted == old(emitted)
      ensures ok ==> e == StreamStart
    {
      hide Sum;
      var token;
      ok, token := PeekToken();
      if !ok { return false, NoEvent; }
      if !token.typ.StreamStartToken? {
        SetParserError(NoContext, 0, ExpectedStreamStart, token.startMark);
        return false, NoEvent;
      }
      state := ParseImplicitDocumentStart;
      SkipToken();
      return true, StreamStart;
    }

    method ParseDocumentStartState(implicit: bool) returns (ok: bool, e: Event)
      requires Between() && state == if implicit then ParseImplicitDocumentStart else ParseDocumentStart
      modifies this
      ensures Advanced(old(Owes()), old(Potential()), old(Future()), ok, e) && emitted == old(emitted)
      ensures ok ==> e.DocumentStart? || e.StreamEnd?
    {
      hide Sum, D.SkipDocumentEnds, Continue, Below, Resume, D.ImplicitDocument, D.ExplicitDocument;
      hide DeclaresAll;
      NoStates();
      DocumentsSpell(implicit, Rest());
      var token;
      ok, token := PeekToken();
      if !ok { return false, NoEvent; }

      if !implicit {
        ok, token := SkipDocumentEnds();
        if !ok { return false, NoEvent; }
      }

      if implicit && !token.typ.VersionDirectiveToken? && !token.typ.TagDirectiveToken? &&
         !token.typ.DocumentStartToken? && !token.typ.StreamEndToken?
      {
        assert old(Future()) == D.ImplicitDocument(Rest());
        ok, e := ParseImplicitDocument();
        return;
      } else if !token.typ.StreamEndToken? {
        assert old(Future()) == D.ExplicitDocument(Rest());
        ok, e := ParseExplicitDocument();
        return;
      } else {
        assert old(Future()) == D.Done(StreamEnd, Rest()[1..]);
        EndStream();
        return true, StreamEnd;
      }
    }

    method EndStream()
      requires Queue() && tokenAvailable && error.NoError?
      requires states == [] && marks == [] && tagDirectives == []
      modifies this`state, this`head, this`tokenAvailable, this`tokensParsed, this`streamEndProduced
      ensures Between() && state.ParseEnd? && Owes() == Nothing && Potential() < old(5 * (|tokens| - head))
      ensures D.Done(StreamEnd, old(Rest())[1..]) == D.Before(StreamEnd, Future())
    {
      hide Continue, Below, Resume;
      NoStates();
      state := ParseEnd;
      SkipToken();
      EndSpells(Rest());
    }

    /** Skips the document end markers in front of a document. */
    method SkipDocumentEnds() returns (ok: bool, token: Token)
      requires Queue() && tokenAvailable && error.NoError? && !streamEndProduced
      modifies this`head, this`tokenAvailable, this`tokensParsed, this`streamEndProduced, this`error
      ensures Queue() && old(head) <= head
      ensures ok ==> error.NoError? && tokenAvailable && !streamEndProduced && head < |tokens|
      ensures ok ==> token == tokens[head] && Rest() == D.SkipDocumentEnds(old(Rest())) && token == Rest()[0]
      ensures !ok ==> error.ScannerError? && D.SkipDocumentEnds(old(Rest())) == []
    {
      assert D.SkipDocumentEnds([]) == [];
      ok, token := PeekToken();
      while token.typ.DocumentEndToken?
        invariant ok && Queue() && error.NoError? && tokenAvailable && !streamEndProduced && token == Rest()[0]
        invariant old(head) <= head && D.SkipDocumentEnds(old(Rest())) == D.SkipDocumentEnds(Rest())
        decreases |tokens| - head
      {
        ok, token := NextToken();
        if !ok { return; }
      }
    }

    /** Stacks the end of the document below its content. */
    method OpenDocument(content: State)
      requires Queue() && error.NoError? && !streamEndProduced && states == [] && marks == []
      requires content.ParseBlockNode? || content.ParseDocumentContent?
      modifies this`state, this`states
      ensures Between() && Owes() == Single(EndOfDocument)
      ensures var r := if content.ParseBlockNode? then D.Node(Rest(), tagDirectives, true, false)
                else D.Optional(Rest(), tagDirectives, true, false, D.ENDS_CONTENT);
              Future() == D.After(r, D.DocumentClose(r.rest))
      ensures Potential() == 5 * (|tokens| - head) + 3
    {
      hide Sum, Continue, Resume, D.Optional, D.Node, D.DocumentClose;
      DocumentSpells(content, Rest(), tagDirectives);
      states := states + [ParseDocumentEnd];
      assert states == [ParseDocumentEnd];
      DocumentSum(states);
      state := content;
    }

    method ParseImplicitDocument() returns (ok: bool, e: Event)
      requires Queue() && tokenAvailable && error.NoError? && !streamEndProduced
      requires states == [] && marks == [] && tagDirectives == []
      requires !D.IsDirective(tokens[head])
      modifies this
      ensures ok && Between() && e.DocumentStart? && Owes() == Single(EndOfDocument)
      ensures D.ImplicitDocument(old(Rest())) == D.Before(e, Future())
      ensures Potential() == old(5 * (|tokens| - head)) + 3
      ensures emitted == old(emitted)
    {
      hide Sum, DeclaresAll;
      assert D.Directives(Rest(), false, []) == D.Prologue(false, [], Rest(), NoError);
      var version, directives;
      ok, version, directives := ProcessDirectives();
      assert ok;
      OpenDocument(ParseBlockNode);
      return true, DocumentStart(false, [], false);
    }

    method ParseExplicitDocument() returns (ok: bool, e: Event)
      requires Queue() && tokenAvailable && error.NoError? && !streamEndProduced
      requires states == [] && marks == [] && tagDirectives == []
      modifies this
      ensures Queue() && Yields(D.ExplicitDocument(old(Rest())), ok, e, Future(), error)
      ensures ok ==> Between() && e.DocumentStart? && Owes() == Single(EndOfDocument)
      ensures ok ==> Potential() < old(5 * (|tokens| - head))
      ensures emitted == old(emitted)
    {
      hide Sum, Continue, Below, Resume, D.Directives, D.Optional, InForce, D.DocumentClose;
      hide DeclaresAll;
      var token;
      var version, directives;
      ok, version, directives := ProcessDirectives();
      if !ok { return false, NoEvent; }
      ok, token := PeekToken();
      if !ok { return false, NoEvent; }
      if !token.typ.DocumentStartToken? {
        SetParserError(NoContext, 0, ExpectedDocumentStart, token.startMark);
        return false, NoEvent;
      }
      SkipToken();
      OpenDocument(ParseDocumentContent);
      return true, DocumentStart(version, directives, false);
    }

    method ParseDocumentContentState() returns (ok: bool, e: Event)
      requires Between() && state.ParseDocumentContent?
      modifies this
      ensures Advanced(old(Owes()), old(Potential()), old(Future()), ok, e) && emitted == old(emitted)
      ensures ok ==> !e.NoEvent?
    {
      hide Sum;
      var token;
      ok, token := PeekToken();
      if !ok { return false, NoEvent; }
      if token.typ in D.ENDS_CONTENT {
        e := D.EMPTY;
        EndNode(e);
        return true, e;
      }
      ok, e := ParseNode(true, false);
    }

    method ParseDocumentEndState() returns (ok: bool, e: Event)
      requires Between() && state.ParseDocumentEnd?
      modifies this
      ensures Advanced(old(Owes()), old(Potential()), old(Future()), ok, e) && emitted == old(emitted)
      ensures ok ==> e.DocumentEnd? && tagDirectives == []
    {
      hide Sum;
      var token;
      ok, token := PeekToken();
      if !ok { return false, NoEvent; }
      var implicit := true;
      if token.typ.DocumentEndToken? {
        SkipToken();
        implicit := false;
      }
      tagDirectives := [];
      state := ParseDocumentStart;
      return true, DocumentEnd(implicit);
    }

    method ProcessDirectives() returns (ok: bool, version: bool, directives: seq<(string, string)>)
      requires Queue() && error.NoError? && tagDirectives == []
      modifies this`head, this`tokenAvailable, this`tokensParsed, this`streamEndProduced, this`error, this`tagDirectives
      ensures Queue() && old(head) <= head
      ensures ok ==> D.Directives(old(Rest()), false, []) == D.Prologue(version, directives, Rest(), NoError)
      ensures ok ==> tagDirectives == InForce(directives)
      ensures !ok ==> D.Directives(old(Rest()), false, []).error == error
      ensures ok ==>
                error.NoError? && tokenAvailable && (!streamEndProduced || streamEndProduced == old(streamEndProduced))
      ensures ok ==> DeclaresAll(tagDirectives, DEFAULT_TAG_DIRECTIVES)
      ensures !ok ==> !error.NoError?
    {
      version, directives := false, [];
      var token;
      ok, token := PeekToken();
      if !ok { return; }
      while token.typ.VersionDirectiveToken? || token.typ.TagDirectiveToken?
        invariant Queue() && error.NoError? && tokenAvailable && token == tokens[head]
        invariant old(head) <= head && (!streamEndProduced || streamEndProduced == old(streamEndProduced))
        invariant tagDirectives == directives && token == Rest()[0]
        invariant D.Directives(old(Rest()), false, []) == D.Directives(Rest(), version, directives)
        decreases |tokens| - head
      {
        if token.typ.VersionDirectiveToken? {
          if version {
            SetParserError(NoContext, 0, DuplicateVersionDirective, token.startMark);
            ok := false;
            return;
          }
          if token.major != 1 || token.minor != 1 {
            SetParserError(NoContext, 0, IncompatibleDocument, token.startMark);
            ok := false;
            return;
          }
          version := true;
        } else {
          var value := (token.value, token.prefix);
          ok := AppendTagDirective(value, false, token.startMark);
          if !ok { return; }
          directives := directives + [value];
        }
        ok, token := NextToken();
        if !ok { return; }
      }
      for i := 0 to |DEFAULT_TAG_DIRECTIVES|
        invariant Queue() && error.NoError? && tokenAvailable && old(head) <= head
        invariant !streamEndProduced || streamEndProduced == old(streamEndProduced)
        invariant forall j | 0 <= j < i :: Declares(tagDirectives, DEFAULT_TAG_DIRECTIVES[j].0)
        invariant D.Directives(old(Rest()), false, []) == D.Prologue(version, directives, Rest(), NoError)
        invariant tagDirectives == if i == 0 then directives
                                   else if i == 1 then WithDefault(directives, DEFAULT_TAG_DIRECTIVES[0])
                                   else InForce(directives)
      {
        ok := AppendTagDirective(DEFAULT_TAG_DIRECTIVES[i], true, token.startMark);
        if !ok { return; }
      }
      ok := true;
    }

    method AppendTagDirective(value: (string, string), allowDuplicates: bool, mark: int) returns (ok: bool)
      requires error.NoError?
      modifies this`tagDirectives, this`error
      ensures ok == (allowDuplicates || !Declares(old(tagDirectives), value.0))
      ensures ok == error.NoError?
      ensures !ok ==> error == ParserError(NoContext, 0, DuplicateTagDirective, mark)
      ensures tagDirectives == old(tagDirectives) + if Declares(old(tagDirectives), value.0) then [] else [value]
      ensures Declares(tagDirectives, value.0)
      ensures forall h :: Declares(old(tagDirectives), h) ==> Declares(tagDirectives, h)
    {
      for i := 0 to |tagDirectives|
        invariant forall j | 0 <= j < i :: tagDirectives[j].0 != value.0
        invariant tagDirectives == old(tagDirectives) && error.NoError?
      {
        if value.0 == tagDirectives[i].0 {
          assert tagDirectives[i] in tagDirectives;
          if allowDuplicates { return true; }
          SetParserError(NoContext, 0, DuplicateTagDirective, mark);
          return false;
        }
      }
      tagDirectives := tagDirectives + [value];
      assert value in tagDirectives;
      return true;
    }

    // ---- Nodes ----

    /** Returns to the state the node was parsed on top of. */
    method PopState()
      requires Sum(states).nested
      modifies this`state, this`states
      ensures old(states) != [] && state == old(states[|states| - 1]) && states == old(states[..|states| - 1])
      ensures Owes() == old(Sum(states).owed)
      ensures Means(state).marks + Sum(states).marks == old(Sum(states).marks)
      ensures Means(state).rank + Sum(states).rank == old(Sum(states).rank)
      ensures if Means(state).place.Outside? then states == [] else Sum(states).nested
      ensures state.ParseDocumentEnd? || Means(state).place.Return?
    {
      state := states[|states| - 1];
      states := states[..|states| - 1];
    }

    /** Moves to a state inside a document, without consuming anything. */
    method GoTo(next: State, ghost e: Event)
      requires Queue() && error.NoError? && !streamEndProduced && !Means(next).place.Outside?
      requires Sum(states).nested && |marks| == Means(next).marks + Sum(states).marks
      requires (Means(next).place.First? ==> tokenAvailable && NextType() == Means(next).place.opening)
      modifies this`state
      ensures Between() && state == next
      ensures Owes() == Owe(Means(next).shape, Sum(states).owed)
      ensures Potential() == 5 * (|tokens| - head) + Means(next).rank + Sum(states).rank
      ensures Resume(states, Below(next, marks), tagDirectives,
                D.Before(e, Continue(next, Rest(), tagDirectives, marks))) == D.Before(e, Future())
    {
      hide Sum, Continue, Below, Resume;
      state := next;
      ResumeBefore(states, Below(next, marks), tagDirectives, e, Continue(next, Rest(), tagDirectives, marks));
    }

    /** Moves to a state inside a document, with an empty scalar for the node that is not there. */
    method EmptyScalar(next: State) returns (e: Event)
      requires Queue() && error.NoError? && !streamEndProduced && Means(next).place.Return?
      requires Sum(states).nested && |marks| == Means(next).marks + Sum(states).marks
      modifies this`state
      ensures Between() && StepNode(Owe(Means(next).shape, Sum(states).owed), e) == Some(Owes()) && StartsNode(e)
      ensures Potential() == 5 * (|tokens| - head) + Means(next).rank + Sum(states).rank
      ensures Resume(states, Below(next, marks), tagDirectives,
                D.Before(D.EMPTY, Continue(next, Rest(), tagDirectives, marks))) == D.Before(e, Future())
    {
      hide Sum, Continue, Below, Resume;
      GoTo(next, D.EMPTY);
      e := D.EMPTY;
    }

    /** Expects the comma before a further entry of a flow collection. */
    method TakeSeparator(context: Context, problem: Problem) returns (ok: bool, token: Token)
      requires Queue() && tokenAvailable && error.NoError? && !streamEndProduced && marks != []
      modifies this`tokenAvailable, this`tokensParsed, this`streamEndProduced, this`head, this`error, this`marks
      ensures Queue() && old(head) <= head
      ensures ok ==> error.NoError? && tokenAvailable && head < |tokens| && token == tokens[head] == Rest()[0]
      ensures ok ==> head == old(head) + 1 && marks == old(marks) && !streamEndProduced
      ensures ok ==> old(Rest())[0].typ.FlowEntryToken? && Rest() == old(Rest())[1..]
      ensures !ok && old(Rest())[0].typ.FlowEntryToken? ==> error.ScannerError? && |old(Rest())| == 1
      ensures !ok && !old(Rest())[0].typ.FlowEntryToken? ==>
        error == ParserError(context, old(marks[|marks| - 1]), problem, old(Rest())[0].startMark)
    {
      ok, token := PeekToken();
      if token.typ.FlowEntryToken? {
        ok, token := NextToken();
      } else {
        FailInCollection(context, problem, token.startMark);
        ok := false;
      }
    }

    /** Parses a node, to return to `s` after it. */
    method ParseNodeOn(s: State, block: bool, indentlessSequence: bool) returns (ok: bool, e: Event)
      requires Queue() && error.NoError? && !streamEndProduced
      requires Sum(states).nested && Means(s).place.Return? && |marks| == Means(s).marks + Sum(states).marks
      modifies this
      ensures ok ==>
                Between() && StepNode(Owe(Means(s).shape, old(Sum(states).owed)), e) == Some(Owes()) && StartsNode(e)
      ensures ok ==> Potential() <= old(5 * (|tokens| - head) + Sum(states).rank) + Means(s).rank + 1
      ensures var r := D.Node(old(Rest()), old(tagDirectives), block, indentlessSequence);
              var all := if r.error.NoError? then D.After(r, Continue(s, r.rest, old(tagDirectives), old(marks)))
                else r;
              Queue() && Yields(Resume(old(states), Below(s, old(marks)), old(tagDirectives), all), ok, e, Future(),
                error)
      ensures emitted == old(emitted)
    {
      hide Continue, Below, Resume, D.Node;
      StatePushed(states, s);
      ResumePushed(states, s, marks, tagDirectives, D.Node(Rest(), tagDirectives, block, indentlessSequence));
      states := states + [s];
      ok, e := ParseNode(block, indentlessSequence);
    }

    /** Parses a node that is left out where one of the tokens in `ends` follows,
        to return to `s` after it. */
    method ParseOptional(s: State, block: bool, indentlessSequence: bool, ends: set<TokenType>)
      returns (ok: bool, e: Event)
      requires Queue() && error.NoError? && !streamEndProduced
      requires Sum(states).nested && Means(s).place.Return? && |marks| == Means(s).marks + Sum(states).marks
      modifies this
      ensures ok ==>
                Between() && StepNode(Owe(Means(s).shape, old(Sum(states).owed)), e) == Some(Owes()) && StartsNode(e)
      ensures ok ==> Potential() <= old(5 * (|tokens| - head) + Sum(states).rank) + Means(s).rank + 1
      ensures var r := D.Optional(old(Rest()), old(tagDirectives), block, indentlessSequence, ends);
              var all := if r.error.NoError? then D.After(r, Continue(s, r.rest, old(tagDirectives), old(marks)))
                else r;
              Queue() && Yields(Resume(old(states), Below(s, old(marks)), old(tagDirectives), all), ok, e, Future(),
                error)
      ensures emitted == old(emitted)
    {
      hide Sum, Continue, Below, Resume, D.Node, StepNode;
      ResumeFailed(states, Below(s, marks), tagDirectives);
      var token;
      ok, token := PeekToken();
      if !ok { return false, NoEvent; }
      if token.typ in ends {
        e := EmptyScalar(s);
      } else {
        ok, e := ParseNodeOn(s, block, indentlessSequence);
      }
    }

    /** Takes the opening token of a collection, which is there already. */
    method OpenCollection()
      requires Queue() && tokenAvailable && error.NoError?
      modifies this`tokenAvailable, this`tokensParsed, this`streamEndProduced, this`head, this`marks, this`error
      ensures Queue() && error.NoError? && head == old(head) + 1
      ensures streamEndProduced == tokens[old(head)].typ.StreamEndToken?
      ensures marks == old(marks) + [tokens[old(head)].startMark] && Rest() == old(Rest())[1..]
    {
      var ok, token := PeekToken();
      marks := marks + [token.startMark];
      SkipToken();
    }

    /** Takes the token of a node that is only one event. */
    method TakeLeaf(ghost e: Event)
      requires Queue() && tokenAvailable && error.NoError? && !streamEndProduced
      requires Sum(states).nested && |marks| == Sum(states).marks
      requires !tokens[head].typ.StreamEndToken?
      modifies this`state, this`states, this`head, this`tokenAvailable, this`tokensParsed, this`streamEndProduced
      ensures Between() && Owes() == old(Sum(states).owed)
      ensures Potential() < old(5 * (|tokens| - head) + Sum(states).rank)
      ensures Resume(old(states), marks, tagDirectives, D.Done(e, old(Rest())[1..])) == D.Before(e, Future())
    {
      hide Sum, Continue, Below, Resume;
      PopState();
      SkipToken();
      ResumePopped(old(states), marks, tagDirectives, Rest());
    }

    /** Ends a node that takes no token. */
    method EndNode(ghost e: Event)
      requires Queue() && error.NoError? && !streamEndProduced
      requires Sum(states).nested && |marks| == Sum(states).marks
      modifies this`state, this`states
      ensures Between() && Owes() == old(Sum(states).owed)
      ensures Potential() == old(5 * (|tokens| - head) + Sum(states).rank)
      ensures Resume(old(states), marks, tagDirectives, D.Done(e, Rest())) == D.Before(e, Future())
    {
      hide Sum, Continue, Below, Resume;
      PopState();
      ResumePopped(old(states), marks, tagDirectives, Rest());
    }

    /** Takes the closing token of a collection and forgets its opening mark. */
    method CloseCollection(ghost e: Event)
      requires Queue() && tokenAvailable && error.NoError?
      requires Sum(states).nested && |marks| == 1 + Sum(states).marks
      requires !tokens[head].typ.StreamEndToken?
      modifies this`state, this`states, this`marks, this`head, this`tokenAvailable, this`tokensParsed,
                 this`streamEndProduced
      ensures Between() && Owes() == old(Sum(states).owed)
      ensures Potential() < old(5 * (|tokens| - head) + Sum(states).rank)
      ensures Resume(old(states), old(marks[..|marks| - 1]), tagDirectives,
                D.Done(e, old(Rest())[1..])) == D.Before(e, Future())
      ensures !state.ParseEnd?
    {
      hide Sum, Continue, Below, Resume;
      PopState();
      marks := marks[..|marks| - 1];
      SkipToken();
      ResumePopped(old(states), marks, tagDirectives, Rest());
    }

    /** Reports a missing token against the opening mark of the collection. */
    method FailInCollection(context: Context, problem: Problem, mark: int)
      requires marks != []
      modifies this`marks, this`error
      ensures error == ParserError(context, old(marks[|marks| - 1]), problem, mark)
    {
      var contextMark := marks[|marks| - 1];
      marks := marks[..|marks| - 1];
      SetParserError(context, contextMark, problem, mark);
    }

    method ParseNode(block: bool, indentlessSequence: bool) returns (ok: bool, e: Event)
      requires Queue() && error.NoError? && !streamEndProduced
      requires Sum(states).nested && |marks| == Sum(states).marks
      modifies this
      ensures ok ==> Between() && StepNode(old(Sum(states).owed), e) == Some(Owes()) && StartsNode(e)
      ensures ok ==> Potential() <= old(5 * (|tokens| - head) + Sum(states).rank) + 1
      ensures Queue() && Yields(Resume(old(states), old(marks), old(tagDirectives),
                D.Node(old(Rest()), old(tagDirectives), block, indentlessSequence)), ok, e, Future(), error)
      ensures emitted == old(emitted)
    {
      hide Sum, Continue, Below, Resume, D.Body, D.NodeProperties;
      ResumeFailed(states, marks, tagDirectives);
      var token;
      ok, token := PeekToken();
      if !ok { return false, NoEvent; }

      if token.typ.AliasToken? {
        e := Alias(token.value);
        TakeLeaf(e);
        return true, e;
      }

      var anchor, tag, startMark;
      ok, anchor, tag, startMark := ParseProperties();
      if !ok { return false, NoEvent; }
      ok, e := ParseContent(block, indentlessSequence, anchor, tag, startMark);
    }

    /** The anchor and the tag before a node, in either order. Whatever is
        present takes a token. */
    method ParseProperties() returns (ok: bool, anchor: string, tag: string, startMark: int)
      requires Queue() && error.NoError? && !streamEndProduced && tokenAvailable
      modifies this`head, this`tokenAvailable, this`tokensParsed, this`streamEndProduced, this`error
      ensures Queue() && old(head) <= head
      ensures ok ==> error.NoError? && tokenAvailable && !streamEndProduced
      ensures ok && (anchor != "" || tag != "") ==> old(head) < head
      ensures ok ==> startMark == old(Rest())[0].startMark
      ensures ok ==> D.NodeProperties(old(Rest()), tagDirectives) == D.Properties(anchor, tag, Rest(), NoError)
      ensures !ok ==> !error.NoError? && D.NodeProperties(old(Rest()), tagDirectives).error == error
    {
      anchor, tag := "", "";
      var token;
      ok, token := PeekToken();
      startMark := token.startMark;
      var tagToken, tagHandle, tagSuffix, tagMark := false, "", "", 0;
      if token.typ.AnchorToken? {
        anchor := token.value;
        ok, token := NextToken();
        if !ok { return; }
        if token.typ.TagToken? {
          tagToken, tagHandle, tagSuffix, tagMark := true, token.value, token.suffix, token.startMark;
          ok, token := NextToken();
          if !ok { return; }
        }
      } else if token.typ.TagToken? {
        tagToken, tagHandle, tagSuffix, tagMark := true, token.value, token.suffix, token.startMark;
        ok, token := NextToken();
        if !ok { return; }
        if token.typ.AnchorToken? {
          anchor := token.value;
          ok, token := NextToken();
          if !ok { return; }
        }
      }
      if tagToken {
        ok, tag := ResolveTag(tagHandle, tagSuffix);
        if !ok {
          SetParserError(InNode, startMark, UndefinedTagHandle, tagMark);
          return;
        }
      }
    }

    /** A sequence or mapping starts if the token at hand opens one in this context;
        the token itself stays, for the FIRST state to take. */
    method BeginCollection(block: bool, indentlessSequence: bool, anchor: string, tag: string)
      returns (found: bool, e: Event)
      requires Queue() && error.NoError? && !streamEndProduced && tokenAvailable
      requires Sum(states).nested && |marks| == Sum(states).marks
      modifies this`state
      ensures found ==> Between() && StepNode(Sum(states).owed, e) == Some(Owes()) && StartsNode(e)
      ensures found == D.Opens(tokens[head].typ, block, indentlessSequence)
      ensures found ==> Yields(Resume(states, marks, tagDirectives,
                D.Collection(Rest(), tagDirectives, block, indentlessSequence, anchor, tag)), true, e, Future(), error)
      ensures found ==> Potential() <= 5 * (|tokens| - head) + Sum(states).rank + 1
    {
      hide Sum, Owe, Continue, Below, Resume, D.After, D.Before;
      hide D.Collection;
      CollectionsOwe(Sum(states).owed);
      var typ := tokens[head].typ;
      var implicit := |tag| == 0;
      if indentlessSequence && typ.BlockEntryToken? {
        state, e := ParseIndentlessSequenceEntry, SequenceStart(anchor, tag, implicit, Block);
      } else if typ.FlowSequenceStartToken? {
        state, e := ParseFlowSequenceFirstEntry, SequenceStart(anchor, tag, implicit, Flow);
      } else if typ.FlowMappingStartToken? {
        state, e := ParseFlowMappingFirstKey, MappingStart(anchor, tag, implicit, Flow);
      } else if block && typ.BlockSequenceStartToken? {
        state, e := ParseBlockSequenceFirstEntry, SequenceStart(anchor, tag, implicit, Block);
      } else if block && typ.BlockMappingStartToken? {
        state, e := ParseBlockMappingFirstKey, MappingStart(anchor, tag, implicit, Block);
      } else {
        return false, NoEvent;
      }
      found := true;
      CollectionSpells(state, Rest(), tagDirectives, marks, block, indentlessSequence, anchor, tag);
      ResumeBefore(states, marks, tagDirectives, e, Continue(state, Rest(), tagDirectives, marks));
    }

    method ParseContent(block: bool, indentlessSequence: bool, anchor: string, tag: string, startMark: int)
      returns (ok: bool, e: Event)
      requires Queue() && error.NoError? && !streamEndProduced && tokenAvailable
      requires Sum(states).nested && |marks| == Sum(states).marks
      modifies this
      ensures ok ==> Between() && StepNode(old(Sum(states).owed), e) == Some(Owes()) && StartsNode(e)
      ensures ok ==> Potential() <= old(5 * (|tokens| - head) + Sum(states).rank) + 1
      ensures Queue() && Yields(Resume(old(states), old(marks), old(tagDirectives),
                D.Body(old(Rest()), old(tagDirectives), block, indentlessSequence, anchor, tag, startMark)), ok, e,
                  Future(), error)
      ensures emitted == old(emitted)
    {
      hide D.Collection, D.Before, D.Node, D.BlockEntries, D.BlockPairs, D.IndentlessEntries, D.FlowEntries;
      hide D.FlowPairs;
      hide Sum, Continue, Below, Resume;
      ResumeFailed(states, marks, tagDirectives);
      var token;
      ok, token := PeekToken();
      if token.typ.ScalarToken? {
        var plainImplicit := (|tag| == 0 && token.style.Plain?) || tag == "!";
        var quotedImplicit := !plainImplicit && |tag| == 0;
        e := Scalar(anchor, tag, token.value, plainImplicit, quotedImplicit, token.style);
        TakeLeaf(e);
        return true, e;
      }
      ok, e := BeginCollection(block, indentlessSequence, anchor, tag);
      if ok { return; }
      if |anchor| > 0 || |tag| > 0 {
        e := Scalar(anchor, tag, "", |tag| == 0, false, Plain);
        EndNode(e);
        return true, e;
      }

      SetParserError(if block then InBlockNode else InFlowNode, startMark,
                     ExpectedNodeContent, token.startMark);
      return false, NoEvent;
    }

    /** The tag a TAG token stands for: verbatim without a handle, otherwise
        expanded by the first directive in force for the handle. */
    method ResolveTag(handle: string, suffix: string) returns (ok: bool, tag: string)
      ensures handle == "" ==> ok && tag == suffix
      ensures handle != "" ==> tag == Expand(tagDirectives, handle, suffix) && ok == (tag != "")
    {
      if handle == "" { return true, suffix; }
      tag := "";
      for i := 0 to |tagDirectives|
        invariant tag == ""
        invariant Expand(tagDirectives, handle, suffix) == Expand(tagDirectives[i..], handle, suffix)
      {
        assert tagDirectives[i..][1..] == tagDirectives[i + 1..];
        if tagDirectives[i].0 == handle {
          tag := tagDirectives[i].1 + suffix;
          break;
        }
      }
      ok := |tag| != 0;
    }

    // ---- Block collections ----

    method ParseBlockSequenceEntryState(first: bool) returns (ok: bool, e: Event)
      requires Between() && state == if first then ParseBlockSequenceFirstEntry else ParseBlockSequenceEntry
      modifies this
      ensures Advanced(old(Owes()), old(Potential()), old(Future()), ok, e) && emitted == old(emitted)
      ensures ok ==> !e.NoEvent?
    {
      hide Sum, Continue, Below, Resume, D.After, D.Before, StepNode;
      hide D.BlockEntries, D.Node, D.BlockPairs, D.BlockValue, D.IndentlessEntries, D.FlowEntries, D.FlowEntry;
      hide D.PairKey, D.PairValue, D.PairEnd, D.FlowPairs, D.FlowPair, D.FlowValue;
      ResumeFailed(states, Below(state, marks), tagDirectives);
      if first { StateSpells(state, Rest(), tagDirectives, marks); }
      if first { OpenCollection(); }
      StatesSpell(marks);
      ok, e := ParseBlockEntry();
    }

    method ParseBlockEntry() returns (ok: bool, e: Event)
      requires Queue() && error.NoError? && !streamEndProduced
      requires Sum(states).nested && |marks| == 1 + Sum(states).marks
      modifies this
      ensures ok ==> Between() && Step(Items(old(Sum(states).owed)), e) == Some(Owes())
      ensures ok ==> Potential() < old(5 * (|tokens| - head) + Sum(states).rank)
      ensures ok ==> !e.NoEvent?
      ensures Queue() && Yields(Resume(old(states), old(marks[..|marks| - 1]), old(tagDirectives),
                D.BlockEntries(old(Rest()), old(tagDirectives), old(marks[|marks| - 1]))), ok, e, Future(), error)
      ensures emitted == old(emitted)
    {
      hide Sum, Continue, Below, Resume, D.After, D.Before, StepNode;
      hide D.Node, D.Optional, D.BlockPairs, D.BlockValue, D.IndentlessEntries, D.FlowEntries, D.FlowEntry, D.PairKey;
      hide D.PairValue, D.PairEnd, D.FlowPairs, D.FlowPair, D.FlowValue, D.Done;
      var token;
      ResumeFailed(states, marks[..|marks| - 1], tagDirectives);
      StatesSpell(marks);
      assert Owe(Entries, Sum(states).owed) == Items(Sum(states).owed);
      ok, token := PeekToken();
      if !ok { return false, NoEvent; }

      if token.typ.BlockEntryToken? {
        SkipToken();
        ok, e := ParseOptional(ParseBlockSequenceEntry, true, false, D.ENDS_ENTRY);
        return;
      }
      if token.typ.BlockEndToken? {
        e := SequenceEnd;
        CloseCollection(e);
        return true, e;
      }

      FailInCollection(InBlockCollection, ExpectedBlockEntry, token.startMark);
      return false, NoEvent;
    }

    method ParseIndentlessSequenceEntryState() returns (ok: bool, e: Event)
      requires Between() && state.ParseIndentlessSequenceEntry?
      modifies this
      ensures Advanced(old(Owes()), old(Potential()), old(Future()), ok, e) && emitted == old(emitted)
      ensures ok ==> !e.NoEvent?
    {
      hide Sum, Continue, Below, Resume, D.After, D.Before, StepNode;
      hide D.Node, D.Optional, D.BlockEntries, D.BlockPairs, D.BlockValue, D.FlowEntries, D.FlowEntry, D.PairKey;
      hide D.PairValue, D.PairEnd, D.FlowPairs, D.FlowPair, D.FlowValue;
      var token;
      ResumeFailed(states, Below(state, marks), tagDirectives);
      IndentlessSpells(marks);
      ok, token := PeekToken();
      if !ok { return false, NoEvent; }
      if token.typ.BlockEntryToken? {
        SkipToken();
        ok, e := ParseOptional(ParseIndentlessSequenceEntry, true, false, D.ENDS_INDENTLESS);
        return;
      }
      e := SequenceEnd;
      EndNode(e);
      return true, e;
    }

    method ParseBlockMappingKeyState(first: bool) returns (ok: bool, e: Event)
      requires Between() && state == if first then ParseBlockMappingFirstKey else ParseBlockMappingKey
      modifies this
      ensures Advanced(old(Owes()), old(Potential()), old(Future()), ok, e) && emitted == old(emitted)
      ensures ok ==> !e.NoEvent?
    {
      hide Sum, Continue, Below, Resume, D.After, D.Before, StepNode;
      hide D.BlockPairs, D.Node, D.BlockEntries, D.BlockValue, D.IndentlessEntries, D.FlowEntries, D.FlowEntry;
      hide D.PairKey, D.PairValue, D.PairEnd, D.FlowPairs, D.FlowPair, D.FlowValue;
      ResumeFailed(states, Below(state, marks), tagDirectives);
      if first { StateSpells(state, Rest(), tagDirectives, marks); }
      if first { OpenCollection(); }
      StatesSpell(marks);
      ok, e := ParseBlockPair();
    }

    method ParseBlockPair() returns (ok: bool, e: Event)
      requires Queue() && error.NoError? && !streamEndProduced
      requires Sum(states).nested && |marks| == 1 + Sum(states).marks
      modifies this
      ensures ok ==> Between() && Step(Pairs(old(Sum(states).owed)), e) == Some(Owes())
      ensures ok ==> Potential() < old(5 * (|tokens| - head) + Sum(states).rank)
      ensures ok ==> !e.NoEvent?
      ensures Queue() && Yields(Resume(old(states), old(marks[..|marks| - 1]), old(tagDirectives),
                D.BlockPairs(old(Rest()), old(tagDirectives), old(marks[|marks| - 1]))), ok, e, Future(), error)
      ensures emitted == old(emitted)
    {
      hide Sum, Continue, Below, Resume, D.After, D.Before, StepNode, Named, Means;
      hide D.Node, D.Optional, D.BlockEntries, D.BlockValue, D.IndentlessEntries, D.FlowEntries, D.FlowEntry, D.PairKey;
      hide D.PairValue, D.PairEnd, D.FlowPairs, D.FlowPair, D.FlowValue, D.Done;
      PairsMean();
      var token;
      ResumeFailed(states, marks[..|marks| - 1], tagDirectives);
      StatesSpell(marks);
      assert Owe(Keys, Sum(states).owed) == Pairs(Sum(states).owed);
      ok, token := PeekToken();
      if !ok { return false, NoEvent; }

      if token.typ.KeyToken? {
        SkipToken();
        ok, e := ParseOptional(ParseBlockMappingValue, true, true, D.ENDS_BLOCK);
        return;
      } else if token.typ.BlockEndToken? {
        e := MappingEnd;
        CloseCollection(e);
        return true, e;
      }

      FailInCollection(InBlockMapping, ExpectedKey, token.startMark);
      return false, NoEvent;
    }

    method ParseBlockMappingValueState() returns (ok: bool, e: Event)
      requires Between() && state.ParseBlockMappingValue?
      modifies this
      ensures Advanced(old(Owes()), old(Potential()), old(Future()), ok, e) && emitted == old(emitted)
      ensures ok ==> !e.NoEvent?
    {
      hide Sum, Continue, Below, Resume, D.After, D.Before, StepNode;
      hide D.Node, D.Optional, D.BlockEntries, D.BlockPairs, D.IndentlessEntries, D.FlowEntries, D.FlowEntry, D.PairKey;
      hide D.PairValue, D.PairEnd, D.FlowPairs, D.FlowPair, D.FlowValue;
      var token;
      ResumeFailed(states, Below(state, marks), tagDirectives);
      StatesSpell(marks);
      assert Owes() == Value(Sum(states).owed);
      ok, token := PeekToken();
      if !ok { return false, NoEvent; }
      if token.typ.ValueToken? {
        SkipToken();
        ok, e := ParseOptional(ParseBlockMappingKey, true, true, D.ENDS_BLOCK);
        return;
      }
      e := EmptyScalar(ParseBlockMappingKey);
      return true, e;
    }

    // ---- Flow collections ----

    method ParseFlowSequenceEntryState(first: bool) returns (ok: bool, e: Event)
      requires Between() && state == if first then ParseFlowSequenceFirstEntry else ParseFlowSequenceEntry
      modifies this
      ensures Advanced(old(Owes()), old(Potential()), old(Future()), ok, e) && emitted == old(emitted)
      ensures ok ==> !e.NoEvent?
    {
      hide Sum, Continue, Below, Resume, D.After, D.Before, StepNode;
      hide D.Node, D.Optional, D.BlockEntries, D.BlockPairs, D.BlockValue, D.IndentlessEntries, D.PairKey, D.PairValue;
      hide D.PairEnd, D.FlowPairs, D.FlowPair, D.FlowValue;
      var token;
      ResumeFailed(states, Below(state, marks), tagDirectives);
      if first { StateSpells(state, Rest(), tagDirectives, marks); }
      if first { OpenCollection(); }
      StatesSpell(marks);
      ok, token := PeekToken();
      if !ok { return false, NoEvent; }
      if !first && !token.typ.FlowSequenceEndToken? {
        ok, token := TakeSeparator(InFlowSequence, ExpectedCommaOrBracket);
        if !ok { return false, NoEvent; }
      }
      ok, e := ParseFlowSequenceItem();
    }

    method ParseFlowSequenceItem() returns (ok: bool, e: Event)
      requires Queue() && tokenAvailable && error.NoError? && !streamEndProduced
      requires Sum(states).nested && |marks| == 1 + Sum(states).marks
      modifies this
      ensures ok ==> Between() && Step(Items(old(Sum(states).owed)), e) == Some(Owes())
      ensures ok ==> Potential() <= old(5 * (|tokens| - head) + Sum(states).rank) + 2
      ensures ok && old(tokens[head]).typ.FlowSequenceEndToken? ==>
                Potential() < old(5 * (|tokens| - head) + Sum(states).rank)
      ensures ok ==> !e.NoEvent?
      ensures Queue() && Yields(Resume(old(states), old(marks[..|marks| - 1]), old(tagDirectives),
                D.FlowEntry(old(Rest()), old(tagDirectives), old(marks[|marks| - 1]))), ok, e, Future(), error)
      ensures emitted == old(emitted)
    {
      hide Sum, Owe, Continue, Below, Resume, D.After, D.Before;
      hide D.Node, D.Optional, D.BlockEntries, D.BlockPairs, D.BlockValue, D.IndentlessEntries, D.FlowEntries;
      hide D.PairKey, D.PairValue, D.PairEnd, D.FlowPairs, D.FlowPair, D.FlowValue;
      CollectionsOwe(Sum(states).owed);
      var token;
      ResumeFailed(states, marks[..|marks| - 1], tagDirectives);
      StatesSpell(marks);
      ok, token := PeekToken();
      if token.typ.KeyToken? {
        SkipToken();
        e := MappingStart("", "", true, Flow);
        GoTo(ParseFlowSequenceEntryMappingKey, e);
        return true, e;
      } else if !token.typ.FlowSequenceEndToken? {
        ok, e := ParseNodeOn(ParseFlowSequenceEntry, false, false);
        return;
      }
      e := SequenceEnd;
      CloseCollection(e);
      return true, e;
    }

    method ParseFlowSequenceEntryMappingKeyState() returns (ok: bool, e: Event)
      requires Between() && state.ParseFlowSequenceEntryMappingKey?
      modifies this
      ensures Advanced(old(Owes()), old(Potential()), old(Future()), ok, e) && emitted == old(emitted)
      ensures ok ==> !e.NoEvent?
    {
      hide Sum, Owe, Continue, Below, Resume, D.After, D.Before, StepNode;
      hide D.Node, D.Optional, D.BlockEntries, D.BlockPairs, D.BlockValue, D.IndentlessEntries, D.FlowEntries;
      hide D.FlowEntry, D.PairValue, D.PairEnd, D.FlowPairs, D.FlowPair, D.FlowValue;
      var token;
      ResumeFailed(states, Below(state, marks), tagDirectives);
      StatesSpell(marks);
      CollectionsOwe(Sum(states).owed);
      ok, token := PeekToken();
      if !ok { return false, NoEvent; }
      if token.typ !in D.ENDS_PAIR_KEY {
        ok, e := ParseNodeOn(ParseFlowSequenceEntryMappingValue, false, false);
        return;
      }
      SkipToken();
      e := EmptyScalar(ParseFlowSequenceEntryMappingValue);
      return true, e;
    }

    method ParseFlowSequenceEntryMappingValueState() returns (ok: bool, e: Event)
      requires Between() && state.ParseFlowSequenceEntryMappingValue?
      modifies this
      ensures Advanced(old(Owes()), old(Potential()), old(Future()), ok, e) && emitted == old(emitted)
      ensures ok ==> !e.NoEvent?
    {
      hide Sum, Continue, Below, Resume, D.After, D.Before, StepNode;
      hide D.Node, D.Optional, D.BlockEntries, D.BlockPairs, D.BlockValue, D.IndentlessEntries, D.FlowEntries;
      hide D.FlowEntry, D.PairKey, D.PairEnd, D.FlowPairs, D.FlowPair, D.FlowValue;
      var token;
      ResumeFailed(states, Below(state, marks), tagDirectives);
      StatesSpell(marks);
      assert Owes() == Value(Items(Sum(states).owed));
      ok, token := PeekToken();
      if !ok { return false, NoEvent; }
      if token.typ.ValueToken? {
        SkipToken();
        ok, e := ParseOptional(ParseFlowSequenceEntryMappingEnd, false, false, D.ENDS_PAIR);
        return;
      }
      e := EmptyScalar(ParseFlowSequenceEntryMappingEnd);
      return true, e;
    }

    method ParseFlowSequenceEntryMappingEndState() returns (ok: bool, e: Event)
      requires Between() && state.ParseFlowSequenceEntryMappingEnd?
      modifies this
      ensures Advanced(old(Owes()), old(Potential()), old(Future()), ok, e) && emitted == old(emitted)
      ensures ok ==> e.MappingEnd?
    {
      hide Sum, Continue, Below, Resume, D.After, D.Before, StepNode;
      hide D.Node, D.Optional, D.BlockEntries, D.BlockPairs, D.BlockValue, D.IndentlessEntries, D.FlowEntries;
      hide D.FlowEntry, D.PairKey, D.PairValue, D.FlowPairs, D.FlowPair, D.FlowValue;
      var token;
      ResumeFailed(states, Below(state, marks), tagDirectives);
      StatesSpell(marks);
      ok, token := PeekToken();
      if !ok { return false, NoEvent; }
      e := MappingEnd;
      GoTo(ParseFlowSequenceEntry, e);
      return true, e;
    }

    method ParseFlowMappingKeyState(first: bool) returns (ok: bool, e: Event)
      requires Between() && state == if first then ParseFlowMappingFirstKey else ParseFlowMappingKey
      modifies this
      ensures Advanced(old(Owes()), old(Potential()), old(Future()), ok, e) && emitted == old(emitted)
      ensures ok ==> !e.NoEvent?
    {
      hide Sum, Continue, Below, Resume, D.After, D.Before, StepNode;
      hide D.Node, D.Optional, D.BlockEntries, D.BlockPairs, D.BlockValue, D.IndentlessEntries, D.FlowEntries;
      hide D.FlowEntry, D.PairKey, D.PairValue, D.PairEnd, D.FlowValue;
      var token;
      ResumeFailed(states, Below(state, marks), tagDirectives);
      if first { StateSpells(state, Rest(), tagDirectives, marks); }
      if first { OpenCollection(); }
      StatesSpell(marks);
      ok, token := PeekToken();
      if !ok { return false, NoEvent; }

      if !first && !token.typ.FlowMappingEndToken? {
        ok, token := TakeSeparator(InFlowMapping, ExpectedCommaOrBrace);
        if !ok { return false, NoEvent; }
      }
      ok, e := ParseFlowMappingPair();
    }

    method ParseFlowMappingPair() returns (ok: bool, e: Event)
      requires Queue() && tokenAvailable && error.NoError? && !streamEndProduced
      requires Sum(states).nested && |marks| == 1 + Sum(states).marks
      modifies this
      ensures ok ==> Between() && Step(Pairs(old(Sum(states).owed)), e) == Some(Owes())
      ensures ok ==> Potential() <= old(5 * (|tokens| - head) + Sum(states).rank) + 2
      ensures ok && old(tokens[head]).typ.FlowMappingEndToken? ==>
                Potential() < old(5 * (|tokens| - head) + Sum(states).rank)
      ensures ok ==> !e.NoEvent?
      ensures Queue() && Yields(Resume(old(states), old(marks[..|marks| - 1]), old(tagDirectives),
                D.FlowPair(old(Rest()), old(tagDirectives), old(marks[|marks| - 1]))), ok, e, Future(), error)
      ensures emitted == old(emitted)
    {
      hide Sum, Continue, Below, Resume, D.After, D.Before, StepNode;
      hide D.Node, D.Optional, D.BlockEntries, D.BlockPairs, D.BlockValue, D.IndentlessEntries, D.FlowEntries;
      hide D.FlowEntry, D.PairKey, D.PairValue, D.PairEnd, D.FlowPairs, D.FlowValue;
      var token;
      ResumeFailed(states, marks[..|marks| - 1], tagDirectives);
      StatesSpell(marks);
      ok, token := PeekToken();
      if token.typ.KeyToken? {
        SkipToken();
        ok, e := ParseOptional(ParseFlowMappingValue, false, false, D.ENDS_FLOW_KEY);
        return;
      } else if !token.typ.FlowMappingEndToken? {
        ok, e := ParseNodeOn(ParseFlowMappingEmptyValue, false, false);
        return;
      }
      e := MappingEnd;
      CloseCollection(e);
      return true, e;
    }

    method ParseFlowMappingValueState(empty: bool) returns (ok: bool, e: Event)
      requires Between() && state == if empty then ParseFlowMappingEmptyValue else ParseFlowMappingValue
      modifies this
      ensures Advanced(old(Owes()), old(Potential()), old(Future()), ok, e) && emitted == old(emitted)
      ensures ok ==> !e.NoEvent?
    {
      hide Sum, Continue, Below, Resume, D.After, D.Before, StepNode;
      hide D.Node, D.Optional, D.BlockEntries, D.BlockPairs, D.BlockValue, D.IndentlessEntries, D.FlowEntries;
      hide D.FlowEntry, D.PairKey, D.PairValue, D.PairEnd, D.FlowPairs, D.FlowPair;
      var token;
      ResumeFailed(states, Below(state, marks), tagDirectives);
      StatesSpell(marks);
      assert Owes() == Value(Sum(states).owed);
      ok, token := PeekToken();
      if !ok { return false, NoEvent; }
      if empty {
        e := EmptyScalar(ParseFlowMappingKey);
        return true, e;
      }
      if token.typ.ValueToken? {
        SkipToken();
        ok, e := ParseOptional(ParseFlowMappingKey, false, false, D.ENDS_FLOW);
        return;
      }
      e := EmptyScalar(ParseFlowMappingKey);
      return true, e;
    }
  }
}
