/** How the parser reads what the emitter writes, one event at a time. A reader is a
    configuration of the parser; `Step` says that some tokens, whatever follows them,
    are read as one event and leave another configuration. */
module YamlReadBack {
  import opened YamlGrammar
  import opened YamlTokens
  import opened YamlTags
  import D = YamlDescent
  import P = YamlParser

  // ---- What is read back ----

  /** The event read is the one written, up to flags that the text does not hold.
      A tag that may be left implicit may be missing; the flags read are then ones
      the event has. */
  predicate Agrees(e: Event, f: Event) {
    match e
    case NoEvent => f.NoEvent?
    case StreamStart => f.StreamStart?
    case StreamEnd => f.StreamEnd?
    case DocumentStart(version, directives, _) =>
      f.DocumentStart? && f.explicitVersion == version && f.directives == directives
    case DocumentEnd(implicit) => f.DocumentEnd? && (f.implicitEnd ==> implicit)
    case Alias(_) => f == e
    case Scalar(anchor, tag, value, implicit, quotedImplicit, _) =>
      && f.Scalar? && f.anchor == anchor && f.value == value
      && (f.tag == tag || (f.tag == "" && (implicit || quotedImplicit)))
      && (f.tag == "" ==> (f.implicit ==> implicit) && (f.quotedImplicit ==> quotedImplicit))
    case SequenceStart(anchor, tag, implicit, style) =>
      && f.SequenceStart? && f.anchor == anchor && (style.Flow? ==> f.style.Flow?)
      && (f.tag == tag || (f.tag == "" && implicit))
    case SequenceEnd => f.SequenceEnd?
    case MappingStart(anchor, tag, implicit, style) =>
      && f.MappingStart? && f.anchor == anchor && (style.Flow? ==> f.style.Flow?)
      && (f.tag == tag || (f.tag == "" && implicit))
    case MappingEnd => f.MappingEnd?
  }

  /** `s` is one event that agrees with `e`, and then `more`. */
  predicate OneThen(s: D.Spelled, e: Event, more: D.Spelled) {
    && s.events != [] && Agrees(e, s.events[0]) && s.events[1..] == more.events
    && s.rest == more.rest && s.error == more.error
  }

  lemma BeforeIsOneThen(e: Event, f: Event, more: D.Spelled)
    requires Agrees(e, f)
    ensures OneThen(D.Before(f, more), e, more)
  {
    assert ([f] + more.events)[1..] == more.events;
  }

  // ---- Readers ----

  /** The state of the parser and those it returns to. `isNew` is an indentless
      sequence of which nothing has been read yet. */
  datatype Reader = Reader(top: P.State, below: seq<P.State>, dirs: seq<(string, string)>, isNew: bool)

  function Spells(r: Reader, ts: seq<Token>): D.Spelled {
    P.Resume(r.below, [], r.dirs, P.Continue(r.top, ts, r.dirs, []))
  }

  const FLOW_STARTS := {AliasToken, AnchorToken, TagToken, ScalarToken, FlowSequenceStartToken, FlowMappingStartToken}
  const BLOCK_STARTS := FLOW_STARTS + {BlockSequenceStartToken, BlockMappingStartToken}
  const PROLOGUE := {VersionDirectiveToken, TagDirectiveToken, DocumentStartToken, StreamEndToken}

  /** What the emitter writes next. */
  function Follow(r: Reader): set<TokenType> {
    match r.top
    case ParseStreamStart => {StreamStartToken}
    case ParseImplicitDocumentStart => PROLOGUE + BLOCK_STARTS
    case ParseDocumentStart => PROLOGUE + {DocumentEndToken}
    case ParseDocumentContent => PROLOGUE + {DocumentEndToken} + BLOCK_STARTS
    case ParseDocumentEnd => PROLOGUE + {DocumentEndToken}
    case ParseBlockNode => BLOCK_STARTS
    case ParseBlockNodeOrIndentlessSequence => BLOCK_STARTS + {BlockEntryToken}
    case ParseFlowNode => FLOW_STARTS
    case ParseBlockSequenceFirstEntry => {BlockSequenceStartToken}
    case ParseBlockSequenceEntry => {BlockEntryToken, BlockEndToken}
    case ParseIndentlessSequenceEntry =>
      if r.isNew then {BlockEntryToken} else {BlockEntryToken, KeyToken, ValueToken, BlockEndToken}
    case ParseBlockMappingFirstKey => {BlockMappingStartToken}
    case ParseBlockMappingKey => {KeyToken, BlockEndToken}
    case ParseBlockMappingValue => {ValueToken}
    case ParseFlowSequenceFirstEntry => {FlowSequenceStartToken}
    case ParseFlowSequenceEntry => {FlowEntryToken, FlowSequenceEndToken}
    case ParseFlowMappingFirstKey => {FlowMappingStartToken}
    case ParseFlowMappingKey => {FlowEntryToken, FlowMappingEndToken}
    case ParseFlowMappingValue => {ValueToken}
    case _ => {}
  }

  predicate Expects(r: Reader, ts: seq<Token>) {
    r.top.ParseEnd? || (ts != [] && ts[0].typ in Follow(r))
  }

  /** The tokens are read as one event that agrees with `e`. */
  ghost predicate Step(r: Reader, ts: seq<Token>, e: Event, r': Reader) {
    forall more :: Expects(r', more) ==> Expects(r, ts + more) && OneThen(Spells(r, ts + more), e, Spells(r', more))
  }

  /** The tokens are read without an event. */
  ghost predicate Silent(r: Reader, ts: seq<Token>, r': Reader) {
    forall more :: Expects(r', more) ==> Expects(r, ts + more) && Spells(r, ts + more) == Spells(r', more)
  }

  /** The tokens lead to a node, which in block style may be nothing at all. */
  ghost predicate Leads(r: Reader, ts: seq<Token>, hole: Reader) {
    hole.below != [] && Silent(r, ts, hole) && (!hole.top.ParseFlowNode? ==> Step(r, ts, D.EMPTY, Popped(hole)))
  }

  /** What was written for the first event of a node, perhaps nothing for an empty scalar. */
  ghost predicate NodeRead(hole: Reader, ts: seq<Token>, e: Event, r': Reader) {
    Step(hole, ts, e, r') || Skipped(hole, ts, e, r')
  }

  predicate Skipped(hole: Reader, ts: seq<Token>, e: Event, r': Reader) {
    ts == [] && Agrees(e, D.EMPTY) && !hole.top.ParseFlowNode? && hole.below != [] && r' == Popped(hole)
  }

  lemma Composed(r: Reader, a: seq<Token>, hole: Reader, b: seq<Token>, e: Event, r': Reader)
    requires Leads(r, a, hole) && NodeRead(hole, b, e, r')
    ensures Step(r, a + b, e, r')
  {
    hide Spells, Expects, OneThen, Skipped;
    if Step(hole, b, e, r') {
      forall more | Expects(r', more)
        ensures Expects(r, a + b + more) && OneThen(Spells(r, a + b + more), e, Spells(r', more))
      {
        assert a + b + more == a + (b + more);
        assert Expects(hole, b + more);
      }
    } else {
      SkippedRead(r, a, hole, b, e, r');
    }
  }

  lemma SkippedRead(r: Reader, a: seq<Token>, hole: Reader, b: seq<Token>, e: Event, r': Reader)
    requires Leads(r, a, hole) && Skipped(hole, b, e, r')
    ensures Step(r, a + b, e, r')
  {
    hide Spells, Expects, Agrees;
    assert a + b == a;
    forall more | Expects(r', more)
      ensures Expects(r, a + more) && OneThen(Spells(r, a + more), e, Spells(r', more))
    {
      EmptyAgrees(e, Spells(r, a + more).events[0]);
    }
  }

  lemma EmptyAgrees(e: Event, f: Event)
    requires Agrees(e, D.EMPTY) && Agrees(D.EMPTY, f)
    ensures Agrees(e, f)
  {
  }

  // ---- Whole streams ----

  /** `s` starts with events that agree with `events` one by one, and goes on as `more`. */
  predicate AllThen(s: D.Spelled, events: seq<Event>, more: D.Spelled) {
    && |s.events| == |events| + |more.events| && s.events[|events|..] == more.events
    && s.rest == more.rest && s.error == more.error
    && forall i :: 0 <= i < |events| ==> Agrees(events[i], s.events[i])
  }

  /** What was written is read as the events, and leaves the reader where it is. */
  ghost predicate ReadsBack(written: seq<Token>, events: seq<Event>, r: Reader) {
    forall more :: Expects(r, more) ==> AllThen(D.Stream(written + more), events, Spells(r, more))
  }

  const BEGIN := Reader(P.ParseStreamStart, [], [], false)

  lemma NothingWritten()
    ensures ReadsBack([], [], BEGIN)
  {
    hide D.Stream;
    forall more | Expects(BEGIN, more) ensures AllThen(D.Stream([] + more), [], Spells(BEGIN, more)) {
      assert [] + more == more;
      assert Spells(BEGIN, more) == D.Stream(more);
    }
  }

  lemma OneMore(s: D.Spelled, events: seq<Event>, t: D.Spelled, e: Event, u: D.Spelled)
    requires AllThen(s, events, t) && OneThen(t, e, u)
    ensures AllThen(s, events + [e], u)
  {
    hide Agrees;
    assert s.events[|events|] == t.events[0];
    assert s.events[|events| + 1..] == s.events[|events|..][1..];
  }

  lemma ReadsOn(written: seq<Token>, events: seq<Event>, r: Reader, ts: seq<Token>, e: Event, r': Reader)
    requires ReadsBack(written, events, r) && Step(r, ts, e, r')
    ensures ReadsBack(written + ts, events + [e], r')
  {
    hide Spells, Expects, OneThen, AllThen, D.Stream;
    forall more | Expects(r', more)
      ensures AllThen(D.Stream(written + ts + more), events + [e], Spells(r', more))
    {
      assert written + ts + more == written + (ts + more);
      OneMore(D.Stream(written + (ts + more)), events, Spells(r, ts + more), e, Spells(r', more));
    }
  }

  /** The parser makes of the tokens events that agree with these, and no more. */
  predicate ReadAs(tokens: seq<Token>, events: seq<Event>) {
    var s := D.Stream(tokens);
    && s.error.NoError? && s.rest == [] && |s.events| == |events|
    && forall i :: 0 <= i < |events| ==> Agrees(events[i], s.events[i])
  }

  /** A stream that was written to its end is read as the events it was written for. */
  lemma ReadToTheEnd(written: seq<Token>, events: seq<Event>, dirs: seq<(string, string)>)
    requires ReadsBack(written, events, Reader(P.ParseEnd, [], dirs, false))
    ensures ReadAs(written, events)
  {
    hide D.Stream, Agrees;
    var r := Reader(P.ParseEnd, [], dirs, false);
    assert Expects(r, []) && written + [] == written;
    assert Spells(r, []) == D.Spelled([], [], NoError);
  }

  // ---- What the scanner delivers ----

  /** Tokens before the end of the text as the scanner makes them: it refuses a tag without
      a suffix, crashes on a directive for a lone exclamation mark, and makes no token of
      plain text that is not there. */
  type Written = t: Token |
    && !t.typ.StreamEndToken? && (t.typ.TagToken? ==> t.suffix != "") && (t.typ.TagDirectiveToken? ==> t.value != "!")
    && (t.typ.ScalarToken? && t.style.Plain? ==> t.value != "")
    witness Tok(KeyToken)

  /** Whatever the scanner delivers before it stops, the parser ends in an error. */
  lemma CutOff(written: seq<Written>, k: nat)
    requires k <= |written|
    ensures !D.Stream(written[..k]).error.NoError?
  {
    hide D.Stream;
  }

  /** A token in block context that stands further to the right than the innermost block
      collection starts one. The levels are the columns of the open ones, over -1. */
  function Roll(levels: seq<int>, column: int, start: TokenType): (seq<int>, seq<Token>)
    requires levels != []
  {
    if levels[|levels| - 1] < column then (levels + [column], [Tok(start)]) else (levels, [])
  }

  /** One that stands further to the left ends those it is left of. */
  function Unroll(levels: seq<int>, column: int): (seq<int>, seq<Token>) {
    if levels == [] || levels[|levels| - 1] <= column then (levels, [])
    else
      var (rest, ends) := Unroll(levels[..|levels| - 1], column);
      (rest, [Tok(BlockEndToken)] + ends)
  }

  lemma {:induction false} OnlyEnds(levels: seq<int>, column: int)
    ensures forall t | t in Unroll(levels, column).1 :: t.typ.BlockEndToken?
  {
    if levels != [] { OnlyEnds(levels[..|levels| - 1], column); }
  }

  // ---- Streams and documents ----

  function Tok(t: TokenType): Token {
    Token(t, 0, 0, "", "", "", Plain, 0, 0)
  }

  /** Between documents. */
  function Outside(first: bool): Reader {
    Reader(if first then P.ParseImplicitDocumentStart else P.ParseDocumentStart, [], [], false)
  }

  /** Before the node of a document, which may be nothing behind a marker. */
  function AtContent(explicit: bool, dirs: seq<(string, string)>): Reader {
    Reader(if explicit then P.ParseDocumentContent else P.ParseBlockNode, [P.ParseDocumentEnd], dirs, false)
  }

  function InDocument(explicit: bool, directives: seq<(string, string)>): Reader {
    AtContent(explicit, InForce(directives))
  }

  function OptionalToken(present: bool, t: Token): seq<Token> {
    if present then [t] else []
  }

  const VERSION := Tok(VersionDirectiveToken).(major := 1, minor := 1)

  function TagDirectives(directives: seq<(string, string)>): seq<Token> {
    if directives == [] then []
    else [Tok(TagDirectiveToken).(value := directives[0].0, prefix := directives[0].1)] + TagDirectives(directives[1..])
  }

  /** A document as it starts with a marker, behind an end marker if need be. */
  function DocumentTokens(ended: bool, version: bool, directives: seq<(string, string)>): seq<Token> {
    OptionalToken(ended, Tok(DocumentEndToken)) + OptionalToken(version, VERSION) + TagDirectives(directives) +
      [Tok(DocumentStartToken)]
  }

  lemma StreamStarts()
    ensures Step(BEGIN, [Tok(StreamStartToken)], StreamStart, Outside(true))
  {
    hide D.Documents;
    forall more | Expects(Outside(true), more)
      ensures OneThen(Spells(BEGIN, [Tok(StreamStartToken)] + more), StreamStart, Spells(Outside(true), more))
    {
      assert ([Tok(StreamStartToken)] + more)[1..] == more;
      BeforeIsOneThen(StreamStart, StreamStart, D.Documents(more, true));
    }
  }

  lemma StreamEnds(first: bool, ended: bool)
    requires first ==> !ended
    ensures Step(Outside(first), OptionalToken(ended, Tok(DocumentEndToken)) + [Tok(StreamEndToken)], StreamEnd,
                 Reader(P.ParseEnd, [], [], false))
  {
    hide Spells, Expects, OneThen, OptionalToken, D.Documents;
    var r, ts := Reader(P.ParseEnd, [], [], false), OptionalToken(ended, Tok(DocumentEndToken)) + [Tok(StreamEndToken)];
    forall more | Expects(r, more)
      ensures Expects(Outside(first), ts + more) &&
              OneThen(Spells(Outside(first), ts + more), StreamEnd, Spells(r, more))
    {
      assert ts + more == OptionalToken(ended, Tok(DocumentEndToken)) + ([Tok(StreamEndToken)] + more);
      EndExpected(first, ended, more);
      OutsideSpells(first, ts + more);
      EndSpelled(first, ended, more);
    }
  }

  lemma EndExpected(first: bool, ended: bool, more: seq<Token>)
    requires first ==> !ended
    ensures Expects(Outside(first), OptionalToken(ended, Tok(DocumentEndToken)) + ([Tok(StreamEndToken)] + more))
  {
  }

  lemma {:induction false} EndSpelled(first: bool, ended: bool, more: seq<Token>)
    requires first ==> !ended
    ensures OneThen(D.Documents(OptionalToken(ended, Tok(DocumentEndToken)) + ([Tok(StreamEndToken)] + more), first),
              StreamEnd,
                    Spells(Reader(P.ParseEnd, [], [], false), more))
  {
    hide Spells, D.Documents;
    EndRead(first, ended, more);
    NothingSpelled(more);
    assert [StreamEnd][1..] == [];
  }

  lemma {:induction false} EndRead(first: bool, ended: bool, more: seq<Token>)
    requires first ==> !ended
    ensures D.Documents(OptionalToken(ended, Tok(DocumentEndToken)) + ([Tok(StreamEndToken)] + more), first) ==
            D.Done(StreamEnd, more)
  {
    hide D.ImplicitDocument, D.ExplicitDocument;
    var us := [Tok(StreamEndToken)] + more;
    EndSkipped(ended, us);
    assert us[1..] == more;
  }

  lemma {:induction false} NothingSpelled(ts: seq<Token>)
    ensures Spells(Reader(P.ParseEnd, [], [], false), ts) == D.Spelled([], ts, NoError)
  {
  }

  /** An end marker in front makes no difference but to the first document. */
  lemma {:induction false} EndSkipped(ended: bool, ts: seq<Token>)
    ensures D.SkipDocumentEnds(OptionalToken(ended, Tok(DocumentEndToken)) + ts) == D.SkipDocumentEnds(ts)
    ensures !ended ==> OptionalToken(ended, Tok(DocumentEndToken)) + ts == ts
  {
    var us := OptionalToken(ended, Tok(DocumentEndToken)) + ts;
    if ended { assert us[1..] == ts; } else { assert us == ts; }
  }

  lemma {:induction false} DocumentSpelled(explicit: bool, dirs: seq<(string, string)>, more: seq<Token>)
    ensures var n := if explicit then D.Optional(more, dirs, true, false, D.ENDS_CONTENT)
              else D.Node(more, dirs, true, false);
            Spells(AtContent(explicit, dirs), more) == D.After(n, D.DocumentClose(n.rest))
  {
    hide D.Node, D.DocumentClose, D.Optional, P.Resume, P.Continue;
    P.DocumentSpells(if explicit then P.ParseDocumentContent else P.ParseBlockNode, more, dirs);
  }

  /** Behind a marker the node may be left out. */
  lemma ContentLeads(dirs: seq<(string, string)>)
    ensures Leads(AtContent(true, dirs), [], AtContent(false, dirs))
  {
    hide Expects, OneThen, Spells;
    var r, hole := AtContent(true, dirs), AtContent(false, dirs);
    forall more | Expects(hole, more) ensures Expects(r, [] + more) && Spells(r, [] + more) == Spells(hole, more) {
      assert [] + more == more;
      ContentThere(dirs, more);
    }
    var end := Reader(P.ParseDocumentEnd, [], dirs, false);
    assert Popped(hole) == end;
    forall more | Expects(end, more)
      ensures Expects(r, [] + more) && OneThen(Spells(r, [] + more), D.EMPTY, Spells(end, more))
    {
      assert [] + more == more;
      ContentMissing(dirs, more);
      EmptyAsItself();
      BeforeIsOneThen(D.EMPTY, D.EMPTY, Spells(end, more));
    }
  }

  lemma ContentThere(dirs: seq<(string, string)>, more: seq<Token>)
    requires Expects(AtContent(false, dirs), more)
    ensures Expects(AtContent(true, dirs), more) &&
            Spells(AtContent(true, dirs), more) == Spells(AtContent(false, dirs), more)
  {
    hide D.Node, D.Optional, D.DocumentClose, Spells;
    DocumentSpelled(true, dirs, more);
    DocumentSpelled(false, dirs, more);
    NodeExpected(dirs, more);
  }

  lemma ContentMissing(dirs: seq<(string, string)>, more: seq<Token>)
    requires Expects(Reader(P.ParseDocumentEnd, [], dirs, false), more)
    ensures Expects(AtContent(true, dirs), more)
    ensures Spells(AtContent(true, dirs), more) ==
            D.Before(D.EMPTY, Spells(Reader(P.ParseDocumentEnd, [], dirs, false), more))
  {
    hide D.Node, D.Optional, D.DocumentClose, Spells;
    DocumentSpelled(true, dirs, more);
    NothingThere(dirs, more);
    CloseSpelled(dirs, more);
  }

  lemma {:induction false} NothingThere(dirs: seq<(string, string)>, ts: seq<Token>)
    requires Expects(Reader(P.ParseDocumentEnd, [], dirs, false), ts)
    ensures D.Optional(ts, dirs, true, false, D.ENDS_CONTENT) == D.Done(D.EMPTY, ts)
  {
    hide D.Node;
  }

  /** A marker that ends a document where none is open. */
  lemma {:induction false} EndUnopened(more: seq<Token>)
    ensures !D.Stream([Tok(StreamStartToken), Tok(DocumentEndToken)] + more).error.NoError?
  {
    hide D.DocumentClose, InForce;
    var ts := [Tok(DocumentEndToken)] + more;
    assert ([Tok(StreamStartToken), Tok(DocumentEndToken)] + more)[1..] == ts;
    NoNode(ts);
  }

  lemma {:induction false} NoNode(ts: seq<Token>)
    requires ts != [] && ts[0].typ.DocumentEndToken?
    ensures forall dirs :: !D.Node(ts, dirs, true, false).error.NoError?
    ensures D.Documents(ts, true) == D.ImplicitDocument(ts)
  {
    hide D.ImplicitDocument;
  }

  lemma {:induction false} OutsideSpells(first: bool, ts: seq<Token>)
    ensures Spells(Outside(first), ts) == D.Documents(ts, first)
  {
    hide D.Documents;
    P.DocumentsSpell(first, ts);
  }

  lemma ImplicitDocument(e: Event)
    requires e.DocumentStart? && !e.explicitVersion && e.directives == []
    ensures Step(Outside(true), [], e, InDocument(false, []))
  {
    var r := InDocument(false, []);
    forall more: seq<Token> | Expects(r, more)
      ensures Expects(Outside(true), [] + more) && OneThen(Spells(Outside(true), [] + more), e, Spells(r, more))
    {
      hide D.Node, D.DocumentClose, D.ExplicitDocument, InForce, Spells, OneThen, Follow;
      NodeExpected(InForce([]), more);
      OutsideExpects(true, more);
      assert [] + more == more;
      DocumentSpelled(false, InForce([]), more);
      OutsideSpells(true, more);
      BeforeIsOneThen(e, DocumentStart(false, [], false), Spells(r, more));
    }
  }

  lemma {:induction false} DirectivesRead(directives: seq<(string, string)>, k: nat, version: bool, more: seq<Token>)
    requires Named(directives) && k <= |directives|
    ensures D.Directives(TagDirectives(directives[k..]) + ([Tok(DocumentStartToken)] + more), version,
              directives[..k]) ==
            D.Prologue(version, directives, [Tok(DocumentStartToken)] + more, NoError)
    decreases |directives| - k
  {
    var us := TagDirectives(directives[k..]) + ([Tok(DocumentStartToken)] + more);
    if k == |directives| {
      assert us == [Tok(DocumentStartToken)] + more && directives[..k] == directives;
    } else {
      assert directives[k..][1..] == directives[k + 1..];
      assert us[1..] == TagDirectives(directives[k + 1..]) + ([Tok(DocumentStartToken)] + more);
      assert directives[..k] + [directives[k]] == directives[..k + 1];
      DirectivesRead(directives, k + 1, version, more);
    }
  }

  lemma {:induction false} PrologueRead(version: bool, directives: seq<(string, string)>, more: seq<Token>)
    requires Named(directives)
    ensures var ts :=
              OptionalToken(version, VERSION) + (TagDirectives(directives) + ([Tok(DocumentStartToken)] + more));
            D.Directives(ts, false, []) == D.Prologue(version, directives, [Tok(DocumentStartToken)] + more, NoError)
    ensures var ts :=
              OptionalToken(version, VERSION) + (TagDirectives(directives) + ([Tok(DocumentStartToken)] + more));
            ts[0].typ.VersionDirectiveToken? || ts[0].typ.TagDirectiveToken? || ts[0].typ.DocumentStartToken?
  {
    var us := TagDirectives(directives) + ([Tok(DocumentStartToken)] + more);
    DirectivesRead(directives, 0, version, more);
    assert directives[0..] == directives;
    if version { assert ([VERSION] + us)[1..] == us; } else { assert [] + us == us; }
  }

  /** A document that starts with a directive or a marker is an explicit one. */
  lemma {:induction false} ExplicitAhead(first: bool, ended: bool, us: seq<Token>)
    requires us != [] && (first ==> !ended)
    requires us[0].typ.VersionDirectiveToken? || us[0].typ.TagDirectiveToken? || us[0].typ.DocumentStartToken?
    ensures D.Documents(OptionalToken(ended, Tok(DocumentEndToken)) + us, first) == D.ExplicitDocument(us)
  {
    hide D.SkipDocumentEnds, D.ImplicitDocument, D.ExplicitDocument;
    EndSkipped(ended, us);
    NoEnd(us);
  }

  lemma {:induction false} ExplicitSpelled(us: seq<Token>, version: bool, directives: seq<(string, string)>,
                                           more: seq<Token>)
    requires D.Directives(us, false, []) == D.Prologue(version, directives, [Tok(DocumentStartToken)] + more, NoError)
    ensures D.ExplicitDocument(us) ==
            D.Before(DocumentStart(version, directives, false), Spells(InDocument(true, directives), more))
  {
    hide D.Node, D.DocumentClose, D.Directives, D.Optional, InForce, Spells, Follow;
    DocumentSpelled(true, InForce(directives), more);
    assert ([Tok(DocumentStartToken)] + more)[1..] == more;
  }

  lemma ExplicitDocument(first: bool, ended: bool, e: Event)
    requires e.DocumentStart? && Named(e.directives) && (first ==> !ended)
    ensures Step(Outside(first), DocumentTokens(ended, e.explicitVersion, e.directives), e,
              InDocument(true, e.directives))
  {
    hide Spells, Expects, OneThen, Named, TagDirectives, InForce, Agrees;
    var ts, r := DocumentTokens(ended, e.explicitVersion, e.directives), InDocument(true, e.directives);
    forall more: seq<Token> | Expects(r, more)
      ensures Expects(Outside(first), ts + more) && OneThen(Spells(Outside(first), ts + more), e, Spells(r, more))
    {
      var us := OptionalToken(e.explicitVersion, VERSION) +
        (TagDirectives(e.directives) + ([Tok(DocumentStartToken)] + more));
      Regrouped(OptionalToken(ended, Tok(DocumentEndToken)), OptionalToken(e.explicitVersion, VERSION),
        TagDirectives(e.directives),
        [Tok(DocumentStartToken)], more);
      PrologueRead(e.explicitVersion, e.directives, more);
      ExplicitAhead(first, ended, us);
      ExplicitSpelled(us, e.explicitVersion, e.directives, more);
      OutsideExpects(first, ts + more);
      OutsideSpells(first, ts + more);
      StartAgrees(e);
      BeforeIsOneThen(e, DocumentStart(e.explicitVersion, e.directives, false), Spells(r, more));
    }
  }

  lemma Regrouped(a: seq<Token>, b: seq<Token>, c: seq<Token>, d: seq<Token>, e: seq<Token>)
    ensures a + b + c + d + e == a + (b + (c + (d + e)))
  {
  }

  lemma StartAgrees(e: Event)
    requires e.DocumentStart?
    ensures Agrees(e, DocumentStart(e.explicitVersion, e.directives, false))
  {
  }

  lemma OutsideExpects(first: bool, ts: seq<Token>)
    requires ts != []
    requires ts[0].typ.VersionDirectiveToken? || ts[0].typ.TagDirectiveToken? || ts[0].typ.DocumentStartToken? ||
             (!first && ts[0].typ.DocumentEndToken?) || (first && ts[0].typ in BLOCK_STARTS)
    ensures Expects(Outside(first), ts)
  {
  }

  lemma {:induction false} NodeExpected(dirs: seq<(string, string)>, ts: seq<Token>)
    requires Expects(AtContent(false, dirs), ts)
    ensures ts != [] && ts[0].typ in BLOCK_STARTS
    ensures D.Optional(ts, dirs, true, false, D.ENDS_CONTENT) == D.Node(ts, dirs, true, false)
  {
    hide D.Node;
  }

  lemma {:induction false} NoEnd(ts: seq<Token>)
    requires ts != [] && !ts[0].typ.DocumentEndToken?
    ensures D.SkipDocumentEnds(ts) == ts
  {
  }

  lemma DocumentEnds(implicit: bool, dirs: seq<(string, string)>)
    ensures Step(Reader(P.ParseDocumentEnd, [], dirs, false), OptionalToken(!implicit, Tok(DocumentEndToken)),
                 DocumentEnd(implicit), Outside(false))
  {
    hide Spells, Expects, OneThen;
    var r, ts, e :=
      Reader(P.ParseDocumentEnd, [], dirs, false), OptionalToken(!implicit, Tok(DocumentEndToken)),
      DocumentEnd(implicit);
    forall more | Expects(Outside(false), more)
      ensures Expects(r, ts + more) && OneThen(Spells(r, ts + more), e, Spells(Outside(false), more))
    {
      MarkerExpected(implicit, dirs, more);
      MarkerRead(implicit, more);
      CloseSpelled(dirs, ts + more);
      OutsideSpells(false, more);
      BeforeIsOneThen(e, DocumentEnd(!(ts + more)[0].typ.DocumentEndToken?), Spells(Outside(false), more));
    }
  }

  lemma MarkerExpected(implicit: bool, dirs: seq<(string, string)>, more: seq<Token>)
    requires Expects(Outside(false), more)
    ensures var ts := OptionalToken(!implicit, Tok(DocumentEndToken)) + more;
            ts != [] && Expects(Reader(P.ParseDocumentEnd, [], dirs, false), ts) &&
              (ts[0].typ.DocumentEndToken? || implicit)
  {
  }

  lemma {:induction false} CloseSpelled(dirs: seq<(string, string)>, ts: seq<Token>)
    ensures Spells(Reader(P.ParseDocumentEnd, [], dirs, false), ts) == D.DocumentClose(ts)
  {
    hide D.DocumentClose;
  }

  /** However many markers there are, one end is reported. */
  lemma {:induction false} MarkerRead(implicit: bool, more: seq<Token>)
    requires OptionalToken(!implicit, Tok(DocumentEndToken)) + more != []
    ensures var ts := OptionalToken(!implicit, Tok(DocumentEndToken)) + more;
            D.DocumentClose(ts) == D.Before(DocumentEnd(!ts[0].typ.DocumentEndToken?), D.Documents(more, false))
  {
    hide D.ImplicitDocument, D.ExplicitDocument, D.SkipDocumentEnds;
    var ts := OptionalToken(!implicit, Tok(DocumentEndToken)) + more;
    EndSkipped(!implicit, more);
    SkipsOne(ts);
    var us := if ts[0].typ.DocumentEndToken? then ts[1..] else ts;
    assert D.SkipDocumentEnds(us) == D.SkipDocumentEnds(more);
    assert D.Documents(us, false) == D.Documents(more, false);
  }

  lemma {:induction false} SkipsOne(ts: seq<Token>)
    requires ts != []
    ensures ts[0].typ.DocumentEndToken? ==> D.SkipDocumentEnds(ts[1..]) == D.SkipDocumentEnds(ts)
  {
  }

  // ---- Nodes ----

  /** How a node is read that `back` goes on after. */
  function NodeState(back: P.State): P.State {
    match back
    case ParseBlockMappingKey | ParseBlockMappingValue => P.ParseBlockNodeOrIndentlessSequence
    case ParseBlockSequenceEntry | ParseIndentlessSequenceEntry | ParseDocumentEnd => P.ParseBlockNode
    case _ => P.ParseFlowNode
  }

  predicate AtNode(r: Reader) {
    r.below != [] && r.top == NodeState(r.below[|r.below| - 1])
  }

  function NodeAt(r: Reader, ts: seq<Token>): D.Spelled
    requires AtNode(r)
  {
    D.Node(ts, r.dirs, !r.top.ParseFlowNode?, r.top.ParseBlockNodeOrIndentlessSequence?)
  }

  /** Back at the state below. */
  function Popped(r: Reader): Reader
    requires r.below != []
  {
    Reader(r.below[|r.below| - 1], r.below[..|r.below| - 1], r.dirs, false)
  }

  function TagAs(handle: string, suffix: string): Token {
    Tok(TagToken).(value := handle, suffix := suffix)
  }

  function TagRead(dirs: seq<(string, string)>, handle: string, suffix: string): string {
    if handle == "" then suffix else Expand(dirs, handle, suffix)
  }

  /** The tag written, if any, is scanned and has an expansion. */
  predicate Readable(dirs: seq<(string, string)>, handle: string, suffix: string) {
    (handle == "" && suffix == "") || (suffix != "" && TagRead(dirs, handle, suffix) != "")
  }

  function Properties(anchor: string, handle: string, suffix: string): seq<Token> {
    OptionalToken(anchor != "", Tok(AnchorToken).(value := anchor)) +
    OptionalToken(handle != "" || suffix != "", TagAs(handle, suffix))
  }

  lemma PropertiesRead(anchor: string, handle: string, suffix: string, dirs: seq<(string, string)>, more: seq<Token>)
    requires Readable(dirs, handle, suffix)
    requires more != [] && !more[0].typ.AnchorToken? && !more[0].typ.TagToken?
    ensures D.NodeProperties(Properties(anchor, handle, suffix) + more, dirs) ==
            D.Properties(anchor, TagRead(dirs, handle, suffix), more, NoError)
  {
    hide Expand;
    var ts := Properties(anchor, handle, suffix) + more;
    if anchor != "" && (handle != "" || suffix != "") {
      assert ts[2..] == more;
    } else if anchor != "" || handle != "" || suffix != "" {
      assert ts[1..] == more;
    } else {
      assert ts == more;
    }
  }

  /** A node of one event. */
  lemma LeafRead(r: Reader, e: Event, f: Event, ts: seq<Token>)
    requires AtNode(r) && Agrees(e, f)
    requires forall more :: Expects(Popped(r), more) ==> NodeAt(r, ts + more) == D.Done(f, more)
    requires ts != [] && ts[0].typ in FLOW_STARTS
    ensures Step(r, ts, e, Popped(r))
  {
    hide Spells, Expects, OneThen, Agrees, Follow, D.Node, P.Resume, P.Continue, P.Below;
    forall more | Expects(Popped(r), more)
      ensures Expects(r, ts + more) && OneThen(Spells(r, ts + more), e, Spells(Popped(r), more))
    {
      LeafExpected(r, ts, more);
      LeafSpelled(r, ts + more, f, more);
      BeforeIsOneThen(e, f, Spells(Popped(r), more));
    }
  }

  lemma LeafExpected(r: Reader, ts: seq<Token>, more: seq<Token>)
    requires AtNode(r) && ts != [] && ts[0].typ in FLOW_STARTS
    ensures Expects(r, ts + more)
  {
    assert (ts + more)[0] == ts[0];
  }

  lemma LeafSpelled(r: Reader, ts: seq<Token>, f: Event, more: seq<Token>)
    requires AtNode(r) && NodeAt(r, ts) == D.Done(f, more)
    ensures Spells(r, ts) == D.Before(f, Spells(Popped(r), more))
  {
    hide D.Node, P.Resume, P.Continue, P.Below;
    NodeSpelled(r, ts);
    P.ResumePopped(r.below, [], r.dirs, more);
    NoMarks(r.below[|r.below| - 1]);
  }

  lemma NodeSpelled(r: Reader, ts: seq<Token>)
    requires AtNode(r)
    ensures Spells(r, ts) == P.Resume(r.below, [], r.dirs, NodeAt(r, ts))
  {
    hide D.Node;
  }

  lemma NoMarks(s: P.State)
    ensures P.Below(s, []) == []
  {
  }

  lemma AliasReads(r: Reader, name: string)
    requires AtNode(r)
    ensures Step(r, [Tok(AliasToken).(value := name)], Alias(name), Popped(r))
  {
    var ts := [Tok(AliasToken).(value := name)];
    forall more ensures NodeAt(r, ts + more) == D.Done(Alias(name), more) { assert (ts + more)[1..] == more; }
    LeafRead(r, Alias(name), Alias(name), ts);
  }

  function ScalarRead(anchor: string, tag: string, value: string, style: Style): Event {
    var plain := (tag == "" && style.Plain?) || tag == "!";
    Scalar(anchor, tag, value, plain, !plain && tag == "", style)
  }

  lemma ScalarReads(r: Reader, anchor: string, handle: string, suffix: string, value: string, style: Style, e: Event)
    requires AtNode(r) && Readable(r.dirs, handle, suffix)
    requires Agrees(e, ScalarRead(anchor, TagRead(r.dirs, handle, suffix), value, style))
    ensures Step(r, Properties(anchor, handle, suffix) + [Tok(ScalarToken).(value := value, style := style)], e,
              Popped(r))
  {
    var props, t := Properties(anchor, handle, suffix), Tok(ScalarToken).(value := value, style := style);
    var f := ScalarRead(anchor, TagRead(r.dirs, handle, suffix), value, style);
    forall more ensures NodeAt(r, props + [t] + more) == D.Done(f, more) {
      hide NodeAt, Properties, Readable, TagRead;
      assert props + [t] + more == props + ([t] + more) && ([t] + more)[1..] == more;
      BodyRead(r, anchor, handle, suffix, [t] + more);
    }
    FirstOfProperties(anchor, handle, suffix, [t]);
    LeafRead(r, e, f, props + [t]);
  }

  /** Properties alone are those of an empty scalar. */
  lemma EmptyReads(r: Reader, anchor: string, handle: string, suffix: string, e: Event)
    requires AtNode(r) && !r.top.ParseFlowNode? && Readable(r.dirs, handle, suffix) &&
             (anchor != "" || handle != "" || suffix != "")
    requires Agrees(e, ScalarRead(anchor, TagRead(r.dirs, handle, suffix), "", Plain))
    ensures Step(r, Properties(anchor, handle, suffix), e, Popped(r))
  {
    hide TagRead, Readable;
    var props, tag := Properties(anchor, handle, suffix), TagRead(r.dirs, handle, suffix);
    var f := Scalar(anchor, tag, "", tag == "", false, Plain);
    NotEmptyTag(r.dirs, handle, suffix);
    forall more: seq<Token> | Expects(Popped(r), more) ensures NodeAt(r, props + more) == D.Done(f, more) {
      hide NodeAt, Properties, Follow, D.Body, D.Opens, AtNode, Expects;
      NoBody(r, more);
      BodyRead(r, anchor, handle, suffix, more);
      EmptyBody(r, more, anchor, tag, (props + more)[0].startMark);
    }
    LeafRead(r, e, f, props);
  }

  lemma NotEmptyTag(dirs: seq<(string, string)>, handle: string, suffix: string)
    requires Readable(dirs, handle, suffix)
    ensures handle != "" || suffix != "" ==> TagRead(dirs, handle, suffix) != ""
  {
  }

  /** What follows a node in block style starts none. */
  lemma NoBody(r: Reader, more: seq<Token>)
    requires AtNode(r) && !r.top.ParseFlowNode? && Expects(Popped(r), more)
    ensures more != [] && !more[0].typ.AnchorToken? && !more[0].typ.TagToken? && !more[0].typ.AliasToken? &&
            !more[0].typ.ScalarToken?
    ensures !D.Opens(more[0].typ, true, r.top.ParseBlockNodeOrIndentlessSequence?)
  {
    hide Follow, NodeState;
    NotAtEnd(r.below[|r.below| - 1]);
    BackFollow(Popped(r), more[0].typ);
  }

  lemma NotAtEnd(back: P.State)
    ensures NodeState(back).ParseFlowNode? || !back.ParseEnd?
  {
  }

  lemma BackFollow(r: Reader, t: TokenType)
    requires !NodeState(r.top).ParseFlowNode? && !r.isNew && t in Follow(r)
    ensures t.KeyToken? || t.ValueToken? || t.BlockEndToken? || t.BlockEntryToken? || t.VersionDirectiveToken? ||
            t.TagDirectiveToken? ||
            t.DocumentStartToken? || t.StreamEndToken? || t.DocumentEndToken?
    ensures t.BlockEntryToken? ==> !NodeState(r.top).ParseBlockNodeOrIndentlessSequence?
  {
  }

  lemma {:induction false} EmptyBody(r: Reader, ts: seq<Token>, anchor: string, tag: string, mark: int)
    requires ts != [] && !ts[0].typ.ScalarToken? && !r.top.ParseFlowNode?
    requires !D.Opens(ts[0].typ, true, r.top.ParseBlockNodeOrIndentlessSequence?) && (anchor != "" || tag != "")
    ensures D.Body(ts, r.dirs, !r.top.ParseFlowNode?, r.top.ParseBlockNodeOrIndentlessSequence?, anchor, tag, mark) ==
            D.Done(Scalar(anchor, tag, "", tag == "", false, Plain), ts)
  {
  }

  /** Behind the properties stands the body of the node. */
  lemma {:induction false} BodyRead(r: Reader, anchor: string, handle: string, suffix: string, more: seq<Token>)
    requires AtNode(r) && Readable(r.dirs, handle, suffix)
    requires more != [] && !more[0].typ.AnchorToken? && !more[0].typ.TagToken? && !more[0].typ.AliasToken?
    ensures var ts := Properties(anchor, handle, suffix) + more;
            NodeAt(r, ts) == D.Body(more, r.dirs, !r.top.ParseFlowNode?, r.top.ParseBlockNodeOrIndentlessSequence?,
                                    anchor, TagRead(r.dirs, handle, suffix), ts[0].startMark)
  {
    hide D.Body, D.NodeProperties, Properties, Readable, TagRead;
    PropertiesRead(anchor, handle, suffix, r.dirs, more);
    FirstOfProperties(anchor, handle, suffix, more);
  }

  lemma FirstOfProperties(anchor: string, handle: string, suffix: string, more: seq<Token>)
    requires more != []
    ensures var ts := Properties(anchor, handle, suffix) + more;
            ts[0].typ.AnchorToken? || ts[0].typ.TagToken? || ts[0].typ == more[0].typ
  {
  }

  /** How a collection starts. */
  function StartRead(sequence: bool, anchor: string, tag: string, style: Style): Event {
    if sequence then SequenceStart(anchor, tag, tag == "", style) else MappingStart(anchor, tag, tag == "", style)
  }

  /** The properties of a collection; what follows them opens it. */
  lemma CollectionReads(r: Reader, anchor: string, handle: string, suffix: string, first: P.State, e: Event)
    requires AtNode(r) && Readable(r.dirs, handle, suffix)
    requires first.ParseFlowSequenceFirstEntry? || first.ParseFlowMappingFirstKey? ||
             ((first.ParseBlockSequenceFirstEntry? || first.ParseBlockMappingFirstKey?) && !r.top.ParseFlowNode?) ||
             (first.ParseIndentlessSequenceEntry? && r.top.ParseBlockNodeOrIndentlessSequence?)
    requires var flow := first.ParseFlowSequenceFirstEntry? || first.ParseFlowMappingFirstKey?;
             Agrees(e, StartRead(P.Means(first).shape.Entries?, anchor, TagRead(r.dirs, handle, suffix),
               if flow then Flow else Block))
    ensures Step(r, Properties(anchor, handle, suffix), e, Reader(first, r.below, r.dirs, true))
  {
    hide Spells, Expects, OneThen, Agrees, Properties, Readable, TagRead;
    var props, r' := Properties(anchor, handle, suffix), Reader(first, r.below, r.dirs, true);
    var f := StartRead(P.Means(first).shape.Entries?, anchor, TagRead(r.dirs, handle, suffix),
      if first.ParseFlowSequenceFirstEntry? || first.ParseFlowMappingFirstKey? then Flow else Block);
    forall more | Expects(r', more)
      ensures Expects(r, props + more) && OneThen(Spells(r, props + more), e, Spells(r', more))
    {
      StartSpelled(r, anchor, handle, suffix, first, more);
      BeforeIsOneThen(e, f, Spells(r', more));
    }
  }

  lemma StartSpelled(r: Reader, anchor: string, handle: string, suffix: string, first: P.State, more: seq<Token>)
    requires AtNode(r) && Readable(r.dirs, handle, suffix) && Expects(Reader(first, r.below, r.dirs, true), more)
    requires first.ParseFlowSequenceFirstEntry? || first.ParseFlowMappingFirstKey? ||
             ((first.ParseBlockSequenceFirstEntry? || first.ParseBlockMappingFirstKey?) && !r.top.ParseFlowNode?) ||
             (first.ParseIndentlessSequenceEntry? && r.top.ParseBlockNodeOrIndentlessSequence?)
    ensures var ts := Properties(anchor, handle, suffix) + more;
            && Expects(r, ts)
            && Spells(r, ts) ==
                 D.Before(StartRead(P.Means(first).shape.Entries?, anchor, TagRead(r.dirs, handle, suffix),
                                           if first.ParseFlowSequenceFirstEntry? || first.ParseFlowMappingFirstKey?
                                             then Flow else Block),
                                         Spells(Reader(first, r.below, r.dirs, true), more))
  {
    hide NodeAt, Properties, Readable, TagRead, Spells, Expects, Follow;
    var ts := Properties(anchor, handle, suffix) + more;
    Opening(r, first, more);
    FirstOfProperties(anchor, handle, suffix, more);
    StartExpected(r, ts);
    BodyRead(r, anchor, handle, suffix, more);
    NodeSpelled(r, ts);
    CollectionSpelled(r, first, more, anchor, TagRead(r.dirs, handle, suffix), ts[0].startMark);
  }

  /** The token that opens a collection of the state. */
  lemma Opening(r: Reader, first: P.State, more: seq<Token>)
    requires AtNode(r) && Expects(Reader(first, r.below, r.dirs, true), more)
    requires first.ParseFlowSequenceFirstEntry? || first.ParseFlowMappingFirstKey? ||
             ((first.ParseBlockSequenceFirstEntry? || first.ParseBlockMappingFirstKey?) && !r.top.ParseFlowNode?) ||
             (first.ParseIndentlessSequenceEntry? && r.top.ParseBlockNodeOrIndentlessSequence?)
    ensures more != [] && D.Opens(more[0].typ, !r.top.ParseFlowNode?, r.top.ParseBlockNodeOrIndentlessSequence?)
    ensures if first.ParseIndentlessSequenceEntry? then more[0].typ.BlockEntryToken?
              else P.Means(first).place == P.First(more[0].typ)
    ensures more[0].typ in Follow(r)
  {
  }

  lemma StartExpected(r: Reader, ts: seq<Token>)
    requires AtNode(r) && ts != []
    requires ts[0].typ.AnchorToken? || ts[0].typ.TagToken? || ts[0].typ in Follow(r)
    ensures Expects(r, ts)
  {
  }

  lemma CollectionSpelled(r: Reader, first: P.State, more: seq<Token>, anchor: string, tag: string, mark: int)
    requires AtNode(r) && more != [] &&
             D.Opens(more[0].typ, !r.top.ParseFlowNode?, r.top.ParseBlockNodeOrIndentlessSequence?)
    requires if first.ParseIndentlessSequenceEntry? then more[0].typ.BlockEntryToken?
               else P.Means(first).place == P.First(more[0].typ)
    ensures var body :=
              D.Body(more, r.dirs, !r.top.ParseFlowNode?, r.top.ParseBlockNodeOrIndentlessSequence?, anchor, tag, mark);
            P.Resume(r.below, [], r.dirs, body) ==
            D.Before(StartRead(P.Means(first).shape.Entries?, anchor, tag,
                       if first.ParseFlowSequenceFirstEntry? || first.ParseFlowMappingFirstKey? then Flow else Block),
                     Spells(Reader(first, r.below, r.dirs, true), more))
  {
    hide D.Body, D.Collection, D.Opens, P.Resume, P.Continue, P.Below, P.Means, D.Before;
    var block, indentless := !r.top.ParseFlowNode?, r.top.ParseBlockNodeOrIndentlessSequence?;
    var flow := first.ParseFlowSequenceFirstEntry? || first.ParseFlowMappingFirstKey?;
    StyleShown(first, more[0].typ);
    BodyOpens(more, r.dirs, block, indentless, anchor, tag, mark);
    P.CollectionSpells(first, more, r.dirs, [], block, indentless, anchor, tag);
    P.ResumeBefore(r.below, [], r.dirs,
      StartRead(P.Means(first).shape.Entries?, anchor, tag, if flow then Flow else Block),
      P.Continue(first, more, r.dirs, []));
  }

  lemma StyleShown(first: P.State, t: TokenType)
    requires if first.ParseIndentlessSequenceEntry? then t.BlockEntryToken? else P.Means(first).place == P.First(t)
    ensures first.ParseFlowSequenceFirstEntry? || first.ParseFlowMappingFirstKey? <==>
            t.FlowSequenceStartToken? || t.FlowMappingStartToken?
  {
  }

  lemma {:induction false} BodyOpens(ts: seq<Token>, dirs: seq<(string, string)>, block: bool, indentless: bool,
                                     anchor: string, tag: string, mark: int)
    requires ts != [] && D.Opens(ts[0].typ, block, indentless)
    ensures D.Body(ts, dirs, block, indentless, anchor, tag, mark) ==
            D.Collection(ts, dirs, block, indentless, anchor, tag)
  {
    hide D.Collection;
  }

  // ---- Within collections ----

  /** Before a node, to go on with `back` after it. */
  function Child(r: Reader, back: P.State): Reader {
    Reader(NodeState(back), r.below + [back], r.dirs, false)
  }

  lemma ChildPopped(r: Reader, back: P.State)
    ensures AtNode(Child(r, back)) && Popped(Child(r, back)) == Reader(back, r.below, r.dirs, false)
  {
    assert (r.below + [back])[..|r.below|] == r.below;
  }

  lemma ChildSpelled(r: Reader, back: P.State, ts: seq<Token>)
    requires AtNode(Child(r, back))
    ensures var n := NodeAt(Child(r, back), ts);
            Spells(Child(r, back), ts) ==
            P.Resume(r.below, [], r.dirs,
              if n.error.NoError? then D.After(n, P.Continue(back, n.rest, r.dirs, [])) else n)
  {
    hide NodeAt, P.Resume, P.Continue, P.Below, NodeState;
    NodeSpelled(Child(r, back), ts);
    P.ResumePushed(r.below, back, [], r.dirs, NodeAt(Child(r, back), ts));
    NoMarks(back);
  }

  lemma Second(a: Token, b: Token, ts: seq<Token>)
    ensures ([a, b] + ts)[0] == a && ([a, b] + ts)[1..] == [b] + ts && ([b] + ts)[1..] == ts && ([b] + ts)[0] == b
    ensures ([a] + ts)[0] == a && ([a] + ts)[1..] == ts
  {
  }

  /** What is read from the state on when the tokens in front are taken as they come. */
  lemma LeadStep(r: Reader, ts: seq<Token>, back: P.State)
    requires ts != [] && ts[0].typ in Follow(r) && AtNode(Child(r, back))
    requires forall more :: Expects(Child(r, back), more) ==>
               var n := NodeAt(Child(r, back), more);
               P.Continue(r.top, ts + more, r.dirs, []) ==
               if n.error.NoError? then D.After(n, P.Continue(back, n.rest, r.dirs, [])) else n
    requires !NodeState(back).ParseFlowNode? ==>
               forall more :: Expects(Reader(back, r.below, r.dirs, false), more) ==>
                 P.Continue(r.top, ts + more, r.dirs, []) == D.Before(D.EMPTY, P.Continue(back, more, r.dirs, []))
    ensures Leads(r, ts, Child(r, back))
  {
    hide NodeAt, P.Resume, P.Continue, Follow, OneThen, NodeState;
    var r', next := Child(r, back), Reader(back, r.below, r.dirs, false);
    ChildPopped(r, back);
    forall more | Expects(r', more) ensures Expects(r, ts + more) && Spells(r, ts + more) == Spells(r', more) {
      ChildSpelled(r, back, more);
    }
    if !NodeState(back).ParseFlowNode? {
      forall more | Expects(next, more)
        ensures Expects(r, ts + more) && OneThen(Spells(r, ts + more), D.EMPTY, Spells(next, more))
      {
        P.ResumeBefore(r.below, [], r.dirs, D.EMPTY, P.Continue(back, more, r.dirs, []));
        EmptyAsItself();
        BeforeIsOneThen(D.EMPTY, D.EMPTY, Spells(next, more));
      }
    }
  }

  lemma EmptyAsItself()
    ensures Agrees(D.EMPTY, D.EMPTY)
  {
  }

  /** No node is there where what comes after it follows. */
  lemma {:induction false} Absent(r: Reader, back: P.State, ts: seq<Token>)
    requires !NodeState(back).ParseFlowNode? && !back.ParseDocumentEnd? &&
             Expects(Reader(back, r.below, r.dirs, false), ts)
    ensures ts != []
    ensures back.ParseBlockSequenceEntry? ==> D.Optional(ts, r.dirs, true, false, D.ENDS_ENTRY) == D.Done(D.EMPTY, ts)
    ensures back.ParseIndentlessSequenceEntry? ==>
              D.Optional(ts, r.dirs, true, false, D.ENDS_INDENTLESS) == D.Done(D.EMPTY, ts)
    ensures back.ParseBlockMappingKey? || back.ParseBlockMappingValue? ==>
              D.Optional(ts, r.dirs, true, true, D.ENDS_BLOCK) == D.Done(D.EMPTY, ts)
  {
    hide D.Node;
  }

  /** The states by the grammar they stand for. */
  lemma {:induction false} BlockGoesOn(ts: seq<Token>, dirs: seq<(string, string)>)
    ensures P.Continue(P.ParseBlockSequenceEntry, ts, dirs, []) == D.BlockEntries(ts, dirs, 0)
    ensures P.Continue(P.ParseIndentlessSequenceEntry, ts, dirs, []) == D.IndentlessEntries(ts, dirs)
    ensures P.Continue(P.ParseBlockMappingKey, ts, dirs, []) == D.BlockPairs(ts, dirs, 0)
    ensures P.Continue(P.ParseBlockMappingValue, ts, dirs, []) == D.BlockValue(ts, dirs, 0)
    ensures ts != [] ==>
      && P.Continue(P.ParseBlockSequenceFirstEntry, ts, dirs, []) == D.BlockEntries(ts[1..], dirs, ts[0].startMark)
      && P.Continue(P.ParseBlockMappingFirstKey, ts, dirs, []) == D.BlockPairs(ts[1..], dirs, ts[0].startMark)
  {
    hide D.BlockEntries, D.IndentlessEntries, D.BlockPairs, D.BlockValue;
  }

  lemma {:induction false} FlowGoesOn(ts: seq<Token>, dirs: seq<(string, string)>)
    ensures P.Continue(P.ParseFlowSequenceEntry, ts, dirs, []) == D.FlowEntries(ts, dirs, 0, false)
    ensures P.Continue(P.ParseFlowMappingKey, ts, dirs, []) == D.FlowPairs(ts, dirs, 0, false)
    ensures P.Continue(P.ParseFlowMappingValue, ts, dirs, []) == D.FlowValue(ts, dirs, 0, false)
    ensures ts != [] ==>
      && P.Continue(P.ParseFlowSequenceFirstEntry, ts, dirs, []) == D.FlowEntries(ts[1..], dirs, ts[0].startMark, true)
      && P.Continue(P.ParseFlowMappingFirstKey, ts, dirs, []) == D.FlowPairs(ts[1..], dirs, ts[0].startMark, true)
  {
    hide D.FlowEntries, D.FlowPairs, D.FlowValue;
  }

  /** A node is there where one is expected. */
  lemma {:induction false} Present(r: Reader, ts: seq<Token>)
    requires AtNode(r) && Expects(r, ts)
    ensures ts != [] && !ts[0].typ.KeyToken? && !ts[0].typ.FlowSequenceEndToken? && !ts[0].typ.FlowMappingEndToken?
    ensures var n := NodeAt(r, ts);
            && (r.top.ParseBlockNode? ==> n == D.Optional(ts, r.dirs, true, false, D.ENDS_ENTRY)
                                          && n == D.Optional(ts, r.dirs, true, false, D.ENDS_INDENTLESS))
            && (r.top.ParseBlockNodeOrIndentlessSequence? ==> n == D.Optional(ts, r.dirs, true, true, D.ENDS_BLOCK))
            && (r.top.ParseFlowNode? ==> n == D.Node(ts, r.dirs, false, false)
                                         && n == D.Optional(ts, r.dirs, false, false, D.ENDS_FLOW)
                                         && n == D.Optional(ts, r.dirs, false, false, D.ENDS_FLOW_KEY))
  {
    hide D.Node;
  }

  lemma FlowEntryRead(r: Reader, first: bool)
    requires r.top == if first then P.ParseFlowSequenceFirstEntry else P.ParseFlowSequenceEntry
    ensures Leads(r, [Tok(if first then FlowSequenceStartToken else FlowEntryToken)],
              Child(r, P.ParseFlowSequenceEntry))
  {
    hide P.Continue, NodeAt, Expects, D.Node, D.Optional, D.BlockEntries, D.IndentlessEntries, D.BlockPairs;
    hide D.BlockValue, D.FlowPairs, D.FlowPair, D.FlowValue, D.PairKey;
    var t, r' := Tok(if first then FlowSequenceStartToken else FlowEntryToken), Child(r, P.ParseFlowSequenceEntry);
    forall more: seq<Token> | Expects(r', more)
      ensures var n := NodeAt(r', more);
              P.Continue(r.top, [t] + more, r.dirs, []) ==
              if n.error.NoError? then D.After(n, P.Continue(P.ParseFlowSequenceEntry, n.rest, r.dirs, [])) else n
    {
      Second(t, t, more);
      Present(r', more);
      FlowGoesOn([t] + more, r.dirs);
      FlowGoesOn(NodeAt(r', more).rest, r.dirs);
    }
    LeadStep(r, [t], P.ParseFlowSequenceEntry);
  }

  lemma FlowKeyRead(r: Reader, first: bool)
    requires r.top == if first then P.ParseFlowMappingFirstKey else P.ParseFlowMappingKey
    ensures Leads(r, [Tok(if first then FlowMappingStartToken else FlowEntryToken), Tok(KeyToken)],
              Child(r, P.ParseFlowMappingValue))
  {
    hide P.Continue, NodeAt, Expects, D.Node, D.Optional, D.BlockEntries, D.IndentlessEntries, D.BlockPairs;
    hide D.BlockValue, D.FlowEntries, D.FlowEntry, D.FlowValue, D.PairKey;
    var t, r' := Tok(if first then FlowMappingStartToken else FlowEntryToken), Child(r, P.ParseFlowMappingValue);
    var k := Tok(KeyToken);
    forall more: seq<Token> | Expects(r', more)
      ensures var n := NodeAt(r', more);
              P.Continue(r.top, [t, k] + more, r.dirs, []) ==
              if n.error.NoError? then D.After(n, P.Continue(P.ParseFlowMappingValue, n.rest, r.dirs, [])) else n
    {
      Second(t, k, more);
      Present(r', more);
      FlowGoesOn([t, k] + more, r.dirs);
      FlowGoesOn(NodeAt(r', more).rest, r.dirs);
    }
    LeadStep(r, [t, k], P.ParseFlowMappingValue);
  }

  lemma FlowValueRead(r: Reader)
    requires r.top.ParseFlowMappingValue?
    ensures Leads(r, [Tok(ValueToken)], Child(r, P.ParseFlowMappingKey))
  {
    hide P.Continue, NodeAt, Expects, D.Node, D.Optional, D.BlockEntries, D.IndentlessEntries, D.BlockPairs;
    hide D.BlockValue, D.FlowEntries, D.FlowEntry, D.FlowPairs, D.FlowPair, D.PairKey;
    var t, r' := Tok(ValueToken), Child(r, P.ParseFlowMappingKey);
    forall more: seq<Token> | Expects(r', more)
      ensures var n := NodeAt(r', more);
              P.Continue(r.top, [t] + more, r.dirs, []) ==
              if n.error.NoError? then D.After(n, P.Continue(P.ParseFlowMappingKey, n.rest, r.dirs, [])) else n
    {
      Second(t, t, more);
      Present(r', more);
      FlowGoesOn([t] + more, r.dirs);
      FlowGoesOn(NodeAt(r', more).rest, r.dirs);
    }
    LeadStep(r, [t], P.ParseFlowMappingKey);
  }

  lemma BlockEntryRead(r: Reader, first: bool)
    requires r.top == if first then P.ParseBlockSequenceFirstEntry else P.ParseBlockSequenceEntry
    ensures Leads(r, OptionalToken(first, Tok(BlockSequenceStartToken)) + [Tok(BlockEntryToken)],
              Child(r, P.ParseBlockSequenceEntry))
  {
    hide P.Continue, NodeAt, Expects, D.Node, D.Optional, D.IndentlessEntries, D.BlockPairs, D.BlockValue;
    hide D.FlowEntries, D.FlowEntry, D.FlowPairs, D.FlowPair, D.FlowValue, D.PairKey;
    var t, r' := Tok(BlockEntryToken), Child(r, P.ParseBlockSequenceEntry);
    var ts := OptionalToken(first, Tok(BlockSequenceStartToken)) + [t];
    forall more: seq<Token> | Expects(r', more)
      ensures var n := NodeAt(r', more);
              P.Continue(r.top, ts + more, r.dirs, []) ==
              if n.error.NoError? then D.After(n, P.Continue(P.ParseBlockSequenceEntry, n.rest, r.dirs, [])) else n
    {
      Second(Tok(BlockSequenceStartToken), t, more);
      Present(r', more);
      BlockGoesOn(ts + more, r.dirs);
      BlockGoesOn(NodeAt(r', more).rest, r.dirs);
      assert ts == if first then [Tok(BlockSequenceStartToken), t] else [t];
    }
    forall more: seq<Token> | Expects(Reader(P.ParseBlockSequenceEntry, r.below, r.dirs, false), more)
      ensures P.Continue(r.top, ts + more, r.dirs, []) ==
              D.Before(D.EMPTY, P.Continue(P.ParseBlockSequenceEntry, more, r.dirs, []))
    {
      Second(Tok(BlockSequenceStartToken), t, more);
      Absent(r, P.ParseBlockSequenceEntry, more);
      BlockGoesOn(ts + more, r.dirs);
      BlockGoesOn(more, r.dirs);
      assert ts == if first then [Tok(BlockSequenceStartToken), t] else [t];
    }
    LeadStep(r, ts, P.ParseBlockSequenceEntry);
  }

  lemma IndentlessRead(r: Reader)
    requires r.top.ParseIndentlessSequenceEntry?
    ensures Leads(r, [Tok(BlockEntryToken)], Child(r, P.ParseIndentlessSequenceEntry))
  {
    hide P.Continue, NodeAt, Expects, D.Node, D.Optional, D.BlockEntries, D.BlockPairs, D.BlockValue, D.FlowEntries;
    hide D.FlowEntry, D.FlowPairs, D.FlowPair, D.FlowValue, D.PairKey;
    var t, r' := Tok(BlockEntryToken), Child(r, P.ParseIndentlessSequenceEntry);
    forall more: seq<Token> | Expects(r', more)
      ensures var n := NodeAt(r', more);
              P.Continue(r.top, [t] + more, r.dirs, []) ==
              if n.error.NoError? then D.After(n, P.Continue(P.ParseIndentlessSequenceEntry, n.rest, r.dirs, [])) else n
    {
      Second(t, t, more);
      Present(r', more);
      BlockGoesOn([t] + more, r.dirs);
      BlockGoesOn(NodeAt(r', more).rest, r.dirs);
    }
    forall more: seq<Token> | Expects(Reader(P.ParseIndentlessSequenceEntry, r.below, r.dirs, false), more)
      ensures P.Continue(r.top, [t] + more, r.dirs, []) ==
              D.Before(D.EMPTY, P.Continue(P.ParseIndentlessSequenceEntry, more, r.dirs, []))
    {
      Second(t, t, more);
      Absent(r, P.ParseIndentlessSequenceEntry, more);
      BlockGoesOn([t] + more, r.dirs);
      BlockGoesOn(more, r.dirs);
    }
    LeadStep(r, [t], P.ParseIndentlessSequenceEntry);
  }

  lemma BlockKeyRead(r: Reader, first: bool)
    requires r.top == if first then P.ParseBlockMappingFirstKey else P.ParseBlockMappingKey
    ensures Leads(r, OptionalToken(first, Tok(BlockMappingStartToken)) + [Tok(KeyToken)],
              Child(r, P.ParseBlockMappingValue))
  {
    hide P.Continue, NodeAt, Expects, D.Node, D.Optional, D.BlockEntries, D.IndentlessEntries, D.BlockValue;
    hide D.FlowEntries, D.FlowEntry, D.FlowPairs, D.FlowPair, D.FlowValue, D.PairKey;
    var t, r' := Tok(KeyToken), Child(r, P.ParseBlockMappingValue);
    var ts := OptionalToken(first, Tok(BlockMappingStartToken)) + [t];
    forall more: seq<Token> | Expects(r', more)
      ensures var n := NodeAt(r', more);
              P.Continue(r.top, ts + more, r.dirs, []) ==
              if n.error.NoError? then D.After(n, P.Continue(P.ParseBlockMappingValue, n.rest, r.dirs, [])) else n
    {
      Second(Tok(BlockMappingStartToken), t, more);
      Present(r', more);
      BlockGoesOn(ts + more, r.dirs);
      BlockGoesOn(NodeAt(r', more).rest, r.dirs);
      assert ts == if first then [Tok(BlockMappingStartToken), t] else [t];
    }
    forall more: seq<Token> | Expects(Reader(P.ParseBlockMappingValue, r.below, r.dirs, false), more)
      ensures P.Continue(r.top, ts + more, r.dirs, []) ==
              D.Before(D.EMPTY, P.Continue(P.ParseBlockMappingValue, more, r.dirs, []))
    {
      Second(Tok(BlockMappingStartToken), t, more);
      Absent(r, P.ParseBlockMappingValue, more);
      BlockGoesOn(ts + more, r.dirs);
      BlockGoesOn(more, r.dirs);
      assert ts == if first then [Tok(BlockMappingStartToken), t] else [t];
    }
    LeadStep(r, ts, P.ParseBlockMappingValue);
  }

  lemma BlockValueRead(r: Reader)
    requires r.top.ParseBlockMappingValue?
    ensures Leads(r, [Tok(ValueToken)], Child(r, P.ParseBlockMappingKey))
  {
    hide P.Continue, NodeAt, Expects, D.Node, D.Optional, D.BlockEntries, D.IndentlessEntries, D.BlockPairs;
    hide D.FlowEntries, D.FlowEntry, D.FlowPairs, D.FlowPair, D.FlowValue, D.PairKey;
    var t, r' := Tok(ValueToken), Child(r, P.ParseBlockMappingKey);
    forall more: seq<Token> | Expects(r', more)
      ensures var n := NodeAt(r', more);
              P.Continue(r.top, [t] + more, r.dirs, []) ==
              if n.error.NoError? then D.After(n, P.Continue(P.ParseBlockMappingKey, n.rest, r.dirs, [])) else n
    {
      Second(t, t, more);
      Present(r', more);
      BlockGoesOn([t] + more, r.dirs);
      BlockGoesOn(NodeAt(r', more).rest, r.dirs);
    }
    forall more: seq<Token> | Expects(Reader(P.ParseBlockMappingKey, r.below, r.dirs, false), more)
      ensures P.Continue(r.top, [t] + more, r.dirs, []) ==
              D.Before(D.EMPTY, P.Continue(P.ParseBlockMappingKey, more, r.dirs, []))
    {
      Second(t, t, more);
      Absent(r, P.ParseBlockMappingKey, more);
      BlockGoesOn([t] + more, r.dirs);
      BlockGoesOn(more, r.dirs);
    }
    LeadStep(r, [t], P.ParseBlockMappingKey);
  }

  // ---- The end of a collection ----

  lemma CloseRead(r: Reader, ts: seq<Token>, e: Event)
    requires r.below != [] && (e.SequenceEnd? || e.MappingEnd?)
    requires forall more :: Expects(Popped(r), more) ==>
               Expects(r, ts + more) && P.Continue(r.top, ts + more, r.dirs, []) == D.Done(e, more)
    ensures Step(r, ts, e, Popped(r))
  {
    forall more | Expects(Popped(r), more)
      ensures Expects(r, ts + more) && OneThen(Spells(r, ts + more), e, Spells(Popped(r), more))
    {
      hide P.Resume, P.Continue, P.Below, OneThen, Expects;
      P.ResumePopped(r.below, [], r.dirs, more);
      NoMarks(r.below[|r.below| - 1]);
      NoMarks(r.top);
      BeforeIsOneThen(e, e, Spells(Popped(r), more));
    }
  }

  lemma FlowEndRead(r: Reader, sequence: bool, first: bool, comma: bool, more: seq<Token>)
    requires r.top == if sequence then if first then P.ParseFlowSequenceFirstEntry else P.ParseFlowSequenceEntry
                      else if first then P.ParseFlowMappingFirstKey else P.ParseFlowMappingKey
    ensures var start := Tok(if sequence then FlowSequenceStartToken else FlowMappingStartToken);
            var ts := OptionalToken(first, start) + OptionalToken(comma && !first, Tok(FlowEntryToken)) +
                      [Tok(if sequence then FlowSequenceEndToken else FlowMappingEndToken)];
            && Expects(r, ts + more)
            && P.Continue(r.top, ts + more, r.dirs, []) == D.Done(if sequence then SequenceEnd else MappingEnd, more)
  {
    hide D.Node, D.Optional, D.PairKey, D.FlowValue;
    var start := Tok(if sequence then FlowSequenceStartToken else FlowMappingStartToken);
    var end := Tok(if sequence then FlowSequenceEndToken else FlowMappingEndToken);
    var ts := OptionalToken(first, start) + OptionalToken(comma && !first, Tok(FlowEntryToken)) + [end];
    assert ts == if first then [start, end] else if comma then [Tok(FlowEntryToken), end] else [end];
    hide P.Continue, OptionalToken;
    FlowGoesOn(ts + more, r.dirs);
    if first {
      Second(start, end, more);
    } else if comma {
      Second(Tok(FlowEntryToken), end, more);
    } else {
      Second(end, end, more);
    }
  }

  /** The end of a collection in flow style, perhaps behind a comma. */
  lemma FlowCloses(r: Reader, sequence: bool, first: bool, comma: bool)
    requires r.below != []
    requires r.top == if sequence then if first then P.ParseFlowSequenceFirstEntry else P.ParseFlowSequenceEntry
                      else if first then P.ParseFlowMappingFirstKey else P.ParseFlowMappingKey
    ensures var start := Tok(if sequence then FlowSequenceStartToken else FlowMappingStartToken);
            Step(r, OptionalToken(first, start) + OptionalToken(comma && !first, Tok(FlowEntryToken)) +
                    [Tok(if sequence then FlowSequenceEndToken else FlowMappingEndToken)],
                 if sequence then SequenceEnd else MappingEnd, Popped(r))
  {
    hide Popped, P.Continue, OptionalToken, Follow;
    var start := Tok(if sequence then FlowSequenceStartToken else FlowMappingStartToken);
    var end := Tok(if sequence then FlowSequenceEndToken else FlowMappingEndToken);
    var ts := OptionalToken(first, start) + OptionalToken(comma && !first, Tok(FlowEntryToken)) + [end];
    var e := if sequence then SequenceEnd else MappingEnd;
    forall more | Expects(Popped(r), more)
      ensures Expects(r, ts + more) && P.Continue(r.top, ts + more, r.dirs, []) == D.Done(e, more)
    {
      FlowEndRead(r, sequence, first, comma, more);
    }
    CloseRead(r, ts, e);
  }

  lemma BlockCloses(r: Reader, sequence: bool, first: bool)
    requires r.below != []
    requires r.top == if sequence then if first then P.ParseBlockSequenceFirstEntry else P.ParseBlockSequenceEntry
                      else if first then P.ParseBlockMappingFirstKey else P.ParseBlockMappingKey
    ensures Step(r,
              OptionalToken(first, Tok(if sequence then BlockSequenceStartToken else BlockMappingStartToken)) +
              [Tok(BlockEndToken)],
                 if sequence then SequenceEnd else MappingEnd, Popped(r))
  {
    var start, end := Tok(if sequence then BlockSequenceStartToken else BlockMappingStartToken), Tok(BlockEndToken);
    var ts := OptionalToken(first, start) + [end];
    assert ts == if first then [start, end] else [end];
    var e := if sequence then SequenceEnd else MappingEnd;
    forall more | Expects(Popped(r), more)
      ensures Expects(r, ts + more) && P.Continue(r.top, ts + more, r.dirs, []) == D.Done(e, more)
    {
      hide Popped, D.Node, D.Optional, D.BlockValue;
      Second(start, end, more);
    }
    CloseRead(r, ts, e);
  }

  /** An indentless sequence in a mapping ends where its entries do. */
  lemma IndentlessCloses(r: Reader)
    requires r.top.ParseIndentlessSequenceEntry? && !r.isNew && r.below != []
    requires r.below[|r.below| - 1].ParseBlockMappingKey? || r.below[|r.below| - 1].ParseBlockMappingValue?
    ensures Step(r, [], SequenceEnd, Popped(r))
  {
    forall more | Expects(Popped(r), more)
      ensures Expects(r, [] + more) && P.Continue(r.top, [] + more, r.dirs, []) == D.Done(SequenceEnd, more)
    {
      hide D.Node, D.Optional;
      assert [] + more == more;
    }
    CloseRead(r, [], SequenceEnd);
  }
}
