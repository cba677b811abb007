# Verified models of the vendored parsers, codecs and state machines

The repository vendors self-contained libraries whose behaviour is intricate enough to
be worth proving. This project models six of them in Dafny, one module per component,
and proves what each of them is for. `dafny verify dfyconfig.toml` checks all of it.

Code that works by changing things step by step is imperative here as well: classes with
the source's fields and loops with invariants, each method proved against a specification
function. What the source promises is proved about these functions as lemmas, for all
inputs, and about the classes as invariants that every step keeps.

## Main results

- The YAML parser accepts exactly the token lists that have a derivation in its grammar and
  delivers the events of the derivation. These say what the tokens say: each anchor, alias,
  expanded tag and text, in order, and nothing else but empty ones. Its stacks never
  underflow and it always terminates.
- The tree builder never reaches its panics. A name is an anchor exactly if a node carries
  it, and stands for the last one. Decoding is the meaning of the alias-expanded tree, and
  fails on an alias exactly when a name reached is unknown or leads to itself. Every value
  whose keys are scalars, and not the merge key, can be written as nodes that decode to it;
  of merged mappings the first in a list that has a key decides.
- Every well-formed stream of events is emitted to its end, and the parser reads the same
  events back from what was written exactly when no tag without a suffix and no %TAG line
  for a lone "!" was written, the first document is not an empty plain scalar without a
  marker, and every folded text is one that the folded writer keeps. Which streams come back
  whatever styles are chosen is told by the events alone.
- Double-quoted, single-quoted and literal scalars are scanned back as what was written,
  folded scalars, tags and %TAG lines exactly under stated conditions. Whoever wrote them,
  quoted scalars, block scalars and tags are scanned as what their characters, escapes,
  lines and hints mean.
- The reader delivers the characters of any input, in UTF-8 or in UTF-16 of either order, up
  to the first place that is none, however the input is cut up.
- Decimal division rounds the real quotient as its mode says; exact division succeeds exactly
  on finite decimals, with the least scale. Exactly numbers are parsed, as what they are.
- BER packets are read from exactly their encodings, in any form of length at any level, and
  none with definite lengths is shorter than what is written; LDAP filters are compiled from
  exactly the texts of a grammar, as what they mean. What is written is read back exactly
  under stated conditions; a filter crashes the compiler exactly when a closing parenthesis
  it would skip unread is missing.
- Over any run of its loop the LDAP connection sends the caller of a request exactly the
  answers to its id, in order, until it is over, and closes each channel once, whatever its
  senders, its loop and Close do in between. Once the loop has ended, the channel of a
  request that was queued is closed exactly if its sender was not caught between its look at
  the closing flag and the queue when the last message was queued; others wait for ever.
- The gRPC connection and balancer leave no waiter behind and serve addresses in turn.
- The pkt-line parser does not depend on chunking, reads whole packets as their payloads and
  stops where, and as, what stands behind them says; it reads back exactly payloads of up to
  65520 bytes.

## YAML (`gopkg.in/yaml.v2`)

`YamlGrammar` states the language of event streams twice, as node trees with their
linearisation and as a machine that tracks what a stream still owes, and proves the two
equal. `YamlTokens` and `YamlTags` hold tokens, errors and tag directives.

`YamlDescent` is the parser's grammar by recursive descent over a token list: events, the
tokens left, and the error. `YamlParser` is the pushdown parser with its `states` and
`marks` stacks. Its invariant is that the events delivered so far, followed by what the
recursive descent spells from the current configuration, are what it spells for the whole
stream. So every state delivers exactly the right event, or exactly the right error; and
since the same invariant ties the stacks to the machine of `YamlGrammar`, the stacks never
underflow, the FIRST states find their token, and at most five events come of a token.

What the descent itself does is told twice without it. `YamlSyntax` has derivation trees of
the grammar, with the tokens they are made of and the events they stand for, and proves that
the descent accepts exactly what has a derivation. `YamlContents` reads tokens and events as
flat lists of what they say, whatever their structure, and proves these lists equal.

`YamlTree` is the recursive builder: it never reaches its panics and returns the tree
whose events it consumed. `YamlAnchors` says what its anchors are in terms of these events.
`YamlDecoder` follows aliases and merge keys; it terminates on
anchors that refer to themselves and returns the meaning of the alias-expanded tree.
`YamlAliases` says, in terms of which names a document reaches, when that tree has nothing
lost, and which aliases change the entries put into mappings; `YamlMaps` is about the maps
in the end, in which the last entry for a key stays. `YamlValues` writes values as nodes and
proves what decodes to them, what is refused as a key, and which entries a merge gives.

`YamlEmitter` is the second pushdown automaton, with its lookahead queue, indents, flow
level, simple keys and style selection. It is proved to refuse exactly what breaks the
order of events or has unacceptable content, to be at rest around every document, and to
write what the parser reads as the same events, or else to fail at that in one of four ways,
each with its exact condition. For that `YamlReadBack` says of the parser which tokens,
whatever follows them, are read as one event, and the emitter carries the parser's
configuration along as ghost state, together with what the parser hears of the events.
Events agree up to what a text does not hold: flags, tags that may be left implicit, and
block style where flow style is written instead.

The tokens are what the scanner makes of the text. Of it these things are taken for granted:
names and the texts of plain, quoted and literal scalars are scanned as written, at any
column (for the quoted and literal ones that is what `YamlQuoted`, `YamlSingleQuoted` and
`YamlLiteral` prove of the texts allowed in them); indicators, markers and %YAML lines are
the tokens of their names; a simple key gets its KEY token. An empty plain scalar is no
token at all, only perhaps its anchor and tag, and that the parser fills it in everywhere
but at the root of a document without a marker is proved. A folded scalar is the token of
its refolded text: `YamlFolded` writes and scans it, and says exactly which texts come back.
The tokens that start and end block collections come from the columns by the rule of
roll_indent and unroll_indent (scannerc.go:937-987). Tags and %TAG lines are written and
scanned by `YamlTagText`, which shows that exactly tags without a suffix are refused
(scannerc.go:2006-2010) and that exactly the handle "!" of a %TAG line makes the scanner
panic (scannerc.go:1947).

`YamlReader` decodes UTF-8 and UTF-16 through two compacting buffers, however the input is
cut up; `YamlEncodings` says what a text is in each encoding, and that it is what the reader
delivers. `YamlAnalysis` is what the emitter finds out about a scalar. `YamlFlowScanner` and
`YamlBlockScanner` scan quoted and block scalars; `YamlQuoted`, `YamlSingleQuoted`,
`YamlLiteral` and `YamlFolded` write them and prove what scanning gives back. `YamlFlowText`,
`YamlBlockText` and `YamlTagForms` say how quoted scalars, block scalars and tags may be
written by anyone, and that they are scanned as that. `YamlBytes`, `Utf8` and `Octets` hold
character classes, UTF-8, bytes and digits.

## Decimals (`gopkg.in/inf.v0`)

`InfDec` models quotients, all rounders with the bit-length shortcut, and exact division,
which rests on the number theory of `Divisibility`. `InfDecText` is printing and parsing.

## LDAP filters, BER, and the LDAP connection (`gopkg.in/ldap.v2`, `gopkg.in/asn1-ber.v1`)

`LdapFilter` compiles and decompiles filters; `LdapFilterText` is about values as anyone may
write them, `LdapFilterGrammar` about all that is compiled, and `LdapFilterEnd` about where
compiling stops. `Ber` reads and writes identifiers, lengths, packets and integers; `BerForms`
has all the encodings of a packet. `LdapAnswers` follows one caller through a run of the loop
of `LdapConn`. That is the message
loop with its callers, senders, reader, timeouts and Close as steps that interleave in any
order: looks at a flag that is not locked, sections under the lock, counting a sender in or
out, and each message that goes into the queue or comes out of it.

## gRPC client (`google.golang.org/grpc`)

`Balancer` is the round-robin balancer, `AddrConn` one connection with its driver, waiters
and tear-downs. A method is one section under the lock; any order of sections is a run.

## pkt-line (`github.com/AaronO/go-git-http`)

`PktLine` is the incremental parser and the writer.

## Where the code differs from what it says

- The parser's comments give a grammar in which a single pair of a flow sequence may have an
  empty key, and a block mapping entry may start with VALUE. The code takes the token behind
  an empty key along (`YamlDescent.EmptyPairKey`, with `[? : v]`, `[? , a]` and `[?]` in
  `YamlDescent.PairsMisread`) and demands KEY (`YamlDescent.MissingBlockKey`, with `: v` in
  `YamlDescent.KeyDemanded`).
- A tag that is all of a directive's prefix, and the "!" written for a scalar that is
  implicit only when plain but is written in quotes, have no suffix, and the scanner refuses
  them (`YamlEmitter.WhenUnscannable`, `YamlEmitter.NotScanned`).
- The emitter accepts "!" as the handle of a %TAG line, on which the scanner looks at a byte
  that is not there and panics (`YamlTagText.DirectiveRoundTrip`, `YamlEmitter.LoneMarkStops`).
- The folded writer decides whether to double a break by the first character of the whole
  text that is no break, not by the one behind the break (emitterc.go:1648-1651), and breaks
  long lines also where they begin with a blank. So "a", a break and " b" are read back with
  two breaks (`YamlFolded.RefoldedKept`, `YamlFolded.SpaceBehindBreak`,
  `YamlEmitter.FoldedOtherwise`).
- Nothing is written for an empty plain scalar without properties at the root of a document
  without a marker, so that the parser does not notice the document, and fails if its end is
  marked (`YamlEmitter.RootUnnoticed`).
- The scanner's special case for a lone "!" (scannerc.go:1882-1884) is never reached
  (`YamlTagText.NeverEmpty`).
- An alias is not interchangeable with what it stands for where merge keys are concerned
  (`YamlAliases.WrittenOut`, `YamlAliases.AliasOfMergeKey`, `YamlAliases.AliasOfMergeList`).
  That is exact for the entries put into mappings, and for the maps in the end where no key
  is given twice (`YamlMaps.WrittenOutMaps`); a later entry for the same key can hide the
  difference (`YamlMaps.MergeKeyOverwritten`).
- BER identifiers with tags whose highest bit index is a multiple of 7, as 128 to 255, are
  written a byte short (`Ber.IdentifierRoundTrip`).
- A pkt-line payload of more than 65520 bytes is written, but not read back
  (`PktLine.RoundTripExactly`).
- An extensible LDAP filter with the rule "dn" and no DN matching prints as another one
  (`LdapFilter.ExtensibleRoundTrip`).
- The LDAP filter compiler does not look at the byte behind a filter in parentheses of its own,
  nor at the one that ends a set, and takes a matching rule that is not ended; its grammar in
  `LdapFilterGrammar` says so (`LdapFilterGrammar.CompiledExactly`).
- The LDAP filter compiler reports bad text as an error but for "((a=b)" and its like, where it
  panics outside its recover (`LdapFilterEnd.CrashesWhenUnread`, `LdapFilterEnd.NeverClosed`).
- An LDAP caller waits for ever if its request is refused by the queue because the connection
  began to close behind its back (`LdapConn.Conn.SendProcessMessage`), and also if it is queued:
  Close waits only for senders that are counted in, and one that is past its look at the closing
  flag may queue its request behind the last message (`LdapConn.Conn.ClosedUnlessLate`,
  `LdapConn.LeftInQueue`). If it comes after the queue is closed it crashes
  (`LdapConn.Conn.LateRequest`, `LdapConn.QueueGone`).
- A balancer started twice for one target wakes nobody (`Balancer.StartedTwice`).

## Model

| member | source | states |
|---|---|---|
| YamlSyntax.StreamExactly | gopkg.in/yaml.v2/parserc.go:14-43 | the descent accepts a token list if and only if it has a derivation in the grammar of the comments, read as the code reads it, and then the events are those of the derivation; derivations are trees with their own tokens and events, apart from the descent |
| YamlSyntax.EmittedIsDerived | gopkg.in/yaml.v2/parserc.go:62-170 | at the end of its run the parser has delivered the events of a derivation of its tokens |
| YamlContents.EmittedSays | gopkg.in/yaml.v2/parserc.go:62-170 | at any time what the parser has delivered says what its tokens do up to some place, and at the end all of it |
| YamlParser.EmittedIsSpelled | gopkg.in/yaml.v2/parserc.go:93-1006 | the events delivered are the first of those the token stream spells by recursive descent over the grammar; at the end they are all of them, and a parser error is the error the descent finds, with its context and marks. What the descent spells is told apart from it by `YamlSyntax.StreamExactly` and `YamlContents.StreamTells` |
| YamlParser.EmittedIsPrefix | gopkg.in/yaml.v2/parserc.go:62-170 | in every state the parser can be in, the events delivered are a prefix of a stream of the grammar, and all of one at the end |
| YamlParser.Parser.Parse | gopkg.in/yaml.v2/parserc.go:62-73 | one call delivers one event the stream owes, keeps the invariant that events delivered and events still spelled make up the descent of all tokens, and uses up some of a budget of five events a token; nothing comes after the end or an error |
| YamlParser.Parser.StateMachine | gopkg.in/yaml.v2/parserc.go:93-170 | each of the 24 states delivers the next event spelled from its configuration, or its error; the stacks never underflow and a FIRST state finds its opening token |
| YamlGrammar.MachineIsGrammar | gopkg.in/yaml.v2/parserc.go:14-43 | an event list runs the "what is owed" machine to its end if and only if it is STREAM-START, documents, STREAM-END in the grammar of node trees |
| YamlGrammar.UniqueStream | gopkg.in/yaml.v2/decode.go:105-145 | a stream of events has one list of documents |
| YamlDescent.EmptyPairKey | gopkg.in/yaml.v2/parserc.go:834-849 | a single pair with an empty key is read as the grammar of the comments means it if and only if what shows the key to be empty is VALUE before a comma or the end, or a comma before the end; elsewhere the parser, which takes that token along, asks for a comma at the next |
| YamlDescent.MissingBlockKey | gopkg.in/yaml.v2/parserc.go:667-722 | the pairs of a block mapping are read as the grammar of the comments means them if and only if the next one does not start with VALUE; that one is refused |
| YamlTree.Builder.Parse | gopkg.in/yaml.v2/decode.go:105-124 | fails only if the parser does; returns the tree whose events it consumed; "unknown event" cannot happen |
| YamlTree.Builder.ParseDocument | gopkg.in/yaml.v2/decode.go:134-145 | one document; "expected end of document" cannot happen |
| YamlAnchors.AnchorsAreLast | gopkg.in/yaml.v2/decode.go:99-184 | a name is an anchor of a document if and only if an event of its linearisation carries it, and stands for the node that starts at the last of these |
| YamlDecoder.DecodeIsMeaning | gopkg.in/yaml.v2/decode.go:277-322 | decoding any node, under any set of active anchors, is the meaning of its alias-expanded tree, in which an alias that cannot be followed is an error where it stands |
| YamlDecoder.Decoder.Unmarshal | gopkg.in/yaml.v2/decode.go:277-299 | terminates for every document, returns the decode of the node, and leaves the active aliases as they were |
| YamlAliases.WholeWhenResolved | gopkg.in/yaml.v2/decode.go:310-322 | the expanded tree has no lost alias if and only if every name reached from the node, from anchor to anchor, is known and none leads back to itself |
| YamlAliases.AliasErrors | gopkg.in/yaml.v2/decode.go:310-322 | so a document with all names resolved fails on no alias and any other fails; "unknown anchor" is reported only if a name reached is unknown, "contains itself" only if one leads to itself |
| YamlAliases.WrittenOut | gopkg.in/yaml.v2/decode.go:510-683 | a document that decodes puts the same entries into its mappings, one by one, as with its aliases written out, if and only if none of them stands for a merge key; entries that a later one replaces count |
| YamlMaps.WrittenOutMaps | gopkg.in/yaml.v2/decode.go:510-683 | however scalars are resolved, the maps in the end, where the last entry for a key stays, are the same with aliases written out that stand for no merge key; where no mapping is given a key twice, only then |
| YamlValues.WrittenDecodes | gopkg.in/yaml.v2/decode.go:277-570 | every value whose keys are scalars, and not the merge key, written as a node, decodes to itself, whatever the anchors |
| YamlValues.MergedInPlace | gopkg.in/yaml.v2/decode.go:548-566 | the entries merged stand in the place of the merge key: behind those written before it, in front of those written after it |
| YamlValues.EarlierWins | gopkg.in/yaml.v2/decode.go:669-677 | merging a list gives a key the value it has in the first node of the list that has it, and no key that none has |
| YamlValues.DecodedKeys | gopkg.in/yaml.v2/decode.go:510-570 | whatever is decoded has only scalars for keys, at every depth and through every alias and merge |
| YamlEmitter.EmitStream | gopkg.in/yaml.v2/emitterc.go:113-127 | every well-formed stream of acceptable events is emitted to its end; from what was written the parser reads the same events back if and only if no tag without a suffix and no %TAG for a lone "!" was written, the root of an implicit first document is not an empty plain scalar without properties, and every folded text is one the folded writer keeps; otherwise it fails, misses that document, or hears the folded text refolded. Every scalar is written in the style its event asks for or in quotes, so that a condition on the events alone makes sure that all comes back |
| YamlEmitter.WhateverTheLayouts | gopkg.in/yaml.v2/emitterc.go:311-453 | a stream comes back in whatever styles, indents and widths may be chosen for it if and only if no event has a tag that would be written without a suffix in quotes or a directive for a lone "!", every folded text comes back at any indent and width, and the root of an implicit first document is not an empty plain scalar without properties |
| YamlEmitter.WhenUnscannable | gopkg.in/yaml.v2/emitterc.go:798-888 | a tag is written without a suffix if and only if it is all of the first directive prefix that fits, or a scalar without a written tag is not plain and may not lose its tag in quotes |
| YamlEmitter.AtRest | gopkg.in/yaml.v2/emitterc.go:425-453 | around every document both stacks are empty, the flow level 0, the indent -1, and all flow brackets written are closed |
| YamlEmitter.Emitter.Emit | gopkg.in/yaml.v2/emitterc.go:113-133 | refuses only what breaks the order of events or has unacceptable content; no structural error on a prefix of a stream; at most three events are held back, and none at the end |
| YamlEmitter.Emitter.StateMachine | gopkg.in/yaml.v2/emitterc.go:211-269 | each of the 18 states takes exactly the events the stream owes, if acceptable; the parser reads what it writes, from where it stands, as what is heard of that event, unless the scanner stops there or nothing was written for the first document |
| YamlReadBack.ReadToTheEnd | gopkg.in/yaml.v2/emitterc.go:113-133 | tokens that are read back event by event, with the end behind them, are parsed without an error into events that agree with those written |
| YamlReadBack.CutOff | gopkg.in/yaml.v2/scannerc.go:2006-2010 | whatever comes before a tag that the scanner refuses, or a directive on which it panics, the parser ends in an error |
| YamlTagText.TagRoundTrip | gopkg.in/yaml.v2/scannerc.go:1829-2059 | before a blank, a break or the end the text of handle and suffix is scanned as these if and only if there is a suffix; without one it is refused |
| YamlTagText.DirectiveRoundTrip | gopkg.in/yaml.v2/scannerc.go:1713-1770 | what is written behind %TAG is scanned as its handle and prefix if and only if the handle is not a lone "!", on which the scanner panics |
| YamlTagText.ProcessTag | gopkg.in/yaml.v2/emitterc.go:862-888 | what is written is found again by the scanner, or refused for want of a suffix |
| YamlTagForms.TagExactly | gopkg.in/yaml.v2/scannerc.go:1829-1911 | a tag is scanned as a handle and a suffix if and only if it is one of three forms of them, of characters that stand for themselves or escaped octets with digits of either case, in front of a blank, a break or the end |
| YamlEncodings.InputRead | gopkg.in/yaml.v2/readerc.go:91-394 | the characters delivered of any input are those of its text: scalar values in UTF-8, marked or not, or in UTF-16 behind its mark, as many as are allowed in YAML; a failure is reported if and only if something is left, within three bytes of it, and as a control character exactly if it is one |
| YamlEncodings.ReadAsText | gopkg.in/yaml.v2/readerc.go:91-394 | an input is read without failure as some characters if and only if it is their text, with the mark of its encoding or, in UTF-8, without |
| YamlReader.SameCharacters | gopkg.in/yaml.v2/readerc.go:91-394 | two readers of one input, however it was cut up, deliver the same characters |
| YamlReader.Reader.UpdateBuffer | gopkg.in/yaml.v2/readerc.go:91-394 | enough characters or all that are left and one NUL; the characters so far are those of a one-shot decode, `unread` counts them, no write passes the buffer; a failure is that of the whole input |
| YamlQuoted.Emitter.WriteDoubleQuotedScalar | gopkg.in/yaml.v2/emitterc.go:1429-1548 | for every valid UTF-8 value, column state, width and unicode flag, and indent from 1 up, what is written is scanned back as the value |
| YamlSingleQuoted.WriteSingleQuotedScalar | gopkg.in/yaml.v2/emitterc.go:1370-1427 | every value the analysis allows is scanned back as itself |
| YamlLiteral.WriteLiteralScalar | gopkg.in/yaml.v2/emitterc.go:1592-1627 | every value the analysis allows is scanned back as itself |
| YamlFolded.WriteFoldedScalar | gopkg.in/yaml.v2/emitterc.go:1629-1685 | the text of a folded scalar, with doubled breaks and broken lines; scanned in any block it is the value refolded, which is the value exactly if every break behind a line that begins with no blank is doubled just where the next line does not begin with one either, at most one doubled break ends the text, and no line that begins with a blank is broken |
| YamlFolded.RefoldedKept | gopkg.in/yaml.v2/emitterc.go:1629-1685 | a text comes back if and only if it meets that condition |
| YamlFlowText.PiecesScanned | gopkg.in/yaml.v2/scannerc.go:2304-2557 | a quoted scalar of either kind, put together of characters, doubled quotes, named escapes, codes with digits of either case, blanks, folded and escaped line breaks, is scanned as what they mean |
| YamlFlowText.EscapesExactly | gopkg.in/yaml.v2/scannerc.go:2353-2467 | an escape is read if and only if it is a name of the table or a code of two, four or eight digits for a scalar value, and as the text of that |
| YamlBlockText.BlockScanned | gopkg.in/yaml.v2/scannerc.go:2062-2246 | a block scalar with its hints in either order, comment, lines and empty lines of any breaks, at an indentation given or found, is scanned as its lines, kept apart or folded, and the breaks at the end as it is to be chomped, and what is behind it is left |
| InfDec.Dec.QuoExact | gopkg.in/inf.v0/dec.go:282-284 | succeeds if and only if the quotient is a finite decimal; then exact, with the least scale from x.scale - y.scale up at which it is |
| InfDec.Dec.QuoRound | gopkg.in/inf.v0/dec.go:256-274 | the real quotient of the operands rounded to a multiple of 10^-s as the mode prescribes, for all signs, also when the receiver is an operand; unchanged on failure, which only exact mode knows |
| InfDec.BitLenDecidesHalf | gopkg.in/inf.v0/rounder.go:69-95 | the bit-length shortcut agrees with comparing twice the remainder |
| InfDecText.TextRoundTrip | gopkg.in/inf.v0/dec.go:426-537 | reading what was printed gives the same decimal for scale >= 0, and the same value at scale 0 otherwise, for all signs and zero |
| InfDecText.ParsesExactly | gopkg.in/inf.v0/dec.go:470-537 | a text is parsed as a decimal if and only if it is a number: a sign, digits and perhaps a point and more digits; and as that number, its scale the count of the digits behind the point |
| Divisibility.DividesPowerOfTen | gopkg.in/inf.v0/dec.go:344-354 | d divides 10^j if and only if d = 2^a 5^b with a, b <= j |
| LdapFilter.FilterRoundTrip | gopkg.in/ldap.v2/filter.go:77-195 | compiling the text of any well-formed filter gives that filter |
| LdapFilter.ExtensibleRoundTrip | gopkg.in/ldap.v2/filter.go:160-191 | an extensible filter comes back if and only if its rule is not "dn" or it matches the DN attributes |
| LdapFilterGrammar.CompiledExactly | gopkg.in/ldap.v2/filter.go:77-89 | a text is compiled to a filter if and only if it is derived from a grammar of its own, whose trees have texts and meanings apart from the compiler, and means that filter |
| LdapFilterText.UnescapesDenoted | gopkg.in/ldap.v2/filter.go:436-466 | a text is unescaped to a value if and only if it denotes it: characters for themselves, and bytes as two digits of either case behind a backslash |
| LdapFilterEnd.CrashesWhenUnread | gopkg.in/ldap.v2/filter.go:77-89 | compiling crashes if and only if closing parentheses are missing the first of which would be skipped unread: with any byte in its place, and the others, the text compiles to one filter |
| BerForms.ReadsForms | gopkg.in/asn1-ber.v1/ber.go:275-396 | a packet is read, and some bytes left, if and only if what stands in front of them is an encoding of it: tags of one byte or of base-128 digits, lengths in the short form or in up to eight bytes, padded or not, or indefinite and closed by two zero bytes, chosen anew at every level |
| Ber.PacketRoundTripExactly | gopkg.in/asn1-ber.v1/ber.go:275-411 | a tree is read back if and only if all its tags are representable |
| Ber.ReencodingIsStable | gopkg.in/asn1-ber.v1/ber.go:275-411 | an accepted input decodes to a tree whose encoding decodes to that same tree, if and only if its tags are representable |
| Ber.IdentifierRoundTrip | gopkg.in/asn1-ber.v1/identifier.go:10-103 | an identifier is read back if and only if its tag is representable |
| Ber.Int64RoundTrip | gopkg.in/asn1-ber.v1/ber.go:210-254 | a 64-bit integer takes at most eight bytes and is read back |
| LdapConn.Conn.ProcessMessage | gopkg.in/ldap.v2/conn.go:353-418 | what each message adds to and takes from the table, sends, and closes, exactly; a request that was queued is in the queue or the table until its channel is closed, whatever the senders and Close do in between |
| LdapAnswers.CallerHears | gopkg.in/ldap.v2/conn.go:353-418 | over any run of the loop, the caller of a request hears, in order, exactly the packets that come for its id until it times out, which it is told, or it has finished, and that alone; or just that its request could not be written. Its channel is closed exactly from then on |
| LdapConn.Conn.EndLoop | gopkg.in/ldap.v2/conn.go:329-346 | with no other step in between, the table is emptied, exactly the channels of those registered are closed, and each is told once of the error, if closing for one |
| LdapConn.Conn.ClosedUnlessLate | gopkg.in/ldap.v2/conn.go:162-180 | once the loop has ended, the channel of a request that was queued is closed if and only if the request is not left in the queue, and that is so if and only if its sender was not past its look at the closing flag with the request still to queue when the last message was queued |
| LdapConn.Conn.LateRequest | gopkg.in/ldap.v2/conn.go:162-180 | each of those was not counted in when Close had waited for the senders; it is still with its sender, left in the queue, or its sender has crashed |
| LdapConn.LeftInQueue | gopkg.in/ldap.v2/conn.go:318-326 | a run of a single sender and Close in which a request is queued, the loop has ended, and the caller waits for ever |
| LdapConn.QueueGone | gopkg.in/ldap.v2/conn.go:318-326 | a run in which the sender comes when the queue is closed, and crashes |
| LdapConn.Conn.SendProcessMessage | gopkg.in/ldap.v2/conn.go:319-321 | the sender of a message goes on exactly if it finds the connection open; a request that is refused leaves its caller waiting on a channel on which nothing is sent and that no step ever closes |
| LdapConn.Conn.Enqueue | gopkg.in/ldap.v2/conn.go:323 | the message is put in the queue when there is room, or the sender crashes exactly if the queue is closed; of the requests exactly the late ones find the last message queued before them |
| LdapConn.Conn.EnterRequest | gopkg.in/ldap.v2/conn.go:264-293 | under the lock, refused exactly when TLS is being started, or asked to start TLS with requests outstanding; TLS being started means one request is outstanding |
| AddrConn.AddrConn.TearDown | google.golang.org/grpc/clientconn.go:854-888 | shut down for good, any number of times, and no waiter is left |
| AddrConn.AddrConn.DialSucceeded | google.golang.org/grpc/clientconn.go:721-740 | a transport that comes up after the tear-down is closed and never installed; otherwise ready, and no waiter is left |
| AddrConn.AddrConn.StopMonitoring | google.golang.org/grpc/clientconn.go:751-784 | the driver rests, with nobody waiting on an open channel |
| Balancer.EachConnectedOnce | google.golang.org/grpc/balancer.go:287-315 | with k connected addresses any k consecutive calls return each exactly once, from wherever the turn stands |
| Balancer.GetRepeatedly | google.golang.org/grpc/balancer.go:287-335 | any number of calls on the balancer with no step between them return the connected addresses in turn; as many as are connected return each exactly once |
| Balancer.RoundRobin.Up | google.golang.org/grpc/balancer.go:249-272 | connects the address and wakes the blocked calls exactly if it is then the only connection; unless a target was started twice no call stays blocked on a listed address that is up |
| Balancer.StartedTwice | google.golang.org/grpc/balancer.go:218-272 | two starts for one target, a call that waits and the target coming up: the call is not woken |
| PktLine.AnyChunking | github.com/AaronO/go-git-http/rpc_reader.go:37-45 | feeding any list of pieces, none fed once done, is feeding their concatenation |
| PktLine.RoundTripExactly | github.com/AaronO/go-git-http/utils.go:69-77 | payloads, written and flushed, are read back if and only if each of them has at most 65520 bytes |
| PktLine.PacketsRead | github.com/AaronO/go-git-http/pktparser.go:32-143 | whole packets, their lengths with digits of either case, give their payloads in order; what stands behind them decides where the parser is: in a length, in a payload, done, or stopped by four bytes that are no number or no length |
| PktLine.PktLineParser.Feed | github.com/AaronO/go-git-http/pktparser.go:32-60 | terminates, steps that consume nothing included; the new state is that of the machine fed the data |
| YamlGrammar.AcceptedIsPrefix | gopkg.in/yaml.v2/parserc.go:62-73 | the event lists the machine accepts so far are exactly the prefixes of such streams |
| YamlGrammar.AcceptsNode | gopkg.in/yaml.v2/decode.go:105-124 | from every place that waits for a node, the events of any node tree are accepted and pay for exactly that node |
| YamlGrammar.UniqueNode | gopkg.in/yaml.v2/decode.go:105-124 | two node trees whose events begin one event list alike are the same tree and leave the same rest |
| YamlDescent.PairsMisread | gopkg.in/yaml.v2/parserc.go:768-849 | `[? : v]`, `[? , a]` and `[?]`, which the grammar derives, are not read so |
| YamlDescent.KeyDemanded | gopkg.in/yaml.v2/parserc.go:667-722 | `: v` alone, which the grammar derives, is refused |
| YamlSyntax.NodeSpelled | gopkg.in/yaml.v2/parserc.go:360-574 | in any context, in front of any tokens that do not go on with it, the tokens of a derived node are read as that node |
| YamlSyntax.NodeParsed | gopkg.in/yaml.v2/parserc.go:360-574 | whatever is read as a node has a derivation with those events, which leaves the same rest |
| YamlContents.StreamTells | gopkg.in/yaml.v2/parserc.go:380-574 | the events of a stream say, in order, what its tokens say: the anchors, the aliases, the tags as the directives in force expand them, and the texts, and nothing else but empty ones; if there is an error, they say it up to some place |
| YamlContents.EitherOrder | gopkg.in/yaml.v2/parserc.go:380-452 | TAG ANCHOR and ANCHOR TAG in front of the same tokens are the same properties, with that anchor and that tag, or both are refused, exactly for an undefined handle or the end |
| YamlParser.Parser.PeekToken | gopkg.in/yaml.v2/parserc.go:46-51 | the token at hand, or the scanner error when there is none |
| YamlParser.Parser.SkipToken | gopkg.in/yaml.v2/parserc.go:54-59 | exactly one token is consumed |
| YamlParser.Parser.ParseStreamStartState | gopkg.in/yaml.v2/parserc.go:175-192 | STREAM-START first, or the error at the token found |
| YamlParser.Parser.ParseDocumentStartState | gopkg.in/yaml.v2/parserc.go:199-277 | an implicit document only in front, an explicit one with its directives, or the end, after any document end markers |
| YamlParser.Parser.ParseDocumentContentState | gopkg.in/yaml.v2/parserc.go:283-299 | a node, or an empty scalar where the document ends at once |
| YamlParser.Parser.ParseDocumentEndState | gopkg.in/yaml.v2/parserc.go:306-332 | whether the end was marked, and the directives are forgotten |
| YamlParser.Parser.ParseNode | gopkg.in/yaml.v2/parserc.go:360-574 | alias, or properties and content: the event, and the rest of the node as the new configuration spells it |
| YamlParser.Parser.ParseProperties | gopkg.in/yaml.v2/parserc.go:380-452 | anchor and tag in either order, both kept, the tag expanded, or the error for an undefined handle |
| YamlParser.Parser.ResolveTag | gopkg.in/yaml.v2/parserc.go:431-450 | the expansion by the first directive in force for the handle |
| YamlParser.Parser.BeginCollection | gopkg.in/yaml.v2/parserc.go:453-552 | a collection starts exactly for the opening tokens that the context allows |
| YamlParser.Parser.ParseContent | gopkg.in/yaml.v2/parserc.go:453-574 | scalar with its implicit flags, collection, empty scalar behind properties, or the error |
| YamlParser.Parser.ParseBlockSequenceEntryState | gopkg.in/yaml.v2/parserc.go:580-627 | (BLOCK-ENTRY block_node?)* BLOCK-END |
| YamlParser.Parser.ParseIndentlessSequenceEntryState | gopkg.in/yaml.v2/parserc.go:632-664 | (BLOCK-ENTRY block_node?)+, ending before the first token that starts no entry |
| YamlParser.Parser.ParseBlockMappingKeyState | gopkg.in/yaml.v2/parserc.go:676-722 | pairs that start with KEY, to BLOCK-END; the grammar of the comments would also let VALUE start one |
| YamlParser.Parser.ParseBlockMappingValueState | gopkg.in/yaml.v2/parserc.go:734-757 | the value of a pair, which may be left out |
| YamlParser.Parser.ParseFlowSequenceEntryState | gopkg.in/yaml.v2/parserc.go:771-827 | entries between commas, single pairs among them |
| YamlParser.Parser.ParseFlowSequenceEntryMappingKeyState | gopkg.in/yaml.v2/parserc.go:834-849 | the key of a single pair; what shows an empty key is skipped |
| YamlParser.Parser.ParseFlowSequenceEntryMappingValueState | gopkg.in/yaml.v2/parserc.go:855-873 | the value of a single pair |
| YamlParser.Parser.ParseFlowSequenceEntryMappingEndState | gopkg.in/yaml.v2/parserc.go:879-891 | the end of a single pair, which takes no token |
| YamlParser.Parser.ParseFlowMappingKeyState | gopkg.in/yaml.v2/parserc.go:905-965 | pairs between commas, with or without KEY |
| YamlParser.Parser.ParseFlowMappingValueState | gopkg.in/yaml.v2/parserc.go:971-993 | the value, empty for a pair without KEY |
| YamlParser.Parser.ProcessDirectives | gopkg.in/yaml.v2/parserc.go:1014-1073 | at most one %YAML 1.1 and no two %TAG for one handle; the directives in force are these and the default ones not replaced |
| YamlParser.Parser.AppendTagDirective | gopkg.in/yaml.v2/parserc.go:1076-1096 | fails exactly for a duplicate that is not allowed; declares the handle otherwise |
| YamlTree.Builder.constructor | gopkg.in/yaml.v2/decode.go:40-58 | past STREAM-START; its "expected stream start event" panic cannot happen |
| YamlTree.Builder.ParseSequence | gopkg.in/yaml.v2/decode.go:164-173 | a sequence node whose linearisation is what was consumed |
| YamlTree.Builder.ParseMapping | gopkg.in/yaml.v2/decode.go:175-184 | a mapping node with keys and values alternating, whose linearisation is what was consumed |
| YamlDecoder.AnchorsAreGood | gopkg.in/yaml.v2/decode.go:99-103 | every anchor of a document stands for a well-formed node that is no alias |
| YamlDecoder.Decoder.constructor | gopkg.in/yaml.v2/decode.go:203-207 | no alias is active at first |
| YamlDecoder.Decoder.FollowAlias | gopkg.in/yaml.v2/decode.go:310-322 | an alias is followed unless it is unknown or active |
| YamlDecoder.Decoder.DecodeSequence | gopkg.in/yaml.v2/decode.go:478-508 | the items in order, or the first error |
| YamlDecoder.Decoder.DecodeMapping | gopkg.in/yaml.v2/decode.go:510-601 | the entries in order, merged ones where the merge key stands |
| YamlDecoder.Decoder.DecodeKeyValue | gopkg.in/yaml.v2/decode.go:572-601 | a key that cannot be hashed is refused before its value is looked at |
| YamlDecoder.Decoder.MergeNode | gopkg.in/yaml.v2/decode.go:652-679 | a list merges from its last node to its first |
| YamlDecoder.Decoder.MergeMapping | gopkg.in/yaml.v2/decode.go:652-679 | only a mapping, or an alias for one, merges |
| YamlAliases.MeaningExplained | gopkg.in/yaml.v2/decode.go:310-322 | an alias error has its cause in the tree, and a lost alias makes decoding fail |
| YamlAliases.ErasedMeaning | gopkg.in/yaml.v2/decode.go:652-683 | a document in which no alias stands for a merge key or its list, decodable or not, means what it means with the aliases written out |
| YamlAliases.AliasOfMergeKey | gopkg.in/yaml.v2/decode.go:681-683 | `- &m <<` with `- *m : {}`: the alias does not merge, though written out it does |
| YamlAliases.AliasOfMergeList | gopkg.in/yaml.v2/decode.go:652-679 | `- &l []` with `- <<: *l` is refused, though written out it decodes |
| YamlMaps.MergeKeyOverwritten | gopkg.in/yaml.v2/decode.go:510-683 | `- &m <<` with `- {*m : {}, "<<" : {}}`: the alias stands for a merge key and yet the maps are the same, for a later entry replaces the one that differs |
| YamlMaps.OnceIsLeast | gopkg.in/yaml.v2/decode.go:510-683 | a value in which no mapping is given a key twice is not larger than any that becomes the same maps |
| YamlValues.KeyRefused | gopkg.in/yaml.v2/decode.go:553-560 | a mapping with a key that decodes to a list or a mapping is refused for it, whatever its value and what stands behind |
| YamlValues.PairsFail | gopkg.in/yaml.v2/decode.go:548-566 | the first error among the entries of a mapping decides |
| YamlValues.OnlyMappings | gopkg.in/yaml.v2/decode.go:652-679 | only a mapping, or an alias of one, can be merged, and it gives the entries it decodes to |
| YamlValues.WrittenMerges | gopkg.in/yaml.v2/decode.go:652-679 | what is merged of such a value, a mapping, is what it has |
| YamlValues.LastStays | gopkg.in/yaml.v2/decode.go:562-565 | in the map that becomes of entries the last one for a key stays |
| YamlValues.KeysGiven | gopkg.in/yaml.v2/decode.go:562-565 | every key of that map is one of the entries |
| YamlTags.SplitExpands | gopkg.in/yaml.v2/emitterc.go:967-981 | a tag split at the first directive whose prefix it has is expanded to itself by the rule of the parser |
| YamlTags.NothingLeft | gopkg.in/yaml.v2/emitterc.go:967-981 | nothing is left behind the handle if and only if the tag is the whole prefix of the first directive that fits |
| YamlTags.HandlesMean | gopkg.in/yaml.v2/parserc.go:1008-1075 | under the directives in force "!" stands for itself and "!!" for tag:yaml.org,2002: unless the document declares them, other handles for what it declares, and undeclared ones for nothing |
| YamlTagText.UriRead | gopkg.in/yaml.v2/scannerc.go:1959-2059 | a suffix or prefix of any valid UTF-8 comes back from its text with percent escapes |
| YamlTagText.WriteTagHandle | gopkg.in/yaml.v2/emitterc.go:1245-1257 | the handle, behind a space where needed |
| YamlTagText.WriteTagContent | gopkg.in/yaml.v2/emitterc.go:1259-1311 | the text of a suffix or prefix, escaped octet by octet where needed |
| YamlTagText.ScanUriEscapes | gopkg.in/yaml.v2/scannerc.go:2016-2059 | one character from its octets, with the checks on leading and trailing ones |
| YamlTagText.ScanTagUri | gopkg.in/yaml.v2/scannerc.go:1959-2013 | the text of a tag, which may not be empty |
| YamlTagText.ScanTagHandle | gopkg.in/yaml.v2/scannerc.go:1914-1956 | what looks like a handle; in a directive one that ends in "!", with the index panic for a lone "!" |
| YamlTagText.ScanTag | gopkg.in/yaml.v2/scannerc.go:1829-1911 | verbatim tag, handle with suffix, or primary tag; before a blank or break |
| YamlTagText.ScanTagDirectiveValue | gopkg.in/yaml.v2/scannerc.go:1713-1770 | handle and prefix behind %TAG, refused, or the panic |
| YamlTagText.WriteTagDirective | gopkg.in/yaml.v2/emitterc.go:368-382 | a %TAG line, which the scanner reads back or panics on |
| YamlTagForms.TextForms | gopkg.in/yaml.v2/scannerc.go:1959-2059 | the text of a suffix, put together of such characters and octets, is scanned as what it means |
| YamlReadBack.ReadsOn | gopkg.in/yaml.v2/emitterc.go:118-124 | what is written for one more event, read as that event from where the parser stands, is read behind all that was written before |
| YamlReadBack.ExplicitDocument | gopkg.in/yaml.v2/emitterc.go:311-422 | version, tag directives and marker are read as the start of the document, with the same directives in force |
| YamlReadBack.DocumentEnds | gopkg.in/yaml.v2/emitterc.go:431-453 | with or without an end marker |
| YamlReadBack.PropertiesRead | gopkg.in/yaml.v2/emitterc.go:847-888 | anchor and tag are read as the properties of the node, the tag expanded |
| YamlReadBack.ScalarReads | gopkg.in/yaml.v2/emitterc.go:683-704 | properties and token of a scalar are read as that scalar |
| YamlReadBack.CollectionReads | gopkg.in/yaml.v2/emitterc.go:707-738 | properties, and the token that the next event begins with, are read as the start of the collection |
| YamlReadBack.FlowCloses | gopkg.in/yaml.v2/emitterc.go:456-555 | a closing bracket, also behind a last comma, is read as the end of the collection |
| YamlReadBack.BlockCloses | gopkg.in/yaml.v2/emitterc.go:578-627 | the end of a block collection by its column is read as that |
| YamlReadBack.IndentlessCloses | gopkg.in/yaml.v2/emitterc.go:578-599 | what follows an indentless sequence is read as its end, without a token |
| YamlReadBack.ContentLeads | gopkg.in/yaml.v2/emitterc.go:425-429 | behind a marker the content of a document is read as a node, or as the empty scalar where nothing is written |
| YamlReadBack.EmptyReads | gopkg.in/yaml.v2/emitterc.go:891-909 | anchor or tag alone are read as those of an empty scalar |
| YamlReadBack.EndUnopened | gopkg.in/yaml.v2/emitterc.go:431-453 | a marker that ends a document of which nothing was written makes the parser fail |
| YamlReadBack.BlockEntryRead | gopkg.in/yaml.v2/emitterc.go:578-599 | what is written for an item of a block sequence leads the parser to the item, which may be nothing for an empty scalar |
| YamlReadBack.BlockValueRead | gopkg.in/yaml.v2/emitterc.go:630-645 | likewise for the value of a pair |
| YamlEmitter.NothingHeldBack | gopkg.in/yaml.v2/emitterc.go:136-170 | with the stream complete the lookahead waits for nothing |
| YamlEmitter.LoneStartWaits | gopkg.in/yaml.v2/emitterc.go:136-170 | the start of a collection is not emitted before the event after it is known |
| YamlEmitter.RunOpened | gopkg.in/yaml.v2/emitterc.go:136-170 | the level the lookahead counts is the number of streams, documents and collections open |
| YamlEmitter.Emitter.EmitHead | gopkg.in/yaml.v2/emitterc.go:118-124 | one event is taken, or refused for a reason that is so |
| YamlEmitter.Emitter.NeedMoreEvents | gopkg.in/yaml.v2/emitterc.go:136-170 | waits exactly while too few events follow and what the first opens is not closed among them |
| YamlEmitter.Emitter.AppendTagDirective | gopkg.in/yaml.v2/emitterc.go:173-193 | fails exactly for a duplicate that is not allowed |
| YamlEmitter.Emitter.IncreaseIndent | gopkg.in/yaml.v2/emitterc.go:196-208 | the current indent is saved and the new one is no less |
| YamlEmitter.Emitter.EmitStreamStartState | gopkg.in/yaml.v2/emitterc.go:272-308 | STREAM-START, read as such, and the settings put in range |
| YamlEmitter.Emitter.EmitDocumentStartState | gopkg.in/yaml.v2/emitterc.go:311-422 | a document with valid directives, or the end; an end marker comes first where the text before is open-ended; read as such up to a %TAG for a lone "!", and without the document before it if nothing was written for that |
| YamlEmitter.Emitter.DeclareTags | gopkg.in/yaml.v2/emitterc.go:321-336 | accepts exactly the valid lists of directives; in force are then the same ones as in the parser |
| YamlEmitter.Emitter.EmitDocumentContentState | gopkg.in/yaml.v2/emitterc.go:425-428 | a node, read as what is heard of it, or as the empty scalar where nothing is written behind a marker; without a marker that is not noticed |
| YamlEmitter.Emitter.EmitDocumentEndState | gopkg.in/yaml.v2/emitterc.go:431-453 | only DOCUMENT-END, read as such; the directives are forgotten; where the document was not noticed its marker dooms the parser |
| YamlEmitter.Emitter.EmitFlowSequenceItemState | gopkg.in/yaml.v2/emitterc.go:456-501 | an item or the end is taken, and bracket, comma and item are read as that event |
| YamlEmitter.Emitter.EmitFlowMappingKeyState | gopkg.in/yaml.v2/emitterc.go:504-555 | a key or the end is taken, and brace, comma, KEY and key are read as that event |
| YamlEmitter.Emitter.EmitFlowMappingValueState | gopkg.in/yaml.v2/emitterc.go:558-575 | the value of the key before it is taken, and read as that |
| YamlEmitter.Emitter.EmitBlockSequenceItemState | gopkg.in/yaml.v2/emitterc.go:578-599 | an item, perhaps nothing for an empty one, or the end is taken and read as what is heard of that; the scanner starts and ends the sequence by the columns, or reads an indentless one in a mapping |
| YamlEmitter.Emitter.EmitBlockMappingKeyState | gopkg.in/yaml.v2/emitterc.go:602-627 | a key, perhaps nothing for an empty one, or the end is taken and read as what is heard of that; the scanner starts and ends the mapping by the columns |
| YamlEmitter.Emitter.EmitBlockMappingValueState | gopkg.in/yaml.v2/emitterc.go:630-645 | the value of the key before it, perhaps nothing for an empty one, is taken and read as what is heard of that |
| YamlEmitter.Emitter.EmitNode | gopkg.in/yaml.v2/emitterc.go:648-670 | exactly the events that start a node; what is written is read as what is heard of the event; nothing is written exactly for a bare empty plain scalar |
| YamlEmitter.Emitter.EmitScalar | gopkg.in/yaml.v2/emitterc.go:683-704 | refused exactly when neither a tag nor an implicit flag is there; otherwise read as the scalar, refolded in folded style; no token for an empty plain one |
| YamlEmitter.Emitter.EmitSequenceStart | gopkg.in/yaml.v2/emitterc.go:707-721 | flow style within flow, when canonical, asked for or empty; read as the start of a sequence once its first token is there |
| YamlEmitter.Emitter.EmitMappingStart | gopkg.in/yaml.v2/emitterc.go:724-738 | likewise for mappings |
| YamlEmitter.Emitter.CheckEmptySequence | gopkg.in/yaml.v2/emitterc.go:746-752 | true exactly when the next event in the queue ends it |
| YamlEmitter.Emitter.CheckEmptyMapping | gopkg.in/yaml.v2/emitterc.go:755-761 | true exactly when the next event in the queue ends it |
| YamlEmitter.Emitter.CheckSimpleKey | gopkg.in/yaml.v2/emitterc.go:764-795 | exactly aliases, scalars on one line and empty collections with at most 128 characters of anchor, tag and value |
| YamlEmitter.Emitter.SelectScalarStyle | gopkg.in/yaml.v2/emitterc.go:798-844 | each style is chosen exactly when it is the one asked for and the analysis, the flow level, the key context and the tag allow it, single quotes for plain text that may not be plain, double quotes otherwise; fails exactly without tag and implicit flags |
| YamlEmitter.Emitter.AnalyzeTagDirective | gopkg.in/yaml.v2/emitterc.go:920-941 | exactly the handles `!alphanumeric!` with a prefix |
| YamlEmitter.Emitter.AnalyzeAnchor | gopkg.in/yaml.v2/emitterc.go:944-964 | exactly the nonempty alphanumeric names |
| YamlEmitter.Emitter.AnalyzeTag | gopkg.in/yaml.v2/emitterc.go:967-981 | handle and suffix by the first directive whose prefix the tag has; what they are read as is `YamlEmitter.WhenUnscannable` and `YamlTags.SplitExpands` |
| YamlEmitter.Emitter.AnalyzeEvent | gopkg.in/yaml.v2/emitterc.go:1133-1186 | fails exactly for a bad anchor; the tag to write is the tag of the event, or none where it is implicit |
| YamlEmitter.Emitter.WriteIndent | gopkg.in/yaml.v2/emitterc.go:1201-1219 | the column is the indent afterwards |
| YamlEmitter.Emitter.WriteIndicator | gopkg.in/yaml.v2/emitterc.go:1221-1234 | column and flags after an indicator |
| YamlEmitter.NotScanned | gopkg.in/yaml.v2/emitterc.go:798-888 | two such events: a scalar in double quotes that is implicit only when plain, and one with the tag `tag:yaml.org,2002:` |
| YamlEmitter.ScalarAgrees | gopkg.in/yaml.v2/emitterc.go:798-888 | otherwise anchor, tag and style written are read as the scalar |
| YamlEmitter.CollectionAgrees | gopkg.in/yaml.v2/emitterc.go:707-738 | otherwise anchor, tag and style written are read as the start of the collection |
| YamlEmitter.BlockOpened | gopkg.in/yaml.v2/scannerc.go:937-961 | at a new indent the scanner starts the block collection that the emitter opened, none for an indentless sequence |
| YamlEmitter.BlockClosed | gopkg.in/yaml.v2/scannerc.go:966-987 | back at the indent before it ends it |
| YamlEmitter.KeptIsHeard | gopkg.in/yaml.v2/emitterc.go:1629-1685 | a scalar is heard as it is if and only if it is not folded or its text is kept |
| YamlEmitter.FoldedOtherwise | gopkg.in/yaml.v2/emitterc.go:1629-1685 | the event for "a", a break and " b" in folded style is accepted and heard with two breaks |
| YamlEmitter.RootUnnoticed | gopkg.in/yaml.v2/emitterc.go:311-453 | the stream of an empty plain scalar in an implicit document is well-formed and accepted, and the parser does not notice the document; with its end marked it fails |
| YamlEmitter.LoneMarkStops | gopkg.in/yaml.v2/emitterc.go:920-941 | a document with a directive for "!" is accepted, and the scanner stops at it |
| YamlEmitter.ScalarHeard | gopkg.in/yaml.v2/emitterc.go:891-909 | in every style the tokens of a scalar, perhaps only its properties, are read as it is heard |
| YamlReader.CharForm | gopkg.in/yaml.v2/readerc.go:148-350 | a decoded character is an allowed scalar value of at most four bytes whose UTF-8 form is at most half as long again |
| YamlReader.DecodePrefix | gopkg.in/yaml.v2/readerc.go:148-350 | what is decoded from the bytes at hand is decoded from all that follow |
| YamlReader.Reader.ReadHandler | gopkg.in/yaml.v2/readerc.go:76-84 | any number of bytes that fit, some if there are any |
| YamlReader.Reader.UpdateRawBuffer | gopkg.in/yaml.v2/readerc.go:56-85 | the raw bytes stay the next ones of the input; progress, or the end |
| YamlReader.Reader.DetermineEncoding | gopkg.in/yaml.v2/readerc.go:25-53 | the encoding by the mark, which is skipped |
| YamlReader.Reader.ReadMark | gopkg.in/yaml.v2/readerc.go:33-51 | UTF-16LE, UTF-16BE or UTF-8 by the first three bytes |
| YamlReader.Reader.NextChar | gopkg.in/yaml.v2/readerc.go:148-350 | the one-shot decoding of the character at the front, its width, value or problem |
| YamlReader.Reader.ReadTrail | gopkg.in/yaml.v2/readerc.go:211-224 | the value of a UTF-8 sequence, or where it is malformed |
| YamlReader.Reader.PutChar | gopkg.in/yaml.v2/readerc.go:356-380 | the UTF-8 form is appended within the buffer |
| YamlReader.Reader.TakeChar | gopkg.in/yaml.v2/readerc.go:148-382 | one character moves from the raw buffer to the buffer, or the failure is the one of the whole input |
| YamlReader.Reader.DecodeRaw | gopkg.in/yaml.v2/readerc.go:140-382 | all of the raw buffer but an incomplete character at its end |
| YamlReader.Reader.PutNul | gopkg.in/yaml.v2/readerc.go:384-391 | the NUL comes once, behind the last character |
| YamlEncodings.SomeReading | gopkg.in/yaml.v2/readerc.go:91-394 | every input is such a text and a rest |
| YamlEncodings.FormRead | gopkg.in/yaml.v2/readerc.go:148-350 | the form of an allowed scalar value in any of the three encodings, whatever stands behind it, is decoded to the value and its width |
| YamlEncodings.NoCharacter | gopkg.in/yaml.v2/readerc.go:148-350 | where no form of an allowed scalar value stands none is decoded |
| YamlEncodings.DecodeEncode | gopkg.in/yaml.v2/readerc.go:356-380 | UTF-8 written for a scalar value is one well-formed character of that value |
| YamlFlowScanner.Scanner.Read | gopkg.in/yaml.v2/scannerc.go:515-535 | one character is copied, or refused |
| YamlFlowScanner.Scanner.ReadLine | gopkg.in/yaml.v2/scannerc.go:538-568 | one break is copied, normalised |
| YamlFlowScanner.Scanner.ScanCode | gopkg.in/yaml.v2/scannerc.go:2424-2467 | the digits of an escape, as the UTF-8 of their value if that is a scalar value |
| YamlFlowScanner.Scanner.ScanEscape | gopkg.in/yaml.v2/scannerc.go:2353-2467 | one escape sequence, or its error |
| YamlFlowScanner.Scanner.ScanRun | gopkg.in/yaml.v2/scannerc.go:2337-2475 | the characters up to a blank, a break or the closing quote |
| YamlFlowScanner.Scanner.ScanGap | gopkg.in/yaml.v2/scannerc.go:2488-2538 | blanks and breaks, folded |
| YamlFlowScanner.Scanner.ScanFlowScalar | gopkg.in/yaml.v2/scannerc.go:2304-2557 | the value and the rest of the text are those of the scanning function the round trips are about |
| YamlFlowText.IndicatorStops | gopkg.in/yaml.v2/scannerc.go:2313-2328 | a line that begins as a document marker ends the scan in an error |
| YamlQuoted.EscapeRoundTrip | gopkg.in/yaml.v2/emitterc.go:1436-1519 | escaping any scalar value and scanning it yields its UTF-8 form |
| YamlQuoted.TextRoundTrip | gopkg.in/yaml.v2/emitterc.go:1429-1548 | a text of characters, escapes, shielded spaces and folds is scanned as its meaning |
| YamlQuoted.QuotedRoundTrip | gopkg.in/yaml.v2/emitterc.go:1429-1548 | the same for a whole scalar in its quotes, in any surroundings |
| YamlQuoted.Emitter.WriteIndent | gopkg.in/yaml.v2/emitterc.go:1201-1219 | a break where one is needed, and spaces to the indent |
| YamlQuoted.Emitter.WriteIndicator | gopkg.in/yaml.v2/emitterc.go:1221-1234 | the indicator, and a space before it where needed |
| YamlQuoted.Emitter.WriteEscape | gopkg.in/yaml.v2/emitterc.go:1440-1519 | the escape sequence of the character at the front |
| YamlAnalysis.AnalyzeScalar | gopkg.in/yaml.v2/emitterc.go:984-1130 | multiline, single-quoted-allowed and block-allowed exactly as the text has it |
| YamlSingleQuoted.QuotedRoundTrip | gopkg.in/yaml.v2/emitterc.go:1370-1427 | a whole single-quoted text is scanned as its meaning unless another quote follows it |
| YamlBlockScanner.ScanHints | gopkg.in/yaml.v2/scannerc.go:2072-2122 | chomping and indentation hints in either order |
| YamlBlockScanner.ScanHeader | gopkg.in/yaml.v2/scannerc.go:2072-2158 | hints, comment and the break behind them |
| YamlBlockScanner.ScanBreaks | gopkg.in/yaml.v2/scannerc.go:2250-2301 | indentation and empty lines, the widest line, and no tabs in the indentation |
| YamlBlockScanner.ScanLine | gopkg.in/yaml.v2/scannerc.go:2205-2211 | the characters of one line |
| YamlBlockScanner.ScanLines | gopkg.in/yaml.v2/scannerc.go:2176-2224 | literal lines joined, folded lines folded |
| YamlBlockScanner.ScanBlockScalar | gopkg.in/yaml.v2/scannerc.go:2062-2246 | the value and the rest of the text are those of the scanning function the round trip is about |
| YamlBlockText.NothingScanned | gopkg.in/yaml.v2/scannerc.go:2062-2246 | of a block scalar of empty lines just those are kept, or nothing |
| YamlBlockText.HeaderRead | gopkg.in/yaml.v2/scannerc.go:2072-2158 | hints, comment and break are read as the header says |
| YamlLiteral.LinesRoundTrip | gopkg.in/yaml.v2/scannerc.go:2176-2224 | scanning the lines written for a content gives its body, and its trailing breaks apart |
| YamlLiteral.ScalarRoundTrip | gopkg.in/yaml.v2/emitterc.go:1550-1627 | header and lines of any nonempty content, with its hints and chomping, at parent indent plus best indent and before any less indented text, are scanned as the content |
| YamlLiteral.WriteHints | gopkg.in/yaml.v2/emitterc.go:1550-1590 | the indentation hint for leading space or break, and the chomping indicator |
| YamlLiteral.WriteLines | gopkg.in/yaml.v2/emitterc.go:1603-1625 | the content, each line at the indent |
| YamlFolded.FlushIsKept | gopkg.in/yaml.v2/emitterc.go:1629-1685 | in particular every text without lines that begin with a blank and with at most one break at the end |
| YamlFolded.ScalarRefolds | gopkg.in/yaml.v2/scannerc.go:2062-2247 | scanning header and lines of a folded scalar gives its characters refolded, in any block and before any less indented text |
| YamlFolded.UnfoldFold | gopkg.in/yaml.v2/scannerc.go:2062-2247 | from any place in a text on, what is scanned of what is written is what stands there if and only if the condition holds from there on |
| YamlFolded.SpaceBehindBreak | gopkg.in/yaml.v2/emitterc.go:1646-1660 | "a", a break and " b" are read back with two breaks |
| YamlFolded.MustDouble | gopkg.in/yaml.v2/emitterc.go:1648-1653 | the first character of the whole text that is no break decides |
| YamlFolded.WriteFoldedBreak | gopkg.in/yaml.v2/emitterc.go:1647-1664 | a break, doubled where the writer does so |
| YamlFolded.WriteFoldedChar | gopkg.in/yaml.v2/emitterc.go:1665-1682 | a character, at its indent in a new line, or a break for a single space behind the width |
| InfDec.QuotientInUnits | gopkg.in/inf.v0/dec.go:297-334 | z times y is x exactly when the integers the division works on agree |
| InfDec.RoundedUnique | gopkg.in/inf.v0/rounder.go:69-145 | each of the eight modes prescribes at most one result |
| InfDec.RoundDirected | gopkg.in/inf.v0/rounder.go:97-145 | from truncated quotient and remainder to exact, down, up, floor and ceil |
| InfDec.RoundNearest | gopkg.in/inf.v0/rounder.go:69-95 | and to the three nearest modes |
| InfDec.ScaleSuffices | gopkg.in/inf.v0/dec.go:344-354 | when there is a finite quotient the computed scale makes it exact, and no scale in range below it does |
| InfDec.Dec.QuoRem | gopkg.in/inf.v0/dec.go:297-334 | truncated quotient at the scale and the remainder it leaves |
| InfDec.Dec.Round | gopkg.in/inf.v0/rounder.go:97-145 | the value the mode prescribes; only exact can fail |
| InfDec.Dec.RoundHalf | gopkg.in/inf.v0/rounder.go:69-95 | the nearest value, ties by the mode |
| InfDec.Dec.ScaleQuoExact | gopkg.in/inf.v0/dec.go:344-354 | the factors of 2 and 5 of the denominator in lowest terms, and the scale they ask for |
| InfDec.Factor | gopkg.in/inf.v0/dec.go:356-369 | the multiplicity of a factor |
| InfDec.Factor2 | gopkg.in/inf.v0/dec.go:371-377 | the multiplicity of two |
| InfDec.RoundedNumber | gopkg.in/inf.v0/dec.go:256-274 | rounding the integers the division works on is rounding the real quotient to a multiple of 10^-s, in each mode |
| Divisibility.LowestTerms | gopkg.in/inf.v0/dec.go:344-354 | dividing by the greatest common divisor leaves coprime numbers |
| Divisibility.ClearsDenominator | gopkg.in/inf.v0/dec.go:344-354 | a power of ten clears a denominator if and only if the reduced denominator divides it |
| InfDecText.TextKeepsValue | gopkg.in/inf.v0/dec.go:426-537 | the number is kept in either case |
| InfDecText.ScanDecimal | gopkg.in/inf.v0/dec.go:470-518 | the positions of point and first digit |
| InfDecText.AppendZeros | gopkg.in/inf.v0/dec.go:415-424 | exactly n zeros |
| InfDecText.String | gopkg.in/inf.v0/dec.go:426-457 | the printed text |
| InfDecText.SetString | gopkg.in/inf.v0/dec.go:525-537 | the parsed decimal, or none |
| InfDecText.TextForm | gopkg.in/inf.v0/dec.go:426-459 | what is printed is a sign if negative, a whole part without needless zeros and, for a positive scale, a point and just as many digits |
| LdapFilter.EscapeRoundTrip | gopkg.in/ldap.v2/ldap.go:289-320 | unescaping what was escaped gives back any byte string |
| LdapFilter.PartsRoundTrip | gopkg.in/ldap.v2/filter.go:395-420 | substring parts come back in their places |
| LdapFilter.BodyRoundTrip | gopkg.in/ldap.v2/filter.go:213-433 | compiling what was printed, with any text behind it, gives the filter and stops at its end |
| LdapFilter.SetRoundTrip | gopkg.in/ldap.v2/filter.go:197-211 | the same for a set of filters |
| LdapFilter.EscapeFilter | gopkg.in/ldap.v2/ldap.go:296-320 | the escaped text, in a buffer of just its length |
| LdapFilter.EscapedStringToEncodedBytes | gopkg.in/ldap.v2/filter.go:436-466 | the unescaped bytes or the error, out-of-range included |
| LdapFilter.CompileFilter | gopkg.in/ldap.v2/filter.go:77-89 | the filter; the error for text before or behind it or within, a recovered panic included, as behind "!" where a refused filter has no packet; or the crash when the compiler has moved past the end |
| LdapFilter.CompileAt | gopkg.in/ldap.v2/filter.go:213-433 | the filter at a position and the next one; or the error, with whether there is a packet all the same, which decides what becomes of it behind "!" |
| LdapFilter.CompileFilterSet | gopkg.in/ldap.v2/filter.go:197-211 | the filters of a set and the position after it |
| LdapFilter.ReadItemAt | gopkg.in/ldap.v2/filter.go:256-351 | attribute, operator, matching rule and condition of an item |
| LdapFilter.TakeStep | gopkg.in/ldap.v2/filter.go:273-350 | one character or operator of an item |
| LdapFilter.FinishItem | gopkg.in/ldap.v2/filter.go:362-428 | present, substrings, comparison or extensible filter, or the error |
| LdapFilter.CollectParts | gopkg.in/ldap.v2/filter.go:400-419 | initial, any and final parts |
| LdapFilterText.TextCompiles | gopkg.in/ldap.v2/filter.go:213-433 | a filter of any kind and depth, its values given by any texts that denote them, compiles to that filter |
| LdapFilterText.ValueExactly | gopkg.in/ldap.v2/filter.go:256-428 | with the operators =, >=, <= and ~= a value is compiled from a text if and only if the text denotes it |
| LdapFilterText.EscapedOnlyWhereNeeded | gopkg.in/ldap.v2/ldap.go:296-320 | a text without a byte that must be escaped is its own escaped form; that of any other is longer |
| LdapFilterGrammar.TreeCompiles | gopkg.in/ldap.v2/filter.go:213-433 | whatever stands behind it, a text of the grammar is compiled to what it means, and the compiler stops at its end |
| LdapFilterGrammar.TreeFrom | gopkg.in/ldap.v2/filter.go:213-433 | whatever is compiled, and not beyond the end, is a text of the grammar with that meaning |
| LdapFilterGrammar.FinishMeans | gopkg.in/ldap.v2/filter.go:362-428 | an item that was read is the filter that its attribute, operator and condition mean, parts between stars included |
| LdapFilterEnd.NeverClosed | gopkg.in/ldap.v2/filter.go:77-89 | any filter behind a parenthesis that is never closed, as "((a=b)" and "(!(a=b)", crashes |
| LdapFilterEnd.Completed | gopkg.in/ldap.v2/filter.go:213-433 | one that ends beyond it is the one compiled from the text completed with any byte and closing parentheses |
| Ber.DigitsSuffice | gopkg.in/asn1-ber.v1/identifier.go:83-100 | the digits the encoder counts carry the tag if and only if the index of its highest bit is no multiple of 7 |
| Ber.LengthRoundTrip | gopkg.in/asn1-ber.v1/length.go:9-71 | every length below 2^63 is read back |
| Ber.PacketRoundTrip | gopkg.in/asn1-ber.v1/ber.go:275-411 | reading the bytes of a tree and any rest gives the tree and leaves the rest |
| Ber.OnlyWritable | gopkg.in/asn1-ber.v1/ber.go:275-406 | a tree with another tag is not read back |
| Ber.ReadIsStructured | gopkg.in/asn1-ber.v1/ber.go:275-396 | whatever is accepted, in whatever form of length, is a tree whose data are its children |
| Ber.IdentifierIsValid | gopkg.in/asn1-ber.v1/identifier.go:10-67 | what is read has a tag of at most 63 bits |
| Ber.IntegerRoundTrip | gopkg.in/asn1-ber.v1/ber.go:227-254 | an integer of any size is read back from its bytes, sign-extended |
| Ber.SignExtension | gopkg.in/asn1-ber.v1/ber.go:210-225 | sign extension is the two's complement value of the bytes |
| Ber.Reader.NextIdentifier | gopkg.in/asn1-ber.v1/identifier.go:10-67 | identifier and bytes read, or the error |
| Ber.Reader.NextLength | gopkg.in/asn1-ber.v1/length.go:9-61 | length, indefinite as -1, or the error |
| Ber.Reader.NextHeader | gopkg.in/asn1-ber.v1/header.go:8-29 | identifier and length; an indefinite length only if constructed |
| Ber.Reader.NextChildren | gopkg.in/asn1-ber.v1/ber.go:289-326 | children up to the length or the end-of-contents marker |
| Ber.Reader.NextPacket | gopkg.in/asn1-ber.v1/ber.go:275-396 | one packet and the number of bytes it took, the error, or the crash on a negative length |
| Ber.EncodeUnsignedInteger | gopkg.in/asn1-ber.v1/content_int.go:3-14 | the bytes of a number, highest first |
| Ber.CountBytes | gopkg.in/asn1-ber.v1/content_int.go:16-25 | how many bytes a number needs |
| Ber.CountSignedBytes | gopkg.in/asn1-ber.v1/ber.go:240-254 | how many bytes a signed number needs |
| Ber.EncodeInteger | gopkg.in/asn1-ber.v1/ber.go:227-238 | its two's complement |
| Ber.ParseInt64 | gopkg.in/asn1-ber.v1/ber.go:210-225 | the signed value of at most eight bytes, more refused |
| Ber.FindHighBit | gopkg.in/asn1-ber.v1/identifier.go:83-89 | the index of the highest bit |
| Ber.EncodeTag | gopkg.in/asn1-ber.v1/identifier.go:91-100 | the base-128 digits |
| BerForms.FormRead | gopkg.in/asn1-ber.v1/ber.go:275-396 | every encoding of a tree, with any rest, is read as that tree, and the rest is left |
| BerForms.LengthRead | gopkg.in/asn1-ber.v1/length.go:9-61 | a length below 2^63 is read back from the short form and from any number of bytes, up to eight, that hold it |
| BerForms.Shortest | gopkg.in/asn1-ber.v1/ber.go:398-411 | what is written of a tree is no longer than any of its encodings with definite lengths |
| BerForms.ShortestInteger | gopkg.in/asn1-ber.v1/ber.go:240-254 | what is written of an integer is no longer than any bytes that are read as it |
| LdapConn.Conn.constructor | gopkg.in/ldap.v2/conn.go:142-152 | an open connection with nothing registered, queued or sent |
| LdapConn.Conn.NextMessageID | gopkg.in/ldap.v2/conn.go:190-197 | a message id greater than all handed out before |
| LdapConn.Conn.WriteRequest | gopkg.in/ldap.v2/conn.go:362-377 | registered if it was written; otherwise told so and closed |
| LdapConn.Conn.Remove | gopkg.in/ldap.v2/conn.go:412-417 | a finished request leaves the table and its channel is closed; nothing is sent |
| LdapConn.Conn.CloseContext | gopkg.in/ldap.v2/conn.go:333-342 | one of those left in the table is told of the error, if one is known by then, then taken out and closed |
| LdapConn.Conn.Answer | gopkg.in/ldap.v2/conn.go:395-411 | what is sent goes to the request registered under the id, with that id |
| LdapConn.Conn.ConfirmEnd | gopkg.in/ldap.v2/conn.go:344-345 | the loop has ended when none is left in the table |
| LdapConn.Conn.BeginSend | gopkg.in/ldap.v2/conn.go:260-263 | a caller goes on only if it finds the connection open |
| LdapConn.Conn.CountIn | gopkg.in/ldap.v2/conn.go:322 | one more sender counted in, if it is past its look at the flag |
| LdapConn.Conn.CountOut | gopkg.in/ldap.v2/conn.go:324 | one sender fewer |
| LdapConn.Conn.NothingComes | gopkg.in/ldap.v2/conn.go:318-326 | the channel of a caller that waits for ever is open, and nothing was sent on it |
| LdapConn.Conn.BeginFinish | gopkg.in/ldap.v2/conn.go:297-302 | a caller that is done goes on to tell the loop only if it finds the connection open |
| LdapConn.Conn.FinishMessage | gopkg.in/ldap.v2/conn.go:304-315 | under the lock one request fewer and TLS no longer being started; what is to be sent is the message that finishes it |
| LdapConn.Conn.Receive | gopkg.in/ldap.v2/conn.go:453-465 | what is to be sent is a response with the id of the packet; the reader stops behind it exactly when TLS is being started, by the only request outstanding |
| LdapConn.Conn.ReadFailed | gopkg.in/ldap.v2/conn.go:438-446 | the error is kept if the reader found the connection open |
| LdapConn.Conn.BeginClose | gopkg.in/ldap.v2/conn.go:162-164 | only the first call closes; it sets the flag |
| LdapConn.Conn.WaitForSenders | gopkg.in/ldap.v2/conn.go:165 | no sender is counted in; those past their look at the flag may go on |
| LdapConn.Conn.SendQuit | gopkg.in/ldap.v2/conn.go:168 | the last message is queued, and the requests past the look and not queued are late |
| LdapConn.Conn.CloseMessages | gopkg.in/ldap.v2/conn.go:169-170 | the queue is closed only when the loop has ended |
| LdapAnswers.HearsAnswers | gopkg.in/ldap.v2/conn.go:379-418 | the same for a registered request, from any state of the table |
| AddrConn.AddrConn.constructor | google.golang.org/grpc/clientconn.go:428-510 | idle, nothing waiting |
| AddrConn.AddrConn.BeginReset | google.golang.org/grpc/clientconn.go:660-676 | connecting unless shut down, the balancer told if it had been told of the connection |
| AddrConn.AddrConn.CallDown | google.golang.org/grpc/clientconn.go:669-672 | down follows up, strictly in turn |
| AddrConn.AddrConn.CloseOld | google.golang.org/grpc/clientconn.go:675-679 | the old transport is closed outside the lock |
| AddrConn.AddrConn.DialFailed | google.golang.org/grpc/clientconn.go:691-713 | transient failure wakes the waiters; shutdown is never left |
| AddrConn.AddrConn.BackoffCancelled | google.golang.org/grpc/clientconn.go:714-718 | the driver gives up |
| AddrConn.AddrConn.CloseReady | google.golang.org/grpc/clientconn.go:732-735 | a channel is closed once, then forgotten |
| AddrConn.AddrConn.TransportError | google.golang.org/grpc/clientconn.go:785-793 | transient failure unless shut down |
| AddrConn.AddrConn.Exit | google.golang.org/grpc/clientconn.go:794-804 | after a permanent failure the connection is shut down |
| AddrConn.AddrConn.Wait | google.golang.org/grpc/clientconn.go:811-847 | what each state gives to a caller, and a channel to wait on that is open otherwise |
| Balancer.UpdatesAreSetOperations | google.golang.org/grpc/balancer.go:167-216 | on a list without repetition the updates are additions to and removals from a set; the list stays without repetition, an address that was not deleted keeps its entry, and none appears connected |
| Balancer.ComesUp | google.golang.org/grpc/balancer.go:249-272 | what comes up among idle addresses wakes the waiting calls exactly when it is listed once |
| Balancer.ServedAlong | google.golang.org/grpc/balancer.go:296-314 | consecutive calls serve the connected slots in turn |
| Balancer.RoundRobin.constructor | google.golang.org/grpc/balancer.go:147-149 | an empty, open balancer |
| Balancer.RoundRobin.Start | google.golang.org/grpc/balancer.go:218-245 | the target is listed, also if it is already, or the resolver watched; refused when closed |
| Balancer.RoundRobin.WatchAddrUpdates | google.golang.org/grpc/balancer.go:167-216 | one round of updates; the list is sent unless closed |
| Balancer.RoundRobin.ApplyUpdate | google.golang.org/grpc/balancer.go:175-205 | one update |
| Balancer.RoundRobin.Down | google.golang.org/grpc/balancer.go:275-284 | the address is marked |
| Balancer.RoundRobin.Pick | google.golang.org/grpc/balancer.go:296-315 | the first connected address from where the turn stands |
| Balancer.RoundRobin.Get | google.golang.org/grpc/balancer.go:287-335 | an address in turn, closing, or a channel that is open while nothing is connected |
| Balancer.RoundRobin.Wake | google.golang.org/grpc/balancer.go:341-376 | the same after a wake-up |
| Balancer.RoundRobin.Wait | google.golang.org/grpc/balancer.go:329-334 | the one channel all blocked calls wait on |
| Balancer.RoundRobin.Cancel | google.golang.org/grpc/balancer.go:338-340 | a call whose context ended is not blocked |
| Balancer.RoundRobin.Close | google.golang.org/grpc/balancer.go:385-400 | no call stays blocked |
| Balancer.ComesUpTwice | google.golang.org/grpc/balancer.go:249-272 | an address that is listed twice is no single connection when it comes up |
| PktLine.ChunkIndependence | github.com/AaronO/go-git-http/pktparser.go:32-60 | feeding two pieces one after the other is feeding them at once, in lines, error, state, buffer and count |
| PktLine.RoundTrip | github.com/AaronO/go-git-http/utils.go:65-77 | payloads of at most 65520 bytes, written and flushed, are read back whatever follows |
| PktLine.FourDigits | github.com/AaronO/go-git-http/utils.go:69-77 | lengths below 65536 are written as four digits that are read as the length |
| PktLine.PktLineParser.Step | github.com/AaronO/go-git-http/pktparser.go:79-113 | one transition; nothing changes on an error |
| PktLine.PktLineParser.Scan | github.com/AaronO/go-git-http/rpc_reader.go:37-45 | data that comes once the parser is done is ignored |
| PktLine.EveryInput | github.com/AaronO/go-git-http/pktparser.go:32-143 | every input is whole packets and one of these |

## Left out

- YamlEmitter.EmitStream: the text itself is only columns, indents and tokens here; what of the scanner that takes for granted is said above.
- YamlEmitter.Emitter.SelectScalarStyle: takes the flags of the analysis as given; `YamlAnalysis.AnalyzeScalar` computes those for quoted and literal styles.
- YamlEmitter.Emitter.ProcessScalar: what a text does to the column, and whether it leaves the document open-ended, is arbitrary.
- YamlEmitter.Emitter.CheckSimpleKey: counts characters where the source counts bytes.
- YamlAnalysis.AnalyzeScalar: the two plain-style flags, which matter only to the plain writer.
- YamlEmitter.Emitter.EmitDocumentStartState: version directives are present or not, with version 1.1 where present, so that another version is never refused.
- YamlParser.Parser.Parse: marks of events are left out; those of errors are kept. Error texts are the values of a datatype.
- YamlTree.Builder.Parse: anchors are collected by a function over the finished tree, not during the build.
- YamlDecoder.Decoder.Unmarshal: the target is generic, scalars keep tag and text without being resolved, a mapping is the list of entries put into it; typed targets and reflection are left out.
- YamlMaps.WrittenOutMaps: where a mapping is given a key twice, an alias that stands for a merge key may or may not change the maps in the end; which of the two is left open.
- YamlAliases.WrittenOut: of a document that does not decode it is only said that direct aliases make no difference; which others change the error depends on which error comes first.
- YamlFlowScanner.Scanner.ScanFlowScalar: works on the text that is left, with the column; index and line of marks, and refilling the buffer, are left out (`YamlReader` is about that). A failure is not told apart by its text.
- YamlTagText.ScanTag: likewise.
- YamlReader.Reader.UpdateBuffer: a failing read handler is left out; at most 192 characters are asked for at once, which is more than any caller does.
- YamlSingleQuoted.WriteSingleQuotedScalar: the text behind the scalar must not begin with a single quote, which no writer puts there.
- YamlQuoted.Emitter.WriteDoubleQuotedScalar: output goes to an unbounded sequence; flushing the output buffer and its errors are left out.
- InfDec.Dec.QuoExact: `big.Int` is `int` and `Scale` is unbounded; overflow of 32-bit scales is left out. A zero divisor panics in the source and is a precondition.
- LdapFilter.CompileFilter: yields a filter tree where the source builds packets.
- LdapConn.Conn.ProcessMessage: packets are numbers; whether a write succeeds is a parameter, timeouts come at any time, and the TLS handshake itself is left out. What is sent to a caller that has stopped listening counts as sent.
- LdapConn.Conn.WaitForSenders: memory is sequentially consistent, and the panic of a wait group that is used again too early is left out.
- LdapConn.Conn.SendProcessMessage: any message other than a request may be sent at any time, by anyone.
- Ber.Reader.NextPacket: typed values of universal primitives and the memory taken for announced lengths are left out; lengths are those of a 64-bit platform.
- AddrConn.AddrConn.DialSucceeded: dialling, backoff times and events are left out; their outcomes are parameters and steps.
- Plain scalars, simple keys and the token scanner, %YAML lines, UTF-16 output.
- Addition, comparison, formatting and gob encoding of decimals; request and response descriptions of LDAP packets; the gRPC `ClientConn` and its dialling; the git HTTP handlers.
