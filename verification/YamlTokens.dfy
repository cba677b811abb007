/** Tokens as the scanner delivers them, and the errors of the parser. */
module YamlTokens {
  import opened YamlGrammar

  datatype TokenType =
    | StreamStartToken | StreamEndToken | VersionDirectiveToken | TagDirectiveToken
    | DocumentStartToken | DocumentEndToken
    | BlockSequenceStartToken | BlockMappingStartToken | BlockEndToken
    | FlowSequenceStartToken | FlowSequenceEndToken | FlowMappingStartToken | FlowMappingEndToken
    | BlockEntryToken | FlowEntryToken | KeyToken | ValueToken
    | AliasToken | AnchorToken | TagToken | ScalarToken

  datatype Token = Token(typ: TokenType, startMark: int, endMark: int,
                         value: string, suffix: string, prefix: string, style: Style,
                         major: int, minor: int)

  datatype Context =
    | NoContext | InNode | InBlockNode | InFlowNode
    | InBlockCollection | InBlockMapping | InFlowSequence | InFlowMapping

  datatype Problem =
    | ExpectedStreamStart | ExpectedDocumentStart | DuplicateVersionDirective | IncompatibleDocument
    | DuplicateTagDirective | UndefinedTagHandle | ExpectedNodeContent
    | ExpectedBlockEntry | ExpectedKey | ExpectedCommaOrBracket | ExpectedCommaOrBrace

  /** Why the parser stopped; a scanner error is what an exhausted token stream looks like. */
  datatype Error =
    | NoError
    | ScannerError
    | ParserError(context: Context, contextMark: int, problem: Problem, problemMark: int)
}
