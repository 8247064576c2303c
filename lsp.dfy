/**
 * The Language Server Protocol 3.17 values the servers build: positions,
 * ranges, diagnostics, completion items and code actions.
 */
module Lsp {
  import opened Wrappers

  /** A zero-based line and character offset. */
  datatype Position = Position(line: int, character: int)

  /** From `start` up to `end`. */
  datatype Range = Range(start: Position, end: Position)

  datatype DiagnosticSeverity = Error | Warning | Information | Hint

  /** A located issue report; fields the servers never set are left out. */
  datatype Diagnostic = Diagnostic(
    range: Range,
    message: string,
    severity: Option<DiagnosticSeverity>,
    source: Option<string>)

  /** A completion item; `text` is the protocol's `label` (a reserved word in Dafny). */
  datatype CompletionItem = CompletionItem(text: string)

  datatype CompletionList = CompletionList(isIncomplete: bool, items: seq<CompletionItem>)

  /** A command the client runs: its title and its identifier. */
  datatype Command = Command(title: string, command: string)

  /** A code action, with the reason it is disabled when it is. */
  datatype CodeAction = CodeAction(title: string, disabled: Option<string>, command: Command)

  /** The kinds of `window/showMessage` notice. */
  datatype MessageType = ErrorMessage | WarningMessage | InfoMessage | LogMessage

  /** A `window/showMessage` notice. */
  datatype ShowMessage = ShowMessage(text: string, kind: MessageType)
}
