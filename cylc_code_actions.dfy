/**
 * The `textDocument/codeAction` handler of the Cylc language server
 * (`my_action`): three actions, two of which need the workflow's
 * `flow.cylc`.
 */
module CylcCodeActions {
  import opened Wrappers
  import opened Strings
  import opened Lsp

  /** What a URI must end with for validation to be offered. */
  const EntryFile := "flow.cylc"

  /** The reason given on a disabled action. */
  const DisabledReason := "This action disabled because ..."

  /** Whether the document counts as a workflow's top-level file: a plain suffix test on the URI. */
  predicate IsEntryFile(uri: string)
  {
    EndsWith(uri, EntryFile)
  }

  /** Disabled, with the fixed reason, unless `enabled`. */
  function DisabledUnless(enabled: bool): Option<string>
  {
    if enabled then None else Some(DisabledReason)
  }

  /** The code actions offered for the document at `uri`. */
  function CodeActions(uri: string): (actions: seq<CodeAction>)
    ensures |actions| == 3
    ensures actions[0].title == "cylc validate" && actions[0].command == Command("cylc validate", "Validate")
    ensures actions[1].title == "cylc lint" && actions[1].command == Command("cylc lint", "cylc lint")
    ensures actions[2].title == "cylc vip" && actions[2].command == Command("cylc vip", "cylc vip")
    ensures actions[1].disabled == None
    ensures actions[0].disabled.Some? <==> !EndsWith(uri, EntryFile)
    ensures actions[2].disabled.Some? <==> !EndsWith(uri, EntryFile)
    ensures forall k :: 0 <= k < 3 && actions[k].disabled.Some? ==> actions[k].disabled.value == DisabledReason
  {
    var validate := IsEntryFile(uri);
    [
      CodeAction("cylc validate", DisabledUnless(validate), Command("cylc validate", "Validate")),
      CodeAction("cylc lint", None, Command("cylc lint", "cylc lint")),
      CodeAction("cylc vip", DisabledUnless(validate), Command("cylc vip", "cylc vip"))
    ]
  }

  /**
   * Validation and `cylc vip` are enabled exactly for URIs that are some
   * string followed by `flow.cylc`.
   */
  lemma ValidateEnabledIff(uri: string)
    ensures CodeActions(uri)[0].disabled.None? <==> exists prefix :: uri == prefix + EntryFile
    ensures CodeActions(uri)[2].disabled.None? <==> exists prefix :: uri == prefix + EntryFile
  {
  }

  /**
   * The test is on the URI's characters, not its file name: a file named
   * `myflow.cylc` is treated as the top-level file, and so is the bare URI
   * `flow.cylc`.
   */
  lemma SuffixNotFileName()
    ensures CodeActions("file:///work/myflow.cylc")[0].disabled == None
    ensures CodeActions("file:///work/flow.cylc.bak")[0].disabled == Some(DisabledReason)
  {
  }
}
