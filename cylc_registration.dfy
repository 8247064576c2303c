/**
 * The `registerCompletions` and `unregisterCompletions` commands of the
 * Cylc language server: the report of the client's answer to the request.
 */
module CylcRegistration {
  import opened Wrappers
  import opened Lsp

  /**
   * The notice `register_completions` shows: success when the client's
   * answer is `None`, an error notice for any other answer.
   */
  function RegisterReport(response: Option<string>): (m: ShowMessage)
    ensures m.kind == ErrorMessage <==> response.Some?
    ensures m.kind == InfoMessage <==> response.None?
    ensures response.None? ==> m.text == "Successfully registered completions method"
    ensures response.Some? ==> m.text == "Error happened during completions registration."
  {
    if response.None? then ShowMessage("Successfully registered completions method", InfoMessage)
    else ShowMessage("Error happened during completions registration.", ErrorMessage)
  }

  /** The notice `unregister_completions` shows, by the same rule as registration. */
  function UnregisterReport(response: Option<string>): (m: ShowMessage)
    ensures m.kind == ErrorMessage <==> response.Some?
    ensures m.kind == InfoMessage <==> response.None?
    ensures response.None? ==> m.text == "Successfully unregistered completions method"
    ensures response.Some? ==> m.text == "Error happened during completions unregistration."
  {
    if response.None? then ShowMessage("Successfully unregistered completions method", InfoMessage)
    else ShowMessage("Error happened during completions unregistration.", ErrorMessage)
  }
}
