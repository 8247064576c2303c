# Cylc language server examples — a Dafny model

This project models the decision and transformation rules of two example
language servers built on pygls:

- the **Cylc language server** (`examples/json-extension/server/server.py`):
  the completion list built from the Cylc workflow specification tree, the
  three code actions offered for a document, the conversion of a
  `cylc validate` failure into a diagnostic, the merge of lint and validator
  diagnostics into the one list published per validation, and the reports of
  the completion registration commands;
- the **multi-root server** (`examples/multi-root-server/server/server.py`):
  the length check that flags a document longer than the configured limit,
  and that limit's default.

The external collaborators are parameters: the specification tree is an
input string, the linter (`check_cylc_file`) is a function from the document
text to diagnostics, `cylc validate` is a function from a directory to
`Passed | Failed(message, lineNum)`, and the client's answer to a
(un)registration is an `Option`. Publication is recorded by the `CylcServer`
class as a list of `(uri, diagnostics)` calls.

Modules: `Wrappers` (Option, Result), `Strings` (Python's `split`, `join`,
`strip`, `endswith`, integer formatting), `PosixPath` (the part of
`pathlib.PurePosixPath` used: parsing, `str()`, `.parent`), `Lsp` (protocol
values), `CylcCompletions`, `CylcCodeActions`, `CylcValidation`,
`CylcRegistration`, `MultiRoot`.

Points where the code does something other than what a reader might expect:

- Code actions test whether the URI *string* ends with `flow.cylc`
  (`examples/json-extension/server/server.py:157`), not whether the file is
  named `flow.cylc`: `myflow.cylc` qualifies
  (`CylcCodeActions.SuffixNotFileName`).
- The completion list drops the first element of `list(set(...))`
  (`examples/json-extension/server/server.py:93-97,108`), whose order Python
  leaves unspecified; the comment at line 108 says this is `flow.cylc`, but
  nothing makes it so. The model takes the order as an input and drops its
  head.
- `uri.split(':')[1]` is the text between the first and the second colon,
  and it runs outside the `try`: a URI with no colon raises `IndexError` out
  of `_validate`, and nothing is published (unless `lint_only`).
- Unregistration uses a fresh identifier; no registration identifier is
  tracked, so there is no registration state to model.
- No document store, request sequencing or clear-on-close exists in the
  code; none is modelled.

## Model

| member | source | states |
|---|---|---|
| `Strings.Split` | examples/json-extension/server/server.py:95 | `str.split(sep)`: at least one piece, no piece holds the separator, more than one piece exactly when the separator occurs |
| `Strings.JoinSplit` | examples/json-extension/server/server.py:95 | joining the pieces of a split with the separator gives back the original text, so splitting into lines loses nothing |
| `Strings.SplitJoin` | examples/json-extension/server/server.py:95 | splitting a join of separator-free pieces gives back the pieces |
| `Strings.SplitAfterFirstSeparator` | examples/json-extension/server/server.py:70 | the first piece of a split ends at the first separator: `(a + sep + b).split(sep) == [a] + b.split(sep)` when `a` has no separator |
| `Strings.Strip` | examples/json-extension/server/server.py:94 | `str.strip(chars)`: neither end of the result is in `chars`, the result is the infix of the input after exactly the leading and trailing `chars` |
| `Strings.StripCharacterised` | examples/json-extension/server/server.py:94 | the stripped result is unique: for any text `a + m + b` with `a`, `b` made of `chars` and `m` not starting or ending with one, strip gives `m` |
| `Strings.EndsWith` | examples/json-extension/server/server.py:157 | `endswith(suffix)` holds exactly when the string is some prefix followed by `suffix` (both directions) |
| `Strings.NatToDecimal` | examples/multi-root-server/server/server.py:24 | the decimal digits of a natural number: at least one digit, all digits, no leading zero |
| `Strings.IntToDecimal` | examples/multi-root-server/server/server.py:24 | `str(n)` is never empty, starts with a minus sign exactly when `n` is negative, and after the sign holds only digits with no leading zero (a lone `0` aside) |
| `Strings.IntToDecimalRoundTrip` | examples/multi-root-server/server/server.py:24 | reading back `str(n)` gives `n` for every integer, negative ones included |
| `PosixPath.Root` | examples/json-extension/server/server.py:70 | the root of a POSIX path is `""`, `"/"` or `"//"`, a prefix of the text; empty exactly when the text does not start with a slash, `"//"` exactly when it starts with exactly two slashes |
| `PosixPath.TripleSlashIsRoot` | examples/json-extension/server/server.py:70 | three leading slashes parse as one: `///x` and `/x` are the same path |
| `PosixPath.Parts` | examples/json-extension/server/server.py:70 | the parts kept from a split are never empty, never `.`, never hold a slash |
| `PosixPath.ParsePath` | examples/json-extension/server/server.py:70 | `PurePosixPath(s)` always yields a well-formed root and parts |
| `PosixPath.Parent` | examples/json-extension/server/server.py:70 | `.parent` keeps the root and drops exactly the last part (a path with no parts is its own parent) |
| `PosixPath.Format` | examples/json-extension/server/server.py:70 | `str()` of a path is exactly its rendering: it starts with the root; with no parts it is the root, or `.` when the root is empty; otherwise what follows the root splits on `/` into exactly the parts, so no empty or `.` piece is added |
| `PosixPath.ParseFormat` | examples/json-extension/server/server.py:70 | `str()` of a path parses back to the same path |
| `PosixPath.ParentDirectory` | examples/json-extension/server/server.py:70 | `str(Path(s).parent)` names the parent of the path `s`: it parses to `Parent(ParsePath(s))`, and it is that parent's exact rendering (root first, then the parts split by `/`, or the root or `.` when there are none) |
| `PosixPath.ParentOfChild` | examples/json-extension/server/server.py:70 | the parent directory of `dir/name` is `dir` |
| `CylcCompletions.SettingNames` | examples/json-extension/server/server.py:93-97 | every setting name taken from the tree has no leading or trailing space, `[` or `]` |
| `CylcCompletions.SettingNameOrigin` | examples/json-extension/server/server.py:93-97 | a setting name is exactly a tree line with neither `<` nor `>`, stripped of spaces and brackets |
| `CylcCompletions.AnEnumeration` | examples/json-extension/server/server.py:93 | `list(set(...))` is always defined: every finite set has a duplicate-free listing of exactly its elements |
| `CylcCompletions.EnumerationLength` | examples/json-extension/server/server.py:93 | such a listing is exactly as long as the set |
| `CylcCompletions.EnumerationTail` | examples/json-extension/server/server.py:108 | after `[1:]`: no duplicates, one element fewer than the set (none for an empty set), and every element but the first is still there |
| `CylcCompletions.Items` | examples/json-extension/server/server.py:98-99 | one completion item per name, in the same order |
| `CylcCompletions.ListAllButFirst` | examples/json-extension/server/server.py:101-108 | the list is complete, starts with `"`, `[`, `]`, then lists `order[1:]` in its order: each name of the set but the first of the order, once each |
| `CylcCompletions.Completions` | examples/json-extension/server/server.py:88-109 | for any order of the set: labels `"`, `[`, `]` first; then pairwise distinct setting names, one fewer than the set holds (none if it is empty), exactly the first name of the order missing, the others in the order's sequence; each stripped and from a placeholder-free line |
| `CylcCompletions.NoSettingNameIsABracket` | examples/json-extension/server/server.py:94 | no setting name equals `[` or `]`, so those structural labels are never repeated |
| `CylcCodeActions.CodeActions` | examples/json-extension/server/server.py:156-195 | exactly three actions, "cylc validate", "cylc lint", "cylc vip" with their commands; "cylc lint" never disabled; the other two disabled, with the fixed reason, exactly when the URI does not end with `flow.cylc` |
| `CylcCodeActions.ValidateEnabledIff` | examples/json-extension/server/server.py:157-189 | "cylc validate" and "cylc vip" are enabled exactly for URIs of the form `prefix + "flow.cylc"` |
| `CylcCodeActions.SuffixNotFileName` | examples/json-extension/server/server.py:157 | the test is a suffix test: `.../myflow.cylc` enables validation, `.../flow.cylc.bak` does not |
| `CylcValidation.ValidatorDiagnostics` | examples/json-extension/server/server.py:73-85 | a passing validator gives no diagnostic; a failure gives exactly one, on line `line_num` or 0, columns 0 to 10, with the error's text as message and source `cylc validate` |
| `CylcValidation.UriPath` | examples/json-extension/server/server.py:70 | `uri.split(':')[1]` is missing exactly when the URI has no colon, and never holds a colon |
| `CylcValidation.ValidationDirectory` | examples/json-extension/server/server.py:70 | the validated directory exists exactly when the URI has a colon, and is the parent of the path segment after the first colon |
| `CylcValidation.ValidationDirectoryOf` | examples/json-extension/server/server.py:70 | for `scheme:segment` followed by nothing or by another `:...`, the directory is the parent of `segment`, whatever the scheme and the rest |
| `CylcValidation.SchemeOnlyUriDirectory` | examples/json-extension/server/server.py:70 | a `file://name` URI, like the unit test's `file://flow.cylc`, is validated in the directory `//` |
| `CylcValidation.AbsoluteFileUriDirectory` | examples/json-extension/server/server.py:70 | a URI `file:///dir/name` is validated in `/dir` |
| `CylcValidation.ValidateCylc` | examples/json-extension/server/server.py:67-85 | `_validate_cylc` raises exactly for a URI with no colon; otherwise it reports the validator's outcome on the parent directory, at most one diagnostic |
| `CylcValidation.OnlyPathSegmentMatters` | examples/json-extension/server/server.py:70 | two URIs with the same segment after the first colon give the same validator diagnostics |
| `CylcValidation.LintDiagnostics` | examples/json-extension/server/server.py:54-58 | the linter is not run on an empty document and contributes nothing then; otherwise its diagnostics are taken as they are |
| `CylcValidation.PublishedDiagnostics` | examples/json-extension/server/server.py:44-64 | the published list starts with the lint diagnostics; with `lint_only` it is only those and never fails; otherwise the validator's diagnostics follow, at most one more; it fails exactly when the validator step runs on a colon-free URI |
| `CylcValidation.ValidatorFailureIsLast` | examples/json-extension/server/server.py:60-62 | after the lint diagnostics, `cylc validate` adds one diagnostic exactly when it fails, the last one, with the failure's message and source `cylc validate` |
| `CylcValidation.CylcServer.Validate` | examples/json-extension/server/server.py:44-64 | `_validate` returns the published list and publishes it exactly once for the document's URI; when it raises, nothing is published |
| `CylcValidation.CylcServer.DidOpen` | examples/json-extension/server/server.py:124-132 | opening a document validates it with lint and `cylc validate` and publishes once |
| `CylcValidation.CylcServer.DidChange` | examples/json-extension/server/server.py:112-115 | changing a document validates it with lint and `cylc validate` and publishes once |
| `CylcRegistration.RegisterReport` | examples/json-extension/server/server.py:208-213 | registration reports success (an info notice) exactly when the client answers `None`, an error notice for any other answer |
| `CylcRegistration.UnregisterReport` | examples/json-extension/server/server.py:222-227 | unregistration reports success exactly when the client answers `None`, an error notice otherwise |
| `MultiRoot.TextIsValid` | examples/multi-root-server/server/server.py:11-29 | no diagnostic exactly when `len(text) <= max_text_len`; otherwise exactly one, from (0,0) to (0,max_text_len), message "Max number of characters is {max_text_len}", source `MultiRootServer` |
| `MultiRoot.LimitMessage` | examples/multi-root-server/server/server.py:24 | the message is the fixed prefix followed by the limit in decimal: a minus sign exactly when the limit is negative, then digits with no leading zero, reading back as the limit |
| `MultiRoot.DependsOnlyOnLength` | examples/multi-root-server/server/server.py:17 | two texts of the same length get the same diagnostics |
| `MultiRoot.MaxTextLength` | examples/multi-root-server/server/server.py:52 | the configured `maxTextLength` when present, 10 otherwise |
| `MultiRoot.ParameterDefaultIsTen` | examples/multi-root-server/server/server.py:11 | called without a limit (default 10) a text may hold at most ten characters; called with no arguments (empty text) nothing is reported |
| `MultiRoot.DefaultLimitIsTen` | examples/multi-root-server/server/server.py:52 | with no configured `maxTextLength` a document may hold at most ten characters |
| `MultiRoot.TextIsValidAsWritten` | examples/multi-root-server/server/server.py:17-27 | the written code reports exactly when the text is longer than the limit, at most once |
| `MultiRoot.AsWrittenEndIsNotAPosition` | examples/multi-root-server/server/server.py:20-23 | whenever the written code reports, the end of its range is not a position, while start, message and source agree with the intended check |

## Findings

| source | as written | input that shows it | evidently intended | confidence | as-written member | corrected member |
|---|---|---|---|---|---|---|
| examples/multi-root-server/server/server.py:20-23 | the range's end is `lsp.Range(0, max_text_len)`, a range object where a position belongs | any text longer than the limit, e.g. 11 characters with the default limit 10 | end `lsp.Position(0, max_text_len)` | high; not executed | `MultiRoot.TextIsValidAsWritten`, `MultiRoot.AsWrittenEndIsNotAPosition` | `MultiRoot.TextIsValid` |

## Left out

- Protocol plumbing: transport, the pygls `LanguageServer`, the feature and command decorators and the delivery of `publish_diagnostics`; publication is a recorded call.
- The `show_message` and `show_message_log` notices of `_validate`, `my_action`, `did_open` and `did_close`: notifications with no logic (`did_close` does nothing else).
- `check_cylc_file`, `parse_checks` and `cylc validate` are foreign calls; lint is a function parameter and validate a tagged outcome. An exception raised by the linter itself is not modelled (the code does not catch it).
- The contents of `SPEC.tree()`: the tree is an arbitrary input string. The order in which Python lists a set is an input too.
- The contents of the registration and unregistration requests (a fresh `uuid.uuid4()` identifier, the completion method, the trigger-character options): plain data with no logic; only the report on the client's answer is modelled.
- Paths are parsed as POSIX paths (`PurePosixPath`); `Path` on Windows would parse differently, and Cylc runs only on POSIX systems.
- The `await`s of the registration requests and of `cylc validate` are left out, as is the cooperative scheduling that surrounds them.
- The multi-root `get_configuration` callback, `custom_command` and workspace lookups; only the limit's default is modelled (`MaxTextLength`), with configuration values taken to be integers.
- `MultiRoot.TextIsValid`: does not state the diagnostic's severity, which is the pygls library default and not set in the shown code.
- `CylcValidation.ValidatorDiagnostics`: takes the error's `line_num` to be an integer when present; a non-integer attribute value is not modelled.
- Document store, request sequencing, timeouts and clearing diagnostics on close: the code has none of them.
