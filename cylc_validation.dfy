/**
 * Diagnostics of the Cylc language server: `cylc validate` failures turned
 * into a diagnostic (`_validate_cylc`), merged after the lint diagnostics
 * and published once per validation (`_validate`, run by `did_open` and
 * `did_change`).
 */
module CylcValidation {
  import opened Wrappers
  import opened Strings
  import opened PosixPath
  import opened Lsp

  /** How `cylc validate` ends: normally, or by raising an error that may carry a line number. */
  datatype ValidatorOutcome = Passed | Failed(message: string, lineNum: Option<int>)

  /** The one error that escapes `_validate`: `uri.split(':')[1]` on a URI without a colon. */
  datatype UncaughtError = IndexError

  /** The `source` of a validator diagnostic. */
  const ValidatorSource := "cylc validate"

  /** A validator diagnostic spans the first ten characters of its line. */
  const FailureWidth := 10

  /** The diagnostics `_validate_cylc` reports for one run of `cylc validate`. */
  function ValidatorDiagnostics(outcome: ValidatorOutcome): (ds: seq<Diagnostic>)
    ensures outcome.Passed? <==> ds == []
    ensures outcome.Failed? ==>
              var line := outcome.lineNum.GetOr(0);
              |ds| == 1 &&
              ds[0].range == Range(Position(line, 0), Position(line, FailureWidth)) &&
              ds[0].message == outcome.message &&
              ds[0].source == Some(ValidatorSource) &&
              ds[0].severity == None
  {
    match outcome
    case Passed => []
    case Failed(message, lineNum) =>
      var line := if lineNum.Some? then lineNum.value else 0;
      [Diagnostic(Range(Position(line, 0), Position(line, FailureWidth)), message, None, Some(ValidatorSource))]
  }

  /** `uri.split(':')[1]`: the text between the URI's first and second colon. */
  function UriPath(uri: string): (segment: Option<string>)
    ensures segment.None? <==> ':' !in uri
    ensures segment.Some? ==> ':' !in segment.value
  {
    var pieces := Split(uri, ':');
    if |pieces| < 2 then None else Some(pieces[1])
  }

  /** `str(Path(uri.split(':')[1]).parent)`: the workflow directory `cylc validate` is run on. */
  function ValidationDirectory(uri: string): (dir: Option<string>)
    ensures dir.None? <==> ':' !in uri
    ensures dir.Some? ==> ParsePath(dir.value) == Parent(ParsePath(UriPath(uri).value))
  {
    match UriPath(uri)
    case None => None
    case Some(segment) => Some(ParentDirectory(segment))
  }

  /** The segment after the first colon, up to the next colon or the end. */
  lemma UriPathOf(scheme: string, segment: string, rest: string)
    requires ':' !in scheme && ':' !in segment
    requires rest == [] || rest[0] == ':'
    ensures UriPath(scheme + ":" + segment + rest) == Some(segment)
  {
    var uri := scheme + ":" + segment + rest;
    assert uri == scheme + [':'] + (segment + rest);
    SplitAfterFirstSeparator(scheme, ':', segment + rest);
    FirstPiece(segment, rest);
    assert Split(uri, ':')[1] == Split(segment + rest, ':')[0];
  }

  /** Up to the next colon, `segment + rest` splits into `segment` first. */
  lemma FirstPiece(segment: string, rest: string)
    requires ':' !in segment
    requires rest == [] || rest[0] == ':'
    ensures Split(segment + rest, ':')[0] == segment
  {
    if rest == [] {
      assert segment + rest == segment;
      SplitWithoutSeparator(segment, ':');
    } else {
      assert segment + rest == segment + [':'] + rest[1..];
      SplitAfterFirstSeparator(segment, ':', rest[1..]);
    }
  }

  /**
   * The directory depends on the segment after the first colon and on
   * nothing else: neither the scheme before it nor anything from the next
   * colon on.
   */
  lemma {:induction false} ValidationDirectoryOf(scheme: string, segment: string, rest: string)
    requires ':' !in scheme && ':' !in segment
    requires rest == [] || rest[0] == ':'
    ensures ValidationDirectory(scheme + ":" + segment + rest) == Some(ParentDirectory(segment))
  {
    UriPathOf(scheme, segment, rest);
  }

  /**
   * A URI `file://name`, as in the server's unit test (`file://flow.cylc`),
   * keeps two slashes before `name`, so it is validated in the directory `//`.
   */
  lemma SchemeOnlyUriDirectory(name: string)
    requires IsPart(name) && ':' !in name
    ensures ValidationDirectory("file://" + name) == Some("//")
  {
    assert "file://" + name == "file" + ":" + ("//" + name) + "";
    ValidationDirectoryOf("file", "//" + name, "");
    assert ValidationDirectory("file://" + name) == Some(ParentDirectory("//" + name));
    ParentOfChild(PurePath("//", []), name);
    assert Join([name], '/') == name;
    assert Format(PurePath("//", [] + [name])) == "//" + name;
    assert ParentDirectory("//" + name) == Format(PurePath("//", []));
    assert Join([], '/') == [];
    assert Format(PurePath("//", [])) == "//";
  }

  /**
   * A URI `file:///dir/name` is validated in `/dir`: the three slashes after
   * `file:` count as a single root slash.
   */
  lemma AbsoluteFileUriDirectory(dir: PurePath, name: string)
    requires Valid(dir) && dir.root == "/" && IsPart(name)
    requires ':' !in Format(PurePath("/", dir.parts + [name]))
    ensures ValidationDirectory("file://" + Format(PurePath("/", dir.parts + [name]))) == Some(Format(dir))
  {
    var child := PurePath("/", dir.parts + [name]);
    var path := Format(child);
    var j := Join(child.parts, '/');
    JoinStart(child.parts);
    assert path == "/" + j;
    FileUriOfAbsolutePath(j);
    ParentOfChild(dir, name);
  }

  /** `file:///j` is validated in the parent directory of `/j`. */
  lemma FileUriOfAbsolutePath(j: string)
    requires j == [] || j[0] != '/'
    requires ':' !in j
    ensures ValidationDirectory("file://" + ("/" + j)) == Some(ParentDirectory("/" + j))
  {
    assert "file://" + ("/" + j) == "file" + ":" + ("///" + j) + "";
    ValidationDirectoryOf("file", "///" + j, "");
    TripleSlashParent(j);
  }

  /** `///j` and `/j` name the same directory. */
  lemma TripleSlashParent(j: string)
    requires j == [] || j[0] != '/'
    ensures ParentDirectory("///" + j) == ParentDirectory("/" + j)
  {
    TripleSlashIsRoot(j);
  }

  /** `_validate_cylc(uri)`: run `validator` on the workflow directory and report its failure. */
  function ValidateCylc(uri: string, validator: string -> ValidatorOutcome): (r: Result<seq<Diagnostic>, UncaughtError>)
    ensures r.Failure? <==> ':' !in uri
    ensures r.Success? ==> r.value == ValidatorDiagnostics(validator(ValidationDirectory(uri).value))
    ensures r.Success? ==> |r.value| <= 1
  {
    match ValidationDirectory(uri)
    case None => Failure(IndexError)
    case Some(dir) => Success(ValidatorDiagnostics(validator(dir)))
  }

  /** Two URIs with the same segment after the first colon are validated alike. */
  lemma OnlyPathSegmentMatters(scheme1: string, rest1: string, scheme2: string, rest2: string,
                               segment: string, validator: string -> ValidatorOutcome)
    requires ':' !in scheme1 && ':' !in scheme2 && ':' !in segment
    requires rest1 == [] || rest1[0] == ':'
    requires rest2 == [] || rest2[0] == ':'
    ensures ValidateCylc(scheme1 + ":" + segment + rest1, validator) ==
            ValidateCylc(scheme2 + ":" + segment + rest2, validator)
  {
    ValidationDirectoryOf(scheme1, segment, rest1);
    ValidationDirectoryOf(scheme2, segment, rest2);
  }

  /** The lint step: `lint` is never run on an empty document. */
  function LintDiagnostics(source: string, lint: string -> seq<Diagnostic>): (ds: seq<Diagnostic>)
    ensures source == [] ==> ds == []
    ensures source != [] ==> ds == lint(source)
  {
    if source != [] then lint(source) else []
  }

  /**
   * The list `_validate` publishes: the lint diagnostics, then (unless
   * `lintOnly`) the validator's; or the error that stops it first.
   */
  function PublishedDiagnostics(uri: string, source: string, lintOnly: bool,
                                lint: string -> seq<Diagnostic>,
                                validator: string -> ValidatorOutcome): (r: Result<seq<Diagnostic>, UncaughtError>)
    ensures r.Failure? <==> !lintOnly && ':' !in uri
    ensures r.Success? ==> LintDiagnostics(source, lint) <= r.value
    ensures r.Success? && lintOnly ==> r.value == LintDiagnostics(source, lint)
    ensures r.Success? && !lintOnly ==>
              r.value[|LintDiagnostics(source, lint)|..] == ValidateCylc(uri, validator).value
    ensures r.Success? ==> |r.value| <= |LintDiagnostics(source, lint)| + 1
  {
    var linted := LintDiagnostics(source, lint);
    if lintOnly then Success(linted)
    else
      match ValidateCylc(uri, validator)
      case Failure(e) => Failure(e)
      case Success(validated) => Success(linted + validated)
  }

  /**
   * The validator adds one diagnostic exactly when it fails, and that
   * diagnostic comes last, with the failure's message and source
   * `cylc validate`.
   */
  lemma ValidatorFailureIsLast(uri: string, source: string, lint: string -> seq<Diagnostic>,
                               validator: string -> ValidatorOutcome)
    ensures var r := PublishedDiagnostics(uri, source, false, lint, validator);
            var n := |LintDiagnostics(source, lint)|;
            r.Success? ==>
              var outcome := validator(ValidationDirectory(uri).value);
              (|r.value| == n + 1 <==> outcome.Failed?) &&
              (outcome.Failed? ==>
                 r.value[n].source == Some(ValidatorSource) &&
                 r.value[n].message == outcome.message)
  {
    var r := PublishedDiagnostics(uri, source, false, lint, validator);
    if r.Success? {
      var n := |LintDiagnostics(source, lint)|;
      assert r.value[n..] == ValidateCylc(uri, validator).value;
      if |r.value| > n {
        assert r.value[n] == r.value[n..][0];
      }
    }
  }

  /** One `publish_diagnostics` call: the document and its full list. */
  datatype Publication = Publication(uri: string, diagnostics: seq<Diagnostic>)

  /** The server, as far as diagnostics go: the publications it has made. */
  class CylcServer {
    var published: seq<Publication>

    constructor()
      ensures published == []
    {
      published := [];
    }

    /**
     * `_validate`: lint the document, add the validator's diagnostics unless
     * `lintOnly`, then publish the whole list once.
     */
    method Validate(uri: string, source: string, lintOnly: bool,
                    lint: string -> seq<Diagnostic>,
                    validator: string -> ValidatorOutcome) returns (r: Result<seq<Diagnostic>, UncaughtError>)
      modifies this
      ensures r == PublishedDiagnostics(uri, source, lintOnly, lint, validator)
      ensures r.Success? ==> published == old(published) + [Publication(uri, r.value)]
      ensures r.Failure? ==> published == old(published)
    {
      var diagnostics := if source != [] then lint(source) else [];
      if !lintOnly {
        var validated := ValidateCylc(uri, validator);
        if validated.Failure? {
          return Failure(validated.error);
        }
        diagnostics := diagnostics + validated.value;
      }
      published := published + [Publication(uri, diagnostics)];
      r := Success(diagnostics);
    }

    /** `did_open`: validate the opened document with lint and `cylc validate`. */
    method DidOpen(uri: string, source: string,
                   lint: string -> seq<Diagnostic>,
                   validator: string -> ValidatorOutcome) returns (r: Result<seq<Diagnostic>, UncaughtError>)
      modifies this
      ensures r == PublishedDiagnostics(uri, source, false, lint, validator)
      ensures r.Success? ==> published == old(published) + [Publication(uri, r.value)]
      ensures r.Failure? ==> published == old(published)
    {
      r := Validate(uri, source, false, lint, validator);
    }

    /** `did_change`: validate the changed document with lint and `cylc validate`. */
    method DidChange(uri: string, source: string,
                     lint: string -> seq<Diagnostic>,
                     validator: string -> ValidatorOutcome) returns (r: Result<seq<Diagnostic>, UncaughtError>)
      modifies this
      ensures r == PublishedDiagnostics(uri, source, false, lint, validator)
      ensures r.Success? ==> published == old(published) + [Publication(uri, r.value)]
      ensures r.Failure? ==> published == old(published)
    {
      r := Validate(uri, source, false, lint, validator);
    }
  }
}
