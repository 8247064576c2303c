/**
 * The multi-root example server's document check (`text_is_valid`): a
 * document longer than the configured limit gets one diagnostic.
 */
module MultiRoot {
  import opened Strings
  import opened Lsp

  /** The limit when neither the caller nor the configuration gives one. */
  const DefaultMaxTextLength := 10

  /** The configuration key holding the limit. */
  const MaxTextLengthKey := "maxTextLength"

  /** The diagnostic's `source`: the class name of the server. */
  const ServerName := "MultiRootServer"

  const LimitMessagePrefix := "Max number of characters is "

  /**
   * `f"Max number of characters is {max_text_len}"`: the fixed prefix, then
   * the limit in decimal, with a sign only when negative and no leading zero,
   * which reads back as the limit.
   */
  function LimitMessage(maxTextLen: int): (m: string)
    ensures |LimitMessagePrefix| < |m| && m[..|LimitMessagePrefix|] == LimitMessagePrefix
    ensures var digits := m[|LimitMessagePrefix|..];
            (digits[0] == '-' <==> maxTextLen < 0) &&
            (digits[0] == '-' ==> |digits| >= 2 && forall k :: 1 <= k < |digits| ==> IsDigit(digits[k])) &&
            (digits[0] != '-' ==> forall k :: 0 <= k < |digits| ==> IsDigit(digits[k])) &&
            IsCanonicalDigits(if digits[0] == '-' then digits[1..] else digits) &&
            IntValue(digits) == maxTextLen
  {
    var m := LimitMessagePrefix + IntToDecimal(maxTextLen);
    assert m[|LimitMessagePrefix|..] == IntToDecimal(maxTextLen);
    IntToDecimalRoundTrip(maxTextLen);
    m
  }

  /** A diagnostic of this server (the library's default severity is not modelled). */
  datatype LengthDiagnostic = LengthDiagnostic(range: Range, message: string, source: string)

  /**
   * `text_is_valid`, with the end of the range at `(0, max_text_len)` as
   * intended: nothing for a text within the limit, else one diagnostic that
   * names the limit.
   */
  function TextIsValid(text: string := "", maxTextLen: int := DefaultMaxTextLength): (ds: seq<LengthDiagnostic>)
    ensures ds == [] <==> |text| <= maxTextLen
    ensures |ds| <= 1
    ensures ds != [] ==>
              ds[0].range == Range(Position(0, 0), Position(0, maxTextLen)) &&
              ds[0].message == LimitMessage(maxTextLen) &&
              ds[0].source == ServerName
  {
    var diagnostics := [];
    if |text| > maxTextLen then
      diagnostics + [LengthDiagnostic(Range(Position(0, 0), Position(0, maxTextLen)),
                                      LimitMessage(maxTextLen), ServerName)]
    else diagnostics
  }

  /** Only the text's length matters, never its characters. */
  lemma DependsOnlyOnLength(text1: string, text2: string, maxTextLen: int)
    requires |text1| == |text2|
    ensures TextIsValid(text1, maxTextLen) == TextIsValid(text2, maxTextLen)
  {
  }

  /** `config[0].get('maxTextLength', 10)`: the configured limit, or the default. */
  function MaxTextLength(settings: map<string, int>): (limit: int)
    ensures MaxTextLengthKey in settings ==> limit == settings[MaxTextLengthKey]
    ensures MaxTextLengthKey !in settings ==> limit == DefaultMaxTextLength
  {
    if MaxTextLengthKey in settings then settings[MaxTextLengthKey] else DefaultMaxTextLength
  }

  /** Called without a limit, `text_is_valid` lets a text hold ten characters and no more. */
  lemma ParameterDefaultIsTen(text: string)
    ensures TextIsValid(text) == [] <==> |text| <= 10
    ensures TextIsValid() == []
  {
  }

  /** Without a configured limit, a document may hold ten characters and no more. */
  lemma DefaultLimitIsTen(settings: map<string, int>, text: string)
    requires MaxTextLengthKey !in settings
    ensures TextIsValid(text, MaxTextLength(settings)) == [] <==> |text| <= 10
  {
  }

  // ---------------------------------------------------------------------
  // The check as written: the end of the range is `lsp.Range(0, max_text_len)`
  // ---------------------------------------------------------------------

  /** What stands in the `end` slot of the written range: a position, or a range object. */
  datatype WrittenEnd = EndPosition(position: Position) | EndRange(start: int, end: int)

  /** The diagnostic the written code builds. */
  datatype WrittenDiagnostic = WrittenDiagnostic(start: Position, end: WrittenEnd, message: string, source: string)

  /** `text_is_valid` as written: same test, same message, a `Range(0, max)` object as the end. */
  function TextIsValidAsWritten(text: string, maxTextLen: int): (ds: seq<WrittenDiagnostic>)
    ensures ds == [] <==> |text| <= maxTextLen
    ensures |ds| <= 1
  {
    if |text| > maxTextLen then
      [WrittenDiagnostic(Position(0, 0), EndRange(0, maxTextLen), LimitMessage(maxTextLen), ServerName)]
    else []
  }

  /**
   * Whenever the written code reports, the end of its range is not a
   * position, so the diagnostic is not a well-formed protocol `Diagnostic`;
   * everything else agrees with the intended check.
   */
  lemma AsWrittenEndIsNotAPosition(text: string, maxTextLen: int)
    requires |text| > maxTextLen
    ensures var written := TextIsValidAsWritten(text, maxTextLen);
            var intended := TextIsValid(text, maxTextLen);
            |written| == 1 && |intended| == 1 &&
            !written[0].end.EndPosition? &&
            written[0].start == intended[0].range.start &&
            written[0].message == intended[0].message &&
            written[0].source == intended[0].source
  {
  }
}
