/**
 * The execution server's request check and output scrubbing. A request field
 * that is missing or not a string is `None`.
 */
module Validator {
  import opened Wrappers
  import opened Text

  const SupportedLanguages := ["python", "javascript", "sql"]

  /** The supported languages as the error message lists them, joined with ", ". */
  const SupportedList := Join(SupportedLanguages, ", ")

  /** 10 KiB, compared with the code's length. */
  const MaxCodeSize := 10 * 1024

  /**
   * `validateExecutionRequest(code, language)`: `Ok(true)` when the request
   * passes every check, else the message of the first check it fails.
   */
  function ValidateExecutionRequest(code: Option<string>, language: Option<string>): (r: Result<bool>)
    ensures r.Ok? ==> r.value
    ensures r.Ok? <==>
      && code.Some? && code.value != ""
      && language.Some? && language.value != ""
      && Lower(language.value) in SupportedLanguages
      && |code.value| <= MaxCodeSize
    ensures code.None? || code.value == "" ==> r == Err("Code must be a non-empty string")
    ensures code.Some? && code.value != "" && (language.None? || language.value == "") ==>
      r == Err("Language must be specified")
    ensures code.Some? && code.value != "" && language.Some? && language.value != ""
            && Lower(language.value) !in SupportedLanguages ==>
      r == Err("Language '" + language.value + "' is not supported. Supported: " + SupportedList)
    ensures code.Some? && language.Some? && language.value != ""
            && Lower(language.value) in SupportedLanguages && |code.value| > MaxCodeSize ==>
      r == Err("Code size exceeds maximum allowed size (10240 bytes)")
  {
    if code.None? || code.value == "" then
      Err("Code must be a non-empty string")
    else if language.None? || language.value == "" then
      Err("Language must be specified")
    else if Lower(language.value) !in SupportedLanguages then
      Err("Language '" + language.value + "' is not supported. Supported: " + SupportedList)
    else if |code.value| > MaxCodeSize then
      Err("Code size exceeds maximum allowed size (10240 bytes)")
    else
      Ok(true)
  }

  /** The language check ignores letter case. */
  lemma ValidationIgnoresCase(code: Option<string>, a: string, b: string)
    requires Lower(a) == Lower(b) && a != "" && b != ""
    ensures ValidateExecutionRequest(code, Some(a)).Ok? <==> ValidateExecutionRequest(code, Some(b)).Ok?
  {
  }

  /** The size limit is inclusive: 10240 characters pass, 10241 do not. */
  lemma SizeLimitBoundary(small: string, large: string)
    requires |small| == MaxCodeSize && |large| == MaxCodeSize + 1
    ensures ValidateExecutionRequest(Some(small), Some("python")) == Ok(true)
    ensures ValidateExecutionRequest(Some(large), Some("python")).Err?
  {
    assert Lower("python") == "python";
  }

  /**
   * `sanitizeOutput(output)`: falsy output becomes the empty string; other
   * output goes through the path and token rewriting, which is a parameter.
   */
  function SanitizeOutput(output: Option<string>, rewrite: string -> string): (r: string)
    ensures output.None? || output.value == "" ==> r == ""
    ensures output.Some? && output.value != "" ==> r == rewrite(output.value)
  {
    if output.None? || output.value == "" then "" else rewrite(output.value)
  }
}
