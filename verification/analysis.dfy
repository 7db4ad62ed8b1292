/**
 * The values that flow between the Home page and the outside world: the file
 * a user picks, the verdict the analysis service returns, the ways a
 * submission can end, and the pure derivations the page makes from them
 * (the error message shown after a failure, the verdict label shown after a
 * success).
 */
module Analysis {
  import opened Wrappers

  /** A file handle from the browser's picker: its name, media type and bytes. */
  datatype File = File(name: string, mediaType: string, content: seq<bv8>)

  /** The JSON body of a successful analysis response. */
  datatype AnalysisResult = AnalysisResult(verdict: string, description: string, fullResponse: string)

  /**
   * How one submission ends, as seen from `handleSubmit`:
   *  - Ok: the response status is ok and its body parsed;
   *  - NotOk: the status is not ok and the body parsed; `errorField` is its `error` field;
   *  - ThrownError: `fetch` or `response.json()` threw an `Error` with this message;
   *  - ThrownNonError: something that is not an `Error` was thrown.
   */
  datatype Outcome =
    | Ok(data: AnalysisResult)
    | NotOk(errorField: Option<string>)
    | ThrownError(msg: string)
    | ThrownNonError

  /** The value that reaches the `catch` block of `handleSubmit`. */
  datatype Thrown = ErrorValue(message: string) | NonErrorValue

  const HotVerdict: string := "HOT"
  const HotLabel: string := "\U{1F525} HOT \U{1F525}"
  const NotLabel: string := "\U{274C} NOT \U{274C}"
  const HotColour: string := "text-yellow-300"
  const NotColour: string := "text-gray-300"

  const FailedToAnalyze: string := "Failed to analyze image"
  const AnErrorOccurred: string := "An error occurred"

  /** JavaScript truthiness of an optional string: present and non-empty. */
  predicate Truthy(s: Option<string>)
    ensures Truthy(s) <==> s != None && s != Some("")
  {
    s.Some? && s.value != ""
  }

  /**
   * The message of the `Error` thrown for a non-ok response:
   * `data.error || "Failed to analyze image"`. It is never empty, and it is
   * the service's own message whenever that message is usable.
   */
  function NotOkMessage(errorField: Option<string>): (m: string)
    ensures m != ""
    ensures Truthy(errorField) ==> m == errorField.value
    ensures m != FailedToAnalyze ==> errorField == Some(m)
  {
    if Truthy(errorField) then errorField.value else FailedToAnalyze
  }

  /**
   * What the `try` block throws for an outcome other than success: the
   * `Error` raised for a non-ok status, or whatever `fetch`/`json()` threw.
   */
  function Raised(outcome: Outcome): (t: Thrown)
    requires !outcome.Ok?
    ensures t.NonErrorValue? <==> outcome.ThrownNonError?
    ensures outcome.NotOk? ==> t.ErrorValue? && t.message != ""
    ensures outcome.ThrownError? ==> t == ErrorValue(outcome.msg)
  {
    match outcome
    case NotOk(errorField) => ErrorValue(NotOkMessage(errorField))
    case ThrownError(msg) => ErrorValue(msg)
    case ThrownNonError => NonErrorValue
  }

  /**
   * The `catch` block: `err instanceof Error ? err.message : "An error occurred"`.
   * It yields an empty (and so unrendered) message only for an `Error` whose
   * own message is empty.
   */
  function CaughtMessage(t: Thrown): (m: string)
    ensures t.ErrorValue? ==> m == t.message
    ensures t.NonErrorValue? ==> m == AnErrorOccurred
    ensures m == "" <==> t == ErrorValue("")
  {
    if t.ErrorValue? then t.message else AnErrorOccurred
  }

  /** The message `handleSubmit` stores in `error` when a submission fails. */
  function FailureMessage(outcome: Outcome): (m: string)
    requires !outcome.Ok?
    ensures outcome.NotOk? && Truthy(outcome.errorField) ==> m == outcome.errorField.value
    ensures outcome.NotOk? && !Truthy(outcome.errorField) ==> m == FailedToAnalyze
    ensures outcome.ThrownError? ==> m == outcome.msg
    ensures outcome.ThrownNonError? ==> m == AnErrorOccurred
  {
    CaughtMessage(Raised(outcome))
  }

  /**
   * The error region is rendered only for a truthy `error`: every failure
   * produces a visible message except an `Error` thrown with an empty message.
   */
  lemma FailureMessageVisible(outcome: Outcome)
    requires !outcome.Ok?
    ensures FailureMessage(outcome) == "" <==> outcome == ThrownError("")
  {
  }

  /** Two concrete failures: a 500 carrying an `error` field, and a thrown timeout. */
  lemma FailureMessageExamples()
    ensures FailureMessage(NotOk(Some("model unavailable"))) == "model unavailable"
    ensures FailureMessage(NotOk(Some(""))) == FailedToAnalyze
    ensures FailureMessage(NotOk(None)) == FailedToAnalyze
    ensures FailureMessage(ThrownError("timeout")) == "timeout"
    ensures FailureMessage(ThrownNonError) == AnErrorOccurred
  {
  }

  /** The verdict heading of the result region. */
  function VerdictLabel(verdict: string): (heading: string)
    ensures heading == HotLabel <==> verdict == HotVerdict
    ensures heading == HotLabel || heading == NotLabel
  {
    if verdict == HotVerdict then HotLabel else NotLabel
  }

  /** The text colour of the verdict heading. */
  function VerdictColour(verdict: string): (colour: string)
    ensures colour == HotColour <==> verdict == HotVerdict
    ensures colour == HotColour || colour == NotColour
  {
    if verdict == HotVerdict then HotColour else NotColour
  }

  /** The heading's label and its colour always describe the same verdict. */
  lemma LabelAndColourAgree(verdict: string)
    ensures VerdictLabel(verdict) == HotLabel <==> VerdictColour(verdict) == HotColour
  {
  }
}
