/**
 * The conversion service's handling of the model call: the call itself and
 * `JSON.parse` are abstracted (an outcome value and a parse oracle), and the
 * nested try/catch chain becomes a total function to a `Result`.
 */
module GeminiService {
  import opened Wrappers
  import opened TextUtil

  /** What the awaited `generateContent` call did: it threw an `Error` with
      a message, threw some other value, or returned a response whose `text`
      is a string or is not one (`None`). */
  datatype CallOutcome =
    | TransportError(message: string)
    | NonErrorThrow
    | Text(text: Option<string>)

  const EmptyResponse: string := "La IA devolvió una respuesta vacía o con un formato inesperado."
  const InvalidJson: string := "La IA devolvió una respuesta con formato incorrecto (JSON inválido)."
  const Unavailable: string :=
    "No se pudo obtener una respuesta estructurada de la IA. El proyecto podría ser demasiado complejo o la API no está disponible actualmente."

  /** A message the outer catch rethrows unchanged. */
  predicate Specific(message: string) {
    Contains(message, "JSON") || Contains(message, "inesperado")
  }

  /** The outer catch: an `Error` (`Some(message)`) whose message mentions
      "JSON" or "inesperado" is rethrown as it is; any other `Error`, and any
      thrown value that is not an `Error` (`None`), becomes the generic
      message. */
  function OuterCatch(thrown: Option<string>): (message: string)
    ensures thrown.Some? && Specific(thrown.value) ==> message == thrown.value
    ensures !(thrown.Some? && Specific(thrown.value)) ==> message == Unavailable
  {
    if thrown.Some? && Specific(thrown.value) then thrown.value else Unavailable
  }

  /** `generateConversionSteps` after the call has produced `outcome`: a
      missing or blank text fails as an unexpected response, text that does
      not parse fails as invalid JSON, and parsed text is returned as it is,
      with no check of its fields. Every failure goes through the outer
      catch. */
  function Generate<T>(outcome: CallOutcome, parse: string -> Option<T>): (r: Result<T, string>)
    ensures r.Success? <==>
      outcome.Text? && outcome.text.Some? && !IsBlank(outcome.text.value) && parse(outcome.text.value).Some?
    ensures r.Success? ==> r.value == parse(outcome.text.value).value
  {
    match outcome
    case TransportError(m) => Failure(OuterCatch(Some(m)))
    case NonErrorThrow => Failure(OuterCatch(None))
    case Text(t) =>
      if t.None? || Trim(t.value) == "" then Failure(OuterCatch(Some(EmptyResponse)))
      else
        match parse(t.value)
        case None => Failure(OuterCatch(Some(InvalidJson)))
        case Some(v) => Success(v)
  }

  /** `p` occurs in `s` at a known place. */
  lemma {:induction false} ContainsAt(s: string, p: string, i: nat)
    requires OccursAt(s, p, i)
    ensures Contains(s, p)
  {
    ContainsIff(s, p);
  }

  /** The unexpected-response message mentions "inesperado". */
  lemma {:induction false} EmptyResponseIsSpecific(m: string)
    requires m == EmptyResponse
    ensures Specific(m)
  {
    assert m[52..62] == "inesperado";
    ContainsAt(m, "inesperado", 52);
  }

  /** The invalid-JSON message mentions "JSON". */
  lemma {:induction false} InvalidJsonIsSpecific(m: string)
    requires m == InvalidJson
    ensures Specific(m)
  {
    assert m[53..57] == "JSON";
    ContainsAt(m, "JSON", 53);
  }

  /** A response that is not a string, or is blank, fails with the
      unexpected-response message, which the outer catch passes through. */
  lemma {:induction false} BlankTextFails<T>(outcome: CallOutcome, parse: string -> Option<T>)
    requires outcome.Text? && (outcome.text.None? || IsBlank(outcome.text.value))
    ensures Generate(outcome, parse) == Failure(EmptyResponse)
  {
    EmptyResponseIsSpecific(EmptyResponse);
  }

  /** Non-blank text that does not parse fails with the invalid-JSON
      message, which the outer catch passes through. */
  lemma {:induction false} UnparsableTextFails<T>(text: string, parse: string -> Option<T>)
    requires !IsBlank(text) && parse(text).None?
    ensures Generate(Text(Some(text)), parse) == Failure(InvalidJson)
  {
    InvalidJsonIsSpecific(InvalidJson);
  }

  /** A thrown `Error` keeps its message exactly when the message mentions
      "JSON" or "inesperado"; a thrown non-`Error` always gives the generic
      message. */
  lemma {:induction false} ThrownErrors<T>(message: string, parse: string -> Option<T>)
    ensures Generate(TransportError(message), parse) ==
      Failure(if Specific(message) then message else Unavailable)
    ensures Generate(NonErrorThrow, parse) == Failure(Unavailable)
  {
  }

  /** Every failure message is one of the three fixed messages or a thrown
      message that mentions "JSON" or "inesperado". */
  lemma {:induction false} FailureMessages<T>(outcome: CallOutcome, parse: string -> Option<T>)
    ensures Generate(outcome, parse).Failure? ==>
      var m := Generate(outcome, parse).error;
      m == EmptyResponse || m == InvalidJson || m == Unavailable || Specific(m)
    ensures Generate(outcome, parse).Failure? && outcome.Text? ==>
      Generate(outcome, parse).error in {EmptyResponse, InvalidJson}
  {
    EmptyResponseIsSpecific(EmptyResponse);
    InvalidJsonIsSpecific(InvalidJson);
  }

  // ---------------------------------------------------------------------
  // The declared response schema
  // ---------------------------------------------------------------------

  /** Properties and required fields of the declared schema. It is sent with
      the request and never checked against the reply. */
  const StepRequired: seq<string> := ["title", "explanation"]
  const ActionProperties: seq<string> := ["label", "type", "value"]
  const ActionRequired: seq<string> := ["label", "type", "value"]
  const OsEntryRequired: seq<string> := ["explanation", "details", "actions"]

  /** A step needs only a title and an explanation, while each per-system
      entry must carry its details and its actions; every action property
      is required, and none of them is a group. */
  lemma {:induction false} SchemaShape()
    ensures "command" !in StepRequired && "details" !in StepRequired && "actions" !in StepRequired
    ensures "details" in OsEntryRequired && "actions" in OsEntryRequired && "title" !in OsEntryRequired
    ensures ActionRequired == ActionProperties
    ensures "group" !in ActionProperties
  {
  }
}
