/** The local logic of the extraction client around the AI service call:
    building the inline image part from a data URL, defaulting absent
    fields, translating a failure inside the `try` into one of two fixed
    messages, and passing on a failure before it as thrown. */
module GeminiService {
  import opened JsRuntime
  import opened Types

  const NotAvailable := "N/A"
  const InvalidKeyMarker := "API key not valid"
  const InvalidKeyMessage := "環境變數中的 API 金鑰無效。"
  const GenericFailureMessage := "AI 模型處理圖片時發生錯誤。"

  /** The image payload sent with the request. `data` is absent when the
      data URL holds no comma (`split(',')[1]` is then `undefined`). */
  datatype InlineData = InlineData(data: Option<string>, mimeType: string)

  /** The JSON object parsed from the response: each field absent or a string. */
  datatype ParsedJson = ParsedJson(serialNumber: Option<string>, password: Option<string>)

  /** How one extraction goes. Before the `try` block, constructing the
      client can throw (`SetupThrew`, which allows any thrown value); inside it, the
      response parses to an object (`Parsed`), or something throws (the
      request, or `JSON.parse` on a malformed text: `Threw`). */
  datatype CallOutcome =
    | SetupThrew(setupFailure: Thrown)
    | Parsed(json: ParsedJson)
    | Threw(thrown: Thrown)

  /** The inline part built from the reader's data URL and the file's type. */
  function FileToGenerativePart(dataUrl: string, file: ImageFile): (part: InlineData)
    ensures part.mimeType == file.mimeType
    ensures part.data.Some? <==> ',' in dataUrl
  {
    var pieces := Split(dataUrl, ',');
    if |pieces| < 2 then InlineData(None, file.mimeType)
    else
      InlineData(Some(pieces[1]), file.mimeType)
  }

  /** A data URL `header,payload` with a comma-free header and payload
      (the shape `readAsDataURL` produces) yields exactly the payload. */
  lemma DataUrlPayload(header: string, payload: string, file: ImageFile)
    requires ',' !in header && ',' !in payload
    ensures FileToGenerativePart(header + "," + payload, file) == InlineData(Some(payload), file.mimeType)
  {
    SplitAtFirstSeparator(header, ',', payload);
    SplitWithoutSeparator(payload, ',');
  }

  /** `field || 'N/A'` on an optional string. */
  function OrNotAvailable(field: Option<string>): (r: string)
    ensures r != ""
    ensures field.None? || field.value == "" ==> r == NotAvailable
    ensures field.Some? && field.value != "" ==> r == field.value
  {
    if field.Some? && field.value != "" then field.value else NotAvailable
  }

  /** The object returned on success: exactly the two fields, both defaulted. */
  function Normalise(json: ParsedJson): (r: Fields)
    ensures json.serialNumber.Some? && json.serialNumber.value != "" ==> r.serialNumber == json.serialNumber.value
    ensures json.serialNumber.None? || json.serialNumber.value == "" ==> r.serialNumber == NotAvailable
    ensures json.password.Some? && json.password.value != "" ==> r.password == json.password.value
    ensures json.password.None? || json.password.value == "" ==> r.password == NotAvailable
  {
    Fields(OrNotAvailable(json.serialNumber), OrNotAvailable(json.password))
  }

  /** Normalising a normalised result changes nothing. */
  lemma NormaliseIdempotent(json: ParsedJson)
    ensures var r := Normalise(json);
            Normalise(ParsedJson(Some(r.serialNumber), Some(r.password))) == r
  {
  }

  /** The message of the error rethrown from the `catch` block. */
  function TranslateError(thrown: Thrown): (message: string)
    ensures message == InvalidKeyMessage || message == GenericFailureMessage
    ensures message == InvalidKeyMessage <==>
              thrown.ErrorObject? && Includes(thrown.message, InvalidKeyMarker)
  {
    if thrown.ErrorObject? && Includes(thrown.message, InvalidKeyMarker)
    then InvalidKeyMessage
    else GenericFailureMessage
  }

  /** `extractGiftCardInfo`: a failure before the `try` propagates as it was
      thrown; inside the `try` it resolves with the normalised fields, or
      rejects with an `Error` carrying a translated message. */
  function ExtractGiftCardInfo(outcome: CallOutcome): (r: Settled<Fields>)
    ensures r.Resolved? <==> outcome.Parsed?
    ensures r.Resolved? ==> r.value == Normalise(outcome.json)
    ensures outcome.Threw? ==> r == Rejected(ErrorObject(TranslateError(outcome.thrown)))
    ensures outcome.SetupThrew? ==> r == Rejected(outcome.setupFailure)
  {
    match outcome
    case SetupThrew(thrown) => Rejected(thrown)
    case Parsed(json) => Resolved(Normalise(json))
    case Threw(thrown) => Rejected(ErrorObject(TranslateError(thrown)))
  }

  /** Inside the `try`, the original failure text never reaches the caller:
      a rejection carries an `Error` whose message is one of the two fixed
      texts, and a resolution never holds an empty field. A failure before
      the `try` is passed on untranslated. */
  lemma ExtractionNeverLeaksMessage(outcome: CallOutcome)
    ensures var r := ExtractGiftCardInfo(outcome);
            match outcome
            case SetupThrew(thrown) => r == Rejected(thrown)
            case Threw(_) =>
              r.Rejected? && r.reason.ErrorObject? &&
              (r.reason.message == InvalidKeyMessage || r.reason.message == GenericFailureMessage)
            case Parsed(_) =>
              r.Resolved? && r.value.serialNumber != "" && r.value.password != ""
  {
  }
}
