/** The data that crosses the wire between the two chat widgets and the
    backend's `/api/chat` endpoint, and the decoded lead block. */
module Protocol {
  import opened Wrappers

  /** A decoded lead block: a JSON object whose keys and values are text
      (`nome`, `email`, `tipo_interesse`, `orcamento`, `postcode`,
      `detalhes_adicionais`). */
  type Lead = map<string, string>

  /** Python's `lead_data.get(key, fallback)`: the value under `key`, or
      `fallback` for a key the lead lacks. */
  function Get(lead: Lead, key: string, fallback: string): (v: string)
    ensures key in lead ==> v == lead[key]
    ensures key !in lead ==> v == fallback
  {
    if key in lead then lead[key] else fallback
  }

  /** `lead_data.get(key, "")`, as the validation and the CSV row read a
      field. */
  function Field(lead: Lead, key: string): string {
    Get(lead, key, "")
  }

  /** One entry of `conversation_history` as the backend receives it.  A key
      the client did not send (JSON drops a property whose value is
      `undefined`) is None. */
  datatype Turn = Turn(role: Option<string>, content: Option<string>)

  /** The body the widgets post: `{message, conversation_history}`. */
  datatype ChatRequest = ChatRequest(message: string, history: seq<Turn>)

  /** The body `/api/chat` returns on success. */
  datatype ChatResponse = ChatResponse(
    response: string,
    leadCaptured: bool,
    leadData: Option<Lead>,
    validationErrors: Option<seq<string>>)

  /** What a widget gets back from `fetch`: either the request failed in the
      network, or an HTTP status (ok means 2xx) with a body that parsed as
      JSON (`Some`) or did not (`None`). */
  datatype HttpOutcome = NetworkError | Answered(ok: bool, body: Option<ReplyBody>)

  /** The two fields of the parsed body the widgets read.  `response` is None
      when the body has no such field, as in the server's error body
      `{"detail": ...}`; `lead_captured` is read for its truth value. */
  datatype ReplyBody = ReplyBody(response: Option<string>, leadCaptured: bool)
}
