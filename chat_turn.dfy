/** The `/api/chat` endpoint of backend/main.py: translate the client's
    history for Gemini, ask Gemini, look for a lead block in the reply,
    validate and save the lead, send the notification, and answer with the
    cleaned reply.  Gemini, `json.loads`, the clock and the SMTP session are
    parameters. */
module ChatTurn {
  import opened Wrappers
  import opened Text
  import opened Protocol
  import opened LeadBlock
  import opened Validation
  import opened LeadStore
  import opened Notification

  /** One turn of the history given to `model.start_chat`. */
  datatype ModelTurn = ModelTurn(role: string, parts: seq<string>)

  /** A client role of "user" stays "user"; every other role becomes
      Gemini's "model". */
  function GeminiRole(role: string): (r: string)
    ensures r == "user" || r == "model"
    ensures r == "user" <==> role == "user"
  {
    if role == "user" then "user" else "model"
  }

  /** A history entry the handler can read: `msg["role"]` and
      `msg["content"]` both exist. */
  predicate Readable(t: Turn) {
    t.role.Some? && t.content.Some?
  }

  /** The Gemini history for a client history, or None when some entry lacks
      a key (the KeyError that makes the endpoint answer 500).  Each entry
      keeps its position and its content, as the single part. */
  function Transcript(turns: seq<Turn>): (r: Option<seq<ModelTurn>>)
    ensures r.Some? <==> forall i :: 0 <= i < |turns| ==> Readable(turns[i])
    ensures r.Some? ==> |r.value| == |turns|
    ensures r.Some? ==> forall i :: 0 <= i < |turns| ==>
              r.value[i] == ModelTurn(GeminiRole(turns[i].role.value), [turns[i].content.value])
    decreases |turns|
  {
    if turns == [] then Some([])
    else
      var n := |turns| - 1;
      var last := turns[n];
      match Transcript(turns[..n])
      case None => None
      case Some(prefix) =>
        if Readable(last) then Some(prefix + [ModelTurn(GeminiRole(last.role.value), [last.content.value])])
        else None
  }

  /** The loop of the handler that builds `history`, entry by entry. */
  method BuildHistory(turns: seq<Turn>) returns (history: Option<seq<ModelTurn>>)
    ensures history == Transcript(turns)
  {
    var acc: seq<ModelTurn> := [];
    var i := 0;
    while i < |turns|
      invariant 0 <= i <= |turns|
      invariant Transcript(turns[..i]) == Some(acc)
    {
      var msg := turns[i];
      assert turns[..i + 1][..i] == turns[..i];
      if msg.role.None? || msg.content.None? {
        TranscriptStopsAtUnreadable(turns, i);
        return None;
      }
      acc := acc + [ModelTurn(GeminiRole(msg.role.value), [msg.content.value])];
      i := i + 1;
    }
    assert turns[..i] == turns;
    history := Some(acc);
  }

  /** An unreadable entry makes the whole translation fail. */
  lemma TranscriptStopsAtUnreadable(turns: seq<Turn>, i: nat)
    requires i < |turns| && !Readable(turns[i])
    ensures Transcript(turns) == None
  {
  }

  /** Translation works entry by entry: the history of two concatenated
      histories is the concatenation of their histories. */
  lemma {:induction false} TranscriptConcat(a: seq<Turn>, b: seq<Turn>)
    requires Transcript(a).Some? && Transcript(b).Some?
    ensures Transcript(a + b) == Some(Transcript(a).value + Transcript(b).value)
  {
    var ab := a + b;
    forall i | 0 <= i < |ab| ensures Readable(ab[i]) {
      if i < |a| { assert ab[i] == a[i]; } else { assert ab[i] == b[i - |a|]; }
    }
    var r := Transcript(ab).value;
    var s := Transcript(a).value + Transcript(b).value;
    forall i | 0 <= i < |r| ensures r[i] == s[i] {
      if i < |a| {
        assert ab[i] == a[i];
        assert s[i] == Transcript(a).value[i];
      } else {
        assert ab[i] == b[i - |a|];
        assert s[i] == Transcript(b).value[i - |a|];
      }
    }
    assert r == s;
  }

  // ---------------------------------------------------------------------
  // What to do with Gemini's reply
  // ---------------------------------------------------------------------

  /** What the handler does with one reply: the response body, and the row
      to append to the CSV file if a lead was captured. */
  datatype Decision = Decision(reply: ChatResponse, row: Option<seq<string>>)

  /** Python truth of `lead_data`: a decoded object with at least one key. */
  predicate Captures(lead: Option<Lead>) {
    lead.Some? && |lead.value| > 0
  }

  /** The handler's decision, once Gemini has answered with `text`.  A lead
      is captured exactly when the reply has a block that decodes to a
      non-empty object; it is saved even when it fails validation, with the
      two validity flags, and the errors are returned only when there are
      some.  The displayed text is the cleaned reply in every case. */
  function Decide(text: string, decode: string -> Option<Lead>, timestamp: string): (d: Decision)
    ensures d.reply.response == CleanResponse(text)
    ensures d.reply.leadData == ExtractLeadData(text, decode)
    ensures d.reply.leadCaptured <==> Captures(ExtractLeadData(text, decode))
    ensures d.row.Some? <==> d.reply.leadCaptured
    ensures d.reply.validationErrors.Some? ==> d.reply.leadCaptured && d.reply.validationErrors.value != []
    ensures d.reply.leadCaptured ==>
      var lead := d.reply.leadData.value;
      && d.row == Some(LeadRow(lead, timestamp, ValidateEmail(Field(lead, "email")), ValidatePostcode(Field(lead, "postcode"))))
      && d.reply.validationErrors == (if ValidateLead(lead).valid then None else Some(ValidateLead(lead).errors))
  {
    var leadData := ExtractLeadData(text, decode);
    var cleanText := CleanResponse(text);
    if Captures(leadData) then
      var lead := leadData.value;
      var emailValid := ValidateEmail(Field(lead, "email"));
      var postcodeValid := ValidatePostcode(Field(lead, "postcode"));
      var check := ValidateLead(lead);
      var errors := if check.valid then None else Some(check.errors);
      Decision(ChatResponse(cleanText, true, leadData, errors),
               Some(LeadRow(lead, timestamp, emailValid, postcodeValid)))
    else
      Decision(ChatResponse(cleanText, false, leadData, None), None)
  }

  /** The flags saved in the CSV row agree with the errors returned to the
      client: a flag reads "Não" exactly when the matching message is among
      the errors. */
  lemma FlagsAgreeWithErrors(text: string, decode: string -> Option<Lead>, timestamp: string)
    requires Decide(text, decode, timestamp).reply.leadCaptured
    ensures var d := Decide(text, decode, timestamp);
      var lead := d.reply.leadData.value;
      var errors := d.reply.validationErrors.GetOr([]);
      && (d.row.value[7] == "Não" <==> EmailError(Field(lead, "email")) in errors)
      && (d.row.value[8] == "Não" <==> PostcodeError(Field(lead, "postcode")) in errors)
  {
    var d := Decide(text, decode, timestamp);
    var lead := d.reply.leadData.value;
    var ev := ValidateEmail(Field(lead, "email"));
    var pv := ValidatePostcode(Field(lead, "postcode"));
    assert d.row.value == LeadRow(lead, timestamp, ev, pv);
    assert d.row.value[7] == YesNo(ev) && d.row.value[8] == YesNo(pv);
  }

  /** A reply with a well-formed block whose body decodes to a non-empty
      object captures that lead, and shows the user only the text before
      the block. */
  lemma WellFormedReplyCaptures(pre: string, body: string, post: string,
                                decode: string -> Option<Lead>, timestamp: string, lead: Lead)
    requires !Contains(pre, StartMarker) && !Contains(pre + StartMarker + body, EndMarker)
    requires decode(Strip(body)) == Some(lead) && |lead| > 0
    ensures var d := Decide(pre + StartMarker + body + EndMarker + post, decode, timestamp);
      && d.reply.leadCaptured && d.reply.leadData == Some(lead)
      && d.reply.response == Strip(pre)
      && d.row.Some? && d.row.value[2] == Field(lead, "email")
  {
    var text := pre + StartMarker + body + EndMarker + post;
    WellFormedBlock(pre, body, post, decode);
    LeadCaptured(text, decode, timestamp, lead);
  }

  /** A decoded non-empty lead is captured and its email is saved in the
      email column. */
  lemma LeadCaptured(text: string, decode: string -> Option<Lead>, timestamp: string, lead: Lead)
    requires ExtractLeadData(text, decode) == Some(lead) && |lead| > 0
    ensures var d := Decide(text, decode, timestamp);
      && d.reply.leadCaptured && d.reply.leadData == Some(lead)
      && d.row.Some? && d.row.value[2] == Field(lead, "email")
  {
    RowHoldsEmail(lead, timestamp, ValidateEmail(Field(lead, "email")), ValidatePostcode(Field(lead, "postcode")));
  }

  lemma RowHoldsEmail(lead: Lead, timestamp: string, emailValid: bool, postcodeValid: bool)
    ensures LeadRow(lead, timestamp, emailValid, postcodeValid)[2] == Field(lead, "email")
  {
    assert Header[2] == "email";
  }

  /** A block that decodes to an empty object is returned as lead data but
      is not a capture: nothing is saved. */
  lemma EmptyObjectNotCaptured(text: string, decode: string -> Option<Lead>, timestamp: string)
    requires ExtractLeadData(text, decode) == Some(map[])
    ensures var d := Decide(text, decode, timestamp);
      !d.reply.leadCaptured && d.reply.leadData == Some(map[]) && d.row.None?
  {
  }

  /** A reply without a start marker is shown as it is and captures
      nothing. */
  lemma PlainReplyPassesThrough(text: string, decode: string -> Option<Lead>, timestamp: string)
    requires !Contains(text, StartMarker)
    ensures Decide(text, decode, timestamp) == Decision(ChatResponse(text, false, None, None), None)
  {
  }

  // ---------------------------------------------------------------------
  // The endpoint
  // ---------------------------------------------------------------------

  /** The endpoint's answer: a 500 (any exception in the handler) or the
      response body. */
  datatype ChatResult = ServerError | Replied(body: ChatResponse)

  /** What a widget receives for a result: status 200 with the response
      body, or the 500 that `HTTPException` sends, whose JSON body
      `{"detail": ...}` has no `response` field. */
  function Transmit(result: ChatResult): (o: HttpOutcome)
    ensures o.Answered? && o.body.Some?
    ensures o.ok <==> result.Replied?
    ensures o.body.value.response.Some? <==> o.ok
    ensures result.Replied? ==>
      o.body.value == ReplyBody(Some(result.body.response), result.body.leadCaptured)
  {
    match result
    case ServerError => Answered(false, Some(ReplyBody(None, false)))
    case Replied(body) => Answered(true, Some(ReplyBody(Some(body.response), body.leadCaptured)))
  }

  /** `chat`: the client's history is translated; Gemini gets it with the
      message; its reply is decided on; a captured lead is appended to the
      CSV file and a notification is attempted.  A history entry without
      a role or content, or a failed Gemini call, gives a 500 with the file
      untouched.  `notified` is what the notification call returned; the
      response does not depend on it. */
  method Chat(store: LeadCsv, request: ChatRequest,
              gemini: (seq<ModelTurn>, string) -> Option<string>,
              decode: string -> Option<Lead>, timestamp: string,
              mail: MailConfig, deliver: Mail -> bool)
    returns (result: ChatResult, notified: bool)
    requires store.Valid()
    modifies store
    ensures store.Valid()
    ensures Transcript(request.history).None? ==>
      result == ServerError && !notified && store.rows == old(store.rows) && store.onDisk == old(store.onDisk)
    ensures Transcript(request.history).Some? && gemini(Transcript(request.history).value, request.message).None? ==>
      result == ServerError && !notified && store.rows == old(store.rows) && store.onDisk == old(store.onDisk)
    ensures Transcript(request.history).Some? && gemini(Transcript(request.history).value, request.message).Some? ==>
      var d := Decide(gemini(Transcript(request.history).value, request.message).value, decode, timestamp);
      && result == Replied(d.reply)
      && (d.row.None? ==> store.rows == old(store.rows) && store.onDisk == old(store.onDisk) && !notified)
      && (d.row.Some? ==> store.onDisk && store.rows == old(store.rows) + [d.row.value]
                          && notified == SendNotification(mail, d.reply.leadData.value, deliver))
  {
    notified := false;
    var history := BuildHistory(request.history);
    if history.None? {
      return ServerError, false;
    }
    var answer := gemini(history.value, request.message);
    if answer.None? {
      return ServerError, false;
    }
    var d := Decide(answer.value, decode, timestamp);
    if d.reply.leadCaptured {
      var lead := d.reply.leadData.value;
      store.SaveLead(lead, timestamp, ValidateEmail(Field(lead, "email")), ValidatePostcode(Field(lead, "postcode")));
      notified := SendNotification(mail, lead, deliver);
    }
    result := Replied(d.reply);
  }
}
