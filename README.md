# London Property Agent chatbot: a Dafny model of its lead pipeline and chat widgets

This project models the core of a small lead-capture chatbot for a London
estate agency in Dafny, and proves properties of that model.

The backend (`backend/main.py`) handles one `/api/chat` turn like this:

1. It translates the visitor's conversation history for Gemini.
2. It asks Gemini for a reply.
3. It looks for a `[LEAD_DATA] {json} [/LEAD_DATA]` block in the reply.
4. It validates the lead's email and UK postcode.
5. It appends a row to a CSV file and attempts an e-mail notification.
6. It answers with the reply cut before the block.

`/api/leads` lists the saved rows through `csv.DictReader`.

Two front-end scripts talk to this endpoint:

- the embeddable widget `frontend/static/js/widget-embed.js` (class `LPAChat`);
- the page widget `frontend/static/js/chat.js` (class `PropertyChatWidget`).

Each widget keeps the conversation history, an `isLoading` guard and an
`isOpen` flag. Each renders a bot message through `formatMessage`, which
escapes the text, turns line feeds into `<br>`, and turns `**x**` into
`<strong>x</strong>`.

Modules (one file each):

| file | module | what it holds |
|---|---|---|
| `wrappers.dfy` | `Wrappers` | `Option` |
| `text.dfy` | `Text` | substring search (`in`, `str.index`), ASCII `strip`/`trim`, ASCII `upper` |
| `protocol.dfy` | `Protocol` | the wire types: lead, history entry, request, response, what a widget's `fetch` yields |
| `lead_block.dfy` | `LeadBlock` | `extract_lead_data`, `clean_response` |
| `validation.dfy` | `Validation` | `validate_email`, `validate_uk_postcode`, `validate_lead_data` |
| `lead_store.dfy` | `LeadStore` | the CSV file as a class over its rows: `lifespan` header, `save_lead_to_csv`, `get_leads` |
| `notification.dfy` | `Notification` | the message `send_email_notification` composes |
| `chat_turn.dfy` | `ChatTurn` | the `chat` endpoint: history loop, decision on the reply, the endpoint as a method |
| `markup.dfy` | `Markup` | the formatting both widgets share, and what a browser shows for it |
| `pairing.dfy` | `Pairing` | the shape of the history both widgets keep |
| `widget_embed.dfy` | `WidgetEmbed` | `LPAChat` |
| `chat_widget.dfy` | `ChatWidget` | `PropertyChatWidget` |

The two regular expressions are each given twice:

- as a ghost predicate that says "the string splits into the pattern's pieces";
- as a hand-written matcher that the rest of the model uses.

A lemma proves the two agree. Python's `re.match(r'^...$', s)` also accepts
`s` followed by one final line feed. The model keeps that allowance, so
`"a@b.co\n"` is a valid email.

The asynchronous `sendMessage`/`handleSubmit` is modelled as two methods:

- the part up to the request, which returns the request it posts;
- the part after the answer, which takes what `fetch` yielded as a parameter.

In the Dafny model, a bubble is modelled as the text given to `addMessage`; its HTML is
derived from that text by `Html()`. The notification timers are the methods
`HideNotification`.

Three facts about the code shape the store:

- The header written by `lifespan` has nine columns (`timestamp, nome, email,
  tipo_interesse, orcamento, postcode, detalhes_adicionais, email_valido,
  postcode_valido`); there is no column for a contact channel.
- The header is written only at start-up (`lifespan`). `save_lead_to_csv`
  never writes one, so a file created by the append has no header.
  `LeadStore.HeaderlessFileLosesFirstLead` shows that the listing then takes
  the first lead for the header.
- The code holds no lock around the append.

## Model

| member | source | states |
|---|---|---|
| Text.IndexOf | backend/main.py:261-262 | the index `str.index` finds is the first occurrence of the pattern; None exactly when the pattern occurs nowhere |
| Text.TrimIsCore | backend/main.py:263 | `Strip` (Python's `strip`) and `JsTrim` (JavaScript's `trim`) are the same trim over their own whitespace sets; it keeps one contiguous slice whose two ends are not whitespace and drops only whitespace around it |
| Text.TrimIgnoresPadding | backend/main.py:56 | whitespace added on either side does not change what `strip` returns |
| Text.Upper | backend/main.py:56 | `upper` keeps the length and maps each character on its own, lower-case ASCII letters to their capitals |
| Text.UpperIdempotent | backend/main.py:56 | upper-casing twice is upper-casing once |
| LeadBlock.BlockText | backend/main.py:260-263 | a block text exists exactly when both markers occur |
| LeadBlock.ExtractLeadData | backend/main.py:257-267 | a lead is only ever found when both markers occur, and it is the decode of the stripped block text |
| LeadBlock.CleanResponse | backend/main.py:270-274 | the reply is unchanged without a start marker, and the cleaned text never contains the start marker |
| LeadBlock.StripKeepsAbsence | backend/main.py:273 | stripping cannot create an occurrence of the marker |
| LeadBlock.CleanIdempotent | backend/main.py:270-274 | cleaning twice is cleaning once |
| LeadBlock.WellFormedBlock | backend/main.py:257-274 | for text + start marker + body + end marker + more, the lead is the decode of the stripped body and the display text is the stripped text before the block |
| LeadBlock.BlockAt | backend/main.py:260-273 | once the first markers are located, extraction decodes the stripped slice between them and cleaning keeps the stripped prefix |
| LeadBlock.StartWithoutEnd | backend/main.py:260-273 | a start marker without an end marker gives no lead, yet the display text is still cut at the start marker |
| LeadBlock.EndBeforeStart | backend/main.py:261-266 | an end marker before the start marker leaves an empty block whose failed decode reads as "no lead", not an error |
| Validation.EmailShapeIsPattern | backend/main.py:48 | the hand-written email matcher accepts exactly the strings that split as local part, "@", domain, ".", two or more letters |
| Validation.EmailMatchesPattern | backend/main.py:46-49 | the matcher `ValidateEmail` accepts exactly what the anchored pattern matches, including one trailing line feed |
| Validation.EmailAccepted | backend/main.py:46-49 | `a@b.co`, `jane@example.co.uk`, `.a@b.co` and `a@b.co\n` are accepted |
| Validation.EmailRejected | backend/main.py:46-49 | `a@b`, `not-an-email` and the empty string are rejected |
| Validation.PostcodeShapeIsPattern | backend/main.py:55 | the hand-written postcode matcher accepts exactly 1-2 letters, a digit, an optional letter or digit, whitespace, a digit and two letters |
| Validation.StrippedHasNoFinalNewline | backend/main.py:56 | a stripped string never ends in a line feed, so the trailing line feed allowance never applies to postcodes |
| Validation.PostcodeMatchesPattern | backend/main.py:52-56 | the matcher `ValidatePostcode` accepts exactly what the pattern matches on the upper-cased, stripped input |
| Validation.PostcodeIgnoresCase | backend/main.py:56 | upper-casing the input first does not change the verdict |
| Validation.PostcodeIgnoresPadding | backend/main.py:56 | whitespace around the postcode does not change the verdict |
| Validation.PostcodeAccepted | backend/main.py:52-56 | `SW1A 1AA`, `sw1a1aa`, `E14 5AB` and `W1K 7AA` are accepted |
| Validation.PostcodeRejected | backend/main.py:52-56 | `SW1A`, `12345` and the empty string are rejected |
| Protocol.Get | backend/main.py:281 | `lead_data.get(key, fallback)`: the value under the key, or the fallback when the key is missing; the validation and the CSV row read fields with "" (`Field`), the mail with "N/A" (`Notification.ShownField`) |
| Validation.EmailError | backend/main.py:283 | the email message is its label followed by the offending address |
| Validation.PostcodeError | backend/main.py:287 | the postcode message is its label, the offending postcode, then the expected format |
| Validation.ErrorsDiffer | backend/main.py:283-287 | the email message and the postcode message are never the same string |
| Validation.Checked | backend/main.py:279-289 | valid exactly when there are no errors, exactly when both checks pass; at most two messages, each present exactly when its check fails, the email's first |
| Validation.ValidateLead | backend/main.py:277-289 | `(True, [])` exactly when the email and postcode fields (missing keys read as "") both pass; at most two messages |
| Validation.LeadErrorsNamed | backend/main.py:279-289 | each message appears exactly when its check fails and names the offending value; no other message appears; the email's comes first |
| Validation.MissingFieldsFail | backend/main.py:281-287 | a lead with neither key fails both checks, with the two messages for "" |
| LeadStore.YesNo | backend/main.py:304-305 | a flag is written "Sim" exactly when it is true, and "Não" otherwise |
| LeadStore.LeadRow | backend/main.py:296-306 | the appended row has nine fields: the timestamp, the six lead fields in header order (missing keys as ""), then the two flags |
| LeadStore.RowDict | backend/main.py:381-382 | a `DictReader` record has exactly the header's names as keys |
| LeadStore.RowDictAt | backend/main.py:381-382 | a record maps a name that does not repeat to the field under it |
| LeadStore.DistinctNamesReadBack | backend/main.py:381-382 | under pairwise distinct names every field reads back under its own name |
| LeadStore.HeaderNamesDistinct | backend/main.py:132-142 | the nine header names are pairwise distinct |
| LeadStore.ReadLeads | backend/main.py:380-382 | one record per row after the first, each read under the first row; no rows give no records |
| LeadStore.SavedLeadReadsBack | backend/main.py:296-306 | a saved row reads back under the header with every lead field under its own name, plus the timestamp and the two flags |
| LeadStore.SavedEmailReadsBack | backend/main.py:299 | the record of a saved row holds the lead's email under "email" |
| LeadStore.AppendAddsRecord | backend/main.py:294-306 | appending a row adds exactly one record at the end and leaves earlier records unchanged |
| LeadStore.SavesReadBack | backend/main.py:375-383 | a file with the header and then n saved rows lists exactly n records, in order |
| LeadStore.HeaderlessFileLosesFirstLead | backend/main.py:381-382 | without a header row the first saved lead is taken as the header and is missing from the listing |
| LeadStore.LeadCsv.constructor | backend/main.py:27-28 | the file `data/leads_imobiliaria.csv` as the application finds it: absent and empty, or present with its rows |
| LeadStore.LeadCsv.CreateIfMissing | backend/main.py:129-142 | a missing file is created holding only the header and lists no leads; an existing file is left untouched |
| LeadStore.LeadCsv.SaveLead | backend/main.py:292-306 | exactly the lead's row is appended, earlier rows unchanged; with a header present the listing gains exactly that record |
| LeadStore.LeadCsv.GetLeads | backend/main.py:375-383 | `total` is the number of records; a missing file lists nothing; otherwise one record per data row |
| LeadStore.TwoSavesListed | backend/main.py:375-383 | from a missing file, start-up and two saves list exactly two leads, with each lead's email under "email" |
| Notification.ComposeMail | backend/main.py:65-99 | the message goes from the configured sender to the recipient; the subject is the prefix plus the upper-cased interest; the body's table holds the six labels in order, each with the lead's field or "N/A", the interest upper-cased as in the subject |
| Notification.MailAgreesWithRow | backend/main.py:79-99 | each field the mail's table shows is the field the CSV row holds (the interest upper-cased); a missing field is "N/A" in the mail and "" in the row |
| Notification.SendNotification | backend/main.py:59-122 | nothing is sent without both addresses (`Configured`); otherwise the result is whether delivery of the composed message succeeded |
| Notification.MissingFieldShownAsNA | backend/main.py:79 | for a missing key the mail shows "N/A" while the CSV row holds "" |
| ChatTurn.GeminiRole | backend/main.py:317 | "user" stays "user" and every other role becomes "model" |
| ChatTurn.Transcript | backend/main.py:316-321 | the translation exists exactly when every entry has a role and a content; it keeps the count, order and content of the entries |
| ChatTurn.BuildHistory | backend/main.py:313-321 | the loop builds exactly the translation, or stops at the first entry missing a key |
| ChatTurn.TranscriptStopsAtUnreadable | backend/main.py:317-320 | one entry without a role or content makes the whole translation fail |
| ChatTurn.TranscriptConcat | backend/main.py:316-321 | the translation of two concatenated histories is the concatenation of their translations |
| ChatTurn.Decide | backend/main.py:334-366 | the response is the cleaned reply; a lead is captured exactly when the decoded value is non-empty (`Captures`, Python's truth of a dict); a captured lead is saved with its two flags whatever the validation says; errors are returned only when there are some |
| ChatTurn.FlagsAgreeWithErrors | backend/main.py:340-353 | a saved flag reads "Não" exactly when the matching message is among the returned errors |
| ChatTurn.LeadCaptured | backend/main.py:338-353 | a decoded non-empty lead is captured and its email is saved in the email column |
| ChatTurn.RowHoldsEmail | backend/main.py:299 | the row's third field is the lead's email |
| ChatTurn.WellFormedReplyCaptures | backend/main.py:334-361 | a reply with a well-formed block captures the decoded lead and shows only the stripped text before the block |
| ChatTurn.EmptyObjectNotCaptured | backend/main.py:338 | a block decoding to `{}` is returned as lead data but is not a capture, and nothing is saved |
| ChatTurn.PlainReplyPassesThrough | backend/main.py:334-366 | a reply without a start marker is answered unchanged, with no lead and nothing saved |
| ChatTurn.Transmit | backend/main.py:361-372 | a reply arrives with status 200 and its text; a 500 arrives as a body without `response` |
| ChatTurn.Chat | backend/main.py:309-372 | an unreadable history or a failed Gemini call gives a 500 with the file untouched; otherwise the answer is the decision on Gemini's reply, a captured lead's row is appended and the notification attempted |
| Markup.Escape | frontend/static/js/widget-embed.js:524-526 | escaped text holds no `<` or `>`, and holds an asterisk exactly when the input does |
| Markup.ReplaceAll | frontend/static/js/widget-embed.js:524-527 | a global replace changes nothing when the character is absent, and leaves none behind when the replacement lacks it |
| Markup.ReplaceAllKeeps | frontend/static/js/widget-embed.js:524-527 | a global replace keeps every other character that the replacement does not bring in |
| Markup.EscapeKeepsTerminators | frontend/static/js/widget-embed.js:524-526 | escaping keeps each line terminator present exactly when it was |
| Markup.ReplaceChainIsEscape | frontend/static/js/widget-embed.js:523-526 | replacing `&` first, then `<`, then `>` escapes each character exactly once: no step re-escapes an entity an earlier one produced |
| Markup.EscapeStylesAgree | frontend/static/js/chat.js:194-198 | the DOM round trip and the replace chain escape alike on text without a no-break space |
| Markup.NewlineToBr | frontend/static/js/widget-embed.js:527 | no line feed is left |
| Markup.BrKeeps | frontend/static/js/widget-embed.js:527 | every character other than a line feed and those of `<br>` is present exactly when it was |
| Markup.BrKeepsTagSafe | frontend/static/js/widget-embed.js:527 | after escaping and line breaks, every `<` and `>` belongs to a `<br>` |
| Markup.CloseFrom | frontend/static/js/widget-embed.js:528 | the lazy `(.*?)\*\*` closes at the first `**` after the opening one, with no line terminator before it |
| Markup.CloseFromScan | frontend/static/js/widget-embed.js:528 | the scan finds a `**` that follows a stretch with no asterisk and no line terminator |
| Markup.BoldKeepsPlain | frontend/static/js/widget-embed.js:528 | text with no `**` passes through `Bold`, the regex replace, unchanged |
| Markup.BoldSkipsPrefix | frontend/static/js/widget-embed.js:528 | text without asterisks before the rest passes through, and the rest is processed as if alone |
| Markup.BoldOfPair | frontend/static/js/widget-embed.js:528 | `**m**` with no asterisk and no line terminator in `m` becomes `<strong>m</strong>` |
| Markup.BoldKeepsTagSafe | frontend/static/js/widget-embed.js:528 | the bold step adds no `<` or `>` outside `<strong>` and `</strong>` |
| Markup.BoldKeepsAbsent | frontend/static/js/widget-embed.js:528 | the bold step adds no character other than those of its two tags |
| Markup.Format | frontend/static/js/widget-embed.js:522-529 | the bubble markup holds no element but `<br>`, `<strong>` and `</strong>`, and no line feed |
| Markup.EscapeKeepsPlainText | frontend/static/js/widget-embed.js:524-526 | text without `&`, `<` or `>` (and, for the DOM escape, without a no-break space) escapes to itself |
| Markup.FormatKeepsPlainText | frontend/static/js/widget-embed.js:522-529 | text with no `&`, `<`, `>`, line feed or `**` is formatted unchanged |
| Markup.RenderEscaped | frontend/static/js/widget-embed.js:524-527 | a browser shows escaped text with line breaks as exactly the original text |
| Markup.PlainTextShownAsWritten | frontend/static/js/widget-embed.js:522-529 | a message without asterisks is shown exactly as written, line feeds included |
| Markup.FormatPair | frontend/static/js/widget-embed.js:522-529 | `**w**`, where `w` has no asterisk and no line terminator other than line feeds, becomes one `<strong>` element around `w` escaped with `<br>` line breaks |
| Markup.BoldPairShown | frontend/static/js/widget-embed.js:522-529 | such a `**w**` is shown as `w`, in bold |
| Markup.EmptySpan | frontend/static/js/widget-embed.js:528 | `****` becomes an empty `<strong>` element |
| Markup.CarriageReturnEndsSpan | frontend/static/js/widget-embed.js:528 | a carriage return between the stars stops the pair: `**a\rb**` is left literal |
| WidgetEmbed.FormatMessage | frontend/static/js/widget-embed.js:522-529 | the replace chain is the shared escape, break and bold formatting, so the bubble holds no tag but `<br>`, `<strong>`, `</strong>` and no line feed |
| WidgetEmbed.MessageShownAsWritten | frontend/static/js/widget-embed.js:522-529 | a message without asterisks is shown in its bubble as written |
| Pairing.PushUserKeepsPaired | frontend/static/js/widget-embed.js:471 | pushing a user entry (as both widgets do before each request) keeps the history well paired |
| Pairing.PushAnswerKeepsPaired | frontend/static/js/chat.js:86-89 | pushing an assistant entry right after a user entry keeps the history well paired; in the embeddable widget the entry always has content, in the page widget it may lack it |
| WidgetEmbed.WellPairedIsReadable | frontend/static/js/widget-embed.js:471-490 | every history this widget builds is readable by the backend, which passes user entries to Gemini as "user" and the others as "model" |
| WidgetEmbed.OutcomeOfBackend | frontend/static/js/widget-embed.js:486-498 | `Outcome`, what the code after `fetch` goes on with: a backend reply is taken with its text and lead flag; a 500 takes the error path although the status is never checked |
| WidgetEmbed.LPAChat.constructor | frontend/static/js/widget-embed.js:434-436 | the widget starts closed, idle, with an empty history |
| WidgetEmbed.LPAChat.Type | frontend/static/js/widget-embed.js:400 | typing changes only the input field's text |
| WidgetEmbed.LPAChat.ToggleChat | frontend/static/js/widget-embed.js:454-463 | `isOpen` is negated, the window's class and the two icons follow it, and nothing else changes |
| WidgetEmbed.LPAChat.PressEscape | frontend/static/js/widget-embed.js:449-451 | the Escape key leaves the widget closed and changes nothing else |
| WidgetEmbed.LPAChat.BeginSend | frontend/static/js/widget-embed.js:465-484 | an empty trimmed input or a send in flight changes nothing; otherwise the user entry is pushed before the request, whose history ends with this message and is readable by the backend |
| WidgetEmbed.LPAChat.Post | frontend/static/js/widget-embed.js:469-484 | the accepted send clears the input, adds the user bubble and entry, sets the guard and posts the history ending with the message |
| WidgetEmbed.LPAChat.CompleteSend | frontend/static/js/widget-embed.js:486-500 | the guard is released in every case; a usable reply adds exactly one assistant entry and the bot bubble; a failure adds the error bubble and leaves the history ending with the unanswered user entry |
| WidgetEmbed.LPAChat.HideNotification | frontend/static/js/widget-embed.js:550-553 | the timer hides the notification again and changes nothing else |
| ChatWidget.EscapeHtml | frontend/static/js/chat.js:194-198 | escaped text holds no `<` or `>`, keeps its asterisks, and `undefined` becomes "" |
| ChatWidget.EscapedTextShown | frontend/static/js/chat.js:137 | a one-line user message is shown in its bubble as written |
| ChatWidget.FormatMessage | frontend/static/js/chat.js:200-208 | escape, then line breaks, then bold: the shared formatting with the DOM escape; a missing reply gives an empty bubble |
| ChatWidget.WidgetsFormatAlike | frontend/static/js/chat.js:200-208 | both widgets format a message alike unless it holds a no-break space |
| ChatWidget.WidgetsShowAlike | frontend/static/js/chat.js:200-208 | both widgets show a message without asterisks as written |
| ChatWidget.ReplyOfBackend | frontend/static/js/chat.js:105-122 | `Reply`, the body `sendMessage` returns: a 200 from this backend carries the cleaned reply, and a 500 fails the status check |
| ChatWidget.MissingContentPoisons | frontend/static/js/chat.js:86-89 | an entry without content makes every later history the widget posts unreadable for the backend |
| ChatWidget.CompleteHistoryIsReadable | frontend/static/js/chat.js:67-89 | a well-paired history whose replies are all present is readable by the backend |
| ChatWidget.PropertyChatWidget.constructor | frontend/static/js/chat.js:17-19 | the widget starts closed, idle, with an empty history |
| ChatWidget.PropertyChatWidget.Type | frontend/static/js/chat.js:14 | typing changes only the input field's text |
| ChatWidget.PropertyChatWidget.ToggleChat | frontend/static/js/chat.js:39-52 | `isOpen` is negated, the window is hidden exactly when the widget is closed, the icons swap, and nothing else changes |
| ChatWidget.PropertyChatWidget.PressEscape | frontend/static/js/chat.js:32-36 | the Escape key leaves the widget closed and changes nothing else |
| ChatWidget.PropertyChatWidget.BeginSubmit | frontend/static/js/chat.js:54-74 | an empty trimmed input or a send in flight changes nothing; otherwise the user entry is pushed before the request, whose history ends with this message |
| ChatWidget.PropertyChatWidget.CompleteSubmit | frontend/static/js/chat.js:76-102 | the guard is released in every case; a 2xx reply adds exactly one assistant entry holding `response`, missing or not; a failure, including a non-2xx status, adds only the error bubble |
| ChatWidget.PropertyChatWidget.HideNotification | frontend/static/js/chat.js:181-188 | the timer hides the notification again and changes nothing else |

## Left out

- Gemini (`genai` set-up and `send_message`): not modelled. The reply is a function parameter, and None stands for any exception from it, which gives the 500 path.
- `json.loads`: a parameter `decode` returning a string-to-string map or None. JSON `null` is no lead, as `decode` returning None gives. A truthy non-object value (a non-empty list, a non-zero number, a non-empty string, `true`) passes `if lead_data:` and raises at `lead_data.get`, giving a 500. A falsy one (`0`, `[]`, `""`, `false`) skips the capture and is refused when the response model (`lead_data: Optional[dict]`) is built, also a 500. Within an object, a non-string `email` or `postcode` raises in `re.match` or `.upper()` and gives a 500. A non-string `nome`, `orcamento` or `detalhes_adicionais` raises nothing: `csv.writer` writes its `str()` (None as an empty field) and the reply is a 200. A non-string `tipo_interesse` fails only in `send_email_notification`'s own `try`, so the mail is silently not sent. The model assumes text fields.
- `datetime.now()`: the timestamp is a parameter.
- The CSV module's quoting and encoding: a saved field is taken to read back as written. It does not when a lead value holds a carriage return: `get_leads` opens the file without `newline=""`, so universal-newline reading turns a quoted "\r" or "\r\n" inside a field into "\n".
- LeadStore.SavedLeadReadsBack: matches the program only for lead values without a carriage return, for the reason above.
- File opening errors: not modelled.
- Files not written by the application: the model's rows are all nine wide. `csv.DictReader` also reads a hand-edited file, padding a short row with None and putting extra fields under the None key; that is not modelled.
- The SMTP session: the parameter `deliver`. The HTML body's styling and the capture time in its footer are not modelled; the table's label/value pairs are.
- Concurrent appends from simultaneous requests: not modelled, because the model is sequential.
- `str.upper`, `strip`, `\s` and JavaScript's `trim` are modelled on ASCII only. Other characters are caseless non-space characters.
- The FastAPI application, CORS, static files, templates, the health probe and the admin page: framework glue, not modelled.
- The DOM of both widgets is reduced to the fields of the two classes: CSS and HTML injection, focus, scrolling, the static welcome bubble and the bubble's avatar markup. The page markup of chat.js is assumed to start closed.
- `fetch` and `response.json()`: what they yield is the parameter `o: HttpOutcome`.
- The 5-second notification timers: the methods `HideNotification`, called whenever the timer fires.
- ChatWidget.EscapeHtml: models the browser's text serialisation (`&`, `<`, `>` and the no-break space) rather than the DOM itself.
- ChatWidget.EscapedTextShown: states the round trip only for a one-line message; the user bubble does not turn line feeds into `<br>`.
- Markup.Render: what a browser shows is limited to the tokens the widgets write (`<br>`, `<strong>`, `</strong>`, `&amp;`, `&lt;`, `&gt;`, `&nbsp;`). HTML whitespace collapsing is not modelled.
- Markup.BoldPairShown: proved for a pair whose inner text has no asterisk and no line terminator other than line feeds. Nested and adjacent pairs are covered only by the safety lemmas, not by a shown-text lemma.
