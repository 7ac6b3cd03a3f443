/** The page widget, frontend/static/js/chat.js: the `PropertyChatWidget`
    class.  Like the embeddable widget it keeps the conversation and a
    loading guard, but it treats a non-2xx status as a failure, escapes
    through the DOM, formats only the bot's bubbles, and pushes whatever
    `response.response` is, even when it is missing.  `handleSubmit` is
    asynchronous; it is modelled as the part up to the request
    (`BeginSubmit`) and the part after the answer (`CompleteSubmit`). */
module ChatWidget {
  import opened Wrappers
  import opened Text
  import opened Protocol
  import opened Markup
  import opened ChatTurn
  import opened Pairing
  import WidgetEmbed

  /** `escapeHtml`: assigning the text to a detached element's
      `textContent` and reading back `innerHTML` escapes `&`, `<`, `>` and
      the no-break space as the HTML serialisation does for text nodes;
      `undefined` becomes the empty text. */
  function EscapeHtml(text: Option<string>): (h: string)
    ensures '<' !in h && '>' !in h
    ensures text.None? ==> h == ""
    ensures text.Some? ==> ('*' in h <==> '*' in text.value)
  {
    if text.None? then "" else Escape(text.value, TextContent)
  }

  /** A one-line message escaped for the user's bubble reads back as
      itself. */
  lemma EscapedTextShown(s: string)
    requires '\n' !in s
    ensures Render(EscapeHtml(Some(s))) == s
  {
    var e := Escape(s, TextContent);
    assert '\n' !in e by { EscapeKeepsTerminators(s, TextContent, '\n'); }
    assert NewlineToBr(e) == e;
    RenderEscaped(s, TextContent, []);
    assert e + [] == e;
  }

  /** `formatMessage`: escape, then line breaks, then bold; the shared
      formatting with the DOM escape, and the empty bubble for a missing
      text. */
  function FormatMessage(content: Option<string>): (h: string)
    ensures content.None? ==> h == ""
    ensures content.Some? ==> h == Format(content.value, TextContent)
    ensures TagSafe(h) && '\n' !in h
  {
    var b := NewlineToBr(EscapeHtml(content));
    if content.None? then
      assert b == [];
      assert Bold(b) == [];
      Bold(b)
    else
      Bold(b)
  }

  /** The two widgets format a message alike unless it holds a no-break
      space, which only this one writes as `&nbsp;`. */
  lemma WidgetsFormatAlike(s: string)
    requires Nbsp !in s
    ensures FormatMessage(Some(s)) == WidgetEmbed.FormatMessage(s)
  {
    EscapeStylesAgree(s);
  }

  /** Even with a no-break space both widgets show the same text. */
  lemma WidgetsShowAlike(s: string)
    requires '*' !in s
    ensures Render(FormatMessage(Some(s))) == s
    ensures Render(WidgetEmbed.FormatMessage(s)) == s
  {
    PlainTextShownAsWritten(s, TextContent);
    WidgetEmbed.MessageShownAsWritten(s);
  }

  /** A bubble added by `addMessage`: the user's bubble holds the escaped
      message; the bot's holds `formatMessage` of the reply, which may be
      missing. */
  datatype Bubble = UserBubble(text: string) | BotBubble(content: Option<string>) {
    function Html(): string {
      match this
      case UserBubble(text) => EscapeHtml(Some(text))
      case BotBubble(content) => FormatMessage(content)
    }
  }

  const ErrorText: string := "Desculpe, ocorreu um erro. Por favor, tente novamente."

  /** The body `sendMessage` returns, or None when it throws: the request
      failed, the status is not 2xx, or the body is not JSON. */
  function Reply(o: HttpOutcome): Option<ReplyBody> {
    if o.Answered? && o.ok && o.body.Some? then o.body else None
  }

  /** Against this backend the page widget never sees a reply without
      `response`: a 200 carries the cleaned reply and a 500 fails the
      status check. */
  lemma ReplyOfBackend(result: ChatResult)
    ensures result.Replied? ==>
      Reply(Transmit(result)) == Some(ReplyBody(Some(result.body.response), result.body.leadCaptured))
    ensures result.ServerError? ==> Reply(Transmit(result)) == None
  {
  }

  /** A history entry without content (what a 2xx reply without `response`
      leaves behind) makes every later history the widget posts unreadable
      for the backend, so every later send is answered with a 500. */
  lemma MissingContentPoisons(h: seq<Turn>, later: seq<Turn>, i: nat)
    requires i < |h| && h[i].content.None?
    ensures Transcript(h + later) == None
  {
    assert (h + later)[i] == h[i];
    TranscriptStopsAtUnreadable(h + later, i);
  }

  /** A history this widget builds with every reply present is readable by
      the backend. */
  lemma CompleteHistoryIsReadable(h: seq<Turn>)
    requires WellPaired(h, false) && forall i :: 0 <= i < |h| ==> h[i].content.Some?
    ensures Transcript(h).Some?
  {
    forall i | 0 <= i < |h| ensures Readable(h[i]) {
      assert PairedAt(h, i, false);
    }
  }

  class PropertyChatWidget {
    var history: seq<Turn>
    var isOpen: bool
    var isLoading: bool
    /** The text in the input field. */
    var input: string
    var bubbles: seq<Bubble>
    /** Whether the typing indicator is on screen. */
    var typing: bool
    /** The `hidden` class of the window and of the two icons. */
    var windowHidden: bool
    var chatIconHidden: bool
    var closeIconHidden: bool
    /** The `hidden` class of the lead notification. */
    var notificationHidden: bool

    ghost predicate Valid()
      reads this
    {
      && WellPaired(history, false)
      && (typing <==> isLoading)
      && (isLoading ==> history != [] && IsUserTurn(history[|history| - 1]))
      && windowHidden == !isOpen && chatIconHidden == isOpen && closeIconHidden == !isOpen
    }

    /** The widget on a freshly loaded page: closed, idle, with an empty
      history. */
    constructor ()
      ensures Valid()
      ensures history == [] && bubbles == [] && input == ""
      ensures !isOpen && !isLoading && notificationHidden
    {
      history := [];
      isOpen := false;
      isLoading := false;
      input := "";
      bubbles := [];
      typing := false;
      windowHidden := true;
      chatIconHidden := false;
      closeIconHidden := true;
      notificationHidden := true;
    }

    /** The visitor edits the input field. */
    method Type(text: string)
      requires Valid()
      modifies this
      ensures Valid()
      ensures input == text
      ensures history == old(history) && bubbles == old(bubbles)
      ensures isOpen == old(isOpen) && isLoading == old(isLoading)
      ensures typing == old(typing) && notificationHidden == old(notificationHidden)
    {
      input := text;
    }

    /** `toggleChat`: open a closed window and close an open one; the window
      is hidden exactly when the widget is closed, and the icons swap. */
    method ToggleChat()
      requires Valid()
      modifies this
      ensures Valid()
      ensures isOpen == !old(isOpen)
      ensures windowHidden == !isOpen && chatIconHidden == isOpen && closeIconHidden == !isOpen
      ensures history == old(history) && bubbles == old(bubbles) && input == old(input)
      ensures isLoading == old(isLoading) && typing == old(typing)
      ensures notificationHidden == old(notificationHidden)
    {
      isOpen := !isOpen;
      windowHidden := !isOpen;
      chatIconHidden := isOpen;
      closeIconHidden := !isOpen;
    }

    /** The Escape key closes an open window and does nothing else. */
    method PressEscape()
      requires Valid()
      modifies this
      ensures Valid()
      ensures !isOpen
      ensures history == old(history) && bubbles == old(bubbles) && input == old(input)
      ensures isLoading == old(isLoading) && typing == old(typing)
      ensures notificationHidden == old(notificationHidden)
    {
      if isOpen {
        ToggleChat();
      }
    }

    /** `handleSubmit` up to the request.  An empty trimmed input, or a send
      in flight, changes nothing (the form's default submission is
      prevented either way).  Otherwise the input is cleared, the user
      bubble and the user entry are added, the typing indicator is shown
      and the request is posted with the history ending in this message. */
    method BeginSubmit() returns (request: Option<ChatRequest>)
      requires Valid()
      modifies this
      ensures Valid()
      ensures var message := JsTrim(old(input));
        if message == [] || old(isLoading) then
          && request == None
          && history == old(history) && bubbles == old(bubbles) && input == old(input)
          && isLoading == old(isLoading) && typing == old(typing)
        else
          && request == Some(ChatRequest(message, history))
          && history == old(history) + [Turn(Some("user"), Some(message))]
          && bubbles == old(bubbles) + [UserBubble(message)]
          && input == "" && isLoading && typing
      ensures isOpen == old(isOpen) && notificationHidden == old(notificationHidden)
    {
      var message := JsTrim(input);
      if message == [] || isLoading {
        return None;
      }
      var sent := history + [Turn(Some("user"), Some(message))];
      PushUserKeepsPaired(history, message, false);
      assert IsUserTurn(sent[|sent| - 1]);
      input, bubbles, history, typing, isLoading := "", bubbles + [UserBubble(message)], sent, true, true;
      request := Some(ChatRequest(message, sent));
    }

    /** `handleSubmit` after the answer: the typing indicator goes and the
      guard is released in every case.  A 2xx JSON reply adds the bot
      bubble and exactly one assistant entry holding `response` as it is,
      missing or not, and shows the notification when a lead was captured;
      any failure adds the error bubble and leaves the history as it was. */
    method CompleteSubmit(o: HttpOutcome)
      requires Valid() && isLoading
      modifies this
      ensures Valid()
      ensures !isLoading && !typing
      ensures Reply(o).Some? ==>
        var body := Reply(o).value;
        && history == old(history) + [Turn(Some("assistant"), body.response)]
        && bubbles == old(bubbles) + [BotBubble(body.response)]
        && notificationHidden == (old(notificationHidden) && !body.leadCaptured)
      ensures Reply(o).None? ==>
        && history == old(history)
        && bubbles == old(bubbles) + [BotBubble(Some(ErrorText))]
        && notificationHidden == old(notificationHidden)
      ensures isOpen == old(isOpen) && input == old(input)
    {
      typing := false;
      match Reply(o) {
        case Some(body) =>
          PushAnswerKeepsPaired(history, body.response, false);
          bubbles := bubbles + [BotBubble(body.response)];
          history := history + [Turn(Some("assistant"), body.response)];
          if body.leadCaptured {
            notificationHidden := false;
          }
        case None =>
          bubbles := bubbles + [BotBubble(Some(ErrorText))];
      }
      isLoading := false;
    }

    /** The timer set by `showLeadNotification` hides the notification
      again. */
    method HideNotification()
      requires Valid()
      modifies this
      ensures Valid() && notificationHidden
      ensures history == old(history) && bubbles == old(bubbles) && isLoading == old(isLoading)
      ensures isOpen == old(isOpen) && input == old(input) && typing == old(typing)
    {
      notificationHidden := true;
    }
  }
}
