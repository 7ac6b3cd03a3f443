/** The embeddable widget, frontend/static/js/widget-embed.js: the
    `LPAChat` class that keeps the conversation, guards against a second
    send while one is in flight, and formats each bubble with
    `formatMessage`.  `sendMessage` is asynchronous; it is modelled as the
    part up to the `fetch` (`BeginSend`, which returns the request it
    posts) and the part after the answer arrives (`CompleteSend`).  The DOM
    is reduced to the fields below; the static welcome bubble is not part
    of `bubbles`. */
module WidgetEmbed {
  import opened Wrappers
  import opened Text
  import opened Protocol
  import opened Markup
  import opened ChatTurn
  import opened Pairing

  /** `formatMessage`: the chain of five `replace` calls.  It is the shared
      escape-then-break-then-bold formatting with the replace-chain escape,
      so the bubble holds no tag but `<br>`, `<strong>` and `</strong>`, and
      no line feed. */
  function FormatMessage(content: string): (h: string)
    ensures h == Format(content, ReplaceChain)
    ensures TagSafe(h) && '\n' !in h
  {
    ReplaceChainIsEscape(content);
    Bold(ReplaceAll(ReplaceAll(ReplaceAll(ReplaceAll(content, '&', "&amp;"), '<', "&lt;"), '>', "&gt;"), '\n', Br))
  }

  /** A message without asterisks is shown in its bubble as written. */
  lemma MessageShownAsWritten(content: string)
    requires '*' !in content
    ensures Render(FormatMessage(content)) == content
  {
    PlainTextShownAsWritten(content, ReplaceChain);
  }

  datatype Sender = User | Bot

  /** A message bubble added by `addMessage`: who it is from and the text it
      was given; its HTML is that text through `formatMessage`, for both
      senders. */
  datatype Bubble = Bubble(sender: Sender, content: string) {
    function Html(): string {
      FormatMessage(content)
    }
  }

  const ErrorText: string := "I do apologise, an error occurred. Please try again."

  /** The backend can read every history this widget builds, and gives
      Gemini the user entries as "user" and the assistant entries as
      "model". */
  lemma WellPairedIsReadable(h: seq<Turn>)
    requires WellPaired(h, true)
    ensures Transcript(h).Some?
    ensures forall i :: 0 <= i < |h| ==>
      Transcript(h).value[i].role == (if IsUserTurn(h[i]) then "user" else "model")
  {
    forall i | 0 <= i < |h| ensures Readable(h[i]) {
      assert PairedAt(h, i, true);
    }
    forall i | 0 <= i < |h| ensures Transcript(h).value[i].role == (if IsUserTurn(h[i]) then "user" else "model") {
      assert PairedAt(h, i, true);
    }
  }

  /** The reply text and lead flag the code after `fetch` goes on with, or
      None when it throws: the request failed, the body is not JSON, or the
      body has no `response` (then `formatMessage(undefined)` throws before
      any bubble or history entry is added).  The status is not looked at. */
  function Outcome(o: HttpOutcome): Option<(string, bool)> {
    if o.Answered? && o.body.Some? && o.body.value.response.Some? then
      Some((o.body.value.response.value, o.body.value.leadCaptured))
    else None
  }

  /** Every answer of the backend is handled as the backend meant it: a
      reply is shown with its lead flag, and a 500 takes the error path
      although its status is never checked. */
  lemma OutcomeOfBackend(result: ChatResult)
    ensures result.Replied? ==>
      Outcome(Transmit(result)) == Some((result.body.response, result.body.leadCaptured))
    ensures result.ServerError? ==> Outcome(Transmit(result)) == None
  {
  }

  class LPAChat {
    var history: seq<Turn>
    var isOpen: bool
    var isLoading: bool
    /** The text in the input field. */
    var input: string
    var bubbles: seq<Bubble>
    /** Whether the typing indicator is on screen. */
    var typing: bool
    /** The window's `lpa-open` class and the display of the two icons. */
    var windowOpen: bool
    var chatIconShown: bool
    var closeIconShown: bool
    /** The notification's `lpa-show` class. */
    var notificationShown: bool

    ghost predicate Valid()
      reads this
    {
      && WellPaired(history, true)
      && (typing <==> isLoading)
      && (isLoading ==> history != [] && IsUserTurn(history[|history| - 1]))
      && windowOpen == isOpen && chatIconShown == !isOpen && closeIconShown == isOpen
    }

    /** The widget as injected: closed, idle, with an empty history. */
    constructor ()
      ensures Valid()
      ensures history == [] && bubbles == [] && input == ""
      ensures !isOpen && !isLoading && !notificationShown
    {
      history := [];
      isOpen := false;
      isLoading := false;
      input := "";
      bubbles := [];
      typing := false;
      windowOpen := false;
      chatIconShown := true;
      closeIconShown := false;
      notificationShown := false;
    }

    /** The visitor edits the input field. */
    method Type(text: string)
      requires Valid()
      modifies this
      ensures Valid()
      ensures input == text
      ensures history == old(history) && bubbles == old(bubbles)
      ensures isOpen == old(isOpen) && isLoading == old(isLoading)
      ensures typing == old(typing) && notificationShown == old(notificationShown)
    {
      input := text;
    }

    /** `toggleChat`: open a closed window and close an open one; the icons
      follow. */
    method ToggleChat()
      requires Valid()
      modifies this
      ensures Valid()
      ensures isOpen == !old(isOpen)
      ensures windowOpen == isOpen && chatIconShown == !isOpen && closeIconShown == isOpen
      ensures history == old(history) && bubbles == old(bubbles) && input == old(input)
      ensures isLoading == old(isLoading) && typing == old(typing)
      ensures notificationShown == old(notificationShown)
    {
      isOpen := !isOpen;
      windowOpen := isOpen;
      chatIconShown := !isOpen;
      closeIconShown := isOpen;
    }

    /** The Escape key closes an open window and does nothing else. */
    method PressEscape()
      requires Valid()
      modifies this
      ensures Valid()
      ensures !isOpen
      ensures history == old(history) && bubbles == old(bubbles) && input == old(input)
      ensures isLoading == old(isLoading) && typing == old(typing)
      ensures notificationShown == old(notificationShown)
    {
      if isOpen {
        ToggleChat();
      }
    }

    /** `sendMessage` up to the `fetch`.  An empty trimmed input, or a send
      already in flight, changes nothing.  Otherwise the input is cleared,
      the user bubble and the user entry are added, the typing indicator is
      shown and the request is posted with the history that now ends with
      this message; the backend can read that history. */
    method BeginSend() returns (request: Option<ChatRequest>)
      requires Valid()
      modifies this
      ensures Valid()
      ensures var message := JsTrim(old(input));
        if message == [] || old(isLoading) then
          && request == None
          && history == old(history) && bubbles == old(bubbles) && input == old(input)
          && isLoading == old(isLoading) && typing == old(typing)
        else
          && request == Some(ChatRequest(message, history))
          && history == old(history) + [Turn(Some("user"), Some(message))]
          && bubbles == old(bubbles) + [Bubble(User, message)]
          && input == "" && isLoading && typing
      ensures request.Some? ==> Transcript(request.value.history).Some?
      ensures isOpen == old(isOpen) && notificationShown == old(notificationShown)
    {
      var message := JsTrim(input);
      if message == [] || isLoading {
        return None;
      }
      request := Post(message);
    }

    /** The accepted branch of `sendMessage` before the `fetch`. */
    method Post(message: string) returns (request: Option<ChatRequest>)
      requires Valid() && !isLoading
      modifies this
      ensures Valid()
      ensures request == Some(ChatRequest(message, history))
      ensures history == old(history) + [Turn(Some("user"), Some(message))]
      ensures bubbles == old(bubbles) + [Bubble(User, message)]
      ensures input == "" && isLoading && typing
      ensures Transcript(history).Some?
      ensures isOpen == old(isOpen) && notificationShown == old(notificationShown)
    {
      var sent := history + [Turn(Some("user"), Some(message))];
      PushUserKeepsPaired(history, message, true);
      WellPairedIsReadable(sent);
      assert IsUserTurn(sent[|sent| - 1]);
      input, bubbles, history, typing, isLoading := "", bubbles + [Bubble(User, message)], sent, true, true;
      request := Some(ChatRequest(message, sent));
    }

    /** `sendMessage` after the answer: the typing indicator goes and the
      guard is released in every case.  A usable reply adds the bot bubble
      and exactly one assistant entry, and shows the notification when a
      lead was captured; anything else adds the error bubble and leaves the
      history as it was, ending with the unanswered user entry. */
    method CompleteSend(o: HttpOutcome)
      requires Valid() && isLoading
      modifies this
      ensures Valid()
      ensures !isLoading && !typing
      ensures Outcome(o).Some? ==>
        var (text, lead) := Outcome(o).value;
        && history == old(history) + [Turn(Some("assistant"), Some(text))]
        && bubbles == old(bubbles) + [Bubble(Bot, text)]
        && notificationShown == (old(notificationShown) || lead)
      ensures Outcome(o).None? ==>
        && history == old(history)
        && bubbles == old(bubbles) + [Bubble(Bot, ErrorText)]
        && notificationShown == old(notificationShown)
      ensures isOpen == old(isOpen) && input == old(input)
    {
      typing := false;
      match Outcome(o) {
        case Some((text, lead)) =>
          PushAnswerKeepsPaired(history, Some(text), true);
          bubbles := bubbles + [Bubble(Bot, text)];
          history := history + [Turn(Some("assistant"), Some(text))];
          if lead {
            notificationShown := true;
          }
        case None =>
          bubbles := bubbles + [Bubble(Bot, ErrorText)];
      }
      isLoading := false;
    }

    /** The timer set by `showNotification` hides the notification again. */
    method HideNotification()
      requires Valid()
      modifies this
      ensures Valid() && !notificationShown
      ensures history == old(history) && bubbles == old(bubbles) && isLoading == old(isLoading)
      ensures isOpen == old(isOpen) && input == old(input) && typing == old(typing)
    {
      notificationShown := false;
    }
  }
}
