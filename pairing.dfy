/** The shape of the `conversationHistory` both widgets keep: a user entry
    is pushed before each request, and an assistant entry only right after
    the user entry it answers.  A failed send leaves its user entry
    unanswered, so two user entries may follow each other.  The widgets
    differ in one point, the parameter `withContent`: the embeddable widget
    never pushes an assistant entry without content, the page widget may. */
module Pairing {
  import opened Wrappers
  import opened Protocol

  predicate IsUserTurn(t: Turn) {
    t.role == Some("user") && t.content.Some?
  }

  /** Entry `i` is a user entry, or an assistant entry (with content when
      `withContent` holds) right after a user entry. */
  predicate PairedAt(h: seq<Turn>, i: nat, withContent: bool)
    requires i < |h|
  {
    || IsUserTurn(h[i])
    || (&& h[i].role == Some("assistant")
        && (withContent ==> h[i].content.Some?)
        && i > 0 && IsUserTurn(h[i - 1]))
  }

  predicate WellPaired(h: seq<Turn>, withContent: bool) {
    forall i :: 0 <= i < |h| ==> PairedAt(h, i, withContent)
  }

  /** A user entry may always be added ... */
  lemma PushUserKeepsPaired(h: seq<Turn>, message: string, withContent: bool)
    requires WellPaired(h, withContent)
    ensures WellPaired(h + [Turn(Some("user"), Some(message))], withContent)
  {
    var h' := h + [Turn(Some("user"), Some(message))];
    forall i | 0 <= i < |h'| ensures PairedAt(h', i, withContent) {
      if i < |h| {
        assert PairedAt(h, i, withContent);
        assert h'[i] == h[i];
        if i > 0 { assert h'[i - 1] == h[i - 1]; }
      }
    }
  }

  /** ... and an assistant entry right after one, with content when the
      widget requires it. */
  lemma PushAnswerKeepsPaired(h: seq<Turn>, content: Option<string>, withContent: bool)
    requires WellPaired(h, withContent) && h != [] && IsUserTurn(h[|h| - 1])
    requires withContent ==> content.Some?
    ensures WellPaired(h + [Turn(Some("assistant"), content)], withContent)
  {
    var h' := h + [Turn(Some("assistant"), content)];
    forall i | 0 <= i < |h'| ensures PairedAt(h', i, withContent) {
      if i < |h| {
        assert PairedAt(h, i, withContent);
        assert h'[i] == h[i];
        if i > 0 { assert h'[i - 1] == h[i - 1]; }
      } else {
        assert h'[i - 1] == h[|h| - 1];
      }
    }
  }
}
