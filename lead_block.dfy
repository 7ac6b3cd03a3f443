/** The lead block the model is told to append to its reply:
    `[LEAD_DATA] {json} [/LEAD_DATA]`.  Extraction (backend/main.py,
    `extract_lead_data`) needs both markers and a successful decode; the
    display cleaner (`clean_response`) needs only the start marker. */
module LeadBlock {
  import opened Wrappers
  import opened Text
  import opened Protocol

  const StartMarker: string := "[LEAD_DATA]"
  const EndMarker: string := "[/LEAD_DATA]"

  /** The stripped text between the end of the first start marker and the
      first end marker, or None when either marker is missing.  Python's
      slice `text[start:end]` is empty when the end marker comes first. */
  function BlockText(text: string): (r: Option<string>)
    ensures r.Some? <==> Contains(text, StartMarker) && Contains(text, EndMarker)
  {
    match (IndexOf(text, StartMarker), IndexOf(text, EndMarker))
    case (Some(s), Some(e)) =>
      var a := s + |StartMarker|;
      Some(Strip(if a <= e then text[a..e] else ""))
    case _ => None
  }

  /** `extract_lead_data`: the decode of the block text; a failed decode is
      swallowed and reads as "no lead data".  `decode` stands for
      `json.loads` restricted to objects of text fields. */
  function ExtractLeadData(text: string, decode: string -> Option<Lead>): (r: Option<Lead>)
    ensures r.Some? ==> Contains(text, StartMarker) && Contains(text, EndMarker)
    ensures r.Some? ==> r == decode(BlockText(text).value)
  {
    match BlockText(text)
    case None => None
    case Some(block) => decode(block)
  }

  /** `clean_response`: the text shown to the user.  Without a start marker
      the reply is shown unchanged; otherwise everything from the first start
      marker on is cut and the rest stripped, so no start marker survives. */
  function CleanResponse(text: string): (r: string)
    ensures !Contains(text, StartMarker) ==> r == text
    ensures Contains(text, StartMarker) ==> r == Strip(text[..IndexOf(text, StartMarker).value])
    ensures !Contains(r, StartMarker)
  {
    match IndexOf(text, StartMarker)
    case None => text
    case Some(i) =>
      NotInPrefixBeforeFirst(text, StartMarker, i);
      StripKeepsAbsence(text[..i], StartMarker);
      Strip(text[..i])
  }

  /** Stripping cannot create an occurrence of a pattern. */
  lemma StripKeepsAbsence(s: string, p: string)
    requires !Contains(s, p)
    ensures !Contains(Strip(s), p)
  {
    TrimIsCore(s, PythonBlank);
    var a: nat, b: nat :| a <= b <= |s| && Strip(s) == s[a..b];
    NotInSlice(s, p, a, b);
  }

  /** Cleaning is idempotent: a cleaned reply has no start marker left. */
  lemma CleanIdempotent(text: string)
    ensures CleanResponse(CleanResponse(text)) == CleanResponse(text)
  {
  }

  /** A pattern whose first character does not recur in it is first found
      right after a prefix that does not contain it. */
  lemma IndexOfAfterPrefix(pre: string, p: string, rest: string)
    requires |p| > 0 && !Contains(pre, p)
    requires forall k :: 1 <= k < |p| ==> p[k] != p[0]
    ensures IndexOf(pre + p + rest, p) == Some(|pre|)
  {
    var text := pre + p + rest;
    assert text[|pre|..|pre| + |p|] == p;
    assert OccursAt(text, p, |pre|);
    forall j: nat | j < |pre|
      ensures !OccursAt(text, p, j)
    {
      if j + |p| <= |pre| {
        assert text[j..j + |p|] == pre[j..j + |p|];
        assert !OccursAt(pre, p, j);
      } else {
        var k := |pre| - j;
        assert text[j + k] == p[0] != p[k];
        assert text[j..j + |p|][k] != p[k];
      }
    }
  }

  lemma MarkersStartUnique()
    ensures forall k :: 1 <= k < |StartMarker| ==> StartMarker[k] != StartMarker[0]
    ensures forall k :: 1 <= k < |EndMarker| ==> EndMarker[k] != EndMarker[0]
  {
  }

  /** A well-formed reply: some text, the start marker, a body, the end
      marker and more text, with no marker earlier than intended.  The lead is
      the decode of the stripped body and the display text is the stripped
      text before the block. */
  lemma {:induction false} WellFormedBlock(pre: string, body: string, post: string, decode: string -> Option<Lead>)
    requires !Contains(pre, StartMarker)
    requires !Contains(pre + StartMarker + body, EndMarker)
    ensures var text := pre + StartMarker + body + EndMarker + post;
      ExtractLeadData(text, decode) == decode(Strip(body)) && CleanResponse(text) == Strip(pre)
  {
    var head := pre + StartMarker + body;
    var text := head + EndMarker + post;
    MiddleSlice(pre + StartMarker, body, EndMarker + post);
    MiddleSlice(pre, StartMarker, body + EndMarker + post);
    assert text == pre + StartMarker + body + (EndMarker + post);
    assert text == pre + StartMarker + (body + EndMarker + post);
    assert text[|pre| + |StartMarker|..|head|] == body;
    assert text[..|pre|] == pre;
    MarkersStartUnique();
    IndexOfAfterPrefix(pre, StartMarker, body + EndMarker + post);
    IndexOfAfterPrefix(head, EndMarker, post);
    BlockAt(text, |pre|, |head|, decode);
  }

  /** Extraction and cleaning once the two first markers are located. */
  lemma BlockAt(text: string, s: nat, e: nat, decode: string -> Option<Lead>)
    requires IndexOf(text, StartMarker) == Some(s) && IndexOf(text, EndMarker) == Some(e)
    requires s + |StartMarker| <= e
    ensures ExtractLeadData(text, decode) == decode(Strip(text[s + |StartMarker|..e]))
    ensures CleanResponse(text) == Strip(text[..s])
  {
    var a := s + |StartMarker|;
    assert BlockText(text) == Some(Strip(text[a..e]));
  }

  /** A start marker with no end marker: no lead, yet the display text is
      still cut at the start marker. */
  lemma StartWithoutEnd(text: string, decode: string -> Option<Lead>)
    requires Contains(text, StartMarker) && !Contains(text, EndMarker)
    ensures ExtractLeadData(text, decode) == None
    ensures CleanResponse(text) == Strip(text[..IndexOf(text, StartMarker).value])
  {
  }

  /** An end marker before the start marker leaves an empty block, which
      `json.loads` rejects, so there is no lead rather than an error; the
      display text is still cut at the start marker. */
  lemma EndBeforeStart(text: string, decode: string -> Option<Lead>)
    requires decode("") == None
    requires Contains(text, StartMarker) && Contains(text, EndMarker)
    requires IndexOf(text, EndMarker).value < IndexOf(text, StartMarker).value
    ensures ExtractLeadData(text, decode) == None
    ensures CleanResponse(text) == Strip(text[..IndexOf(text, StartMarker).value])
  {
    assert Strip("") == "";
  }
}
