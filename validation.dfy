/** The two field checks of backend/main.py and `validate_lead_data`.
    Each check is given twice: the regular expression as written, stated as
    "the string splits into the pattern's pieces" (a ghost predicate), and a
    hand-coded matcher that the rest of the model runs.  A lemma ties the two
    together.  Python's `re.match(r'^...$', s)` also accepts `s` when the
    pattern matches all of `s` but one final line feed, because `$` matches
    just before a trailing "\n"; the specifications keep that allowance. */
module Validation {
  import opened Wrappers
  import opened Text
  import opened Protocol

  /** The character classes the two patterns use. */
  datatype CharClass =
    | LocalPart     // [a-zA-Z0-9._%+-]
    | DomainPart    // [a-zA-Z0-9.-]
    | AsciiLetter   // [a-zA-Z]
    | UpperLetter   // [A-Z]
    | UpperOrDigit  // [A-Z0-9]

  predicate InClass(cls: CharClass, c: char) {
    match cls
    case LocalPart => IsLetter(c) || IsDigit(c) || c in {'.', '_', '%', '+', '-'}
    case DomainPart => IsLetter(c) || IsDigit(c) || c == '.' || c == '-'
    case AsciiLetter => IsLetter(c)
    case UpperLetter => IsUpperLetter(c)
    case UpperOrDigit => IsUpperLetter(c) || IsDigit(c)
  }

  predicate AllIn(s: string, cls: CharClass) {
    forall i :: 0 <= i < |s| ==> InClass(cls, s[i])
  }

  /** `re.match` with a pattern anchored by `^` and `$`: the pattern matches
      all of `s`, or all of `s` but a final line feed. */
  ghost predicate AnchoredMatch(s: string, pattern: string -> bool) {
    pattern(s) || (|s| > 0 && s[|s| - 1] == '\n' && pattern(s[..|s| - 1]))
  }

  // ---------------------------------------------------------------------
  // validate_email: ^[a-zA-Z0-9._%+-]+@[a-zA-Z0-9.-]+\.[a-zA-Z]{2,}$
  // ---------------------------------------------------------------------

  /** `t` is local part `t[..at]`, "@", domain body `t[at+1..dot]`, ".",
      top-level label `t[dot+1..]`. */
  predicate EmailSplit(t: string, at: nat, dot: nat) {
    && 0 < at && at + 1 < dot && dot + 2 < |t|
    && AllIn(t[..at], LocalPart) && t[at] == '@'
    && AllIn(t[at + 1..dot], DomainPart) && t[dot] == '.'
    && AllIn(t[dot + 1..], AsciiLetter)
  }

  ghost predicate EmailPattern(t: string) {
    exists at: nat, dot: nat :: EmailSplit(t, at, dot)
  }

  /** The index of the last `c` in `s`. */
  function LastIndex(s: string, c: char): (r: Option<nat>)
    ensures r.Some? ==> r.value < |s| && s[r.value] == c
    ensures r.Some? ==> forall k :: r.value < k < |s| ==> s[k] != c
    ensures r.None? ==> forall k :: 0 <= k < |s| ==> s[k] != c
    decreases |s|
  {
    if s == [] then None
    else if s[|s| - 1] == c then Some(|s| - 1)
    else LastIndex(s[..|s| - 1], c)
  }

  /** The part after "@": domain characters only, with a last "." that has
      something before it and two or more letters after it. */
  predicate DomainShape(d: string) {
    && AllIn(d, DomainPart)
    && match LastIndex(d, '.')
       case None => false
       case Some(k) => 0 < k && k + 2 < |d| && AllIn(d[k + 1..], AsciiLetter)
  }

  /** The matcher: local characters up to the first "@", then a domain. */
  predicate EmailShape(t: string) {
    match IndexOf(t, "@")
    case None => false
    case Some(at) => 0 < at && AllIn(t[..at], LocalPart) && DomainShape(t[at + 1..])
  }

  lemma EmailShapeIsPattern(t: string)
    ensures EmailShape(t) <==> EmailPattern(t)
  {
    if EmailShape(t) {
      ShapeGivesSplit(t);
    }
    if EmailPattern(t) {
      var at: nat, dot: nat :| EmailSplit(t, at, dot);
      SplitGivesShape(t, at, dot);
    }
  }

  lemma ShapeGivesSplit(t: string)
    requires EmailShape(t)
    ensures EmailPattern(t)
  {
    var at := IndexOf(t, "@").value;
    var d := t[at + 1..];
    var k := LastIndex(d, '.').value;
    var dot := at + 1 + k;
    assert t[at] == t[at..at + 1][0];
    assert AllIn(t[at + 1..dot], DomainPart) by {
      assert t[at + 1..dot] == d[..k];
    }
    assert AllIn(t[dot + 1..], AsciiLetter) by {
      assert t[dot + 1..] == d[k + 1..];
    }
    assert EmailSplit(t, at, dot);
  }

  lemma SplitGivesShape(t: string, at: nat, dot: nat)
    requires EmailSplit(t, at, dot)
    ensures EmailShape(t)
  {
    AtIsFirst(t, at, dot);
    var d := t[at + 1..];
    var k := dot - at - 1;
    assert AllIn(d, DomainPart) by {
      forall i | 0 <= i < |d| ensures InClass(DomainPart, d[i]) {
        if i < k {
          assert d[i] == t[at + 1..dot][i];
        } else if i > k {
          assert d[i] == t[dot + 1..][i - k - 1];
        }
      }
    }
    assert d[k + 1..] == t[dot + 1..];
    LastDotAt(d, k);
  }

  lemma AtIsFirst(t: string, at: nat, dot: nat)
    requires EmailSplit(t, at, dot)
    ensures IndexOf(t, "@") == Some(at)
  {
    assert t[at..at + 1] == "@";
    assert OccursAt(t, "@", at);
    forall j: nat | j < at ensures !OccursAt(t, "@", j) {
      assert t[j] == t[..at][j];
      assert t[j..j + 1][0] == t[j];
    }
  }

  lemma LastDotAt(d: string, k: nat)
    requires k < |d| && d[k] == '.' && AllIn(d[k + 1..], AsciiLetter)
    ensures LastIndex(d, '.') == Some(k)
  {
    forall m | k < m < |d| ensures d[m] != '.' {
      assert d[m] == d[k + 1..][m - k - 1];
    }
  }

  /** `validate_email`. */
  function ValidateEmail(email: string): bool {
    if |email| > 0 && email[|email| - 1] == '\n' then
      EmailShape(email) || EmailShape(email[..|email| - 1])
    else
      EmailShape(email)
  }

  /** The matcher accepts exactly what `re.match` with the email pattern
      accepts. */
  lemma EmailMatchesPattern(email: string)
    ensures ValidateEmail(email) <==> AnchoredMatch(email, EmailPattern)
  {
    EmailShapeIsPattern(email);
    if |email| > 0 && email[|email| - 1] == '\n' {
      EmailShapeIsPattern(email[..|email| - 1]);
    }
  }

  /** Addresses of the usual forms, one showing how loose the local part is
      (it may start with a dot), and one showing the trailing line feed `$`
      lets through. */
  lemma EmailAccepted()
    ensures ValidateEmail("a@b.co") && ValidateEmail("jane@example.co.uk")
    ensures ValidateEmail(".a@b.co")
    ensures ValidateEmail("a@b.co\n")
  {
    EmailAcceptsPlain();
    EmailAcceptsSubdomains();
    EmailAcceptsLeadingDot();
    EmailAcceptsFinalNewline();
  }

  lemma EmailAcceptsPlain() ensures ValidateEmail("a@b.co") {
    EmailAcceptedAt("a@b.co", 1, 3);
  }

  lemma EmailAcceptsSubdomains() ensures ValidateEmail("jane@example.co.uk") {
    EmailAcceptedAt("jane@example.co.uk", 4, 15);
  }

  lemma EmailAcceptsLeadingDot() ensures ValidateEmail(".a@b.co") {
    EmailAcceptedAt(".a@b.co", 2, 4);
  }

  lemma EmailAcceptsFinalNewline() ensures ValidateEmail("a@b.co\n") {
    EmailAcceptsPlain();
    assert "a@b.co\n"[..6] == "a@b.co";
  }

  lemma EmailAcceptedAt(t: string, at: nat, dot: nat)
    requires EmailSplit(t, at, dot)
    ensures ValidateEmail(t)
  {
    EmailShapeIsPattern(t);
  }

  lemma EmailRejected()
    ensures !ValidateEmail("a@b") && !ValidateEmail("not-an-email") && !ValidateEmail("")
  {
    EmailRejectsNoDot();
    EmailRejectsNoAt();
    assert IndexOf("", "@") == None;
  }

  lemma EmailRejectsNoDot() ensures !ValidateEmail("a@b") {
    FirstCharFound("a@b", '@', 1);
    assert "a@b"[2..] == "b";
    assert LastIndex("b", '.') == None;
  }

  lemma EmailRejectsNoAt() ensures !ValidateEmail("not-an-email") {
    CharNotFound("not-an-email", '@');
  }

  /** A character that does not occur is not found. */
  lemma CharNotFound(s: string, c: char)
    requires c !in s
    ensures IndexOf(s, [c]) == None
  {
    forall j: nat ensures !OccursAt(s, [c], j) {
      if j + 1 <= |s| {
        assert s[j..j + 1][0] == s[j];
      }
    }
  }

  /** A character is found where it first occurs. */
  lemma FirstCharFound(s: string, c: char, i: nat)
    requires i < |s| && s[i] == c && c !in s[..i]
    ensures IndexOf(s, [c]) == Some(i)
  {
    assert s[i..i + 1] == [c];
    assert OccursAt(s, [c], i);
    forall j: nat | j < i ensures !OccursAt(s, [c], j) {
      assert s[j..j + 1][0] == s[j] == s[..i][j];
    }
  }

  // ---------------------------------------------------------------------
  // validate_uk_postcode: ^[A-Z]{1,2}[0-9][A-Z0-9]?\s*[0-9][A-Z]{2}$
  // applied to postcode.upper().strip()
  // ---------------------------------------------------------------------

  /** `p` is area letters `p[..i]`, district digit `p[i]`, an optional
      letter-or-digit `p[i+1..j]`, whitespace `p[j..k]`, and the inward code
      digit, letter, letter `p[k..]`. */
  predicate PostcodeSplit(p: string, i: nat, j: nat, k: nat) {
    && 1 <= i <= 2 && i < j <= i + 2 && j <= k && k + 3 == |p|
    && AllIn(p[..i], UpperLetter) && IsDigit(p[i]) && AllIn(p[i + 1..j], UpperOrDigit)
    && AllSatisfy(p[j..k], PythonBlank)
    && IsDigit(p[k]) && IsUpperLetter(p[k + 1]) && IsUpperLetter(p[k + 2])
  }

  ghost predicate PostcodePattern(p: string) {
    exists i: nat, j: nat, k: nat :: PostcodeSplit(p, i, j, k)
  }

  /** The outward code: letter-digit, letter-digit-any, letter-letter-digit
      or letter-letter-digit-any, where "any" is a letter or a digit. */
  predicate OutwardShape(q: string) {
    && 2 <= |q| <= 4 && IsUpperLetter(q[0])
    && if IsDigit(q[1]) then |q| == 2 || (|q| == 3 && InClass(UpperOrDigit, q[2]))
       else IsUpperLetter(q[1]) && |q| >= 3 && IsDigit(q[2]) && (|q| == 3 || InClass(UpperOrDigit, q[3]))
  }

  /** The matcher: a three-character inward code at the end, and an outward
      code before it once the whitespace between them is dropped. */
  predicate PostcodeShape(p: string) {
    && |p| >= 3
    && IsDigit(p[|p| - 3]) && IsUpperLetter(p[|p| - 2]) && IsUpperLetter(p[|p| - 1])
    && OutwardShape(TrimEnd(p[..|p| - 3], PythonBlank))
  }

  lemma PostcodeShapeIsPattern(p: string)
    ensures PostcodeShape(p) <==> PostcodePattern(p)
  {
    if PostcodeShape(p) {
      PostcodeShapeGivesSplit(p);
    }
    if PostcodePattern(p) {
      var i: nat, j: nat, k: nat :| PostcodeSplit(p, i, j, k);
      PostcodeSplitGivesShape(p, i, j, k);
    }
  }

  lemma PostcodeShapeGivesSplit(p: string)
    requires PostcodeShape(p)
    ensures PostcodePattern(p)
  {
    var k := |p| - 3;
    var q := TrimEnd(p[..k], PythonBlank);
    var j := |q|;
    var i := if IsDigit(q[1]) then 1 else 2;
    assert forall m | 0 <= m < j :: p[m] == q[m];
    assert AllSatisfy(p[j..k], PythonBlank) by {
      assert p[j..k] == p[..k][j..];
    }
    assert AllIn(p[..i], UpperLetter);
    assert AllIn(p[i + 1..j], UpperOrDigit);
    assert PostcodeSplit(p, i, j, k);
  }

  lemma PostcodeSplitGivesShape(p: string, i: nat, j: nat, k: nat)
    requires PostcodeSplit(p, i, j, k)
    ensures PostcodeShape(p)
  {
    var outward := p[..j];
    assert p[..k] == outward + p[j..k];
    TrimEndSkipsSpace(outward, p[j..k], PythonBlank);
    assert IsUpperLetter(p[0]) by { assert p[..i][0] == p[0]; }
    if i == 2 {
      assert IsUpperLetter(p[1]) by { assert p[..i][1] == p[1]; }
    }
    if j == i + 2 {
      assert InClass(UpperOrDigit, p[i + 1]) by { assert p[i + 1..j][0] == p[i + 1]; }
    }
    assert !IsPySpace(outward[j - 1]);
    assert TrimEnd(outward, PythonBlank) == outward;
    assert OutwardShape(outward);
  }

  /** A stripped string never ends in a line feed, so for the postcode
      check the trailing line feed allowance of `$` never applies. */
  lemma StrippedHasNoFinalNewline(s: string)
    ensures var p := Strip(s); |p| == 0 || p[|p| - 1] != '\n'
  {
    TrimIsCore(s, PythonBlank);
  }

  /** `validate_uk_postcode`: the pattern matches the upper-cased, stripped
      input. */
  function ValidatePostcode(postcode: string): bool {
    PostcodeShape(Strip(Upper(postcode)))
  }

  /** The matcher accepts exactly what `re.match` with the postcode pattern
      accepts on the upper-cased, stripped input. */
  lemma PostcodeMatchesPattern(postcode: string)
    ensures ValidatePostcode(postcode) <==> AnchoredMatch(Strip(Upper(postcode)), PostcodePattern)
  {
    var p := Strip(Upper(postcode));
    PostcodeShapeIsPattern(p);
    StrippedHasNoFinalNewline(Upper(postcode));
  }

  /** Letter case does not matter. */
  lemma PostcodeIgnoresCase(s: string)
    ensures ValidatePostcode(Upper(s)) == ValidatePostcode(s)
  {
    UpperIdempotent(s);
  }

  /** Whitespace around the postcode does not matter. */
  lemma PostcodeIgnoresPadding(w1: string, s: string, w2: string)
    requires AllSatisfy(w1, PythonBlank) && AllSatisfy(w2, PythonBlank)
    ensures ValidatePostcode(w1 + s + w2) == ValidatePostcode(s)
  {
    UpperConcat(w1 + s, w2);
    UpperConcat(w1, s);
    UpperKeepsSpace(w1);
    UpperKeepsSpace(w2);
    TrimIgnoresPadding(w1, Upper(s), w2, PythonBlank);
  }

  /** Postcodes of the common London forms, with and without the space and
      in lower case. */
  lemma PostcodeAccepted()
    ensures ValidatePostcode("SW1A 1AA") && ValidatePostcode("sw1a1aa")
    ensures ValidatePostcode("E14 5AB") && ValidatePostcode("W1K 7AA")
  {
    PostcodeAcceptsSpaced();
    PostcodeAcceptsLowerUnspaced();
    PostcodeAcceptsShortArea();
    PostcodeAcceptsLetterDistrict();
  }

  lemma PostcodeAcceptsSpaced() ensures ValidatePostcode("SW1A 1AA") {
    PostcodeAcceptedAt("SW1A 1AA", "SW1A 1AA", 2, 4, 5);
  }

  lemma PostcodeAcceptsLowerUnspaced() ensures ValidatePostcode("sw1a1aa") {
    PostcodeAcceptedAt("sw1a1aa", "SW1A1AA", 2, 4, 4);
  }

  lemma PostcodeAcceptsShortArea() ensures ValidatePostcode("E14 5AB") {
    PostcodeAcceptedAt("E14 5AB", "E14 5AB", 1, 3, 4);
  }

  lemma PostcodeAcceptsLetterDistrict() ensures ValidatePostcode("W1K 7AA") {
    PostcodeAcceptedAt("W1K 7AA", "W1K 7AA", 1, 3, 4);
  }

  /** `s` upper-cases to `p`, which has no surrounding whitespace and splits
      into the pattern's pieces at `i`, `j`, `k`. */
  lemma PostcodeAcceptedAt(s: string, p: string, i: nat, j: nat, k: nat)
    requires Upper(s) == p && |p| > 0 && !IsPySpace(p[0]) && !IsPySpace(p[|p| - 1])
    requires PostcodeSplit(p, i, j, k)
    ensures ValidatePostcode(s)
  {
    assert TrimStart(p, PythonBlank) == p;
    assert TrimEnd(p, PythonBlank) == p;
    PostcodeSplitGivesShape(p, i, j, k);
  }

  lemma PostcodeRejected()
    ensures !ValidatePostcode("SW1A") && !ValidatePostcode("12345") && !ValidatePostcode("")
  {
    PostcodeRejectsOutcode();
    PostcodeRejectsDigits();
    PostcodeRejectsEmpty();
  }

  lemma PostcodeRejectsOutcode() ensures !ValidatePostcode("SW1A") {
    assert Upper("SW1A") == "SW1A";
    assert Strip("SW1A") == "SW1A";
  }

  lemma PostcodeRejectsDigits() ensures !ValidatePostcode("12345") {
    assert Upper("12345") == "12345";
    assert Strip("12345") == "12345";
  }

  lemma PostcodeRejectsEmpty() ensures !ValidatePostcode("") {
    assert Strip(Upper("")) == "";
  }

  // ---------------------------------------------------------------------
  // validate_lead_data
  // ---------------------------------------------------------------------

  const EmailLabel: string := "Email inválido: "
  const PostcodeLabel: string := "Postcode inválido: "
  const PostcodeHint: string := " (formato esperado: SW1A 1AA)"

  /** The email message: its label, then the offending address. */
  function EmailError(email: string): (m: string)
    ensures |m| == |EmailLabel| + |email|
    ensures m[..|EmailLabel|] == EmailLabel && m[|EmailLabel|..] == email
  {
    EmailLabel + email
  }

  /** The postcode message: its label, the offending postcode, then the
      expected format. */
  function PostcodeError(postcode: string): (m: string)
    ensures |m| == |PostcodeLabel| + |postcode| + |PostcodeHint|
    ensures m[..|PostcodeLabel|] == PostcodeLabel
    ensures m[|PostcodeLabel|..|PostcodeLabel| + |postcode|] == postcode
    ensures m[|PostcodeLabel| + |postcode|..] == PostcodeHint
  {
    PostcodeLabel + postcode + PostcodeHint
  }

  /** The pair `validate_lead_data` returns. */
  datatype LeadCheck = LeadCheck(valid: bool, errors: seq<string>)

  /** `validate_lead_data`: one message per failing field, the email's
      first, each naming the offending value; a missing key is checked as "". */
  function ValidateLead(lead: Lead): (r: LeadCheck)
    ensures r.valid <==> r.errors == []
    ensures r.valid <==> ValidateEmail(Field(lead, "email")) && ValidatePostcode(Field(lead, "postcode"))
    ensures |r.errors| <= 2
  {
    var email := Field(lead, "email");
    var postcode := Field(lead, "postcode");
    var e, p := EmailError(email), PostcodeError(postcode);
    ErrorsDiffer(email, postcode);
    var eo, po := ValidateEmail(email), ValidatePostcode(postcode);
    Checked(e, eo, p, po)
  }

  /** Each failing check contributes its own message, naming the value it
      was given, the email's first; nothing else is reported. */
  lemma LeadErrorsNamed(lead: Lead)
    ensures var email, postcode := Field(lead, "email"), Field(lead, "postcode");
      var errors := ValidateLead(lead).errors;
      && (EmailError(email) in errors <==> !ValidateEmail(email))
      && (PostcodeError(postcode) in errors <==> !ValidatePostcode(postcode))
      && (forall m :: m in errors ==> m == EmailError(email) || m == PostcodeError(postcode))
      && (|errors| == 2 ==> errors[0] == EmailError(email))
  {
    var email, postcode := Field(lead, "email"), Field(lead, "postcode");
    ErrorsDiffer(email, postcode);
    var r := Checked(EmailError(email), ValidateEmail(email), PostcodeError(postcode), ValidatePostcode(postcode));
    assert ValidateLead(lead) == r;
  }

  lemma ErrorsDiffer(email: string, postcode: string)
    ensures EmailError(email) != PostcodeError(postcode)
  {
    assert EmailError(email)[0] != PostcodeError(postcode)[0];
  }

  /** The two checks' outcomes put together, given each check's result and
      message. */
  function Checked(emailError: string, emailOk: bool, postcodeError: string, postcodeOk: bool): (r: LeadCheck)
    requires emailError != postcodeError
    ensures r.valid <==> r.errors == []
    ensures r.valid <==> emailOk && postcodeOk
    ensures |r.errors| <= 2
    ensures emailError in r.errors <==> !emailOk
    ensures postcodeError in r.errors <==> !postcodeOk
    ensures forall m :: m in r.errors ==> m == emailError || m == postcodeError
    ensures |r.errors| == 2 ==> r.errors[0] == emailError
  {
    var errors :=
      (if emailOk then [] else [emailError])
      + (if postcodeOk then [] else [postcodeError]);
    LeadCheck(|errors| == 0, errors)
  }

  /** A lead without an email or a postcode key fails that check. */
  lemma MissingFieldsFail(lead: Lead)
    requires "email" !in lead && "postcode" !in lead
    ensures ValidateLead(lead) == LeadCheck(false, [EmailError(""), PostcodeError("")])
  {
    assert Field(lead, "email") == "" && Field(lead, "postcode") == "";
    EmailRejected();
    PostcodeRejectsEmpty();
    ErrorsDiffer("", "");
    var r := ValidateLead(lead);
    assert r == Checked(EmailError(""), false, PostcodeError(""), false);
  }
}
