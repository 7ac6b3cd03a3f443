/** How the two chat widgets turn a message into the HTML of a bubble
    (`formatMessage` in frontend/static/js/widget-embed.js and
    frontend/static/js/chat.js): escape the text, turn each line feed into
    `<br>`, then replace each `**...**` pair by `<strong>...</strong>` as
    the global regular expression `/\*\*(.*?)\*\*\/g` does. */
module Markup {
  import opened Wrappers
  import opened Text

  const Nbsp: char := '\U{00A0}'
  const Br: string := "<br>"
  const StrongOpen: string := "<strong>"
  const StrongClose: string := "</strong>"

  /** JavaScript's line terminators, which `.` in a regular expression does
      not match. */
  predicate IsLineTerminator(c: char) {
    c == '\n' || c == '\r' || c == '\U{2028}' || c == '\U{2029}'
  }

  // ---------------------------------------------------------------------
  // Escaping
  // ---------------------------------------------------------------------

  /** The embeddable widget escapes with a chain of `replace` calls; the
      page widget assigns `textContent` and reads back `innerHTML`, which
      also writes a no-break space as `&nbsp;`. */
  datatype EscapeStyle = ReplaceChain | TextContent

  function Entity(c: char, style: EscapeStyle): string {
    if c == '&' then "&amp;"
    else if c == '<' then "&lt;"
    else if c == '>' then "&gt;"
    else if c == Nbsp && style == TextContent then "&nbsp;"
    else [c]
  }

  /** Character-by-character escaping. */
  function Escape(s: string, style: EscapeStyle): (r: string)
    ensures '<' !in r && '>' !in r
    ensures '*' in r <==> '*' in s
    decreases |s|
  {
    if s == [] then [] else Entity(s[0], style) + Escape(s[1..], style)
  }

  /** `s.replace(/c/g, r)` for a single character `c`. */
  function ReplaceAll(s: string, c: char, r: string): (t: string)
    ensures c !in s ==> t == s
    ensures c !in r ==> c !in t
    decreases |s|
  {
    if s == [] then []
    else (if s[0] == c then r else [s[0]]) + ReplaceAll(s[1..], c, r)
  }

  /** Replacing `c` keeps every other character that the replacement does
      not bring in. */
  lemma {:induction false} ReplaceAllKeeps(s: string, c: char, r: string, d: char)
    requires d != c && d !in r
    ensures d in ReplaceAll(s, c, r) <==> d in s
    decreases |s|
  {
    if s != [] {
      ReplaceAllKeeps(s[1..], c, r, d);
      assert s == [s[0]] + s[1..];
    }
  }

  /** Escaping keeps the line terminators where they are. */
  lemma {:induction false} EscapeKeepsTerminators(s: string, style: EscapeStyle, c: char)
    requires IsLineTerminator(c)
    ensures c in Escape(s, style) <==> c in s
    decreases |s|
  {
    if s != [] {
      EscapeKeepsTerminators(s[1..], style, c);
      EscapeUnfold(s, style);
      assert s == [s[0]] + s[1..];
      EntityKeepsTerminator(s[0], style, c);
    }
  }

  lemma EntityKeepsTerminator(x: char, style: EscapeStyle, c: char)
    requires IsLineTerminator(c)
    ensures c in Entity(x, style) <==> c == x
  {
  }

  lemma {:induction false} ReplaceAllConcat(a: string, b: string, c: char, r: string)
    ensures ReplaceAll(a + b, c, r) == ReplaceAll(a, c, r) + ReplaceAll(b, c, r)
    decreases |a|
  {
    if a == [] {
      assert a + b == b;
    } else {
      assert (a + b)[1..] == a[1..] + b;
      ReplaceAllConcat(a[1..], b, c, r);
    }
  }

  /** The embeddable widget's chain `&` first, then `<`, then `>` escapes
      each character exactly once: no later step rewrites what an earlier
      one produced. */
  lemma {:induction false} ReplaceChainIsEscape(s: string)
    ensures ReplaceAll(ReplaceAll(ReplaceAll(s, '&', "&amp;"), '<', "&lt;"), '>', "&gt;") == Escape(s, ReplaceChain)
    decreases |s|
  {
    if s != [] {
      var c, rest := [s[0]], s[1..];
      assert s == c + rest;
      ReplaceAllConcat(c, rest, '&', "&amp;");
      var a1, a2 := ReplaceAll(c, '&', "&amp;"), ReplaceAll(rest, '&', "&amp;");
      ReplaceAllConcat(a1, a2, '<', "&lt;");
      var b1, b2 := ReplaceAll(a1, '<', "&lt;"), ReplaceAll(a2, '<', "&lt;");
      ReplaceAllConcat(b1, b2, '>', "&gt;");
      ChainOnChar(s[0]);
      ReplaceChainIsEscape(rest);
    }
  }

  lemma ChainOnChar(c: char)
    ensures ReplaceAll(ReplaceAll(ReplaceAll([c], '&', "&amp;"), '<', "&lt;"), '>', "&gt;") == Entity(c, ReplaceChain)
  {
    assert [c][1..] == [];
  }

  lemma {:induction false} EscapeConcat(a: string, b: string, style: EscapeStyle)
    ensures Escape(a + b, style) == Escape(a, style) + Escape(b, style)
    decreases |a|
  {
    if a == [] {
      assert a + b == b;
    } else {
      assert (a + b)[1..] == a[1..] + b;
      EscapeConcat(a[1..], b, style);
    }
  }

  /** The two escapes differ only on the no-break space. */
  lemma {:induction false} EscapeStylesAgree(s: string)
    requires Nbsp !in s
    ensures Escape(s, ReplaceChain) == Escape(s, TextContent)
    decreases |s|
  {
    if s != [] {
      assert s[0] in s;
      assert forall c :: c in s[1..] ==> c in s;
      EscapeStylesAgree(s[1..]);
    }
  }

  /** `.replace(/\n/g, '<br>')`. */
  function NewlineToBr(s: string): (r: string)
    ensures '\n' !in r
  {
    ReplaceAll(s, '\n', Br)
  }

  /** Line breaks keep every character that is neither a line feed nor part
      of `<br>`. */
  lemma BrKeeps(s: string, d: char)
    requires d != '\n' && d !in Br
    ensures d in NewlineToBr(s) <==> d in s
  {
    ReplaceAllKeeps(s, '\n', Br, d);
  }

  // ---------------------------------------------------------------------
  // Bold
  // ---------------------------------------------------------------------

  /** A line terminator occurs in `s[k..m]`. */
  predicate TerminatorBetween(s: string, k: nat, m: nat)
    requires m <= |s|
  {
    exists q :: k <= q < m && IsLineTerminator(s[q])
  }

  /** The lazy `(.*?)\*\*` after an opening `**` that ends at `k`: the first
      `**` at or after `k`, provided no line terminator comes before it. */
  function CloseFrom(s: string, k: nat): (r: Option<nat>)
    requires k <= |s|
    ensures r.Some? ==> k <= r.value && r.value + 2 <= |s| && s[r.value] == '*' && s[r.value + 1] == '*'
    ensures r.Some? ==> forall m :: k <= m < r.value ==> !IsLineTerminator(s[m])
    ensures r.Some? ==> forall m :: k <= m < r.value ==> !(s[m] == '*' && s[m + 1] == '*')
    ensures r.None? ==> forall m :: k <= m && m + 2 <= |s| && s[m] == '*' && s[m + 1] == '*' ==>
      TerminatorBetween(s, k, m)
    decreases |s| - k
  {
    if k + 2 <= |s| && s[k] == '*' && s[k + 1] == '*' then Some(k)
    else if k == |s| || IsLineTerminator(s[k]) then None
    else CloseFrom(s, k + 1)
  }

  /** No two consecutive asterisks. */
  predicate NoDoubleStar(s: string) {
    forall m :: 0 <= m < |s| - 1 ==> !(s[m] == '*' && s[m + 1] == '*')
  }

  /** `.replace(/\*\*(.*?)\*\*\/g, '<strong>$1</strong>')`: scanning left to
      right, an opening `**` with a closing `**` later on the same line
      becomes a `<strong>` element; otherwise one character is kept and the
      scan moves on by one. */
  function Bold(s: string): string
    decreases |s|
  {
    if |s| >= 2 && s[0] == '*' && s[1] == '*' then
      match CloseFrom(s, 2)
      case Some(j) => StrongOpen + s[2..j] + StrongClose + Bold(s[j + 2..])
      case None => [s[0]] + Bold(s[1..])
    else if s == [] then []
    else [s[0]] + Bold(s[1..])
  }

  /** Text with no `**` in it passes through the scan unchanged. */
  lemma {:induction false} BoldKeepsPlain(s: string)
    requires NoDoubleStar(s)
    ensures Bold(s) == s
    decreases |s|
  {
    if s != [] {
      assert !(s[0] == '*' && s[1 % |s|] == '*' && |s| >= 2);
      BoldStep(s);
      assert NoDoubleStar(s[1..]) by {
        forall m | 0 <= m < |s[1..]| - 1 ensures !(s[1..][m] == '*' && s[1..][m + 1] == '*') {
          assert s[1..][m] == s[m + 1] && s[1..][m + 1] == s[m + 2];
        }
      }
      BoldKeepsPlain(s[1..]);
      assert s == [s[0]] + s[1..];
    }
  }

  /** A first character that does not open a `**` pair is kept as it is. */
  lemma BoldStep(s: string)
    requires s != [] && !(|s| >= 2 && s[0] == '*' && s[1] == '*')
    ensures Bold(s) == [s[0]] + Bold(s[1..])
  {
  }

  /** Text without asterisks passes through the scan unchanged. */
  lemma {:induction false} BoldSkipsPrefix(u: string, v: string)
    requires '*' !in u
    ensures Bold(u + v) == u + Bold(v)
    decreases |u|
  {
    if u == [] {
      assert u + v == v;
    } else {
      assert u[0] in u;
      ConcatHead(u, v);
      BoldStep(u + v);
      assert '*' !in u[1..] by {
        assert u == [u[0]] + u[1..];
      }
      BoldSkipsPrefix(u[1..], v);
      ConsAppend(u, Bold(v));
    }
  }

  // ---------------------------------------------------------------------
  // The shape of the output
  // ---------------------------------------------------------------------

  predicate IsTag(t: string) {
    t == Br || t == StrongOpen || t == StrongClose
  }

  /** The length of the token `h` starts with: one of the three tags, or a
      single character. */
  function TokenLength(h: string): (n: nat)
    requires h != []
    ensures 1 <= n <= |h|
    ensures n > 1 ==> IsTag(h[..n])
    ensures h[0] != '<' ==> n == 1
  {
    if OccursAt(h, Br, 0) then |Br|
    else if OccursAt(h, StrongOpen, 0) then |StrongOpen|
    else if OccursAt(h, StrongClose, 0) then |StrongClose|
    else 1
  }

  /** The markup holds no element but `<br>`, `<strong>` and `</strong>`:
      every other character is neither `<` nor `>`. */
  predicate TagSafe(h: string)
    decreases |h|
  {
    h == [] ||
    var n := TokenLength(h);
    (n > 1 || (h[0] != '<' && h[0] != '>')) && TagSafe(h[n..])
  }

  /** A string that starts with a tag starts with that token. */
  lemma TokenOfTag(t: string, rest: string)
    requires IsTag(t)
    ensures TokenLength(t + rest) == |t|
  {
    var h := t + rest;
    assert h[..|t|] == t;
    assert h[1] == t[1];
    assert Br[1] == 'b' && StrongOpen[1] == 's' && StrongClose[1] == '/';
  }

  lemma TagIsSafe(t: string)
    requires IsTag(t)
    ensures TagSafe(t)
  {
    TokenOfTag(t, []);
    assert t + [] == t;
    assert t[|t|..] == [];
  }

  /** The tags contain no asterisk. */
  lemma TagHasNoStar(t: string)
    requires IsTag(t)
    ensures '*' !in t
  {
  }

  lemma {:induction false} TagSafeConcat(a: string, b: string)
    requires TagSafe(a) && TagSafe(b)
    ensures TagSafe(a + b)
    decreases |a|
  {
    if a == [] {
      assert a + b == b;
    } else {
      var n := TokenLength(a);
      FirstTokenOfConcat(a, b);
      TagSafeConcat(a[n..], b);
    }
  }

  /** Appending text does not change the first token. */
  lemma FirstTokenOfConcat(a: string, b: string)
    requires a != [] && TagSafe(a)
    ensures TokenLength(a + b) == TokenLength(a)
    ensures (a + b)[0] == a[0]
    ensures (a + b)[TokenLength(a)..] == a[TokenLength(a)..] + b
  {
    var n := TokenLength(a);
    if n > 1 {
      assert a + b == a[..n] + (a[n..] + b);
      TokenOfTag(a[..n], a[n..] + b);
    }
  }

  /** Text with no angle brackets is safe. */
  lemma {:induction false} NoAngleTagSafe(s: string)
    requires '<' !in s && '>' !in s
    ensures TagSafe(s)
    decreases |s|
  {
    if s != [] {
      NoAngleTagSafe(s[1..]);
    }
  }

  /** Cutting safe markup just before an asterisk leaves two safe halves:
      no tag contains an asterisk, so the cut cannot fall inside one. */
  lemma {:induction false} TagSafeSplitAtStar(x: string, j: nat)
    requires TagSafe(x) && j < |x| && x[j] == '*'
    ensures TagSafe(x[..j]) && TagSafe(x[j..])
    decreases |x|
  {
    if j == 0 {
      assert x[..j] == [] && x[j..] == x;
    } else {
      var n := TokenLength(x);
      var token := x[..n];
      assert j >= n by {
        if n > 1 {
          TagHasNoStar(token);
          assert forall k :: 0 <= k < n ==> x[k] == token[k];
        }
      }
      TagSafeSplitAtStar(x[n..], j - n);
      SliceAfterPrefix(x, n, j);
      assert TagSafe(token) by {
        if n > 1 {
          TagIsSafe(token);
        } else {
          assert token[0] == x[0];
          assert token[1..] == [];
        }
      }
      TagSafeConcat(token, x[n..][..j - n]);
    }
  }

  lemma SliceAfterPrefix(x: string, n: nat, j: nat)
    requires n <= j <= |x|
    ensures x[..j] == x[..n] + x[n..][..j - n]
    ensures x[j..] == x[n..][j - n..]
  {
  }

  /** A string starting with a character that is not `<` or `>` is safe
      exactly when the rest is. */
  lemma PlainStep(c: char, rest: string)
    requires c != '<' && c != '>'
    ensures TagSafe([c] + rest) <==> TagSafe(rest)
  {
    assert ([c] + rest)[1..] == rest;
  }

  /** Bolding safe markup keeps it safe: it only adds `<strong>` and
      `</strong>` around text it already had. */
  lemma {:induction false} BoldKeepsTagSafe(x: string)
    requires TagSafe(x)
    ensures TagSafe(Bold(x))
    decreases |x|
  {
    if x == [] {
    } else if TokenLength(x) > 1 {
      var n := TokenLength(x);
      var tag := x[..n];
      TagHasNoStar(tag);
      TagIsSafe(tag);
      assert x == tag + x[n..];
      BoldSkipsPrefix(tag, x[n..]);
      BoldKeepsTagSafe(x[n..]);
      TagSafeConcat(tag, Bold(x[n..]));
    } else if |x| >= 2 && x[0] == '*' && x[1] == '*' && CloseFrom(x, 2).Some? {
      BoldPairKeepsTagSafe(x);
    } else {
      assert x == [x[0]] + x[1..];
      PlainStep(x[0], x[1..]);
      BoldKeepsTagSafe(x[1..]);
      PlainStep(x[0], Bold(x[1..]));
    }
  }

  /** The step of `BoldKeepsTagSafe` where a `**...**` pair is replaced. */
  lemma {:induction false} BoldPairKeepsTagSafe(x: string)
    requires TagSafe(x) && |x| >= 2 && x[0] == '*' && x[1] == '*' && CloseFrom(x, 2).Some?
    ensures TagSafe(Bold(x))
    decreases |x|, 0
  {
    var j := CloseFrom(x, 2).value;
    BoldPairUnfold(x);
    PairPartsSafe(x);
    BoldKeepsTagSafe(x[j + 2..]);
    WrapKeepsTagSafe(x[2..j], Bold(x[j + 2..]));
  }

  lemma BoldPairUnfold(x: string)
    requires |x| >= 2 && x[0] == '*' && x[1] == '*' && CloseFrom(x, 2).Some?
    ensures var j := CloseFrom(x, 2).value;
      Bold(x) == StrongOpen + x[2..j] + StrongClose + Bold(x[j + 2..])
  {
    var r := CloseFrom(x, 2);
    assert r == Some(r.value);
  }

  /** The text inside a pair and the text after it are safe when the whole
      is. */
  lemma PairPartsSafe(x: string)
    requires TagSafe(x) && |x| >= 2 && x[0] == '*' && x[1] == '*' && CloseFrom(x, 2).Some?
    ensures var j := CloseFrom(x, 2).value; TagSafe(x[2..j]) && TagSafe(x[j + 2..])
  {
    SplitAroundStars(x, CloseFrom(x, 2).value);
  }

  lemma SplitAroundStars(x: string, j: nat)
    requires TagSafe(x) && 2 <= j && j + 2 <= |x|
    requires x[0] == '*' && x[1] == '*' && x[j] == '*' && x[j + 1] == '*'
    ensures TagSafe(x[2..j]) && TagSafe(x[j + 2..])
  {
    DropTwoStars(x);
    InnerSafe(x, j);
    DropTwoStars(x[j..]);
    SuffixOfSuffix(x, j, 2);
  }

  lemma InnerSafe(x: string, j: nat)
    requires 2 <= j < |x| && TagSafe(x[2..]) && x[j] == '*'
    ensures TagSafe(x[2..j]) && TagSafe(x[j..])
  {
    TagSafeSplitAtStar(x[2..], j - 2);
    SlicesOfSuffix(x, 2, j - 2);
  }

  lemma SuffixOfSuffix(x: string, a: nat, b: nat)
    requires a + b <= |x|
    ensures x[a..][b..] == x[a + b..]
  {
  }

  /** Two leading asterisks are plain characters. */
  lemma DropTwoStars(y: string)
    requires |y| >= 2 && y[0] == '*' && y[1] == '*'
    ensures TagSafe(y) <==> TagSafe(y[2..])
  {
    assert y == [y[0]] + y[1..];
    PlainStep('*', y[1..]);
    assert y[1..] == [y[1]] + y[2..];
    PlainStep('*', y[2..]);
  }

  lemma WrapKeepsTagSafe(mid: string, tail: string)
    requires TagSafe(mid) && TagSafe(tail)
    ensures TagSafe(StrongOpen + mid + StrongClose + tail)
  {
    TagIsSafe(StrongOpen);
    TagIsSafe(StrongClose);
    TagSafeConcat(StrongOpen, mid);
    TagSafeConcat(StrongOpen + mid, StrongClose);
    TagSafeConcat(StrongOpen + mid + StrongClose, tail);
  }

  // ---------------------------------------------------------------------
  // The whole formatting, and what the reader sees
  // ---------------------------------------------------------------------

  /** The bubble markup for a message: escape, line breaks, bold. */
  function Format(s: string, style: EscapeStyle): (h: string)
    ensures TagSafe(h)
    ensures '\n' !in h
  {
    var e := Escape(s, style);
    var b := NewlineToBr(e);
    BrKeepsTagSafe(e);
    BoldKeepsTagSafe(b);
    BoldKeepsAbsent(b, '\n');
    Bold(b)
  }

  /** The bold step adds no character but those of its two tags. */
  lemma {:induction false} BoldKeepsAbsent(s: string, c: char)
    requires c !in s && c !in StrongOpen && c !in StrongClose
    ensures c !in Bold(s)
    decreases |s|
  {
    if |s| >= 2 && s[0] == '*' && s[1] == '*' {
      match CloseFrom(s, 2)
      case Some(j) =>
        AbsentFromSlice(s, 2, j, c);
        AbsentFromSlice(s, j + 2, |s|, c);
        assert s[j + 2..|s|] == s[j + 2..];
        BoldKeepsAbsent(s[j + 2..], c);
        BoldPairUnfold(s);
      case None =>
        assert s == [s[0]] + s[1..];
        BoldKeepsAbsent(s[1..], c);
    } else if s != [] {
      assert s == [s[0]] + s[1..];
      BoldKeepsAbsent(s[1..], c);
      BoldStep(s);
    }
  }

  lemma AbsentFromSlice(s: string, a: nat, b: nat, c: char)
    requires a <= b <= |s| && c !in s
    ensures c !in s[a..b]
  {
    forall i | 0 <= i < b - a ensures s[a..b][i] != c {
      assert s[a..b][i] == s[a + i];
    }
  }

  /** Text with nothing to escape, no line feed and no `**` is shown in the
      bubble exactly as written. */
  lemma FormatKeepsPlainText(s: string, style: EscapeStyle)
    requires '&' !in s && '<' !in s && '>' !in s && '\n' !in s && NoDoubleStar(s)
    requires style == TextContent ==> Nbsp !in s
    ensures Format(s, style) == s
  {
    EscapeKeepsPlainText(s, style);
    BoldKeepsPlain(s);
  }

  lemma {:induction false} EscapeKeepsPlainText(s: string, style: EscapeStyle)
    requires '&' !in s && '<' !in s && '>' !in s
    requires style == TextContent ==> Nbsp !in s
    ensures Escape(s, style) == s
    decreases |s|
  {
    if s != [] {
      assert s[0] in s;
      assert forall c :: c in s[1..] ==> c in s;
      EscapeKeepsPlainText(s[1..], style);
      EscapeUnfold(s, style);
      assert s == [s[0]] + s[1..];
    }
  }

  /** Line breaks in text without angle brackets give safe markup. */
  lemma {:induction false} BrKeepsTagSafe(e: string)
    requires '<' !in e && '>' !in e
    ensures TagSafe(NewlineToBr(e))
    decreases |e|
  {
    if e != [] {
      assert e == [e[0]] + e[1..];
      ReplaceAllConcat([e[0]], e[1..], '\n', Br);
      BrKeepsTagSafe(e[1..]);
      if e[0] == '\n' {
        TagIsSafe(Br);
        assert ReplaceAll([e[0]], '\n', Br) == Br;
        TagSafeConcat(Br, NewlineToBr(e[1..]));
      } else {
        assert ReplaceAll([e[0]], '\n', Br) == [e[0]];
        PlainStep(e[0], NewlineToBr(e[1..]));
      }
    }
  }

  /** What a browser shows for the token `h` starts with, and the token's
      length: `<br>` is a line break, `<strong>` and `</strong>` only change
      the weight, and the four character references the widgets write
      decode to their characters. */
  function Decoded(h: string): (r: (string, nat))
    requires h != []
    ensures 1 <= r.1 <= |h|
  {
    if OccursAt(h, Br, 0) then ("\n", |Br|)
    else if OccursAt(h, StrongOpen, 0) then ("", |StrongOpen|)
    else if OccursAt(h, StrongClose, 0) then ("", |StrongClose|)
    else if OccursAt(h, "&amp;", 0) then ("&", 5)
    else if OccursAt(h, "&lt;", 0) then ("<", 4)
    else if OccursAt(h, "&gt;", 0) then (">", 4)
    else if OccursAt(h, "&nbsp;", 0) then ([Nbsp], 6)
    else ([h[0]], 1)
  }

  /** The text a browser shows for the markup the widgets produce. */
  function Render(h: string): string
    decreases |h|
  {
    if h == [] then []
    else
      var d := Decoded(h);
      d.0 + Render(h[d.1..])
  }

  lemma RenderToken(t: string, u: string, shown: string)
    requires t != [] && Decoded(t + u) == (shown, |t|)
    ensures Render(t + u) == shown + Render(u)
  {
    assert (t + u)[|t|..] == u;
  }

  lemma DecodeBr(u: string) ensures Decoded(Br + u) == ("\n", |Br|) {
    assert (Br + u)[..|Br|] == Br;
  }

  lemma DecodeStrongOpen(u: string) ensures Decoded(StrongOpen + u) == ("", |StrongOpen|) {
    var h := StrongOpen + u;
    assert h[..|StrongOpen|] == StrongOpen;
    assert !OccursAt(h, Br, 0) by { assert h[1] == 's'; }
  }

  lemma DecodeStrongClose(u: string) ensures Decoded(StrongClose + u) == ("", |StrongClose|) {
    var h := StrongClose + u;
    assert h[..|StrongClose|] == StrongClose;
    assert !OccursAt(h, Br, 0) && !OccursAt(h, StrongOpen, 0) by { assert h[1] == '/'; }
  }

  lemma DecodeAmp(u: string) ensures Decoded("&amp;" + u) == ("&", 5) {
    var h := "&amp;" + u;
    assert h[..5] == "&amp;";
    assert !OccursAt(h, Br, 0) && !OccursAt(h, StrongOpen, 0) && !OccursAt(h, StrongClose, 0) by { assert h[0] == '&'; }
  }

  lemma DecodeLt(u: string) ensures Decoded("&lt;" + u) == ("<", 4) {
    var h := "&lt;" + u;
    assert h[..4] == "&lt;";
    assert !OccursAt(h, Br, 0) && !OccursAt(h, StrongOpen, 0) && !OccursAt(h, StrongClose, 0) by { assert h[0] == '&'; }
    assert !OccursAt(h, "&amp;", 0) by { assert h[1] == 'l'; }
  }

  lemma DecodeGt(u: string) ensures Decoded("&gt;" + u) == (">", 4) {
    var h := "&gt;" + u;
    assert h[..4] == "&gt;";
    assert !OccursAt(h, Br, 0) && !OccursAt(h, StrongOpen, 0) && !OccursAt(h, StrongClose, 0) by { assert h[0] == '&'; }
    assert !OccursAt(h, "&amp;", 0) && !OccursAt(h, "&lt;", 0) by { assert h[1] == 'g'; }
  }

  lemma DecodeNbsp(u: string) ensures Decoded("&nbsp;" + u) == ([Nbsp], 6) {
    var h := "&nbsp;" + u;
    assert h[..6] == "&nbsp;";
    assert !OccursAt(h, Br, 0) && !OccursAt(h, StrongOpen, 0) && !OccursAt(h, StrongClose, 0) by { assert h[0] == '&'; }
    assert !OccursAt(h, "&amp;", 0) && !OccursAt(h, "&lt;", 0) && !OccursAt(h, "&gt;", 0) by { assert h[1] == 'n'; }
  }

  lemma DecodePlain(c: char, u: string)
    requires c != '<' && c != '&'
    ensures Decoded([c] + u) == ([c], 1)
  {
    var h := [c] + u;
    assert h[0] == c;
  }

  /** One escaped character followed by any markup renders as that
      character followed by the rendering of the markup. */
  lemma RenderCell(c: char, style: EscapeStyle, u: string)
    ensures Render(NewlineToBr(Entity(c, style)) + u) == [c] + Render(u)
  {
    if c == '\n' {
      assert NewlineToBr(Entity(c, style)) == Br;
      DecodeBr(u);
      RenderToken(Br, u, "\n");
    } else if c == '&' {
      assert NewlineToBr(Entity(c, style)) == "&amp;";
      DecodeAmp(u);
      RenderToken("&amp;", u, "&");
    } else if c == '<' {
      assert NewlineToBr(Entity(c, style)) == "&lt;";
      DecodeLt(u);
      RenderToken("&lt;", u, "<");
    } else if c == '>' {
      assert NewlineToBr(Entity(c, style)) == "&gt;";
      DecodeGt(u);
      RenderToken("&gt;", u, ">");
    } else if c == Nbsp && style == TextContent {
      assert NewlineToBr(Entity(c, style)) == "&nbsp;";
      DecodeNbsp(u);
      RenderToken("&nbsp;", u, [Nbsp]);
    } else {
      assert NewlineToBr(Entity(c, style)) == [c];
      DecodePlain(c, u);
      RenderToken([c], u, [c]);
    }
  }

  /** Escaped text with line breaks renders back to the original text. */
  lemma {:induction false} RenderEscaped(s: string, style: EscapeStyle, t: string)
    ensures Render(NewlineToBr(Escape(s, style)) + t) == s + Render(t)
    decreases |s|
  {
    if s == [] {
      EmptyEscaped(style, t);
    } else {
      var cell := NewlineToBr(Entity(s[0], style));
      var tail := NewlineToBr(Escape(s[1..], style));
      assert Render(NewlineToBr(Escape(s, style)) + t) == Render(cell + (tail + t)) by {
        EscapedUnfold(s, style, t);
      }
      assert Render(cell + (tail + t)) == [s[0]] + Render(tail + t) by {
        RenderCell(s[0], style, tail + t);
      }
      assert Render(tail + t) == s[1..] + Render(t) by {
        RenderEscaped(s[1..], style, t);
      }
      ConsAppend(s, Render(t));
    }
  }

  lemma ConsAppend(s: string, r: string)
    requires s != []
    ensures [s[0]] + (s[1..] + r) == s + r
  {
    assert s == [s[0]] + s[1..];
  }

  lemma EmptyEscaped(style: EscapeStyle, t: string)
    ensures NewlineToBr(Escape([], style)) + t == t
  {
  }

  lemma EscapedUnfold(s: string, style: EscapeStyle, t: string)
    requires s != []
    ensures NewlineToBr(Escape(s, style)) + t
         == NewlineToBr(Entity(s[0], style)) + (NewlineToBr(Escape(s[1..], style)) + t)
  {
    var a, b := Entity(s[0], style), Escape(s[1..], style);
    EscapeUnfold(s, style);
    ReplaceAllConcat(a, b, '\n', Br);
    Associative(NewlineToBr(a), NewlineToBr(b), t);
  }

  /** Regrouping a concatenation, stated apart from the proofs that use it:
      asserted inside them, the step costs several times their budget. */
  lemma Associative(x: string, y: string, z: string)
    ensures (x + y) + z == x + (y + z)
  {
  }

  lemma EscapeUnfold(s: string, style: EscapeStyle)
    requires s != []
    ensures Escape(s, style) == Entity(s[0], style) + Escape(s[1..], style)
  {
  }

  /** A message with no asterisk is shown exactly as written, line breaks
      included. */
  lemma PlainTextShownAsWritten(s: string, style: EscapeStyle)
    requires '*' !in s
    ensures Render(Format(s, style)) == s
  {
    var b := NewlineToBr(Escape(s, style));
    BrKeeps(Escape(s, style), '*');
    assert '*' !in b;
    BoldSkipsPrefix(b, []);
    assert b + [] == b;
    assert Format(s, style) == b;
    RenderEscaped(s, style, []);
    assert b + [] == b;
  }

  /** The lazy scan finds a closing `**` that follows a stretch free of
      asterisks and line terminators. */
  lemma {:induction false} CloseFromScan(s: string, k: nat, j: nat)
    requires k <= j && j + 2 <= |s| && s[j] == '*' && s[j + 1] == '*'
    requires forall m :: k <= m < j ==> s[m] != '*' && !IsLineTerminator(s[m])
    ensures CloseFrom(s, k) == Some(j)
    decreases j - k
  {
    if k < j {
      CloseFromScan(s, k + 1, j);
    }
  }

  /** A `**...**` pair around text free of asterisks and line terminators
      becomes one `<strong>` element. */
  lemma BoldOfPair(m: string)
    requires '*' !in m && forall c :: c in m ==> !IsLineTerminator(c)
    ensures Bold("**" + m + "**") == StrongOpen + m + StrongClose
  {
    var x := "**" + m + "**";
    assert x[2..2 + |m|] == m && x[2 + |m| + 2..] == [];
    assert forall i :: 2 <= i < 2 + |m| ==> x[i] == m[i - 2] && m[i - 2] in m;
    CloseFromScan(x, 2, 2 + |m|);
  }

  /** Escaping and line breaks leave the asterisks of a pair in place. */
  lemma EscapedPair(w: string, style: EscapeStyle)
    ensures NewlineToBr(Escape("**" + w + "**", style)) == "**" + NewlineToBr(Escape(w, style)) + "**"
  {
    EscapeStars(w, style);
    BrStars(Escape(w, style));
  }

  lemma EscapeStars(w: string, style: EscapeStyle)
    ensures Escape("**" + w + "**", style) == "**" + Escape(w, style) + "**"
  {
    assert "**" + w + "**" == "**" + (w + "**");
    EscapeConcat("**", w + "**", style);
    EscapeConcat(w, "**", style);
    EscapeTwoStars(style);
  }

  lemma EscapeTwoStars(style: EscapeStyle)
    ensures Escape("**", style) == "**"
  {
    assert "**"[1..] == "*";
    assert "*"[1..] == [];
  }

  lemma BrStars(e: string)
    ensures NewlineToBr("**" + e + "**") == "**" + NewlineToBr(e) + "**"
  {
    assert "**" + e + "**" == "**" + (e + "**");
    ReplaceAllConcat("**", e + "**", '\n', Br);
    ReplaceAllConcat(e, "**", '\n', Br);
    assert ReplaceAll("**", '\n', Br) == "**";
  }

  /** A bold span on one line becomes a `<strong>` element. */
  lemma FormatPair(w: string, style: EscapeStyle)
    requires '*' !in w
    requires forall c :: c in w && IsLineTerminator(c) ==> c == '\n'
    ensures Format("**" + w + "**", style) == StrongOpen + NewlineToBr(Escape(w, style)) + StrongClose
  {
    var m := NewlineToBr(Escape(w, style));
    EscapedPair(w, style);
    ShownOnOneLine(w, style);
    BrKeeps(Escape(w, style), '*');
    BoldOfPair(m);
  }

  /** Escaped text whose only line terminators are line feeds has none left
      once they become `<br>`. */
  lemma ShownOnOneLine(w: string, style: EscapeStyle)
    requires forall c :: c in w && IsLineTerminator(c) ==> c == '\n'
    ensures forall c :: c in NewlineToBr(Escape(w, style)) ==> !IsLineTerminator(c)
  {
    var m := NewlineToBr(Escape(w, style));
    forall c | IsLineTerminator(c) ensures c !in m {
      if c != '\n' {
        EscapeKeepsTerminators(w, style, c);
        BrKeeps(Escape(w, style), c);
      }
    }
  }

  /** ... and is read as its text. */
  lemma BoldPairShown(w: string, style: EscapeStyle)
    requires '*' !in w
    requires forall c :: c in w && IsLineTerminator(c) ==> c == '\n'
    ensures Render(Format("**" + w + "**", style)) == w
  {
    var m := NewlineToBr(Escape(w, style));
    FormatPair(w, style);
    Associative(StrongOpen, m, StrongClose);
    RenderAfterOpen(m + StrongClose);
    RenderEscaped(w, style, StrongClose);
    RenderOfClose();
  }

  lemma RenderAfterOpen(x: string)
    ensures Render(StrongOpen + x) == Render(x)
  {
    DecodeStrongOpen(x);
    RenderToken(StrongOpen, x, "");
  }

  lemma RenderOfClose()
    ensures Render(StrongClose) == []
  {
    DecodeStrongClose([]);
    assert StrongClose + [] == StrongClose;
    RenderToken(StrongClose, [], "");
  }

  /** An empty span is still a span: `****` becomes an empty `<strong>`
      element. */
  lemma EmptySpan(style: EscapeStyle)
    ensures Format("****", style) == StrongOpen + StrongClose
  {
    assert "**" + [] + "**" == "****";
    FormatPair([], style);
    assert NewlineToBr(Escape([], style)) == [];
  }

  /** The lazy span does not cross a carriage return: the pair stays
      literal text. */
  lemma CarriageReturnEndsSpan()
    ensures Bold("**a\rb**") == "**a\rb**"
  {
    var s := "**a\rb**";
    assert CloseFrom(s, 2) == None by {
      assert s[2] == 'a' && s[3] == '\r';
    }
    assert Bold(s) == "*" + Bold(s[1..]);
    var s1 := s[1..];
    assert s1 == "*a\rb**";
    assert Bold(s1) == "*" + Bold(s1[1..]) by { assert s1[1] == 'a'; }
    assert s1[1..] == "a\rb" + "**";
    BoldSkipsPrefix("a\rb", "**");
    StarsAlone();
  }

  lemma StarsAlone()
    ensures Bold("**") == "**"
  {
    var s := "**";
    assert CloseFrom(s, 2) == None;
    assert s[1..] == "*";
    assert Bold("*") == "*" by { assert "*"[1..] == []; }
  }
}
