/** String primitives the backend and the widgets rely on: substring search
    (Python's `in` and `str.index`), whitespace trimming (Python's `strip`,
    JavaScript's `trim`) and ASCII upper-casing.  Characters outside ASCII are
    treated as ordinary, non-space, caseless characters. */
module Text {
  import opened Wrappers

  /** `p` occurs in `s` starting at index `i`. */
  predicate OccursAt(s: string, p: string, i: nat) {
    i + |p| <= |s| && s[i..i + |p|] == p
  }

  /** The first index at or after `k` where `p` occurs in `s`. */
  function IndexFrom(s: string, p: string, k: nat): (r: Option<nat>)
    requires k <= |s|
    decreases |s| - k
    ensures r.Some? ==> k <= r.value <= |s| && OccursAt(s, p, r.value)
    ensures r.Some? ==> forall j: nat :: k <= j < r.value ==> !OccursAt(s, p, j)
    ensures r.None? ==> forall j: nat :: k <= j ==> !OccursAt(s, p, j)
  {
    if OccursAt(s, p, k) then Some(k)
    else if k == |s| then None
    else IndexFrom(s, p, k + 1)
  }

  /** The first occurrence of `p` in `s`, as Python's `s.index(p)` finds it. */
  function IndexOf(s: string, p: string): (r: Option<nat>)
    ensures r.Some? ==> r.value <= |s| && OccursAt(s, p, r.value)
    ensures r.Some? ==> forall j: nat :: j < r.value ==> !OccursAt(s, p, j)
    ensures r.None? <==> forall j: nat :: !OccursAt(s, p, j)
  {
    IndexFrom(s, p, 0)
  }

  /** Python's `p in s`. */
  predicate Contains(s: string, p: string) {
    IndexOf(s, p).Some?
  }

  /** Nothing before the first occurrence of a non-empty `p` contains `p`. */
  lemma NotInPrefixBeforeFirst(s: string, p: string, i: nat)
    requires |p| > 0 && IndexOf(s, p) == Some(i)
    ensures !Contains(s[..i], p)
  {
    forall j: nat | OccursAt(s[..i], p, j)
      ensures false
    {
      assert s[..i][j..j + |p|] == s[j..j + |p|];
      assert OccursAt(s, p, j);
    }
  }

  /** A string that does not contain `p` has no substring that does. */
  lemma NotInSlice(s: string, p: string, a: nat, b: nat)
    requires a <= b <= |s| && !Contains(s, p)
    ensures !Contains(s[a..b], p)
  {
    forall j: nat | OccursAt(s[a..b], p, j)
      ensures false
    {
      var t := s[a..b];
      assert forall k | j <= k < j + |p| :: t[k] == s[a + k];
      assert t[j..j + |p|] == s[a + j..a + j + |p|];
      assert OccursAt(s, p, a + j);
    }
  }

  // ---------------------------------------------------------------------
  // Whitespace and trimming
  // ---------------------------------------------------------------------

  /** The ASCII characters Python's `str.strip` and the regex class `\s`
      treat as whitespace: tab, line feed, vertical tab, form feed, carriage
      return, the four separators 0x1C-0x1F, and space. */
  predicate IsPySpace(c: char) {
    9 <= c as int <= 13 || 28 <= c as int <= 32
  }

  /** The ASCII characters JavaScript's `String.prototype.trim` removes. */
  predicate IsJsSpace(c: char) {
    9 <= c as int <= 13 || c == ' '
  }

  /** Which language's notion of whitespace a trim uses. */
  datatype Blank = PythonBlank | JsBlank

  predicate IsSpace(ws: Blank, c: char) {
    match ws
    case PythonBlank => IsPySpace(c)
    case JsBlank => IsJsSpace(c)
  }

  predicate AllSatisfy(s: string, ws: Blank) {
    forall i :: 0 <= i < |s| ==> IsSpace(ws, s[i])
  }

  /** `s` without its leading characters satisfying `ws`. */
  function TrimStart(s: string, ws: Blank): (r: string)
    ensures |r| <= |s| && r == s[|s| - |r|..]
    ensures AllSatisfy(s[..|s| - |r|], ws)
    ensures r == [] || !IsSpace(ws, r[0])
    decreases |s|
  {
    if s != [] && IsSpace(ws, s[0]) then
      var r := TrimStart(s[1..], ws);
      TrimStartStep(s, r, ws);
      r
    else s
  }

  lemma TrimStartStep(s: string, r: string, ws: Blank)
    requires s != [] && IsSpace(ws, s[0])
    requires |r| <= |s| - 1 && r == s[1..][|s| - 1 - |r|..]
    requires AllSatisfy(s[1..][..|s| - 1 - |r|], ws)
    ensures r == s[|s| - |r|..]
    ensures AllSatisfy(s[..|s| - |r|], ws)
  {
    var k := |s| - |r|;
    var t := s[1..];
    assert t[k - 1..] == s[k..];
    forall i | 0 <= i < k ensures IsSpace(ws, s[..k][i]) {
      if i > 0 {
        assert s[..k][i] == t[..k - 1][i - 1];
      }
    }
  }

  /** `s` without its trailing characters satisfying `ws`. */
  function TrimEnd(s: string, ws: Blank): (r: string)
    ensures |r| <= |s| && r == s[..|r|]
    ensures AllSatisfy(s[|r|..], ws)
    ensures r == [] || !IsSpace(ws, r[|r| - 1])
    decreases |s|
  {
    if s != [] && IsSpace(ws, s[|s| - 1]) then
      var r := TrimEnd(s[..|s| - 1], ws);
      TrimEndStep(s, r, ws);
      r
    else s
  }

  lemma TrimEndStep(s: string, r: string, ws: Blank)
    requires s != [] && IsSpace(ws, s[|s| - 1])
    requires |r| <= |s| - 1 && r == s[..|s| - 1][..|r|]
    requires AllSatisfy(s[..|s| - 1][|r|..], ws)
    ensures r == s[..|r|]
    ensures AllSatisfy(s[|r|..], ws)
  {
    var p := s[..|s| - 1];
    assert p[..|r|] == s[..|r|];
    forall i | 0 <= i < |s| - |r| ensures IsSpace(ws, s[|r|..][i]) {
      if |r| + i < |s| - 1 {
        assert s[|r|..][i] == p[|r|..][i];
      }
    }
  }

  function Trim(s: string, ws: Blank): string {
    TrimEnd(TrimStart(s, ws), ws)
  }

  /** Python's `s.strip()` restricted to ASCII whitespace. */
  function Strip(s: string): string {
    Trim(s, PythonBlank)
  }

  /** JavaScript's `s.trim()` restricted to ASCII whitespace. */
  function JsTrim(s: string): string {
    Trim(s, JsBlank)
  }

  /** `r` is the slice `s[a..b]`, and all of `s` outside it is whitespace. */
  predicate CoreAt(s: string, r: string, a: nat, b: nat, ws: Blank) {
    a <= b <= |s| && r == s[a..b] && AllSatisfy(s[..a], ws) && AllSatisfy(s[b..], ws)
  }

  /** Trimming keeps a contiguous slice of the input whose two ends are not
      whitespace, and drops only whitespace around it. */
  lemma TrimIsCore(s: string, ws: Blank)
    ensures exists a: nat, b: nat :: CoreAt(s, Trim(s, ws), a, b, ws)
    ensures var r := Trim(s, ws); r == [] || (!IsSpace(ws, r[0]) && !IsSpace(ws, r[|r| - 1]))
  {
    var a, b := TrimBounds(s, ws);
    assert CoreAt(s, Trim(s, ws), a, b, ws);
  }

  /** Where the slice that trimming keeps starts and ends. */
  lemma TrimBounds(s: string, ws: Blank) returns (a: nat, b: nat)
    ensures CoreAt(s, Trim(s, ws), a, b, ws)
    ensures var r := Trim(s, ws); r == [] || (!IsSpace(ws, r[0]) && !IsSpace(ws, r[|r| - 1]))
  {
    var t := TrimStart(s, ws);
    var r := TrimEnd(t, ws);
    assert r == Trim(s, ws);
    a := |s| - |t|;
    b := a + |r|;
    TrimCoreAt(s, t, r, ws);
    CoreEnds(t, r, ws);
  }

  /** A prefix of text that starts with a non-space, ending in a non-space,
      has non-spaces at both ends. */
  lemma CoreEnds(t: string, r: string, ws: Blank)
    requires t == [] || !IsSpace(ws, t[0])
    requires |r| <= |t| && r == t[..|r|]
    requires r == [] || !IsSpace(ws, r[|r| - 1])
    ensures r == [] || (!IsSpace(ws, r[0]) && !IsSpace(ws, r[|r| - 1]))
  {
  }

  /** The slice the two trims keep starts where the leading whitespace
      ends. */
  lemma TrimCoreAt(s: string, t: string, r: string, ws: Blank)
    requires |t| <= |s| && t == s[|s| - |t|..] && AllSatisfy(s[..|s| - |t|], ws)
    requires |r| <= |t| && r == t[..|r|] && AllSatisfy(t[|r|..], ws)
    ensures CoreAt(s, r, |s| - |t|, |s| - |t| + |r|, ws)
  {
    var a := |s| - |t|;
    SlicesOfSuffix(s, a, |r|);
    assert t[|r|..] == s[a + |r|..];
  }

  lemma SlicesOfSuffix(s: string, a: nat, k: nat)
    requires a + k <= |s|
    ensures s[a..][..k] == s[a..a + k]
    ensures s[a..][k..] == s[a + k..]
  {
  }

  lemma TrimStartSkipsSpace(w: string, x: string, ws: Blank)
    requires AllSatisfy(w, ws)
    ensures TrimStart(w + x, ws) == TrimStart(x, ws)
    decreases |w|
  {
    if w == [] {
      assert w + x == x;
    } else {
      assert (w + x)[1..] == w[1..] + x;
      TrimStartSkipsSpace(w[1..], x, ws);
    }
  }

  lemma ConcatHead(x: string, y: string)
    requires x != []
    ensures (x + y)[0] == x[0] && (x + y)[1..] == x[1..] + y
  {
  }

  lemma TrimEndSkipsSpace(x: string, w: string, ws: Blank)
    requires AllSatisfy(w, ws)
    ensures TrimEnd(x + w, ws) == TrimEnd(x, ws)
    decreases |w|
  {
    if w == [] {
      assert x + w == x;
    } else {
      assert (x + w)[..|x + w| - 1] == x + w[..|w| - 1];
      TrimEndSkipsSpace(x, w[..|w| - 1], ws);
    }
  }

  lemma TrimStartKeepsTail(x: string, y: string, ws: Blank)
    requires TrimStart(x, ws) != []
    ensures TrimStart(x + y, ws) == TrimStart(x, ws) + y
    decreases |x|
  {
    ConcatHead(x, y);
    if IsSpace(ws, x[0]) {
      TrimStartKeepsTail(x[1..], y, ws);
    }
  }

  /** Trimming ignores any whitespace added around the text. */
  lemma TrimIgnoresPadding(w1: string, x: string, w2: string, ws: Blank)
    requires AllSatisfy(w1, ws) && AllSatisfy(w2, ws)
    ensures Trim(w1 + x + w2, ws) == Trim(x, ws)
  {
    var y := x + w2;
    assert w1 + x + w2 == w1 + y;
    TrimStartSkipsSpace(w1, y, ws);
    SameStartSameTrim(w1 + y, y, ws);
    TrimIgnoresTrailing(x, w2, ws);
  }

  lemma SameStartSameTrim(a: string, b: string, ws: Blank)
    requires TrimStart(a, ws) == TrimStart(b, ws)
    ensures Trim(a, ws) == Trim(b, ws)
  {
  }

  /** Trimming ignores whitespace added after the text. */
  lemma TrimIgnoresTrailing(x: string, w: string, ws: Blank)
    requires AllSatisfy(w, ws)
    ensures Trim(x + w, ws) == Trim(x, ws)
  {
    var t := TrimStart(x, ws);
    if t == [] {
      BlankTrimsAway(x, w, ws);
    } else {
      TrimStartKeepsTail(x, w, ws);
      TrimEndSkipsSpace(t, w, ws);
    }
  }

  /** Text that is all whitespace stays so with whitespace added after it. */
  lemma BlankTrimsAway(x: string, w: string, ws: Blank)
    requires TrimStart(x, ws) == [] && AllSatisfy(w, ws)
    ensures TrimStart(x + w, ws) == []
  {
    assert x[..|x|] == x;
    assert AllSatisfy(x + w, ws) by {
      forall i | 0 <= i < |x + w| ensures IsSpace(ws, (x + w)[i]) {
        if i < |x| {
          assert (x + w)[i] == x[i];
        } else {
          assert (x + w)[i] == w[i - |x|];
        }
      }
    }
    TrimStartSkipsSpace(x + w, [], ws);
    assert x + w + [] == x + w;
  }

  // ---------------------------------------------------------------------
  // Case
  // ---------------------------------------------------------------------

  predicate IsUpperLetter(c: char) { 'A' <= c <= 'Z' }
  predicate IsLowerLetter(c: char) { 'a' <= c <= 'z' }
  predicate IsLetter(c: char) { IsUpperLetter(c) || IsLowerLetter(c) }
  predicate IsDigit(c: char) { '0' <= c <= '9' }

  function UpperChar(c: char): char {
    if IsLowerLetter(c) then (c as int - 32) as char else c
  }

  /** Python's `s.upper()` on ASCII. */
  function Upper(s: string): (r: string)
    ensures |r| == |s|
    ensures forall i :: 0 <= i < |s| ==> r[i] == UpperChar(s[i])
  {
    seq(|s|, i requires 0 <= i < |s| => UpperChar(s[i]))
  }

  lemma UpperConcat(a: string, b: string)
    ensures Upper(a + b) == Upper(a) + Upper(b)
  {
  }

  /** Upper-casing leaves whitespace alone. */
  lemma UpperKeepsSpace(w: string)
    requires AllSatisfy(w, PythonBlank)
    ensures Upper(w) == w
  {
  }

  /** Upper-casing twice is upper-casing once. */
  lemma UpperIdempotent(s: string)
    ensures Upper(Upper(s)) == Upper(s)
  {
  }

  lemma MiddleSlice(x: string, y: string, z: string)
    ensures (x + y + z)[|x|..|x| + |y|] == y
    ensures (x + y + z)[..|x|] == x
  {
  }
}
