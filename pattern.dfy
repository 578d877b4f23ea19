/**
 * The default version pattern of dynamic.py (`DEFAULT_REGEX`), compiled with
 * the multi-line flag:
 *
 *   ^__version__\s*=\s*["'](?P<version>.+?)["']\s*(?:#.*)?$
 *
 * written out as the search the regular expression engine performs: the
 * leftmost line start at which the header, a lazily matched non-empty
 * `version` group on one line, a closing quote and an optional comment up to
 * the end of the line all match.
 */
module VersionPattern {
  import opened Results

  /** A successful search: where the match starts and the span of the `version` group. */
  datatype Match = Match(start: nat, groupStart: nat, groupEnd: nat)

  /** `\s` on a text pattern: the characters Python classes as whitespace. */
  predicate IsSpace(c: char)
  {
    c == ' ' || ('\t' <= c <= '\r') || ('\U{1c}' <= c <= '\U{1f}') || c == '\U{85}' || c == '\U{a0}'
    || c == '\U{1680}' || ('\U{2000}' <= c <= '\U{200a}') || c == '\U{2028}' || c == '\U{2029}'
    || c == '\U{202f}' || c == '\U{205f}' || c == '\U{3000}'
  }

  predicate IsQuote(c: char) { c == '"' || c == '\'' }

  const VersionName: string := "__version__"

  /** Where `^` matches in multi-line mode: the start of the text or just after a line break. */
  predicate LineStart(c: string, s: nat)
  {
    s <= |c| && (s == 0 || c[s - 1] == '\n')
  }

  /** The first position at or after `i` that `\s*` cannot consume. */
  function SkipSpaces(c: string, i: nat): (j: nat)
    requires i <= |c|
    ensures i <= j <= |c|
    decreases |c| - i
  {
    if i == |c| || !IsSpace(c[i]) then i else SkipSpaces(c, i + 1)
  }

  /** `\s*` is greedy: it passes only whitespace and stops at the first other character. */
  lemma {:induction false} SkipSpacesStops(c: string, i: nat)
    requires i <= |c|
    ensures forall k :: i <= k < SkipSpaces(c, i) ==> IsSpace(c[k])
    ensures SkipSpaces(c, i) == |c| || !IsSpace(c[SkipSpaces(c, i)])
    decreases |c| - i
  {
    if i < |c| && IsSpace(c[i]) {
      SkipSpacesStops(c, i + 1);
    }
  }

  /**
   * Whether `\s*(?:#.*)?$` matches at the start of `s`: after spaces the text
   * ends, or a line ends, or a comment begins (which then runs to the end of
   * the line).
   */
  predicate SuffixOk(s: string)
  {
    if |s| == 0 then true
    else if s[0] == '\n' || s[0] == '#' then true
    else if IsSpace(s[0]) then SuffixOk(s[1..])
    else false
  }

  /** `["']` after `\s*` from `j`: the position just after the opening quote. */
  function OpenQuote(c: string, j: nat): (g: Option<nat>)
    requires j <= |c|
    ensures g.Some? ==> j < g.value <= |c| && IsQuote(c[g.value - 1])
  {
    var q := SkipSpaces(c, j);
    if q < |c| && IsQuote(c[q]) then Some(q + 1) else None
  }

  /** `\s*=\s*["']` from `i`, just after the name. */
  function AfterName(c: string, i: nat): (g: Option<nat>)
    requires i <= |c|
    ensures g.Some? ==> i + 2 <= g.value <= |c| && IsQuote(c[g.value - 1])
  {
    var e := SkipSpaces(c, i);
    if e < |c| && c[e] == '=' then OpenQuote(c, e + 1) else None
  }

  /** Whether `__version__` is written at `s`. */
  predicate NameAt(c: string, s: nat)
  {
    s + |VersionName| <= |c| && c[s..s + |VersionName|] == VersionName
  }

  /**
   * `^__version__\s*=\s*["']` tried at `s`: the position just after the
   * opening quote, where the `version` group starts.
   */
  function HeaderEnd(c: string, s: nat): (g: Option<nat>)
    requires s <= |c|
    ensures g.Some? ==> s + |VersionName| + 2 <= g.value <= |c|
    ensures g.Some? ==> c[s..s + |VersionName|] == VersionName && IsQuote(c[g.value - 1])
  {
    if NameAt(c, s) then AfterName(c, s + |VersionName|) else None
  }

  /** A position where the group may end: a quote followed by a matching suffix. */
  predicate Closes(c: string, p: nat)
    requires p < |c|
  {
    IsQuote(c[p]) && SuffixOk(c[p + 1..])
  }

  /**
   * The lazy `(?P<version>.+?)["']`: the group began at `g` and already holds
   * `c[g..p]`; the first closing position from `p` on, not crossing a line
   * break.
   */
  function CloseFrom(c: string, g: nat, p: nat): (e: Option<nat>)
    requires g < p <= |c|
    decreases |c| - p
  {
    if p == |c| || c[p] == '\n' then None
    else if Closes(c, p) then Some(p)
    else CloseFrom(c, g, p + 1)
  }

  /** The match attempted at `s`, when `^` holds there. */
  function MatchAt(c: string, s: nat): (r: Option<Match>)
    requires s <= |c|
    ensures r.Some? ==> r.value.start == s && HeaderEnd(c, s) == Some(r.value.groupStart)
    ensures r.Some? ==> r.value.groupStart < r.value.groupEnd < |c|
  {
    match HeaderEnd(c, s)
    case None => None
    case Some(g) =>
      if g < |c| && c[g] != '\n' then
        match CloseFrom(c, g, g + 1)
        case None => None
        case Some(e) => CloseFromBounds(c, g, g + 1); Some(Match(s, g, e))
      else None
  }

  /** What the engine finds when it tries position `t`: nothing unless `^` holds there. */
  function AttemptAt(c: string, t: nat): (r: Option<Match>)
    requires t <= |c|
    ensures r.Some? ==> LineStart(c, t) && MatchAt(c, t) == r
  {
    if LineStart(c, t) then MatchAt(c, t) else None
  }

  /** The attempts at every position of the text, in order. */
  function Attempts(c: string): (xs: seq<Option<Match>>)
    ensures |xs| == |c| + 1
  {
    seq(|c| + 1, t requires 0 <= t <= |c| => AttemptAt(c, t))
  }

  /** The first index from `s` on whose attempt succeeds, or `|xs|` when none does. */
  function FirstFound(xs: seq<Option<Match>>, s: nat): (i: nat)
    requires s <= |xs|
    ensures s <= i <= |xs|
    decreases |xs| - s
  {
    if s == |xs| || xs[s].Some? then s else FirstFound(xs, s + 1)
  }

  lemma {:induction false} FirstFoundIsFirst(xs: seq<Option<Match>>, s: nat)
    requires s <= |xs|
    ensures FirstFound(xs, s) < |xs| ==> xs[FirstFound(xs, s)].Some?
    ensures forall t :: s <= t < FirstFound(xs, s) ==> xs[t].None?
    decreases |xs| - s
  {
    if s < |xs| && xs[s].None? {
      FirstFoundIsFirst(xs, s + 1);
    }
  }

  lemma {:induction false} FirstFoundAt(xs: seq<Option<Match>>, s: nat, t: nat)
    requires s <= t < |xs| && xs[t].Some?
    requires forall u :: s <= u < t ==> xs[u].None?
    ensures FirstFound(xs, s) == t
    decreases t - s
  {
    if s < t {
      FirstFoundAt(xs, s + 1, t);
    }
  }

  /** `DEFAULT_REGEX.search(c)`: the attempt at the leftmost position where one succeeds. */
  function Search(c: string): (m: Option<Match>)
    ensures m.Some? ==> m.value.start <= |c| && LineStart(c, m.value.start) && MatchAt(c, m.value.start) == m
  {
    var xs := Attempts(c);
    var i := FirstFound(xs, 0);
    if i < |xs| then xs[i] else None
  }

  /** The search is leftmost: no attempt before the match succeeds, and it misses a match nowhere. */
  lemma SearchLeftmost(c: string)
    ensures Search(c).Some? ==> forall t :: 0 <= t < Search(c).value.start ==> AttemptAt(c, t).None?
    ensures Search(c).None? ==> forall t :: 0 <= t <= |c| ==> AttemptAt(c, t).None?
  {
    var xs := Attempts(c);
    FirstFoundIsFirst(xs, 0);
    var i := FirstFound(xs, 0);
    if i < |xs| {
      assert xs[i] == AttemptAt(c, i);
      assert Search(c).value.start == i;
    }
    forall t | 0 <= t < i ensures AttemptAt(c, t).None? {
      assert xs[t] == AttemptAt(c, t);
    }
  }

  /** The text of the `version` group. */
  function Group(c: string, m: Match): string
    requires m.groupStart <= m.groupEnd <= |c|
  {
    c[m.groupStart..m.groupEnd]
  }

  /** The file with the `version` group replaced by `nv`. */
  function Splice(c: string, m: Match, nv: string): (r: string)
    requires m.groupStart <= m.groupEnd <= |c|
    ensures |r| == |c| - (m.groupEnd - m.groupStart) + |nv|
  {
    c[..m.groupStart] + nv + c[m.groupEnd..]
  }

  /** The spliced text keeps everything before and after the group, with the new text in between. */
  lemma SpliceLayout(c: string, m: Match, nv: string)
    requires m.groupStart <= m.groupEnd <= |c|
    ensures var r := Splice(c, m, nv);
      && r[..m.groupStart] == c[..m.groupStart]
      && r[m.groupStart..m.groupStart + |nv|] == nv
      && r[m.groupStart + |nv|..] == c[m.groupEnd..]
  {
  }

  /** Splicing the group's own text back gives the file unchanged. */
  lemma SpliceSameText(c: string, m: Match)
    requires m.groupStart <= m.groupEnd <= |c|
    ensures Splice(c, m, Group(c, m)) == c
  {
    assert c == c[..m.groupStart] + c[m.groupStart..m.groupEnd] + c[m.groupEnd..];
  }

  // ---------------------------------------------------------------------------
  // Properties of the pieces

  lemma {:induction false} CloseFromBounds(c: string, g: nat, p: nat)
    requires g < p <= |c|
    ensures CloseFrom(c, g, p).Some? ==> p <= CloseFrom(c, g, p).value < |c|
    ensures CloseFrom(c, g, p).Some? ==> Closes(c, CloseFrom(c, g, p).value)
    ensures CloseFrom(c, g, p).Some? ==> forall k :: p <= k < CloseFrom(c, g, p).value ==> c[k] != '\n'
    decreases |c| - p
  {
    if p < |c| && c[p] != '\n' && !Closes(c, p) {
      CloseFromBounds(c, g, p + 1);
    }
  }

  /** The lazy group ends at the first closing position on its line. */
  lemma {:induction false} CloseFromFirst(c: string, g: nat, p: nat, e: nat)
    requires g < p <= e < |c|
    requires forall k :: p <= k < e ==> c[k] != '\n' && !Closes(c, k)
    requires Closes(c, e)
    ensures CloseFrom(c, g, p) == Some(e)
    decreases e - p
  {
    if p < e {
      CloseFromFirst(c, g, p + 1, e);
    }
  }

  /** The first `n` characters of `c` and `d` agree. */
  predicate Agree(c: string, d: string, n: nat)
  {
    n <= |c| && n <= |d| && forall k :: 0 <= k < n ==> c[k] == d[k]
  }

  lemma {:induction false} SkipSpacesFrame(c: string, d: string, i: nat)
    requires i <= |c| && SkipSpaces(c, i) < |c| && Agree(c, d, SkipSpaces(c, i) + 1)
    ensures SkipSpaces(d, i) == SkipSpaces(c, i)
    decreases |c| - i
  {
    if IsSpace(c[i]) {
      SkipSpacesFrame(c, d, i + 1);
    }
  }

  /** `SuffixOk` reads no further than the first line break. */
  lemma {:induction false} SuffixOkFrame(a: string, b: string, k: nat)
    requires k < |a| && a[k] == '\n' && Agree(a, b, k + 1)
    ensures SuffixOk(a) == SuffixOk(b)
    decreases k
  {
    if k > 0 && a[0] != '#' && IsSpace(a[0]) {
      SuffixOkFrame(a[1..], b[1..], k - 1);
    }
  }

  lemma OpenQuoteFrameSuccess(c: string, d: string, j: nat)
    requires j <= |c| && OpenQuote(c, j).Some? && Agree(c, d, OpenQuote(c, j).value)
    ensures OpenQuote(d, j) == OpenQuote(c, j)
  {
    SkipSpacesFrame(c, d, j);
  }

  lemma AfterNameFrameSuccess(c: string, d: string, i: nat)
    requires i <= |c| && AfterName(c, i).Some? && Agree(c, d, AfterName(c, i).value)
    ensures AfterName(d, i) == AfterName(c, i)
  {
    var e := SkipSpaces(c, i);
    SkipSpacesFrame(c, d, i);
    OpenQuoteFrameSuccess(c, d, e + 1);
  }

  /** A header that matched reads nothing beyond its opening quote. */
  lemma HeaderFrameSuccess(c: string, d: string, s: nat)
    requires s <= |c| && HeaderEnd(c, s).Some? && Agree(c, d, HeaderEnd(c, s).value)
    ensures HeaderEnd(d, s) == HeaderEnd(c, s)
  {
    var n := |VersionName|;
    assert d[s..s + n] == c[s..s + n];
    AfterNameFrameSuccess(c, d, s + n);
  }

  /** `__version__` holds no line break, so it ends before any line break after its start. */
  lemma NameBeforeBreak(c: string, s: nat, t: nat)
    requires s < t <= |c| && c[t - 1] == '\n'
    ensures (s + |VersionName| <= |c| && c[s..s + |VersionName|] == VersionName) ==> s + |VersionName| < t
  {
    var n := |VersionName|;
    if s + n <= |c| && c[s..s + n] == VersionName {
      forall k | s <= k < s + n ensures c[k] != '\n' {
        assert c[k] == c[s..s + n][k - s];
      }
    }
  }

  /**
   * `\s*` started before a `__version__` line at `t` stops at that line at
   * the latest, never on the line break before it, and reads only what comes
   * before.
   */
  lemma {:induction false} SkipSpacesBefore(c: string, d: string, i: nat, t: nat)
    requires i <= t < |c| && 0 < t && c[t - 1] == '\n' && c[t] == '_' && Agree(c, d, t + 1)
    ensures SkipSpaces(c, i) <= t && SkipSpaces(c, i) != t - 1 && SkipSpaces(d, i) == SkipSpaces(c, i)
    decreases t - i
  {
    assert d[i] == c[i];
    if i < t && IsSpace(c[i]) {
      SkipSpacesBefore(c, d, i + 1, t);
    }
  }

  lemma OpenQuoteBefore(c: string, d: string, j: nat, t: nat)
    requires j <= t < |c| && 0 < t && c[t - 1] == '\n' && c[t] == '_' && Agree(c, d, t + 1)
    ensures OpenQuote(d, j) == OpenQuote(c, j)
    ensures OpenQuote(c, j).Some? ==> OpenQuote(c, j).value < t
  {
    SkipSpacesBefore(c, d, j, t);
    var q := SkipSpaces(c, j);
    assert d[q] == c[q];
  }

  lemma AfterNameBefore(c: string, d: string, i: nat, t: nat)
    requires i <= t < |c| && 0 < t && c[t - 1] == '\n' && c[t] == '_' && Agree(c, d, t + 1)
    ensures AfterName(d, i) == AfterName(c, i)
    ensures AfterName(c, i).Some? ==> AfterName(c, i).value < t
  {
    SkipSpacesBefore(c, d, i, t);
    var e := SkipSpaces(c, i);
    assert d[e] == c[e];
    if e < t && c[e] == '=' {
      OpenQuoteBefore(c, d, e + 1, t);
    }
  }

  /**
   * An attempt at `s` stops before the next line that starts with
   * `__version__` at `t`: the text from `t + 1` on does not matter to it.
   */
  lemma HeaderFrameBefore(c: string, d: string, s: nat, t: nat)
    requires s < t < |c| && c[t - 1] == '\n' && c[t] == '_' && Agree(c, d, t + 1)
    ensures HeaderEnd(d, s) == HeaderEnd(c, s)
    ensures HeaderEnd(c, s).Some? ==> HeaderEnd(c, s).value < t
  {
    var n := |VersionName|;
    assert d[t - 1] == '\n';
    NameBeforeBreak(c, s, t);
    NameBeforeBreak(d, s, t);
    if s + n < t {
      assert d[s..s + n] == c[s..s + n];
      AfterNameBefore(c, d, s + n, t);
    }
  }

  lemma {:induction false} CloseFrameBefore(c: string, d: string, g: nat, p: nat, t: nat)
    requires g < p < t <= |c| && c[t - 1] == '\n' && Agree(c, d, t)
    ensures CloseFrom(d, g, p) == CloseFrom(c, g, p)
    decreases t - p
  {
    if c[p] != '\n' {
      if IsQuote(c[p]) {
        SuffixOkFrame(c[p + 1..], d[p + 1..], t - 1 - (p + 1));
      }
      CloseFrameBefore(c, d, g, p + 1, t);
    }
  }

  /** Attempts that start before a `__version__` line do not depend on that line. */
  lemma MatchFrameBefore(c: string, d: string, s: nat, t: nat)
    requires s < t < |c| && c[t - 1] == '\n' && c[t] == '_' && Agree(c, d, t + 1)
    ensures MatchAt(d, s) == MatchAt(c, s)
  {
    HeaderFrameBefore(c, d, s, t);
    if HeaderEnd(c, s).Some? {
      var g := HeaderEnd(c, s).value;
      if c[g] != '\n' {
        CloseFrameBefore(c, d, g, g + 1, t);
      }
    }
  }

  /** The search returns the first line start whose attempt succeeds. */
  lemma SearchFindsFirst(c: string, t: nat)
    requires t <= |c| && LineStart(c, t) && MatchAt(c, t).Some?
    requires forall u :: 0 <= u < t ==> AttemptAt(c, u).None?
    ensures Search(c) == MatchAt(c, t)
  {
    var xs := Attempts(c);
    assert xs[t] == MatchAt(c, t);
    forall u | 0 <= u < t ensures xs[u].None? {
      assert xs[u] == AttemptAt(c, u);
    }
    FirstFoundAt(xs, 0, t);
  }

  /** Text that can stand in the `version` group without changing where it ends. */
  predicate Replaceable(nv: string)
  {
    |nv| >= 1 && forall i :: 0 <= i < |nv| ==> !IsQuote(nv[i]) && nv[i] != '\n'
  }

  lemma SpliceAgrees(c: string, m: Match, nv: string)
    requires m.groupStart <= m.groupEnd <= |c|
    ensures Agree(c, Splice(c, m, nv), m.groupStart)
  {
    var d := Splice(c, m, nv);
    SpliceLayout(c, m, nv);
    forall k | 0 <= k < m.groupStart ensures c[k] == d[k] {
      assert d[k] == d[..m.groupStart][k];
    }
  }

  /** An attempt that failed before a `__version__` line still fails once only text after that line changes. */
  lemma EarlierAttemptFails(c: string, d: string, u: nat, t: nat)
    requires u < t < |c| && c[t - 1] == '\n' && c[t] == '_' && Agree(c, d, t + 1)
    requires AttemptAt(c, u).None?
    ensures AttemptAt(d, u).None?
  {
    if LineStart(d, u) {
      assert LineStart(c, u);
      MatchFrameBefore(c, d, u, t);
    }
  }

  /** No line before the match starts a match once its group is replaced. */
  lemma SpliceKeepsEarlierLines(c: string, nv: string)
    requires Search(c).Some?
    ensures var m := Search(c).value;
      forall u :: 0 <= u < m.start ==> AttemptAt(Splice(c, m, nv), u).None?
  {
    SearchLeftmost(c);
    SpliceKeepsLinesBefore(c, Search(c).value, nv);
  }

  lemma SpliceKeepsLinesBefore(c: string, m: Match, nv: string)
    requires m.start <= |c| && LineStart(c, m.start) && MatchAt(c, m.start) == Some(m)
    requires forall u :: 0 <= u < m.start ==> AttemptAt(c, u).None?
    ensures forall u :: 0 <= u < m.start ==> AttemptAt(Splice(c, m, nv), u).None?
  {
    var t := m.start;
    var d := Splice(c, m, nv);
    SpliceAgrees(c, m, nv);
    assert t + |VersionName| < m.groupStart;
    assert Agree(c, d, t + 1);
    assert c[t] == '_' by {
      assert c[t..t + |VersionName|] == VersionName;
      assert c[t] == c[t..t + |VersionName|][0];
    }
    forall u | 0 <= u < t ensures AttemptAt(d, u).None? {
      EarlierAttemptFails(c, d, u, t);
    }
  }

  /** Replacing a group by quote-free text on one line moves its closing quote to just after that text. */
  lemma SpliceCloses(c: string, gs: nat, ge: nat, nv: string)
    requires gs < ge < |c| && Closes(c, ge) && Replaceable(nv)
    ensures var d := c[..gs] + nv + c[ge..];
      d[gs] != '\n' && CloseFrom(d, gs, gs + 1) == Some(gs + |nv|)
  {
    var d := c[..gs] + nv + c[ge..];
    var ge' := gs + |nv|;
    assert d[ge'..] == c[ge..];
    assert d[ge'] == c[ge];
    assert d[ge' + 1..] == c[ge + 1..];
    assert Closes(d, ge');
    forall k | gs <= k < ge' ensures d[k] == nv[k - gs] {
      assert d[k] == (c[..gs] + nv)[k];
    }
    CloseFromFirst(d, gs, gs + 1, ge');
  }

  /** At the match's own start the header reads the same and the group ends right after the new text. */
  lemma SpliceMatchesAtStart(c: string, nv: string)
    requires Search(c).Some? && Replaceable(nv)
    ensures var m := Search(c).value;
      LineStart(Splice(c, m, nv), m.start) &&
      MatchAt(Splice(c, m, nv), m.start) == Some(Match(m.start, m.groupStart, m.groupStart + |nv|))
  {
    var m := Search(c).value;
    SpliceMatchesAt(c, m, nv);
  }

  /** What a successful attempt consists of. */
  lemma MatchAtParts(c: string, s: nat)
    requires s <= |c| && MatchAt(c, s).Some?
    ensures var m := MatchAt(c, s).value;
      && HeaderEnd(c, s) == Some(m.groupStart) && c[m.groupStart] != '\n'
      && CloseFrom(c, m.groupStart, m.groupStart + 1) == Some(m.groupEnd) && Closes(c, m.groupEnd)
  {
    var g := HeaderEnd(c, s).value;
    CloseFromBounds(c, g, g + 1);
  }

  /** An attempt succeeds once its header and its closing quote are found. */
  lemma MatchAtFromParts(d: string, s: nat, g: nat, e: nat)
    requires s <= |d| && HeaderEnd(d, s) == Some(g) && g < |d| && d[g] != '\n'
    requires g + 1 <= |d| && CloseFrom(d, g, g + 1) == Some(e)
    ensures MatchAt(d, s) == Some(Match(s, g, e))
  {
  }

  lemma SpliceMatchesAt(c: string, m: Match, nv: string)
    requires m.start <= |c| && LineStart(c, m.start) && MatchAt(c, m.start) == Some(m) && Replaceable(nv)
    ensures LineStart(Splice(c, m, nv), m.start)
    ensures MatchAt(Splice(c, m, nv), m.start) == Some(Match(m.start, m.groupStart, m.groupStart + |nv|))
  {
    var s, gs, ge := m.start, m.groupStart, m.groupEnd;
    MatchAtParts(c, s);
    var d := Splice(c, m, nv);
    SpliceAgrees(c, m, nv);
    assert s > 0 ==> d[s - 1] == c[s - 1];
    HeaderFrameSuccess(c, d, s);
    SpliceCloses(c, gs, ge, nv);
    MatchAtFromParts(d, s, gs, gs + |nv|);
  }

  /**
   * Writing a new version into the group and searching again finds the
   * same line, with the group now spanning exactly the new text.
   */
  lemma SearchAfterSplice(c: string, nv: string)
    requires Search(c).Some? && Replaceable(nv)
    ensures var m := Search(c).value;
      Search(Splice(c, m, nv)) == Some(Match(m.start, m.groupStart, m.groupStart + |nv|))
    ensures var m := Search(c).value;
      var r := Splice(c, m, nv);
      m.groupStart + |nv| <= |r| && Group(r, Match(m.start, m.groupStart, m.groupStart + |nv|)) == nv
  {
    var m := Search(c).value;
    SpliceKeepsEarlierLines(c, nv);
    SpliceMatchesAtStart(c, nv);
    SearchFindsFirst(Splice(c, m, nv), m.start);
  }

  /** A version file holding one assignment with a trailing comment. */
  const ExampleText: string := "__version__ = '1.0' # set\n"

  lemma ExampleHeader()
    ensures HeaderEnd(ExampleText, 0) == Some(15)
  {
    var c := ExampleText;
    assert |c| == 26;
    assert c[..11] == VersionName by {
      forall k | 0 <= k < 11 ensures c[..11][k] == VersionName[k] {
        assert c[..11][k] == c[k];
      }
    }
    assert c[11] == ' ' && c[12] == '=' && c[13] == ' ' && c[14] == '\'';
    assert SkipSpaces(c, 12) == 12;
    assert SkipSpaces(c, 11) == 12;
    assert SkipSpaces(c, 14) == 14;
    assert SkipSpaces(c, 13) == 14;
  }

  lemma ExampleClose()
    ensures CloseFrom(ExampleText, 15, 16) == Some(18)
  {
    var c := ExampleText;
    assert |c| == 26;
    assert c[16] == '.' && c[17] == '0' && c[18] == '\'';
    assert c[19..][0] == ' ' && c[19..][1] == '#';
    assert SuffixOk(c[19..][1..]);
    assert Closes(c, 18);
    CloseFromFirst(c, 15, 16, 18);
  }

  lemma SearchExample()
    ensures Search(ExampleText) == Some(Match(0, 15, 18))
  {
    ExampleHeader();
    ExampleClose();
    assert ExampleText[15] == '1';
    assert MatchAt(ExampleText, 0) == Some(Match(0, 15, 18));
  }
}
