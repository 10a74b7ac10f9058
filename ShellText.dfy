/**
 * String primitives shared by the parsers: Go's two whitespace classes,
 * strings.TrimSpace, HasPrefix, Contains and Replace(.., 1), and the
 * quote- and escape-tracking scan that decides where a trailing `#` comment
 * starts (the same state machine drives removeInlineComment in the alias
 * parser and removeTrailingComment in the include parser).
 *
 * A Go string is modelled as the sequence of its Unicode code points. Every
 * character the scanned code compares against is ASCII, so byte positions and
 * code-point positions select the same cuts.
 */
module ShellText {
  import opened Wrappers

  /** unicode.IsSpace: the characters strings.TrimSpace removes. */
  predicate IsSpace(c: char) {
    || c == ' ' || c == '\t' || c == '\n' || c == '\U{0B}' || c == '\U{0C}' || c == '\r'
    || c == '\U{85}' || c == '\U{A0}' || c == '\U{1680}' || ('\U{2000}' <= c <= '\U{200A}')
    || c == '\U{2028}' || c == '\U{2029}' || c == '\U{202F}' || c == '\U{205F}' || c == '\U{3000}'
  }

  /** RE2's `\s` class, [\t\n\f\r ]: what the regular expressions call whitespace. */
  predicate IsRegexSpace(c: char) {
    c == ' ' || c == '\t' || c == '\n' || c == '\U{0C}' || c == '\r'
  }

  predicate AllSpace(s: string) {
    forall i | 0 <= i < |s| :: IsSpace(s[i])
  }

  /** The first index at or after `i` that holds no whitespace, or |s|. */
  function TrimOffsetFrom(s: string, i: nat): (r: nat)
    requires i <= |s|
    ensures i <= r <= |s|
    ensures forall k | i <= k < r :: IsSpace(s[k])
    ensures r < |s| ==> !IsSpace(s[r])
    decreases |s| - i
  {
    if i == |s| || !IsSpace(s[i]) then i else TrimOffsetFrom(s, i + 1)
  }

  /** Number of leading whitespace characters that strings.TrimSpace drops. */
  function TrimOffset(s: string): (r: nat)
    ensures r <= |s|
    ensures forall k | 0 <= k < r :: IsSpace(s[k])
    ensures r < |s| ==> !IsSpace(s[r])
  {
    TrimOffsetFrom(s, 0)
  }

  /** The end of `s[lo..j]` once its trailing whitespace is dropped. */
  function TrimEndFrom(s: string, lo: nat, j: nat): (r: nat)
    requires lo <= j <= |s|
    ensures lo <= r <= j
    ensures forall k | r <= k < j :: IsSpace(s[k])
    ensures r > lo ==> !IsSpace(s[r - 1])
    decreases j
  {
    if j == lo || !IsSpace(s[j - 1]) then j else TrimEndFrom(s, lo, j - 1)
  }

  /**
   * strings.TrimSpace: the infix of `s` left after dropping leading and
   * trailing whitespace; it neither starts nor ends with whitespace.
   */
  function TrimSpace(s: string): (r: string)
    ensures TrimOffset(s) + |r| <= |s| && r == s[TrimOffset(s)..TrimOffset(s) + |r|]
    ensures forall i | 0 <= i < TrimOffset(s) :: IsSpace(s[i])
    ensures forall i | TrimOffset(s) + |r| <= i < |s| :: IsSpace(s[i])
    ensures r != [] ==> !IsSpace(r[0]) && !IsSpace(r[|r| - 1])
  {
    var off := TrimOffset(s);
    s[off..TrimEndFrom(s, off, |s|)]
  }

  /** A string that TrimSpace leaves alone. */
  predicate IsTrimmed(s: string) {
    s == [] || (!IsSpace(s[0]) && !IsSpace(s[|s| - 1]))
  }

  /**
   * Trimming is determined by its outcome: whitespace around a trimmed core
   * is exactly what TrimSpace removes.
   */
  lemma {:induction false} TrimSpaceOf(p: string, x: string, q: string)
    requires AllSpace(p) && AllSpace(q) && IsTrimmed(x)
    ensures TrimSpace(p + x + q) == x
  {
    var s := p + x + q;
    assert forall i | 0 <= i < |p| :: s[i] == p[i];
    assert forall i | 0 <= i < |q| :: s[|p| + |x| + i] == q[i];
    if x != [] {
      assert s[|p|] == x[0];
      assert s[|p| + |x| - 1] == x[|x| - 1];
      assert TrimOffset(s) == |p|;
    }
  }

  lemma TrimSpaceTrimmed(s: string)
    requires IsTrimmed(s)
    ensures TrimSpace(s) == s
  {
    TrimSpaceOf([], s, []);
    assert [] + s + [] == s;
  }

  /** strings.HasPrefix */
  predicate HasPrefix(s: string, p: string) {
    |p| <= |s| && s[..|p|] == p
  }

  /** `t` occurs in `s` at index i. */
  predicate OccursAt(s: string, t: string, i: nat) {
    i + |t| <= |s| && s[i..i + |t|] == t
  }

  /** strings.Contains */
  predicate Contains(s: string, t: string) {
    exists i: nat | i <= |s| :: OccursAt(s, t, i)
  }

  /** The first index at or after `from` where `t` occurs in `s`. */
  function IndexFrom(s: string, t: string, from: nat): (r: Option<nat>)
    ensures r.Some? ==> from <= r.value && OccursAt(s, t, r.value)
    ensures r.Some? ==> forall j: nat | from <= j < r.value :: !OccursAt(s, t, j)
    ensures r.None? ==> forall j: nat | from <= j :: !OccursAt(s, t, j)
    decreases |s| - from
  {
    if from + |t| > |s| then None
    else if OccursAt(s, t, from) then Some(from)
    else IndexFrom(s, t, from + 1)
  }

  /** The search finds the first occurrence at or after `from`. */
  lemma {:induction false} IndexFromIs(s: string, t: string, from: nat, i: nat)
    requires from <= i && OccursAt(s, t, i)
    requires forall j: nat | from <= j < i :: !OccursAt(s, t, j)
    ensures IndexFrom(s, t, from) == Some(i)
    decreases i - from
  {
    if from < i {
      IndexFromIs(s, t, from + 1, i);
    }
  }

  /** An occurrence starts with the pattern's first character. */
  lemma OccursHead(s: string, t: string, j: nat)
    requires t != []
    ensures OccursAt(s, t, j) ==> s[j] == t[0]
  {
    if OccursAt(s, t, j) {
      assert s[j..j + |t|][0] == s[j];
    }
  }

  /** strings.Replace(s, pat, rep, 1) for a non-empty pattern: the first occurrence only. */
  function ReplaceFirst(s: string, pat: string, rep: string): string
    requires pat != []
  {
    match IndexFrom(s, pat, 0)
    case None => s
    case Some(i) => s[..i] + rep + s[i + |pat|..]
  }

  // ---------------------------------------------------------------------
  // The quote/escape scan (removeInlineComment, removeTrailingComment)
  // ---------------------------------------------------------------------

  /** The three flags the scan keeps: inSingleQuote, inDoubleQuote, escaped. */
  datatype QuoteState = QuoteState(inSingle: bool, inDouble: bool, escaped: bool)

  const Unquoted := QuoteState(false, false, false)

  /**
   * One iteration of the scan for a character that does not stop it: an
   * escaped character is taken literally, a backslash escapes the next
   * character (inside quotes too), a quote toggles its kind unless the other
   * kind is open.
   */
  function Step(st: QuoteState, ch: char): QuoteState {
    if st.escaped then st.(escaped := false)
    else if ch == '\\' then st.(escaped := true)
    else if ch == '\'' && !st.inDouble then st.(inSingle := !st.inSingle)
    else if ch == '"' && !st.inSingle then st.(inDouble := !st.inDouble)
    else st
  }

  /** The flags just before s[i] is examined. */
  function StateAt(s: string, i: nat): QuoteState
    requires i <= |s|
  {
    if i == 0 then Unquoted else Step(StateAt(s, i - 1), s[i - 1])
  }

  /** s[i] starts a comment: a `#` that is not escaped and not inside quotes. */
  predicate IsCommentHash(s: string, i: nat)
    requires i < |s|
  {
    s[i] == '#' && StateAt(s, i) == Unquoted
  }

  function CommentFrom(s: string, from: nat): (k: nat)
    requires from <= |s|
    ensures from <= k <= |s|
    ensures k < |s| ==> IsCommentHash(s, k)
    ensures forall j | from <= j < k :: !IsCommentHash(s, j)
    decreases |s| - from
  {
    if from == |s| then from
    else if IsCommentHash(s, from) then from
    else CommentFrom(s, from + 1)
  }

  /** Where the comment starts: the first comment `#`, or |s| when there is none. */
  function CommentStart(s: string): (k: nat)
    ensures k <= |s|
    ensures k < |s| ==> IsCommentHash(s, k)
    ensures forall j | 0 <= j < k :: !IsCommentHash(s, j)
  {
    CommentFrom(s, 0)
  }

  /** The scan state of a position depends only on the characters before it. */
  lemma {:induction false} StateAtPrefix(s: string, t: string, i: nat)
    requires i <= |s| && i <= |t| && s[..i] == t[..i]
    ensures StateAt(s, i) == StateAt(t, i)
  {
    if i > 0 {
      assert s[i - 1] == s[..i][i - 1] && t[i - 1] == t[..i][i - 1];
      StateAtPrefix(s, t, i - 1);
    }
  }

  /** A character that leaves state `st` as it is. */
  predicate Keeps(st: QuoteState, c: char) {
    Step(st, c) == st
  }

  /** Over a stretch of characters each of which keeps the state, the state does not move. */
  lemma {:induction false} StateRun(s: string, from: nat, to: nat)
    requires from <= to <= |s|
    requires forall j | from <= j < to :: Keeps(StateAt(s, from), s[j])
    ensures StateAt(s, to) == StateAt(s, from)
  {
    if from < to {
      StateRun(s, from, to - 1);
    }
  }

  /** A character the scan treats as ordinary text whatever the state: no backslash, no quote. */
  predicate Plain(c: char) {
    c != '\\' && c != '\'' && c != '"'
  }

  lemma PlainKeeps(st: QuoteState, c: char)
    requires !st.escaped && Plain(c)
    ensures Keeps(st, c)
  {
  }

  /**
   * A stretch of plain characters from the unquoted state holds no comment
   * hash only if it holds no `#`; leading whitespace never opens a quote.
   */
  lemma {:induction false} PlainPrefixUnquoted(s: string, k: nat)
    requires k <= |s|
    requires forall j | 0 <= j < k :: Plain(s[j])
    ensures StateAt(s, k) == Unquoted
  {
    forall j | 0 <= j < k ensures Keeps(StateAt(s, 0), s[j]) {
      PlainKeeps(Unquoted, s[j]);
    }
    StateRun(s, 0, k);
  }

  /** A line whose trimmed form starts with `#` is all comment: the cut falls at that `#`. */
  lemma {:induction false} LeadingHashIsComment(s: string)
    requires HasPrefix(TrimSpace(s), "#")
    ensures CommentStart(s) == TrimOffset(s)
    ensures AllSpace(s[..CommentStart(s)])
  {
    var k := TrimOffset(s);
    assert s[k] == TrimSpace(s)[0] == '#';
    forall j | 0 <= j < k ensures Plain(s[j]) && s[j] != '#' {
      assert s[..k][j] == s[j];
    }
    PlainPrefixUnquoted(s, k);
    assert IsCommentHash(s, k);
  }

  /** The first comment hash is determined by the two facts its contract states. */
  lemma CommentStartUnique(s: string, k: nat)
    requires k <= |s|
    requires k < |s| ==> IsCommentHash(s, k)
    requires forall j | 0 <= j < k :: !IsCommentHash(s, j)
    ensures CommentStart(s) == k
  {
  }

  /** `s` holds no comment and leaves the scan outside quotes and escapes. */
  predicate Closed(s: string) {
    CommentStart(s) == |s| && StateAt(s, |s|) == Unquoted
  }

  /** After a closed prefix the scan starts afresh. */
  lemma {:induction false} StateAtConcat(s: string, t: string, j: nat)
    requires StateAt(s, |s|) == Unquoted && j <= |t|
    ensures StateAt(s + t, |s| + j) == StateAt(t, j)
  {
    if j == 0 {
      assert (s + t)[..|s|] == s[..|s|];
      StateAtPrefix(s + t, s, |s|);
    } else {
      StateAtConcat(s, t, j - 1);
      assert (s + t)[|s| + j - 1] == t[j - 1];
    }
  }

  /** Comment detection composes: after a closed prefix, the comment starts where it starts in the rest. */
  lemma ClosedConcat(s: string, t: string)
    requires Closed(s)
    ensures CommentStart(s + t) == |s| + CommentStart(t)
    ensures Closed(t) ==> Closed(s + t)
  {
    var u := s + t;
    forall j | 0 <= j < |s|
      ensures !IsCommentHash(u, j)
    {
      assert u[..j] == s[..j];
      StateAtPrefix(u, s, j);
      assert !IsCommentHash(s, j);
    }
    forall j | 0 <= j < |t|
      ensures IsCommentHash(u, |s| + j) == IsCommentHash(t, j)
    {
      StateAtConcat(s, t, j);
    }
    var k := CommentStart(t);
    forall j | 0 <= j < |s| + k
      ensures !IsCommentHash(u, j)
    {
      if j >= |s| {
        assert !IsCommentHash(t, j - |s|);
      }
    }
    CommentStartUnique(u, |s| + k);
    StateAtConcat(s, t, |t|);
  }

  /** Text without backslashes, quotes or `#` is closed. */
  lemma PlainClosed(s: string)
    requires forall j | 0 <= j < |s| :: Plain(s[j]) && s[j] != '#'
    ensures Closed(s)
  {
    forall j | 0 <= j < |s|
      ensures !IsCommentHash(s, j)
    {
    }
    CommentStartUnique(s, |s|);
    PlainPrefixUnquoted(s, |s|);
  }

  lemma SpaceClosed(s: string)
    requires AllSpace(s)
    ensures Closed(s)
  {
    PlainClosed(s);
  }

  predicate IsQuote(c: char) {
    c == '\'' || c == '"'
  }

  /** A quoted stretch without backslashes or its own quote kind is closed, whatever `#` it holds. */
  lemma QuotedClosed(q: char, v: string)
    requires IsQuote(q) && q !in v && '\\' !in v
    ensures Closed([q] + v + [q])
  {
    var u := [q] + v + [q];
    assert u[0] == q;
    assert StateAt(u, 0) == Unquoted;
    var inside := StateAt(u, 1);
    assert inside == Step(StateAt(u, 0), u[0]);
    assert inside.inSingle || inside.inDouble;
    forall j | 1 <= j < |v| + 1
      ensures Keeps(inside, u[j])
    {
      assert u[j] == v[j - 1] && v[j - 1] in v;
    }
    StateRun(u, 1, |v| + 1);
    forall j | 0 <= j < |u|
      ensures !IsCommentHash(u, j)
    {
      if 1 <= j < |v| + 1 {
        StateRun(u, 1, j);
      }
    }
    CommentStartUnique(u, |u|);
  }

  /** A stretch that starts with `#` is all comment. */
  lemma HashStartsComment(c: string)
    requires c == [] || c[0] == '#'
    ensures CommentStart(c) == 0
  {
    CommentStartUnique(c, 0);
  }

  /** The end of the run of regex whitespace that starts at i. */
  function SkipRegexSpace(s: string, i: nat): (j: nat)
    requires i <= |s|
    ensures i <= j <= |s|
    ensures forall k | i <= k < j :: IsRegexSpace(s[k])
    ensures j < |s| ==> !IsRegexSpace(s[j])
    decreases |s| - i
  {
    if i < |s| && IsRegexSpace(s[i]) then SkipRegexSpace(s, i + 1) else i
  }

  /** A regex-space run is determined by where it stops. */
  lemma SkipRegexSpaceUnique(s: string, i: nat, j: nat)
    requires i <= j <= |s|
    requires forall k | i <= k < j :: IsRegexSpace(s[k])
    requires j < |s| ==> !IsRegexSpace(s[j])
    ensures SkipRegexSpace(s, i) == j
  {
  }

  /** The end of the line that starts at i: the first newline at or after i, or the end of the text. */
  function LineEnd(s: string, i: nat): (e: nat)
    requires i <= |s|
    ensures i <= e <= |s|
    ensures forall k | i <= k < e :: s[k] != '\n'
    ensures e < |s| ==> s[e] == '\n'
    decreases |s| - i
  {
    if i < |s| && s[i] != '\n' then LineEnd(s, i + 1) else i
  }

  /** A line is determined by where it stops. */
  lemma LineEndUnique(s: string, i: nat, e: nat)
    requires i <= e <= |s|
    requires forall k | i <= k < e :: s[k] != '\n'
    requires e < |s| ==> s[e] == '\n'
    ensures LineEnd(s, i) == e
  {
  }

  /** The text up to its first newline: what `.+` or `.*` can reach from the start. */
  function FirstLine(s: string): (r: string)
    ensures HasPrefix(s, r) && '\n' !in r
    ensures |r| < |s| ==> s[|r|] == '\n'
  {
    s[..LineEnd(s, 0)]
  }

  /** Text without a newline is one line. */
  lemma FirstLineWhole(s: string)
    requires '\n' !in s
    ensures FirstLine(s) == s
  {
    LineEndUnique(s, 0, |s|);
  }

  /** Where the line starting at i ends, when the text from i is known. */
  lemma LineEndAt(s: string, i: nat, t: string)
    requires i <= |s| && s[i..] == t
    ensures LineEnd(s, i) == i + |FirstLine(t)| && s[i..LineEnd(s, i)] == FirstLine(t)
  {
    var e := i + LineEnd(t, 0);
    forall k | i <= k < e
      ensures s[k] != '\n'
    {
      assert s[k] == t[k - i];
    }
    if e < |s| {
      assert s[e] == t[e - i];
    }
    LineEndUnique(s, i, e);
  }
}
