/**
 * The include line parser (internal/scanner/include.go): the plain
 * `source P` / `. P` form, the guarded `[ -f T ] ... source P` form, the
 * argument cleaner extractPath with its quote-aware removeTrailingComment,
 * and the IsIncludeLine pre-check.
 *
 * The two regular expressions are modelled as explicit recognisers that pick
 * the same groups RE2's leftmost-first matching picks on a line without a
 * newline: the plain pattern takes everything after the command word and its
 * blanks; the guarded pattern needs a complete `[ -f X ]` (or `[[ -f X ]]`)
 * test and then takes the argument of the LAST `source` or `.` command after
 * it (the greedy `.*`), up to the first point where only blanks and then `;`
 * or the end of the line follow (the lazy `(.+?)`).
 */
module IncludeParser {
  import opened Wrappers
  import opened ShellText

  /** ParseResult: an include path and whether it came from a guarded include. */
  datatype ParseResult = ParseResult(path: string, conditional: bool)

  // ---------------------------------------------------------------------
  // removeTrailingComment
  // ---------------------------------------------------------------------

  /**
   * The argument with its trailing comment removed: up to the first `#` that
   * is neither escaped nor quoted, trimmed; an argument without such a `#`
   * comes back untouched (not even trimmed).
   */
  function CommentStripped(s: string): (r: string)
    ensures CommentStart(s) == |s| ==> r == s
    ensures CommentStart(s) < |s| ==> IsTrimmed(r) && |r| <= CommentStart(s)
  {
    var k := CommentStart(s);
    if k < |s| then TrimSpace(s[..k]) else s
  }

  /** removeTrailingComment: the same flag-tracking scan as the alias parser's, returning at the comment. */
  method RemoveTrailingComment(s: string) returns (r: string)
    ensures r == CommentStripped(s)
  {
    var inSingleQuote, inDoubleQuote, escaped := false, false, false;
    var i := 0;
    while i < |s|
      invariant i <= |s|
      invariant QuoteState(inSingleQuote, inDoubleQuote, escaped) == StateAt(s, i)
      invariant forall j | 0 <= j < i :: !IsCommentHash(s, j)
    {
      var ch := s[i];
      if escaped {
        escaped := false;
      } else if ch == '\\' {
        escaped := true;
      } else if ch == '\'' && !inDoubleQuote {
        inSingleQuote := !inSingleQuote;
      } else if ch == '"' && !inSingleQuote {
        inDoubleQuote := !inDoubleQuote;
      } else if ch == '#' && !inSingleQuote && !inDoubleQuote {
        CommentStartUnique(s, i);
        return TrimSpace(s[..i]);
      }
      i := i + 1;
    }
    CommentStartUnique(s, i);
    r := s;
  }

  // ---------------------------------------------------------------------
  // extractPath
  // ---------------------------------------------------------------------

  /** strings.TrimRight(s, ";"): every trailing semicolon dropped. */
  function TrimSemicolons(s: string): (r: string)
    ensures |r| <= |s| && r == s[..|r|]
    ensures forall i | |r| <= i < |s| :: s[i] == ';'
    ensures r != [] ==> r[|r| - 1] != ';'
  {
    if s != [] && s[|s| - 1] == ';' then TrimSemicolons(s[..|s| - 1]) else s
  }

  /** What extractPath returns: trimmed, comment removed, trailing `;` removed, trimmed again. */
  function PathOf(s: string): (r: string)
    ensures IsTrimmed(r) && |r| <= |s|
  {
    TrimSpace(TrimSemicolons(CommentStripped(TrimSpace(s))))
  }

  /** extractPath */
  method ExtractPath(s: string) returns (path: string)
    ensures path == PathOf(s)
  {
    var t := TrimSpace(s);
    t := RemoveTrailingComment(t);
    t := TrimSemicolons(t);
    path := TrimSpace(t);
  }

  /** Trailing semicolons are exactly what TrimSemicolons removes. */
  lemma {:induction false} TrimSemicolonsOf(p: string, semis: string)
    requires p == [] || p[|p| - 1] != ';'
    requires forall i | 0 <= i < |semis| :: semis[i] == ';'
    ensures TrimSemicolons(p + semis) == p
  {
    var s := p + semis;
    var r := TrimSemicolons(s);
    assert forall i | |p| <= i < |s| :: s[i] == semis[i - |p|];
    assert p != [] ==> s[|p| - 1] == p[|p| - 1];
    assert |r| == |p|;
    assert s[..|p|] == p;
  }

  /**
   * A closed path followed by semicolons, surrounded by whitespace, comes
   * out as the path: `source ~/.bashrc;` names ~/.bashrc. Quotes are kept.
   */
  lemma {:induction false} PathOfPlain(lead: string, p: string, semis: string, trail: string)
    requires AllSpace(lead) && AllSpace(trail)
    requires p != [] && IsTrimmed(p) && Closed(p) && p[|p| - 1] != ';'
    requires forall i | 0 <= i < |semis| :: semis[i] == ';'
    ensures PathOf(lead + (p + semis) + trail) == p
  {
    var x := p + semis;
    assert x[0] == p[0];
    if semis != [] {
      assert x[|x| - 1] == semis[|semis| - 1];
    } else {
      assert x == p;
    }
    TrimSpaceOf(lead, x, trail);
    PlainClosed(semis);
    ClosedConcat(p, semis);
    TrimSemicolonsOf(p, semis);
    TrimSpaceTrimmed(p);
  }

  /** A trailing `# comment` after the path is dropped: `source ~/.bashrc # load config` names ~/.bashrc. */
  lemma {:induction false} PathOfCommented(p: string, ws: string, c: string)
    requires p != [] && IsTrimmed(p) && Closed(p) && p[|p| - 1] != ';'
    requires AllSpace(ws) && c != [] && c[0] == '#' && IsTrimmed(c)
    ensures PathOf(p + ws + c) == p
  {
    var s := p + ws + c;
    assert s[0] == p[0] && s[|s| - 1] == c[|c| - 1];
    TrimSpaceTrimmed(s);
    CommentedStripped(p, ws, c);
    TrimSemicolonsOf(p, []);
    assert p + [] == p;
    TrimSpaceTrimmed(p);
  }

  lemma {:induction false} CommentedStripped(p: string, ws: string, c: string)
    requires p != [] && IsTrimmed(p) && Closed(p) && AllSpace(ws) && c != [] && c[0] == '#'
    ensures CommentStripped(p + ws + c) == p
  {
    var s := p + ws + c;
    SpaceClosed(ws);
    ClosedConcat(p, ws);
    HashStartsComment(c);
    ClosedConcat(p + ws, c);
    assert s[..|p| + |ws|] == p + ws;
    TrimSpaceOf([], p, ws);
    assert [] + p + ws == p + ws;
  }

  // ---------------------------------------------------------------------
  // The plain pattern ^\s*(source|\.)\s+(.+)
  // ---------------------------------------------------------------------

  /** The literal `source` at i. */
  predicate SourceWordAt(s: string, i: nat) {
    && i + 6 <= |s|
    && s[i] == 's' && s[i + 1] == 'o' && s[i + 2] == 'u'
    && s[i + 3] == 'r' && s[i + 4] == 'c' && s[i + 5] == 'e'
  }

  /** The end of the command word `source` or `.` that starts at i, if one does. */
  function CommandEnd(s: string, i: nat): (k: Option<nat>)
    ensures k.Some? ==> i < k.value <= |s|
  {
    if SourceWordAt(s, i) then Some(i + 6)
    else if i < |s| && s[i] == '.' then Some(i + 1)
    else None
  }

  /**
   * Where the group after `\s+` starts when the blanks start at k: after the
   * greedy run of blanks, or on the run's last blank when the blanks reach the
   * end of the text; None when there is no blank at k or nothing would be
   * left for the group.
   */
  function ArgStart(s: string, k: nat): (a: Option<nat>)
    requires k <= |s|
    ensures a.Some? ==> k < a.value < |s|
  {
    var j := SkipRegexSpace(s, k);
    if j == k then None
    else if j < |s| then Some(j)
    else if j - k >= 2 then Some(j - 1)
    else None
  }

  /** Group 2 of the plain pattern: everything after the command word and its blanks. */
  function SourceArg(s: string): (g: Option<string>)
    ensures g.Some? ==> g.value != [] && |g.value| < |s|
  {
    var i := SkipRegexSpace(s, 0);
    match CommandEnd(s, i)
    case None => None
    case Some(k) =>
      match ArgStart(s, k)
      case None => None
      case Some(a) => Some(s[a..])
  }

  // ---------------------------------------------------------------------
  // The guarded pattern
  // (?:if\s+)?\[\[?\s+-f\s+(.+?)\s+\]\]?.*(?:source|\.)\s+(.+?)(?:\s*;|\s*$)
  // ---------------------------------------------------------------------

  /** A command word at i followed by blanks and an argument: where the argument starts. */
  function CommandArg(s: string, i: nat): Option<nat>
    requires i <= |s|
  {
    match CommandEnd(s, i)
    case None => None
    case Some(k) => ArgStart(s, k)
  }

  /** The last position in [lo, hi) where a command with an argument starts. */
  function LastCommand(s: string, lo: nat, hi: nat): (i: Option<nat>)
    requires lo <= hi <= |s|
    ensures i.Some? ==> lo <= i.value < hi && CommandArg(s, i.value).Some?
    decreases hi
  {
    if hi == lo then None
    else if CommandArg(s, hi - 1).Some? then Some(hi - 1)
    else LastCommand(s, lo, hi - 1)
  }

  /** `(?:\s*;|\s*$)` matches at t: blanks, then `;` or the end of the text. */
  predicate StopsAt(s: string, t: nat)
    requires t <= |s|
  {
    var e := SkipRegexSpace(s, t);
    e == |s| || s[e] == ';'
  }

  /** The lazy `(.+?)`: the first end at or after t at which the pattern can stop. */
  function LazyEnd(s: string, t: nat): (e: nat)
    requires t <= |s|
    ensures t <= e <= |s|
    decreases |s| - t
  {
    if StopsAt(s, t) then t else LazyEnd(s, t + 1)
  }

  /** `[` or `[[` at b, then blanks, then `-f`: where `-f` starts. */
  function TestFlagAt(s: string, b: nat): Option<nat>
    requires b < |s|
  {
    if s[b] != '[' then None
    else
      var o := if b + 1 < |s| && s[b + 1] == '[' then b + 2 else b + 1;
      var m := SkipRegexSpace(s, o);
      if m > o && m + 1 < |s| && s[m] == '-' && s[m + 1] == 'f' then Some(m) else None
  }

  /** `\s+\]`: a `]` right after a blank. */
  predicate IsClose(s: string, j: nat)
    requires 0 < j < |s|
  {
    s[j] == ']' && IsRegexSpace(s[j - 1])
  }

  /** The first `]` at or after r that follows a blank. */
  function CloseFrom(s: string, r: nat): (c: Option<nat>)
    requires 0 < r
    ensures c.Some? ==> r <= c.value < |s| && IsClose(s, c.value)
    decreases |s| - r
  {
    if r >= |s| then None
    else if IsClose(s, r) then Some(r)
    else CloseFrom(s, r + 1)
  }

  /**
   * A complete test opening at b: `-f`, a blank, at least one character of
   * test argument, blanks and the `]`; the position of that `]`.
   */
  function GuardCloseAt(s: string, b: nat): (c: Option<nat>)
    requires b < |s|
    ensures c.Some? ==> b < c.value < |s|
  {
    match TestFlagAt(s, b)
    case None => None
    case Some(m) => if m + 2 < |s| && IsRegexSpace(s[m + 2]) then CloseFrom(s, m + 5) else None
  }

  /**
   * The `]` of the leftmost complete test at or after b. A later `[` can
   * only close later, so this is the earliest point after which the
   * command may stand.
   */
  function FirstGuardClose(s: string, b: nat): (c: Option<nat>)
    requires b <= |s|
    ensures c.Some? ==> b < c.value < |s|
    decreases |s| - b
  {
    if b == |s| then None
    else if GuardCloseAt(s, b).Some? then GuardCloseAt(s, b)
    else FirstGuardClose(s, b + 1)
  }

  /** Group 2 of the guarded pattern: the argument of the last command after the test. */
  function GuardedArg(s: string): (g: Option<string>)
    ensures g.Some? ==> g.value != [] && |g.value| < |s|
  {
    match FirstGuardClose(s, 0)
    case None => None
    case Some(c) =>
      match LastCommand(s, c + 1, |s|)
      case None => None
      case Some(i) =>
        var a := CommandArg(s, i).value;
        Some(s[a..LazyEnd(s, a + 1)])
  }

  // ---------------------------------------------------------------------
  // ParseLine and IsIncludeLine
  // ---------------------------------------------------------------------

  /** At most one result, and only for a non-empty cleaned path. */
  function Found(path: string, conditional: bool): seq<ParseResult> {
    if path == [] then [] else [ParseResult(path, conditional)]
  }

  /**
   * What ParseLine returns for a line: nothing for a blank or `#` line; the
   * guarded form first, flagged conditional; then the plain form. When a
   * form matches but its path cleans to nothing, there is no result and the
   * other form is not tried.
   */
  function IncludesOf(line: string): (r: seq<ParseResult>)
    ensures |r| <= 1
    ensures forall x | x in r :: x.path != [] && IsTrimmed(x.path)
    ensures TrimSpace(line) == [] || TrimSpace(line)[0] == '#' ==> r == []
  {
    var t := TrimSpace(line);
    if t == [] || t[0] == '#' then []
    else
      match GuardedArg(t)
      case Some(g) => Found(PathOf(g), true)
      case None =>
        match SourceArg(t)
        case Some(g) => Found(PathOf(g), false)
        case None => []
  }

  /** IncludeParser.ParseLine: builds the result slice by appending. */
  method ParseLine(line: string) returns (results: seq<ParseResult>)
    ensures results == IncludesOf(line)
  {
    results := [];
    var t := TrimSpace(line);
    if t == [] || t[0] == '#' {
      return;
    }
    var guarded := GuardedArg(t);
    if guarded.Some? {
      var path := ExtractPath(guarded.value);
      if path != [] {
        results := results + [ParseResult(path, true)];
      }
      return;
    }
    var plain := SourceArg(t);
    if plain.Some? {
      var path := ExtractPath(plain.value);
      if path != [] {
        results := results + [ParseResult(path, false)];
      }
    }
  }

  /** IsIncludeLine: the pre-check the scanner applies before ParseLine. */
  predicate IsIncludeLine(line: string) {
    LooksLikeInclude(TrimSpace(line))
  }

  /** The test IsIncludeLine applies to the trimmed line. */
  predicate LooksLikeInclude(t: string) {
    !HasPrefix(t, "#") && (HasPrefix(t, "source ") || HasPrefix(t, ". ") || Contains(t, "source "))
  }

  // ---------------------------------------------------------------------
  // Properties of the recognisers
  // ---------------------------------------------------------------------

  /** Without a `[` there is no test. */
  lemma {:induction false} NoBracketNoGuard(s: string, b: nat)
    requires b <= |s|
    requires forall j | b <= j < |s| :: s[j] != '['
    ensures FirstGuardClose(s, b).None?
    decreases |s| - b
  {
    if b < |s| {
      NoBracketNoGuard(s, b + 1);
    }
  }

  /** IsRegexSpace is a subset of IsSpace. */
  lemma {:induction false} RegexSpaceIsSpace(c: char)
    requires IsRegexSpace(c)
    ensures IsSpace(c)
  {
  }

  /** The command word of a line: `source` or `.`. */
  predicate IsCommandWord(kw: string) {
    kw == "source" || kw == "."
  }

  lemma {:induction false} CommandWordAt(t: string, kw: string, rest: string)
    requires IsCommandWord(kw) && t == kw + rest
    ensures CommandEnd(t, 0) == Some(|kw|)
  {
    assert t[..|kw|] == kw;
    forall q | 0 <= q < |kw| ensures t[q] == kw[q] {
    }
  }

  /** A non-empty run of blanks. */
  predicate Blanks(sp: string) {
    sp != [] && forall j | 0 <= j < |sp| :: IsRegexSpace(sp[j])
  }

  /**
   * `source ARG` or `. ARG`, with any leading and trailing whitespace and any
   * blanks after the command word: one unconditional result, the cleaned
   * argument, provided the line holds no `[` (which could open a test).
   */
  lemma {:induction false} PlainSourceLine(lead: string, kw: string, sp: string, arg: string, trail: string)
    requires AllSpace(lead) && AllSpace(trail) && IsCommandWord(kw) && Blanks(sp)
    requires arg != [] && IsTrimmed(arg) && forall j | 0 <= j < |arg| :: arg[j] != '['
    ensures IncludesOf(lead + (kw + sp + arg) + trail) == Found(PathOf(arg), false)
  {
    CommandLineTrim(lead, kw, sp, arg, trail);
    PlainSourceArg(kw, sp, arg);
    assert (kw + sp + arg)[0] == kw[0];
    IncludesOfPlain(lead + (kw + sp + arg) + trail, kw + sp + arg, arg);
  }

  /** On `source ARG` the guarded pattern fails and the plain pattern's group is ARG. */
  lemma {:induction false} PlainSourceArg(kw: string, sp: string, arg: string)
    requires IsCommandWord(kw) && Blanks(sp)
    requires arg != [] && !IsSpace(arg[0]) && forall j | 0 <= j < |arg| :: arg[j] != '['
    ensures GuardedArg(kw + sp + arg).None? && SourceArg(kw + sp + arg) == Some(arg)
  {
    var t := kw + sp + arg;
    forall j | 0 <= j < |t| ensures t[j] != '[' {
      if j >= |kw| + |sp| {
        assert t[j] == arg[j - |kw| - |sp|];
      } else if j >= |kw| {
        assert t[j] == sp[j - |kw|];
      }
    }
    NoBracketNoGuard(t, 0);
    assert !IsRegexSpace(t[0]);
    SkipRegexSpaceUnique(t, 0, 0);
    CommandWordAt(t, kw, sp + arg);
    var a := |kw| + |sp|;
    assert t[a] == arg[0];
    forall j | |kw| <= j < a ensures IsRegexSpace(t[j]) {
      assert t[j] == sp[j - |kw|];
    }
    SkipRegexSpaceUnique(t, |kw|, a);
    assert t[a..] == arg;
  }

  /** ParseLine's decision on a line whose trimmed form matches only the plain pattern. */
  lemma {:induction false} IncludesOfPlain(line: string, t: string, g: string)
    requires TrimSpace(line) == t && t != [] && t[0] != '#'
    requires GuardedArg(t).None? && SourceArg(t) == Some(g)
    ensures IncludesOf(line) == Found(PathOf(g), false)
  {
  }

  /** ParseLine's decision on a line whose trimmed form matches the guarded pattern. */
  lemma {:induction false} IncludesOfGuarded(line: string, t: string, g: string)
    requires TrimSpace(line) == t && t != [] && t[0] != '#'
    requires GuardedArg(t) == Some(g)
    ensures IncludesOf(line) == Found(PathOf(g), true)
  {
  }

  /**
   * A `[ -f X ]` test (o == 0) or `[[ -f X ]]` test (o == 1) with a non-empty
   * X that starts at b, with no `[` before it, is the leftmost test.
   */
  lemma {:induction false} GuardFound(s: string, b: nat, n: nat, o: nat)
    requires o <= 1 && 1 <= n && b + o + n + 6 < |s|
    requires forall j | 0 <= j < b :: s[j] != '['
    requires s[b] == '[' && (o == 1 <==> s[b + 1] == '[')
    requires s[b + o + 1] == ' ' && s[b + o + 2] == '-' && s[b + o + 3] == 'f' && s[b + o + 4] == ' '
    requires s[b + o + n + 5] == ' ' && s[b + o + n + 6] == ']'
    ensures FirstGuardClose(s, 0).Some? && FirstGuardClose(s, 0).value <= b + o + n + 6
  {
    forall j | 0 <= j < b ensures GuardCloseAt(s, j).None? {
    }
    SkipRegexSpaceUnique(s, b + o + 1, b + o + 2);
    assert TestFlagAt(s, b) == Some(b + o + 2);
    assert IsClose(s, b + o + n + 6);
    CloseFromReaches(s, b + o + 7, b + o + n + 6);
    FirstGuardFrom(s, 0, b);
  }

  /** The leftmost search passes over positions that open no test. */
  lemma {:induction false} FirstGuardFrom(s: string, from: nat, b: nat)
    requires from <= b < |s|
    requires forall j | from <= j < b :: GuardCloseAt(s, j).None?
    ensures FirstGuardClose(s, from) == FirstGuardClose(s, b)
    decreases b - from
  {
    if from < b {
      FirstGuardFrom(s, from + 1, b);
    }
  }

  /** The last command is the one after which no command with an argument starts. */
  lemma {:induction false} LastCommandIs(s: string, lo: nat, i: nat, hi: nat)
    requires lo <= i < hi <= |s| && CommandArg(s, i).Some?
    requires forall j | i < j < hi :: CommandArg(s, j).None?
    ensures LastCommand(s, lo, hi) == Some(i)
    decreases hi
  {
    if i < hi - 1 {
      LastCommandIs(s, lo, i, hi - 1);
    }
  }

  /** The lazy group ends at the first place where the pattern can stop. */
  lemma {:induction false} LazyEndIs(s: string, t: nat, e: nat)
    requires t <= e <= |s| && StopsAt(s, e)
    requires forall u | t <= u < e :: !StopsAt(s, u)
    ensures LazyEnd(s, t) == e
    decreases e - t
  {
    if t < e {
      LazyEndIs(s, t + 1, e);
    }
  }

  /** A `]` after a blank is found by the search for the first one. */
  lemma {:induction false} CloseFromReaches(s: string, r: nat, w: nat)
    requires 0 < r <= w < |s| && IsClose(s, w)
    ensures CloseFrom(s, r).Some? && CloseFrom(s, r).value <= w
    decreases w - r
  {
    if r < w && !IsClose(s, r) {
      CloseFromReaches(s, r + 1, w);
    }
  }

  /** A command needs a blank right after its word. */
  lemma {:induction false} CommandNeedsBlank(s: string, j: nat)
    requires j <= |s| && CommandArg(s, j).Some?
    ensures j < |s| && (s[j] == 's' || s[j] == '.')
    ensures s[j] == '.' ==> j + 1 < |s| && IsRegexSpace(s[j + 1])
    ensures s[j] == 's' ==> j + 6 < |s| && IsRegexSpace(s[j + 6]) && SourceWordAt(s, j)
  {
  }

  /** The letters of the command word `source` are neither blanks nor `;`. */
  lemma {:induction false} SourceWordLetters(s: string, j: nat, q: nat)
    requires SourceWordAt(s, j) && q < 6
    ensures s[j + q] != ';' && !IsRegexSpace(s[j + q]) && s[j + q] != '.'
    ensures 0 < q ==> s[j + q] != 's'
  {
  }

  /**
   * A path without whitespace or `;`, followed by nothing or by `;` and text
   * without `s` or `.`: no command starts after the command word that
   * introduced the path.
   */
  lemma {:induction false} QuietTail(t: string, at: nat, kw: string, sp: string, p: string, rest: string)
    requires IsCommandWord(kw) && Blanks(sp) && at + |kw| + |sp| + |p| + |rest| == |t|
    requires t[at..] == kw + sp + p + rest
    requires forall j | 0 <= j < |p| :: !IsSpace(p[j]) && p[j] != ';'
    requires rest == [] || rest[0] == ';'
    requires forall j | 0 <= j < |rest| :: rest[j] != 's' && rest[j] != '.'
    ensures forall j | at < j < |t| :: CommandArg(t, j).None?
  {
    var a := at + |kw| + |sp|;
    var e := a + |p|;
    forall j | at < j < |t|
      ensures CommandArg(t, j).None?
    {
      if CommandArg(t, j).Some? {
        CommandNeedsBlank(t, j);
        assert t[j] == t[at..][j - at];
        if a <= j < e && (if t[j] == '.' then j + 1 else j + 6) >= e {
          assert e < |t| && t[e] == t[at..][e - at] == rest[0];
          if t[j] == 's' {
            SourceWordLetters(t, j, e - j);
          }
        }
      }
    }
  }

  /** The text of a `-f` test: `[ -f TEST ]`, or `[[ -f TEST ]]` as zsh writes it. */
  function TestText(test: string, dbl: bool): string {
    if dbl then "[[ -f " + test + " ]]" else "[ -f " + test + " ]"
  }

  /**
   * A guarded include: `HEAD[ -f TEST ]MID source P REST` or
   * `HEAD[[ -f TEST ]]MID source P REST` (or with `.`): one conditional
   * result naming P, whatever the test names. HEAD (such as `if `) holds no
   * `[`; REST is empty or starts with `;` (such as `; fi`).
   */
  lemma {:induction false} GuardedSourceLine(lead: string, head: string, test: string, dbl: bool, mid: string,
                          kw: string, sp: string, p: string, rest: string, trail: string)
    requires AllSpace(lead) && AllSpace(trail)
    requires forall j | 0 <= j < |head| :: head[j] != '['
    requires head == [] || (!IsSpace(head[0]) && head[0] != '#')
    requires test != [] && IsCommandWord(kw) && Blanks(sp)
    requires p != [] && Closed(p) && forall j | 0 <= j < |p| :: !IsSpace(p[j]) && p[j] != ';'
    requires rest == [] || (rest[0] == ';' && !IsSpace(rest[|rest| - 1]))
    requires forall j | 0 <= j < |rest| :: rest[j] != 's' && rest[j] != '.'
    ensures var t := head + TestText(test, dbl) + mid + (kw + sp + p + rest);
      IncludesOf(lead + t + trail) == [ParseResult(p, true)]
  {
    var g := TestText(test, dbl);
    var t := head + g + mid + (kw + sp + p + rest);
    GuardedTrim(lead, head, g, mid, kw, sp, p, rest, trail);
    GuardedArgOf(head, test, dbl, mid, kw, sp, p, rest);
    BarePath(p);
    IncludesOfGuarded(lead + t + trail, t, p);
  }

  /** On a guarded line the group is the command's argument P. */
  lemma {:induction false} GuardedArgOf(head: string, test: string, dbl: bool, mid: string, kw: string, sp: string,
                      p: string, rest: string)
    requires forall j | 0 <= j < |head| :: head[j] != '['
    requires test != [] && IsCommandWord(kw) && Blanks(sp)
    requires p != [] && forall j | 0 <= j < |p| :: !IsSpace(p[j]) && p[j] != ';'
    requires rest == [] || rest[0] == ';'
    requires forall j | 0 <= j < |rest| :: rest[j] != 's' && rest[j] != '.'
    ensures GuardedArg(head + TestText(test, dbl) + mid + (kw + sp + p + rest)) == Some(p)
  {
    var g := TestText(test, dbl);
    var cmd := kw + sp + p + rest;
    var t := head + g + mid + cmd;
    var at := |head| + |g| + |mid|;
    GuardedTestFound(head, test, dbl, mid, cmd);
    assert t[at..] == cmd;
    GuardedArgAt(t, at, kw, sp, p, rest);
  }

  /** A command after the test whose argument P is followed by nothing or `;`: the group is P. */
  lemma {:induction false} GuardedArgAt(t: string, at: nat, kw: string, sp: string, p: string, rest: string)
    requires FirstGuardClose(t, 0).Some? && FirstGuardClose(t, 0).value + 1 <= at
    requires IsCommandWord(kw) && Blanks(sp) && at + |kw| + |sp| + |p| + |rest| == |t|
    requires t[at..] == kw + sp + p + rest
    requires p != [] && forall j | 0 <= j < |p| :: !IsSpace(p[j]) && p[j] != ';'
    requires rest == [] || rest[0] == ';'
    requires forall j | 0 <= j < |rest| :: rest[j] != 's' && rest[j] != '.'
    ensures GuardedArg(t) == Some(p)
  {
    QuietTail(t, at, kw, sp, p, rest);
    var a := GuardedCommand(t, at, kw, sp, p, rest);
    GuardedArgEnd(t, a, p, rest);
    GuardedArgX(t, FirstGuardClose(t, 0).value, at, a, p);
  }

  /** The guarded group ends where P ends, when the command at `at` is the last one. */
  lemma {:induction false} GuardedArgX(t: string, c: nat, at: nat, a: nat, p: string)
    requires FirstGuardClose(t, 0) == Some(c) && c + 1 <= at < |t|
    requires CommandArg(t, at) == Some(a) && forall j | at < j < |t| :: CommandArg(t, j).None?
    requires p != [] && a + |p| <= |t| && LazyEnd(t, a + 1) == a + |p| && t[a..a + |p|] == p
    ensures GuardedArg(t) == Some(p)
  {
    LastCommandIs(t, c + 1, at, |t|);
    GuardedArgIs(t, c, at, a, a + |p|);
  }

  /** The group of the guarded pattern, from the test's close, the last command, its argument and the lazy end. */
  lemma {:induction false} GuardedArgIs(s: string, c: nat, i: nat, a: nat, e: nat)
    requires FirstGuardClose(s, 0) == Some(c) && c + 1 <= i < |s|
    requires LastCommand(s, c + 1, |s|) == Some(i) && CommandArg(s, i) == Some(a)
    requires a < e <= |s| && LazyEnd(s, a + 1) == e
    ensures GuardedArg(s) == Some(s[a..e])
  {
  }

  /** A closed path without whitespace or `;` is its own cleaned form. */
  lemma {:induction false} BarePath(p: string)
    requires p != [] && Closed(p) && forall j | 0 <= j < |p| :: !IsSpace(p[j]) && p[j] != ';'
    ensures PathOf(p) == p
  {
    assert IsTrimmed(p);
    PathOfPlain([], p, [], []);
    assert [] + (p + []) + [] == p;
  }

  /** The guarded line is its own trimmed form and is not a comment. */
  lemma {:induction false} GuardedTrim(lead: string, head: string, g: string, mid: string, kw: string, sp: string,
                    p: string, rest: string, trail: string)
    requires AllSpace(lead) && AllSpace(trail) && g != [] && g[0] == '['
    requires head == [] || (!IsSpace(head[0]) && head[0] != '#')
    requires IsCommandWord(kw) && p != [] && !IsSpace(p[|p| - 1])
    requires rest == [] || !IsSpace(rest[|rest| - 1])
    ensures var t := head + g + mid + (kw + sp + p + rest);
      TrimSpace(lead + t + trail) == t && t != [] && t[0] != '#'
  {
    var cmd := kw + sp + p + rest;
    var t := head + g + mid + cmd;
    assert t[0] == (if head == [] then g[0] else head[0]);
    if rest == [] {
      assert t[|t| - 1] == p[|p| - 1];
    } else {
      assert t[|t| - 1] == rest[|rest| - 1];
    }
    TrimSpaceOf(lead, t, trail);
  }

  /** The test right after HEAD is found, and it closes before MID. */
  lemma {:induction false} GuardedTestFound(head: string, test: string, dbl: bool, mid: string, cmd: string)
    requires test != [] && forall j | 0 <= j < |head| :: head[j] != '['
    ensures var g := TestText(test, dbl); var t := head + g + mid + cmd;
      FirstGuardClose(t, 0).Some? && FirstGuardClose(t, 0).value + 1 <= |head| + |g| + |mid|
  {
    var g := TestText(test, dbl);
    var t := head + g + mid + cmd;
    var b := |head|;
    var n := |test|;
    var o := if dbl then 1 else 0;
    assert g[0] == '[' && (o == 1 <==> g[1] == '[');
    assert g[o + 1] == ' ' && g[o + 2] == '-' && g[o + 3] == 'f' && g[o + 4] == ' ';
    assert g[o + n + 5] == ' ' && g[o + n + 6] == ']';
    forall q | 0 <= q < |g| ensures t[b + q] == g[q] {
    }
    forall j | 0 <= j < b ensures t[j] != '[' {
      assert t[j] == head[j];
    }
    GuardFound(t, b, n, o);
  }

  /** The command word at `at` has its argument where P starts. */
  lemma {:induction false} GuardedCommand(t: string, at: nat, kw: string, sp: string, p: string, rest: string) returns (a: nat)
    requires IsCommandWord(kw) && Blanks(sp) && p != [] && !IsSpace(p[0])
    requires at + |kw| + |sp| + |p| + |rest| == |t| && t[at..] == kw + sp + p + rest
    ensures a == at + |kw| + |sp| && CommandArg(t, at) == Some(a) && t[a..] == p + rest
  {
    a := at + |kw| + |sp|;
    var u := t[at..];
    assert u == (kw + sp) + (p + rest);
    assert t[a..] == u[|kw| + |sp|..];
    assert t[at..at + |kw|] == u[..|kw|] == kw;
    if kw == "." {
      assert t[at] == u[0] == '.';
    }
    assert CommandEnd(t, at) == Some(at + |kw|);
    forall j | at + |kw| <= j < a ensures IsRegexSpace(t[j]) {
      assert t[j] == u[j - at] == sp[j - at - |kw|];
    }
    assert t[a] == u[a - at] == p[0];
    SkipRegexSpaceUnique(t, at + |kw|, a);
  }

  /** The lazy group stops right after P, before the `;` or the end. */
  lemma {:induction false} GuardedArgEnd(t: string, a: nat, p: string, rest: string)
    requires a + |p| + |rest| == |t| && t[a..] == p + rest && p != []
    requires forall j | 0 <= j < |p| :: !IsSpace(p[j]) && p[j] != ';'
    requires rest == [] || rest[0] == ';'
    ensures LazyEnd(t, a + 1) == a + |p| && t[a..a + |p|] == p
  {
    var e := a + |p|;
    var u := t[a..];
    forall v | a + 1 <= v < e ensures !StopsAt(t, v) {
      assert t[v] == u[v - a] == p[v - a];
      SkipRegexSpaceUnique(t, v, v);
    }
    if rest != [] {
      assert t[e] == u[|p|] == rest[0];
      SkipRegexSpaceUnique(t, e, e);
    }
    assert StopsAt(t, e);
    LazyEndIs(t, a + 1, e);
    assert t[a..e] == u[..|p|] == p;
  }

  // ---------------------------------------------------------------------
  // The IsIncludeLine pre-check against ParseLine
  // ---------------------------------------------------------------------

  /** `source P` and `. P` written with a space after the command word pass the pre-check. */
  lemma {:induction false} PlainSourceIsIncludeLine(lead: string, kw: string, sp: string, arg: string, trail: string)
    requires AllSpace(lead) && AllSpace(trail) && IsCommandWord(kw) && Blanks(sp) && sp[0] == ' '
    requires arg != [] && IsTrimmed(arg)
    ensures IsIncludeLine(lead + (kw + sp + arg) + trail)
  {
    CommandLineTrim(lead, kw, sp, arg, trail);
    CommandStartsLine(kw + sp + arg, kw, sp + arg);
  }

  /** A command line is its own trimmed form. */
  lemma {:induction false} CommandLineTrim(lead: string, kw: string, sp: string, arg: string, trail: string)
    requires AllSpace(lead) && AllSpace(trail) && IsCommandWord(kw)
    requires arg != [] && !IsSpace(arg[|arg| - 1])
    ensures TrimSpace(lead + (kw + sp + arg) + trail) == kw + sp + arg
  {
    var t := kw + sp + arg;
    assert t[0] == kw[0] && t[|t| - 1] == arg[|arg| - 1];
    TrimSpaceOf(lead, t, trail);
  }

  /** A text that starts with the command word and a space looks like an include. */
  lemma {:induction false} CommandStartsLine(t: string, kw: string, rest: string)
    requires IsCommandWord(kw) && t == kw + rest && rest != [] && rest[0] == ' '
    ensures LooksLikeInclude(t)
  {
    CommandSpaceRegroup(t, kw, rest);
    if kw == "source" {
      assert kw + " " == "source ";
    } else {
      assert kw + " " == ". ";
    }
  }

  /** A word followed by a space, at the start of a text. */
  lemma {:induction false} CommandSpaceRegroup(t: string, kw: string, rest: string)
    requires t == kw + rest && rest != [] && rest[0] == ' ' && (kw == [] || kw[0] != '#')
    ensures HasPrefix(t, kw + " ") && !HasPrefix(t, "#")
  {
    assert t[..|kw| + 1] == kw + [rest[0]];
    if kw == [] {
      assert t[0] == ' ';
    } else {
      assert t[0] == kw[0];
    }
  }

  /** `source ` cannot occur in a text without a space. */
  lemma {:induction false} NoSpaceNoSource(t: string)
    requires forall j | 0 <= j < |t| :: t[j] != ' '
    ensures !Contains(t, "source ")
  {
    forall i: nat | i <= |t|
      ensures !OccursAt(t, "source ", i)
    {
      SourceSpaceAt(t, i);
    }
  }

  lemma {:induction false} SourceSpaceAt(t: string, i: nat)
    ensures OccursAt(t, "source ", i) ==> t[i + 6] == ' '
  {
    if OccursAt(t, "source ", i) {
      assert t[i + 6] == t[i..i + 7][6];
    }
  }

  /**
   * The pre-check is narrower than the parser: `source` followed by a tab is
   * an include for ParseLine, yet IsIncludeLine rejects the line, so the
   * scanner never follows it.
   */
  lemma {:induction false} TabSeparatedSourceSkipped(arg: string)
    requires arg != [] && IsTrimmed(arg) && forall j | 0 <= j < |arg| :: arg[j] != '[' && arg[j] != ' '
    ensures IncludesOf("source" + "\t" + arg) == Found(PathOf(arg), false)
    ensures !IsIncludeLine("source" + "\t" + arg)
  {
    var t := "source" + "\t" + arg;
    PlainSourceLine([], "source", "\t", arg, []);
    assert [] + t + [] == t;
    CommandLineTrim([], "source", "\t", arg, []);
    TabNotLooksLike(arg);
  }

  lemma {:induction false} TabNotLooksLike(arg: string)
    requires forall j | 0 <= j < |arg| :: arg[j] != ' '
    ensures !LooksLikeInclude("source" + "\t" + arg)
  {
    var t := "source" + "\t" + arg;
    assert t[0] == 's' && t[6] == '\t';
    forall j | 0 <= j < |t| ensures t[j] != ' ' {
      if j > 6 {
        assert t[j] == arg[j - 7];
      }
    }
    NoSpaceNoSource(t);
  }

  /** A guarded `source P` line, with a space after `source`, passes the pre-check. */
  lemma {:induction false} GuardedSourceIsIncludeLine(lead: string, head: string, test: string, dbl: bool, mid: string,
                                   sp: string, p: string, rest: string, trail: string)
    requires AllSpace(lead) && AllSpace(trail)
    requires head == [] || (!IsSpace(head[0]) && head[0] != '#')
    requires sp != [] && sp[0] == ' ' && p != [] && !IsSpace(p[|p| - 1])
    requires rest == [] || !IsSpace(rest[|rest| - 1])
    ensures var t := head + TestText(test, dbl) + mid + ("source" + sp + p + rest);
      IsIncludeLine(lead + t + trail)
  {
    var g := TestText(test, dbl);
    var cmd := "source" + sp + p + rest;
    var pre := head + g + mid;
    TestTextOpens(test, dbl);
    GuardedTrim(lead, head, g, mid, "source", sp, p, rest, trail);
    assert cmd[..7] == "source ";
    SourceInside(pre, cmd);
  }

  /** A test text starts with `[` and holds no letter `u` besides those of its argument. */
  lemma {:induction false} TestTextOpens(test: string, dbl: bool)
    ensures TestText(test, dbl) != [] && TestText(test, dbl)[0] == '['
    ensures 'u' !in test ==> 'u' !in TestText(test, dbl)
  {
  }

  /** A text that is not a `#` line and holds `source ` somewhere looks like an include. */
  lemma {:induction false} SourceInside(pre: string, cmd: string)
    requires |cmd| >= 7 && cmd[..7] == "source "
    requires (pre + cmd)[0] != '#'
    ensures LooksLikeInclude(pre + cmd)
  {
    var t := pre + cmd;
    assert t[|pre|..|pre| + 7] == cmd[..7];
    assert OccursAt(t, "source ", |pre|);
    assert t[..1] == [t[0]];
  }

  /**
   * The pre-check looks for `. ` only at the start of the line: a `. P`
   * command after a test is a conditional include for ParseLine, yet
   * IsIncludeLine rejects the line when nothing in it spells `source ` (here:
   * when neither the test nor P holds the letter `u`), so the scanner never
   * follows it.
   */
  lemma {:induction false} GuardedDotSkipped(test: string, dbl: bool, p: string)
    requires test != [] && 'u' !in test
    requires p != [] && Closed(p) && 'u' !in p && forall j | 0 <= j < |p| :: !IsSpace(p[j]) && p[j] != ';'
    ensures var line := TestText(test, dbl) + " && " + (". " + p);
      IncludesOf(line) == [ParseResult(p, true)] && !IsIncludeLine(line)
  {
    var g := TestText(test, dbl);
    var line := g + " && " + (". " + p);
    DotLineRegroup(g, p);
    GuardedSourceLine([], [], test, dbl, " && ", ".", " ", p, [], []);
    GuardedTrim([], [], g, " && ", ".", " ", p, [], []);
    TestTextOpens(test, dbl);
    DotLineNotLooksLike(g, p);
  }

  /** The guarded dot line in the shape of GuardedSourceLine. */
  lemma {:induction false} DotLineRegroup(g: string, p: string)
    ensures [] + ([] + g + " && " + ("." + " " + p + [])) + [] == g + " && " + (". " + p)
    ensures [] + g + " && " + ("." + " " + p + []) == g + " && " + (". " + p)
  {
  }

  /** A line that opens with `[` and has no letter `u` does not look like an include. */
  lemma {:induction false} DotLineNotLooksLike(g: string, p: string)
    requires g != [] && g[0] == '[' && 'u' !in g && 'u' !in p
    ensures !LooksLikeInclude(g + " && " + (". " + p))
  {
    var line := g + " && " + (". " + p);
    assert 'u' !in " && " && 'u' !in ". ";
    assert 'u' !in line;
    NoLetterNoSource(line);
    assert line[0] == '[';
  }

  /**
   * The pre-check turns away blank lines, `#` lines, and lines that do not
   * start with `. ` and hold no `u` (so no `source `), such as `alias
   * foo=bar` or `export FOO=bar`.
   */
  lemma {:induction false} PreCheckRejects(line: string)
    requires var t := TrimSpace(line); t == [] || t[0] == '#' || ('u' !in t && !HasPrefix(t, ". "))
    ensures !IsIncludeLine(line)
  {
    var t := TrimSpace(line);
    if t == [] {
      assert !OccursAt(t, "source ", 0);
    } else if t[0] == '#' {
      assert t[..1] == "#";
    } else {
      NoLetterNoSource(t);
      SourcePrefixLetter(t);
    }
  }

  lemma {:induction false} SourcePrefixLetter(t: string)
    ensures HasPrefix(t, "source ") ==> t[2] == 'u'
  {
    if HasPrefix(t, "source ") {
      assert t[2] == t[..7][2];
    }
  }

  /** `source ` cannot occur in a text without the letter `u`. */
  lemma {:induction false} NoLetterNoSource(t: string)
    requires 'u' !in t
    ensures !Contains(t, "source ")
  {
    forall i: nat | i <= |t|
      ensures !OccursAt(t, "source ", i)
    {
      SourceLetterAt(t, i);
    }
  }

  lemma {:induction false} SourceLetterAt(t: string, i: nat)
    ensures OccursAt(t, "source ", i) ==> t[i + 2] == 'u'
  {
    if OccursAt(t, "source ", i) {
      assert t[i + 2] == t[i..i + 7][2];
    }
  }

  /**
   * The conditional lines of include_test.go, in bash and zsh syntax, for
   * any bare path P that is both tested and sourced: one conditional include
   * of P, and the pre-check lets the line through.
   */
  lemma {:induction false} GuardedBashLine(p: string)
    requires p != [] && Closed(p) && forall j | 0 <= j < |p| :: !IsSpace(p[j]) && p[j] != ';'
    ensures var line := "if [ -f " + p + " ]; then source " + p + "; fi";
      IncludesOf(line) == [ParseResult(p, true)] && IsIncludeLine(line)
  {
    BashParts();
    TextBash(p);
    GuardedBashParsed(p);
    GuardedBashPasses(p);
  }

  lemma {:induction false} GuardedBashParsed(p: string)
    requires p != [] && Closed(p) && forall j | 0 <= j < |p| :: !IsSpace(p[j]) && p[j] != ';'
    ensures IncludesOf([] + ("if " + TestText(p, false) + "; then " + ("source" + " " + p + "; fi")) + [])
      == [ParseResult(p, true)]
  {
    BashParts();
    GuardedSourceLine([], "if ", p, false, "; then ", "source", " ", p, "; fi", []);
  }

  lemma {:induction false} GuardedBashPasses(p: string)
    requires p != [] && !IsSpace(p[|p| - 1])
    ensures IsIncludeLine([] + ("if " + TestText(p, false) + "; then " + ("source" + " " + p + "; fi")) + [])
  {
    BashParts();
    GuardedSourceIsIncludeLine([], "if ", p, false, "; then ", " ", p, "; fi", []);
  }

  /** The fixed words of the bash line meet GuardedSourceLine's conditions. */
  lemma BashParts()
    ensures forall j | 0 <= j < |"if "| :: "if "[j] != '['
    ensures !IsSpace("if "[0]) && "if "[0] != '#'
    ensures "; fi"[0] == ';' && !IsSpace("; fi"[3])
    ensures forall j | 0 <= j < |"; fi"| :: "; fi"[j] != 's' && "; fi"[j] != '.'
  {
  }

  lemma {:induction false} TextBash(p: string)
    ensures [] + ("if " + TestText(p, false) + "; then " + ("source" + " " + p + "; fi")) + []
      == "if [ -f " + p + " ]; then source " + p + "; fi"
  {
  }

  lemma {:induction false} GuardedZshLine(p: string)
    requires p != [] && Closed(p) && forall j | 0 <= j < |p| :: !IsSpace(p[j]) && p[j] != ';'
    ensures var line := "[[ -f " + p + " ]] && source " + p;
      IncludesOf(line) == [ParseResult(p, true)] && IsIncludeLine(line)
  {
    GuardedSourceLine([], [], p, true, " && ", "source", " ", p, [], []);
    GuardedSourceIsIncludeLine([], [], p, true, " && ", " ", p, [], []);
    TextZsh(p);
  }

  lemma {:induction false} TextZsh(p: string)
    ensures [] + ([] + TestText(p, true) + " && " + ("source" + " " + p + [])) + []
      == "[[ -f " + p + " ]] && source " + p
  {
  }
}
