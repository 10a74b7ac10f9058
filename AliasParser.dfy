/**
 * The alias line parser (internal/parser/alias.go): the quote-aware comment
 * stripper, the escape-aware splitter, the value extractor, the two alias
 * patterns and the IsAliasLine pre-check.
 *
 * The Go helpers removeInlineComment, splitOnUnescapedChar and extractValue
 * are loops; each is a method here, proved equal to a specification
 * function (Uncommented, Pieces, ValueOf) whose meaning is stated by its
 * contract and by lemmas. ParseLine and IsAliasLine are pure and are
 * functions written over those specifications.
 */
module AliasParser {
  import opened Wrappers
  import opened ShellText
  import opened Model

  // ---------------------------------------------------------------------
  // removeInlineComment
  // ---------------------------------------------------------------------

  /** The line up to its first comment `#` (outside quotes, not escaped), trimmed. */
  function Uncommented(line: string): string {
    TrimSpace(line[..CommentStart(line)])
  }

  /** removeInlineComment: the flag-tracking scan that stops at the first comment `#`. */
  method RemoveInlineComment(line: string) returns (cleaned: string)
    ensures cleaned == Uncommented(line)
  {
    var inSingleQuote, inDoubleQuote, escaped := false, false, false;
    var result := "";
    var i := 0;
    while i < |line|
      invariant i <= |line|
      invariant QuoteState(inSingleQuote, inDoubleQuote, escaped) == StateAt(line, i)
      invariant result == line[..i]
      invariant forall j | 0 <= j < i :: !IsCommentHash(line, j)
    {
      var ch := line[i];
      if escaped {
        result := result + [ch];
        escaped := false;
      } else if ch == '\\' {
        escaped := true;
        result := result + [ch];
      } else if ch == '\'' && !inDoubleQuote {
        inSingleQuote := !inSingleQuote;
        result := result + [ch];
      } else if ch == '"' && !inSingleQuote {
        inDoubleQuote := !inDoubleQuote;
        result := result + [ch];
      } else if ch == '#' && !inSingleQuote && !inDoubleQuote {
        CommentStartUnique(line, i);
        break;
      } else {
        result := result + [ch];
      }
      i := i + 1;
    }
    if i == |line| {
      CommentStartUnique(line, i);
    }
    cleaned := TrimSpace(result);
  }

  // ---------------------------------------------------------------------
  // splitOnUnescapedChar
  // ---------------------------------------------------------------------

  /**
   * s[j] splits: it is the delimiter, not escaped by the previous backslash,
   * and not itself a backslash (the splitter treats a backslash as an escape
   * before comparing with the delimiter). Only the escape flag of the scan
   * state matters; the splitter ignores quotes.
   */
  predicate IsCut(s: string, delim: char, j: nat)
    requires j < |s|
  {
    s[j] == delim && s[j] != '\\' && !StateAt(s, j).escaped
  }

  /** The first split point at or after `from`, or |s|. */
  function FirstCut(s: string, delim: char, from: nat): (k: nat)
    requires from <= |s|
    ensures from <= k <= |s|
    ensures k < |s| ==> IsCut(s, delim, k)
    ensures forall j | from <= j < k :: !IsCut(s, delim, j)
    decreases |s| - from
  {
    if from == |s| || IsCut(s, delim, from) then from else FirstCut(s, delim, from + 1)
  }

  /**
   * The splitter's progress after i characters: the finished pieces and the
   * index where the current piece began.
   */
  function SplitScan(s: string, delim: char, i: nat): (acc: (seq<string>, nat))
    requires i <= |s|
    ensures acc.1 <= i
    ensures acc.0 == [] <==> acc.1 == 0
    ensures acc.1 > 0 ==> IsCut(s, delim, acc.1 - 1)
    ensures forall j | acc.1 <= j < i :: !IsCut(s, delim, j)
  {
    if i == 0 then ([], 0)
    else
      var (parts, start) := SplitScan(s, delim, i - 1);
      if IsCut(s, delim, i - 1) then (parts + [s[start..i - 1]], i) else (parts, start)
  }

  /** The pieces between split points; an empty last piece is dropped. */
  function Pieces(s: string, delim: char): seq<string> {
    var (parts, start) := SplitScan(s, delim, |s|);
    if start < |s| then parts + [s[start..]] else parts
  }

  /** Each piece followed by the delimiter, concatenated. */
  function Terminated(parts: seq<string>, delim: char): string {
    if parts == [] then [] else Terminated(parts[..|parts| - 1], delim) + parts[|parts| - 1] + [delim]
  }

  lemma {:induction false} SplitScanJoin(s: string, delim: char, i: nat)
    requires i <= |s|
    ensures Terminated(SplitScan(s, delim, i).0, delim) == s[..SplitScan(s, delim, i).1]
  {
    if i > 0 {
      SplitScanJoin(s, delim, i - 1);
      var (parts, start) := SplitScan(s, delim, i - 1);
      if IsCut(s, delim, i - 1) {
        var ps := parts + [s[start..i - 1]];
        assert ps[..|ps| - 1] == parts;
        assert s[..i] == s[..start] + s[start..i - 1] + [delim];
      }
    }
  }

  /**
   * The pieces rebuild the input: joined with the delimiter, plus the
   * delimiter again when the input ends with a split point.
   */
  lemma PiecesRoundTrip(s: string, delim: char)
    ensures var ps := Pieces(s, delim);
      if |s| > 0 && IsCut(s, delim, |s| - 1) then Terminated(ps, delim) == s
      else (ps == [] && s == []) || (ps != [] && Terminated(ps[..|ps| - 1], delim) + ps[|ps| - 1] == s)
  {
    SplitScanJoin(s, delim, |s|);
    var (parts, start) := SplitScan(s, delim, |s|);
    if start < |s| {
      var ps := parts + [s[start..]];
      assert ps[..|ps| - 1] == parts;
      assert s == s[..start] + s[start..];
    }
  }

  /** The first piece is the text before the first split point; there are no pieces only for "". */
  lemma PiecesFirst(s: string, delim: char)
    ensures Pieces(s, delim) == [] <==> s == []
    ensures s != [] ==> Pieces(s, delim)[0] == s[..FirstCut(s, delim, 0)]
  {
    FirstScan(s, delim, |s|);
  }

  lemma {:induction false} FirstScan(s: string, delim: char, i: nat)
    requires i <= |s|
    ensures SplitScan(s, delim, i).0 != [] ==>
      FirstCut(s, delim, 0) < i && SplitScan(s, delim, i).0[0] == s[..FirstCut(s, delim, 0)]
    ensures SplitScan(s, delim, i).0 == [] ==> FirstCut(s, delim, 0) >= i
  {
    if i > 0 {
      FirstScan(s, delim, i - 1);
      var (parts, start) := SplitScan(s, delim, i - 1);
      if IsCut(s, delim, i - 1) && parts == [] {
        assert FirstCut(s, delim, 0) <= i - 1;
      }
    }
  }

  /** splitOnUnescapedChar */
  method SplitOnUnescapedChar(s: string, delim: char) returns (parts: seq<string>)
    ensures parts == Pieces(s, delim)
  {
    parts := [];
    var current := "";
    var escaped := false;
    ghost var start := 0;
    var i := 0;
    while i < |s|
      invariant i <= |s|
      invariant escaped == StateAt(s, i).escaped
      invariant (parts, start) == SplitScan(s, delim, i)
      invariant start <= i && current == s[start..i]
    {
      var ch := s[i];
      if escaped {
        current := current + [ch];
        escaped := false;
      } else if ch == '\\' {
        escaped := true;
        current := current + [ch];
      } else if ch == delim {
        parts := parts + [current];
        current := "";
        start := i + 1;
      } else {
        current := current + [ch];
      }
      i := i + 1;
    }
    assert current == s[start..];
    if |current| > 0 {
      parts := parts + [current];
    }
  }

  // ---------------------------------------------------------------------
  // extractValue
  // ---------------------------------------------------------------------

  /** t[i] closes the quote opened by t[0]: the same quote, not after a backslash. */
  predicate Closes(t: string, i: nat)
    requires 1 <= i < |t|
  {
    t[i] == t[0] && t[i - 1] != '\\'
  }

  /** The first closing quote at or after `from`. */
  function ClosingQuote(t: string, from: nat): (r: Option<nat>)
    requires 1 <= from <= |t|
    ensures r.Some? ==> from <= r.value < |t| && Closes(t, r.value)
    ensures forall j | from <= j < (if r.Some? then r.value else |t|) :: !Closes(t, j)
    decreases |t| - from
  {
    if from == |t| then None
    else if Closes(t, from) then Some(from)
    else ClosingQuote(t, from + 1)
  }

  /**
   * The value text of an alias: for a quoted value, the text up to the
   * closing quote (or everything after an unclosed opening quote); otherwise
   * the trimmed text before the first unescaped `#`.
   */
  function ValueOf(s: string): string {
    var t := TrimSpace(s);
    if |t| > 0 && IsQuote(t[0]) then
      match ClosingQuote(t, 1)
      case Some(i) => t[1..i]
      case None => t[1..]
    else
      var parts := Pieces(t, '#');
      if |parts| > 0 then TrimSpace(parts[0]) else t
  }

  /** extractValue */
  method ExtractValue(s: string) returns (v: string)
    ensures v == ValueOf(s)
  {
    var t := TrimSpace(s);
    if |t| > 0 && (t[0] == '\'' || t[0] == '"') {
      var quote := t[0];
      var i := 1;
      while i < |t|
        invariant 1 <= i <= |t|
        invariant ClosingQuote(t, 1) == ClosingQuote(t, i)
      {
        if t[i] == quote {
          if t[i - 1] == '\\' {
            i := i + 1;
            continue;
          }
          return t[1..i];
        }
        i := i + 1;
      }
      return t[1..];
    }
    var parts := SplitOnUnescapedChar(t, '#');
    if |parts| > 0 {
      return TrimSpace(parts[0]);
    }
    return t;
  }

  /** A quoted value is the text between the quotes, `#` and the other quote kind included. */
  lemma QuotedValue(q: char, v: string)
    requires IsQuote(q) && q !in v && '\\' !in v
    ensures IsTrimmed([q] + v + [q]) && ValueOf([q] + v + [q]) == v
  {
    var t := [q] + v + [q];
    assert t[0] == q && t[|t| - 1] == q;
    TrimSpaceTrimmed(t);
    forall j | 1 <= j < |v| + 1
      ensures !Closes(t, j)
    {
      assert t[j] == v[j - 1] && v[j - 1] in v;
    }
    assert t[|v|] != '\\' by {
      if |v| > 0 {
        assert t[|v|] == v[|v| - 1] && v[|v| - 1] in v;
      }
    }
    ClosingQuoteUnique(t, 1, |v| + 1);
    assert t[1..|v| + 1] == v;
  }

  lemma ClosingQuoteUnique(t: string, from: nat, i: nat)
    requires 1 <= from <= i < |t| && Closes(t, i)
    requires forall j | from <= j < i :: !Closes(t, j)
    ensures ClosingQuote(t, from) == Some(i)
  {
  }

  /** An unquoted value is the text before the first unescaped `#`, trimmed. */
  lemma BareValue(s: string)
    requires TrimSpace(s) == [] || !IsQuote(TrimSpace(s)[0])
    ensures ValueOf(s) == TrimSpace(TrimSpace(s)[..FirstCut(TrimSpace(s), '#', 0)])
  {
    PiecesFirst(TrimSpace(s), '#');
  }

  // ---------------------------------------------------------------------
  // The alias patterns
  // ---------------------------------------------------------------------

  /** [a-zA-Z_.\-] */
  predicate IsNameStart(c: char) {
    ('a' <= c <= 'z') || ('A' <= c <= 'Z') || c == '_' || c == '.' || c == '-'
  }

  /** [a-zA-Z0-9_.\-] */
  predicate IsNameChar(c: char) {
    IsNameStart(c) || ('0' <= c <= '9')
  }

  predicate IsAliasName(n: string) {
    |n| > 0 && IsNameStart(n[0]) && forall i | 0 <= i < |n| :: IsNameChar(n[i])
  }

  /** The end of the run of name characters that starts at i. */
  function NameEnd(s: string, i: nat): (j: nat)
    requires i <= |s|
    ensures i <= j <= |s|
    ensures forall k | i <= k < j :: IsNameChar(s[k])
    ensures j < |s| ==> !IsNameChar(s[j])
    decreases |s| - i
  {
    if i < |s| && IsNameChar(s[i]) then NameEnd(s, i + 1) else i
  }

  lemma NameEndUnique(s: string, i: nat, j: nat)
    requires i <= j <= |s|
    requires forall k | i <= k < j :: IsNameChar(s[k])
    requires j < |s| ==> !IsNameChar(s[j])
    ensures NameEnd(s, i) == j
  {
  }

  /** The two capture groups of an alias pattern. */
  datatype AliasMatch = AliasMatch(name: string, rest: string)

  /**
   * The pattern tail `\s+([a-zA-Z_.\-][a-zA-Z0-9_.\-]*)=(.+)` from index i.
   * The name class excludes `=`, so the name is the maximal run of name
   * characters and must be followed by `=`; `.` does not match a newline,
   * so the value group is the rest of the line, and it must not be empty.
   */
  function MatchAssignment(s: string, i: nat): (r: Option<AliasMatch>)
    requires i <= |s|
    ensures r.Some? ==> IsAliasName(r.value.name) && r.value.rest != [] && '\n' !in r.value.rest
    ensures r.Some? ==>
      var j := SkipRegexSpace(s, i);
      var e := j + |r.value.name| + 1 + |r.value.rest|;
      && i < j && e <= |s| && s[j..e] == r.value.name + "=" + r.value.rest
      && (e == |s| || s[e] == '\n')
  {
    var j := SkipRegexSpace(s, i);
    if j == i || j == |s| || !IsNameStart(s[j]) then None
    else
      var k := NameEnd(s, j + 1);
      if k < |s| && s[k] == '=' then
        var e := LineEnd(s, k + 1);
        if e == k + 1 then None
        else
          assert s[j..e] == s[j..k] + "=" + s[k + 1..e];
          Some(AliasMatch(s[j..k], s[k + 1..e]))
      else None
  }

  /** normalAliasPattern: `^\s*alias\s+NAME=(.+)` */
  function MatchNormal(s: string): Option<AliasMatch> {
    var i := SkipRegexSpace(s, 0);
    if OccursAt(s, "alias", i) then MatchAssignment(s, i + 5) else None
  }

  /** globalAliasPattern: `^\s*alias\s+-g\s+NAME=(.+)` */
  function MatchGlobal(s: string): Option<AliasMatch> {
    var i := SkipRegexSpace(s, 0);
    if OccursAt(s, "alias", i) then
      var j := SkipRegexSpace(s, i + 5);
      if j > i + 5 && OccursAt(s, "-g", j) then MatchAssignment(s, j + 2) else None
    else None
  }

  /**
   * The two patterns never both match: after `alias` and whitespace, `-g`
   * followed by whitespace cannot be a name followed by `=`. So trying the
   * global pattern first decides nothing the normal one would decide
   * differently.
   */
  lemma PatternsExclusive(s: string)
    ensures MatchGlobal(s).Some? ==> MatchNormal(s).None?
  {
    var i := SkipRegexSpace(s, 0);
    if MatchGlobal(s).Some? {
      var j := SkipRegexSpace(s, i + 5);
      assert OccursAt(s, "-g", j) && IsRegexSpace(s[j + 2]);
      assert s[j + 1] == s[j..j + 2][1] == 'g';
      NameEndUnique(s, j + 1, j + 2);
      assert MatchNormal(s) == MatchAssignment(s, i + 5);
    }
  }

  // ---------------------------------------------------------------------
  // ParseLine, IsAliasLine
  // ---------------------------------------------------------------------

  function Definition(m: AliasMatch, aliasType: AliasType, line: string, filePath: string, lineNum: int): AliasDefinition {
    AliasDefinition(m.name, ValueOf(m.rest), aliasType, SourceLocation(filePath, lineNum, line))
  }

  /**
   * AliasParser.ParseLine: strip the comment, then try the global pattern
   * and then the normal one. A definition carries a well-formed name, the
   * given file and line number, and the original line before cleaning.
   */
  function ParseLine(line: string, filePath: string, lineNum: int): (r: Option<AliasDefinition>)
    ensures r.Some? ==> IsAliasName(r.value.name)
    ensures r.Some? ==> r.value.location == SourceLocation(filePath, lineNum, line)
    ensures r.Some? ==>
      var c := Uncommented(line);
      var i := SkipRegexSpace(c, 0);
      OccursAt(c, "alias", i) && i + 5 < |c| && IsRegexSpace(c[i + 5])
  {
    var cleaned := Uncommented(line);
    if cleaned == [] then None
    else match MatchGlobal(cleaned)
      case Some(m) =>
        Some(Definition(m, Global, line, filePath, lineNum))
      case None =>
        match MatchNormal(cleaned)
        case Some(m) =>
          Some(Definition(m, Normal, line, filePath, lineNum))
        case None => None
  }

  /** IsAliasLine: the trimmed line starts with "alias " (with a blank, not any whitespace). */
  function IsAliasLine(line: string): bool {
    HasPrefix(TrimSpace(line), "alias ")
  }

  // ---------------------------------------------------------------------
  // Lines of known shape
  // ---------------------------------------------------------------------

  /** The text of an alias definition: `alias NAME=RHS` or `alias -g NAME=RHS`. */
  function Render(global: bool, name: string, rhs: string): string {
    "alias " + (if global then "-g " else "") + name + "=" + rhs
  }

  /**
   * The pattern tail on text of known shape: blanks, then `NAME=rest`. The
   * value is the first line of rest, and an empty first line means no match.
   */
  lemma AssignmentAt(s: string, i: nat, j: nat, name: string, rest: string)
    requires i < j <= |s| && forall k | i <= k < j :: IsRegexSpace(s[k])
    requires s[j..] == name + "=" + rest && IsAliasName(name)
    ensures MatchAssignment(s, i) == if FirstLine(rest) == [] then None else Some(AliasMatch(name, FirstLine(rest)))
  {
    SkipRegexSpaceUnique(s, i, j);
    NameAt(s, j, name, rest);
    var k := j + |name|;
    LineEndAt(s, k + 1, rest);
    MatchAssignmentAt(s, i, j, k);
  }

  /** MatchAssignment once the blanks, the name run and the `=` are located. */
  lemma MatchAssignmentAt(s: string, i: nat, j: nat, k: nat)
    requires i < j < k < |s| && SkipRegexSpace(s, i) == j && IsNameStart(s[j])
    requires NameEnd(s, j + 1) == k && s[k] == '='
    ensures var e := LineEnd(s, k + 1);
      MatchAssignment(s, i) == if e == k + 1 then None else Some(AliasMatch(s[j..k], s[k + 1..e]))
  {
  }

  /** `NAME=rest` at j: the name run ends at the `=`. */
  lemma NameAt(s: string, j: nat, name: string, rest: string)
    requires j <= |s| && s[j..] == name + "=" + rest && IsAliasName(name)
    ensures j < |s| && s[j] == name[0]
    ensures var k := j + |name|;
      k < |s| && NameEnd(s, j + 1) == k && s[j..k] == name && s[k] == '=' && s[k + 1..] == rest
  {
    assert s[j] == name[0];
    var k := j + |name|;
    forall m | j + 1 <= m < k
      ensures IsNameChar(s[m])
    {
      assert s[m] == s[j..][m - j] == name[m - j];
    }
    assert s[k] == s[j..][|name|] == '=';
    NameEndUnique(s, j + 1, k);
    assert s[j..k] == s[j..][..|name|] == name;
    assert s[k + 1..] == s[j..][|name| + 1..] == rest;
  }

  /**
   * `alias name=rhs` matches the normal pattern with that name and the first
   * line of rhs, and only when that line is non-empty.
   */
  lemma MatchRenderedNormal(name: string, rhs: string)
    requires IsAliasName(name)
    ensures MatchNormal(Render(false, name, rhs)) == if FirstLine(rhs) == [] then None else Some(AliasMatch(name, FirstLine(rhs)))
  {
    var b := Render(false, name, rhs);
    assert b == "alias " + (name + "=" + rhs);
    SkipRegexSpaceUnique(b, 0, 0);
    assert b[..5] == "alias" && b[5] == ' ';
    assert OccursAt(b, "alias", 0);
    AssignmentAt(b, 5, 6, name, rhs);
  }

  /** `alias NAME=...` never matches the global pattern, even for a name that starts with `-g`. */
  lemma NormalRenderNotGlobal(name: string, rhs: string)
    requires IsAliasName(name)
    ensures MatchGlobal(Render(false, name, rhs)).None?
  {
    var b := Render(false, name, rhs);
    var t := name + "=" + rhs;
    assert b == "alias " + t;
    SkipRegexSpaceUnique(b, 0, 0);
    assert b[..5] == "alias" && b[5] == ' ' && b[6] == name[0];
    SkipRegexSpaceUnique(b, 5, 6);
    if OccursAt(b, "-g", 6) {
      assert b[6..8] == "-g" && b[7] == t[1];
      assert |name| >= 2;
      assert b[8] == t[2];
      assert !IsRegexSpace(t[2]);
      SkipRegexSpaceUnique(b, 8, 8);
    }
  }

  /** Text that starts with `alias -g ` and then a non-blank goes to the pattern tail at index 8. */
  lemma MatchGlobalAt(s: string)
    requires 9 < |s| && OccursAt(s, "alias", 0) && OccursAt(s, "-g", 6)
    requires s[5] == ' ' && s[8] == ' ' && !IsRegexSpace(s[9])
    ensures MatchGlobal(s) == MatchAssignment(s, 8)
  {
    assert s[0] == s[0..5][0] == 'a' && s[6] == s[6..8][0] == '-';
    SkipRegexSpaceUnique(s, 0, 0);
    SkipRegexSpaceUnique(s, 5, 6);
  }

  /**
   * `alias -g name=rhs` matches the global pattern with that name and the
   * first line of rhs, and only when that line is non-empty.
   */
  lemma MatchRenderedGlobal(name: string, rhs: string)
    requires IsAliasName(name)
    ensures MatchGlobal(Render(true, name, rhs)) == if FirstLine(rhs) == [] then None else Some(AliasMatch(name, FirstLine(rhs)))
  {
    var b := Render(true, name, rhs);
    var t := name + "=" + rhs;
    assert b == "alias -g " + t;
    assert b[0..5] == "alias" && b[6..8] == "-g" && b[5] == ' ' && b[8] == ' ' && b[9] == name[0];
    assert b[9..] == t;
    MatchGlobalAt(b);
    AssignmentAt(b, 8, 9, name, rhs);
  }

  /** `alias -g ...` never matches the normal pattern: `-g` is followed by a blank, not `=`. */
  lemma GlobalRenderNotNormal(name: string, rhs: string)
    requires IsAliasName(name)
    ensures MatchNormal(Render(true, name, rhs)).None?
  {
    var b := Render(true, name, rhs);
    assert b == "alias -g " + name + "=" + rhs;
    SkipRegexSpaceUnique(b, 0, 0);
    assert b[5] == ' ' && b[6] == '-' && b[7] == 'g' && b[8] == ' ';
    SkipRegexSpaceUnique(b, 5, 6);
    NameEndUnique(b, 7, 8);
  }

  /** The text before the value has no quotes, escapes or `#`. */
  lemma RenderHeadClosed(global: bool, name: string)
    requires IsAliasName(name)
    ensures Closed(Render(global, name, []))
  {
    var h := Render(global, name, []);
    assert h == "alias " + (if global then "-g " else "") + name + "=";
    forall j | 0 <= j < |h|
      ensures Plain(h[j]) && h[j] != '#'
    {
      var pre := "alias " + (if global then "-g " else "");
      if |pre| <= j < |pre| + |name| {
        assert h[j] == name[j - |pre|];
      }
    }
    PlainClosed(h);
  }

  /** Comment stripping leaves exactly the definition of a rendered line. */
  lemma UncommentedRendered(lead: string, body: string, ws: string, comment: string)
    requires AllSpace(lead) && AllSpace(ws) && (comment == [] || comment[0] == '#')
    requires Closed(body) && IsTrimmed(body)
    ensures Uncommented(lead + body + ws + comment) == body
  {
    var line := lead + body + ws + comment;
    SpaceClosed(lead);
    ClosedConcat(lead, body);
    SpaceClosed(ws);
    ClosedConcat(lead + body, ws);
    HashStartsComment(comment);
    ClosedConcat(lead + body + ws, comment);
    assert line[..CommentStart(line)] == lead + body + ws;
    TrimSpaceOf(lead, body, ws);
  }

  /** A rendered definition is closed and trimmed when its right hand side is. */
  lemma RenderedClosed(global: bool, name: string, rhs: string)
    requires IsAliasName(name) && Closed(rhs) && IsTrimmed(rhs)
    ensures Closed(Render(global, name, rhs)) && IsTrimmed(Render(global, name, rhs))
  {
    var body := Render(global, name, rhs);
    RenderHeadClosed(global, name);
    assert body == Render(global, name, []) + rhs;
    ClosedConcat(Render(global, name, []), rhs);
    assert body[0] == 'a';
    if rhs != [] {
      assert body[|body| - 1] == rhs[|rhs| - 1];
    }
  }

  /**
   * ParseLine on a rendered definition, with leading whitespace and an
   * optional trailing comment: the name, the type and the value the first
   * line of the right hand side denotes come back, and nothing after `=`
   * (before a newline) means no definition.
   */
  lemma ParseRendered(lead: string, global: bool, name: string, rhs: string, ws: string, comment: string,
                      filePath: string, lineNum: int)
    requires AllSpace(lead) && AllSpace(ws) && (comment == [] || comment[0] == '#')
    requires IsAliasName(name) && Closed(rhs) && IsTrimmed(rhs)
    ensures var line := lead + Render(global, name, rhs) + ws + comment;
      ParseLine(line, filePath, lineNum) ==
        if FirstLine(rhs) == [] then None
        else Some(AliasDefinition(name, ValueOf(FirstLine(rhs)), if global then Global else Normal,
                                  SourceLocation(filePath, lineNum, line)))
  {
    RenderedClosed(global, name, rhs);
    UncommentedRendered(lead, Render(global, name, rhs), ws, comment);
    if global {
      MatchRenderedGlobal(name, rhs);
      GlobalRenderNotNormal(name, rhs);
    } else {
      MatchRenderedNormal(name, rhs);
      NormalRenderNotGlobal(name, rhs);
    }
  }

  /** `alias NAME='v'` (or with double quotes): the value is v, `#` included. */
  lemma ParseQuoted(lead: string, global: bool, name: string, q: char, v: string, ws: string, comment: string,
                    filePath: string, lineNum: int)
    requires AllSpace(lead) && AllSpace(ws) && (comment == [] || comment[0] == '#')
    requires IsAliasName(name) && IsQuote(q) && q !in v && '\\' !in v && '\n' !in v
    ensures var line := lead + Render(global, name, [q] + v + [q]) + ws + comment;
      ParseLine(line, filePath, lineNum) ==
        Some(AliasDefinition(name, v, if global then Global else Normal, SourceLocation(filePath, lineNum, line)))
  {
    var rhs := [q] + v + [q];
    QuotedClosed(q, v);
    QuotedValue(q, v);
    FirstLineWhole(rhs);
    ParseRendered(lead, global, name, rhs, ws, comment, filePath, lineNum);
  }

  /** `alias NAME=v` with a plain v: the value is v. */
  lemma ParseBare(lead: string, global: bool, name: string, v: string, ws: string, comment: string,
                  filePath: string, lineNum: int)
    requires AllSpace(lead) && AllSpace(ws) && (comment == [] || comment[0] == '#')
    requires IsAliasName(name) && v != [] && IsTrimmed(v)
    requires forall j | 0 <= j < |v| :: Plain(v[j]) && v[j] != '#' && v[j] != '\n'
    ensures var line := lead + Render(global, name, v) + ws + comment;
      ParseLine(line, filePath, lineNum) ==
        Some(AliasDefinition(name, v, if global then Global else Normal, SourceLocation(filePath, lineNum, line)))
  {
    PlainClosed(v);
    TrimSpaceTrimmed(v);
    BareValue(v);
    assert forall j | 0 <= j < |v| :: !IsCut(v, '#', j);
    assert v[..|v|] == v;
    FirstLineWhole(v);
    ParseRendered(lead, global, name, v, ws, comment, filePath, lineNum);
  }

  /** `alias NAME=` with nothing after `=` defines nothing. */
  lemma ParseEmptyRight(lead: string, global: bool, name: string, ws: string, comment: string,
                        filePath: string, lineNum: int)
    requires AllSpace(lead) && AllSpace(ws) && (comment == [] || comment[0] == '#')
    requires IsAliasName(name)
    ensures ParseLine(lead + Render(global, name, []) + ws + comment, filePath, lineNum) == None
  {
    SpaceClosed([]);
    assert IsTrimmed([]);
    ParseRendered(lead, global, name, [], ws, comment, filePath, lineNum);
  }

  /** A line whose trimmed form starts with `#` defines nothing. */
  lemma CommentLineIgnored(line: string, filePath: string, lineNum: int)
    requires HasPrefix(TrimSpace(line), "#")
    ensures ParseLine(line, filePath, lineNum) == None
  {
    LeadingHashIsComment(line);
    var p := line[..CommentStart(line)];
    TrimSpaceOf(p, [], []);
    assert p + [] + [] == p;
  }

  // ---------------------------------------------------------------------
  // The IsAliasLine pre-check
  // ---------------------------------------------------------------------

  lemma TrimOffsetOf(p: string, x: string)
    requires AllSpace(p) && x != [] && !IsSpace(x[0])
    ensures TrimOffset(p + x) == |p|
  {
    var s := p + x;
    var k := TrimOffset(s);
    assert s[|p|] == x[0];
  }

  /** Trimming keeps a prefix that starts and ends with non-space text. */
  lemma TrimKeepsPrefix(lead: string, x: string, pre: string, n: nat)
    requires AllSpace(lead) && HasPrefix(x, pre) && pre != [] && !IsSpace(pre[0])
    requires |pre| <= n < |x| && !IsSpace(x[n])
    ensures HasPrefix(TrimSpace(lead + x), pre)
  {
    var s := lead + x;
    TrimOffsetOf(lead, x);
    assert s[|lead| + n] == x[n];
    var t := TrimSpace(s);
    assert |lead| + |t| > |lead| + n;
    assert t[..|pre|] == s[|lead|..|lead| + |pre|] == x[..|pre|];
  }

  /** A rendered definition starts with "alias " and has its name's first character at `at`. */
  lemma RenderedHead(global: bool, name: string, tail: string)
    requires IsAliasName(name)
    ensures var x := Render(global, name, []) + tail;
      HasPrefix(x, "alias ") && (if global then 9 else 6) < |x| && !IsSpace(x[if global then 9 else 6])
  {
    var r := Render(global, name, []);
    var at := if global then 9 else 6;
    assert r[at] == name[0] && r[..6] == "alias ";
    assert (r + tail)[..6] == r[..6];
  }

  /** Every rendered definition written with a blank after `alias` passes the pre-check. */
  lemma RenderedIsAliasLine(lead: string, global: bool, name: string, rhs: string, ws: string, comment: string)
    requires AllSpace(lead) && IsAliasName(name)
    ensures IsAliasLine(lead + Render(global, name, rhs) + ws + comment)
  {
    var tail := rhs + ws + comment;
    var x := Render(global, name, []) + tail;
    RenderedHead(global, name, tail);
    TrimKeepsPrefix(lead, x, "alias ", if global then 9 else 6);
    RenderRegroup(lead, global, name, rhs, ws, comment);
  }

  /**
   * The pre-check turns away a line whose trimmed text is empty or does not
   * start with `a`, such as `# alias foo='bar'`, `export FOO=bar` or
   * `source ~/.bashrc`.
   */
  lemma {:induction false} AliasLineRejects(line: string)
    requires TrimSpace(line) == [] || TrimSpace(line)[0] != 'a'
    ensures !IsAliasLine(line)
  {
    AliasPrefixLetter(TrimSpace(line));
  }

  lemma {:induction false} AliasPrefixLetter(t: string)
    ensures HasPrefix(t, "alias ") ==> t != [] && t[0] == 'a'
  {
    if HasPrefix(t, "alias ") {
      assert t[0] == t[..6][0];
    }
  }

  lemma RenderRegroup(lead: string, global: bool, name: string, rhs: string, ws: string, comment: string)
    ensures lead + Render(global, name, rhs) + ws + comment == lead + (Render(global, name, []) + (rhs + ws + comment))
  {
    assert Render(global, name, rhs) == Render(global, name, []) + rhs;
  }

  // ---------------------------------------------------------------------
  // The documented examples
  // ---------------------------------------------------------------------

  lemma ExampleSingleQuoted()
    ensures ParseLine("alias ll='ls -la'", "/test/file", 1)
      == Some(AliasDefinition("ll", "ls -la", Normal, SourceLocation("/test/file", 1, "alias ll='ls -la'")))
  {
    ParseQuoted("", false, "ll", '\'', "ls -la", "", "", "/test/file", 1);
    TextLl();
  }

  lemma TextLl()
    ensures "" + Render(false, "ll", ['\''] + "ls -la" + ['\'']) + "" + "" == "alias ll='ls -la'"
  {
    assert ['\''] + "ls -la" + ['\''] == "'ls -la'";
    assert Render(false, "ll", "'ls -la'") == "alias ll=" + "'ls -la'";
  }

  /** A newline ends the value: `.` does not match it, so only `ls` is taken. */
  lemma ExampleNewlineEndsValue()
    ensures ParseLine("alias ll=ls\nrm -rf", "/test/file", 1)
      == Some(AliasDefinition("ll", "ls", Normal, SourceLocation("/test/file", 1, "alias ll=ls\nrm -rf")))
  {
    var rhs := "ls\nrm -rf";
    RhsLsRm();
    ParseRendered("", false, "ll", rhs, "", "", "/test/file", 1);
    TextLsRm();
  }

  lemma RhsLsRm()
    ensures Closed("ls\nrm -rf") && IsTrimmed("ls\nrm -rf")
    ensures FirstLine("ls\nrm -rf") == "ls" && ValueOf("ls") == "ls"
  {
    PlainClosed("ls\nrm -rf");
    LineEndUnique("ls\nrm -rf", 0, 2);
    TrimSpaceTrimmed("ls");
    BareValue("ls");
    assert forall j | 0 <= j < 2 :: !IsCut("ls", '#', j);
    assert "ls"[..2] == "ls";
  }

  lemma TextLsRm()
    ensures "" + Render(false, "ll", "ls\nrm -rf") + "" + "" == "alias ll=ls\nrm -rf"
  {
  }

  lemma ExampleDoubleQuoted()
    ensures ParseLine("alias gs=\"git status\"", "/test/file", 1)
      == Some(AliasDefinition("gs", "git status", Normal, SourceLocation("/test/file", 1, "alias gs=\"git status\"")))
  {
    ParseQuoted("", false, "gs", '"', "git status", "", "", "/test/file", 1);
    TextGs();
  }

  lemma TextGs()
    ensures "" + Render(false, "gs", ['"'] + "git status" + ['"']) + "" + "" == "alias gs=\"git status\""
  {
    assert ['"'] + "git status" + ['"'] == "\"git status\"";
    assert Render(false, "gs", "\"git status\"") == "alias gs=" + "\"git status\"";
  }

  lemma ExampleUnquoted()
    ensures ParseLine("alias ..=cd ..", "/test/file", 1)
      == Some(AliasDefinition("..", "cd ..", Normal, SourceLocation("/test/file", 1, "alias ..=cd ..")))
  {
    ParseBare("", false, "..", "cd ..", "", "", "/test/file", 1);
    TextDots();
  }

  lemma TextDots()
    ensures "" + Render(false, "..", "cd ..") + "" + "" == "alias ..=cd .."
  {
    assert Render(false, "..", "cd ..") == "alias ..=" + "cd ..";
  }

  lemma ExampleGlobal()
    ensures ParseLine("alias -g G='| grep'", "/test/file", 1)
      == Some(AliasDefinition("G", "| grep", Global, SourceLocation("/test/file", 1, "alias -g G='| grep'")))
  {
    ParseQuoted("", true, "G", '\'', "| grep", "", "", "/test/file", 1);
    TextG();
  }

  lemma TextG()
    ensures "" + Render(true, "G", ['\''] + "| grep" + ['\'']) + "" + "" == "alias -g G='| grep'"
  {
    assert ['\''] + "| grep" + ['\''] == "'| grep'";
    assert Render(true, "G", "'| grep'") == "alias -g G=" + "'| grep'";
  }

  lemma ExampleLeadingWhitespace()
    ensures ParseLine("  alias foo='bar'", "/test/file", 1)
      == Some(AliasDefinition("foo", "bar", Normal, SourceLocation("/test/file", 1, "  alias foo='bar'")))
  {
    ParseQuoted("  ", false, "foo", '\'', "bar", "", "", "/test/file", 1);
    TextFoo();
  }

  lemma TextFoo()
    ensures "  " + Render(false, "foo", ['\''] + "bar" + ['\'']) + "" + "" == "  alias foo='bar'"
  {
    assert ['\''] + "bar" + ['\''] == "'bar'";
    assert Render(false, "foo", "'bar'") == "alias foo=" + "'bar'";
  }

  lemma ExampleEmptyValue()
    ensures ParseLine("alias empty=''", "/test/file", 1)
      == Some(AliasDefinition("empty", "", Normal, SourceLocation("/test/file", 1, "alias empty=''")))
  {
    ParseQuoted("", false, "empty", '\'', "", "", "", "/test/file", 1);
    TextEmpty();
  }

  lemma TextEmpty()
    ensures "" + Render(false, "empty", ['\''] + "" + ['\'']) + "" + "" == "alias empty=''"
  {
    assert ['\''] + "" + ['\''] == "''";
    assert Render(false, "empty", "''") == "alias empty=" + "''";
  }

  lemma ExampleCommentLine()
    ensures ParseLine("# alias foo='bar'", "/test/file", 1) == None
  {
    var s := "# alias foo='bar'";
    assert s[0] == '#' && s[|s| - 1] == '\'';
    TrimSpaceTrimmed(s);
    CommentLineIgnored(s, "/test/file", 1);
  }

  /** Text that does not start with blanks or `a` matches neither pattern. */
  lemma NoKeyword(s: string)
    requires s != [] && s[0] != 'a' && !IsRegexSpace(s[0])
    ensures MatchGlobal(s).None? && MatchNormal(s).None?
  {
    SkipRegexSpaceUnique(s, 0, 0);
  }

  /** Comment stripping keeps the first character of a line that starts with text. */
  lemma UncommentedFirst(line: string)
    requires line != [] && !IsSpace(line[0]) && line[0] != '#'
    ensures Uncommented(line) != [] && Uncommented(line)[0] == line[0]
  {
    assert !IsCommentHash(line, 0);
    var p := line[..CommentStart(line)];
    assert p[0] == line[0];
    assert TrimOffset(p) == 0;
  }

  /**
   * A line whose first character is neither whitespace, `#` nor the `a` of
   * `alias` defines nothing (`export FOO=bar`, say). ParseLine's own
   * contract gives the general rule: the line must start, after whitespace,
   * with `alias` and whitespace.
   */
  lemma NotAliasKeyword(line: string, filePath: string, lineNum: int)
    requires line != [] && !IsSpace(line[0]) && line[0] != '#' && line[0] != 'a'
    ensures ParseLine(line, filePath, lineNum) == None
  {
    UncommentedFirst(line);
    NoKeyword(Uncommented(line));
  }

  lemma ExampleNotAlias()
    ensures ParseLine("export FOO=bar", "/test/file", 1) == None
  {
    NotAliasKeyword("export FOO=bar", "/test/file", 1);
  }
}
