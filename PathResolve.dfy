/**
 * The path resolver (internal/resolve/path.go): quote removal, `~`
 * expansion, `$NAME` / `${NAME}` expansion against HOME, XDG_CONFIG_HOME and
 * a table of custom variables, cleaning, and the absolute-path check; the
 * `NAME=value` assignment recogniser; and Canonicalize over a given table of
 * symbolic-link targets.
 */
module PathResolve {
  import opened Wrappers
  import opened ShellText
  import opened FilePath

  // ---------------------------------------------------------------------
  // removeQuotes
  // ---------------------------------------------------------------------

  /**
   * removeQuotes: trim, then drop one pair of matching outer quotes of the
   * same kind when there are at least two characters.
   */
  function RemoveQuotes(s: string): (r: string)
    ensures var t := TrimSpace(s);
      if |t| >= 2 && IsQuote(t[0]) && t[|t| - 1] == t[0] then t == [t[0]] + r + [t[0]] else r == t
  {
    var t := TrimSpace(s);
    if |t| >= 2 && ((t[0] == '"' && t[|t| - 1] == '"') || (t[0] == '\'' && t[|t| - 1] == '\'')) then
      assert t == [t[0]] + t[1..|t| - 1] + [t[0]];
      t[1..|t| - 1]
    else t
  }

  /** One layer of quotes around trimmed text comes off, and only one. */
  lemma RemoveQuotesOf(q: char, x: string)
    requires IsQuote(q)
    ensures RemoveQuotes([q] + x + [q]) == x
  {
    var s := [q] + x + [q];
    assert IsTrimmed(s);
    TrimSpaceTrimmed(s);
  }

  /** Trimmed text that does not start with a quote is left alone. */
  lemma RemoveQuotesPlain(x: string)
    requires IsTrimmed(x) && (x == [] || !IsQuote(x[0]))
    ensures RemoveQuotes(x) == x
  {
    TrimSpaceTrimmed(x);
  }

  // ---------------------------------------------------------------------
  // The variable pattern \$\{?([A-Z_][A-Z0-9_]*)\}?
  // ---------------------------------------------------------------------

  predicate IsVarStart(c: char) {
    ('A' <= c <= 'Z') || c == '_'
  }

  predicate IsVarChar(c: char) {
    IsVarStart(c) || ('0' <= c <= '9')
  }

  /** A name of the class [A-Z_][A-Z0-9_]*. */
  predicate IsVarName(n: string) {
    |n| > 0 && IsVarStart(n[0]) && forall i | 1 <= i < |n| :: IsVarChar(n[i])
  }

  /** The end of the greedy run of name characters that starts at j. */
  function VarNameEnd(s: string, j: nat): (e: nat)
    requires j <= |s|
    ensures j <= e <= |s|
    ensures e < |s| ==> !IsVarChar(s[e])
    decreases |s| - j
  {
    if j < |s| && IsVarChar(s[j]) then VarNameEnd(s, j + 1) else j
  }

  /** One match of the variable pattern: its full text and its group 1. */
  datatype VarRef = VarRef(text: string, name: string)

  /**
   * The variable pattern anchored at i: `$`, an optional `{` (taken only
   * when a name follows it), the greedy name, an optional `}` (taken
   * whether or not a `{` was).
   */
  function VarRefAt(s: string, i: nat): (r: Option<VarRef>)
    requires i < |s|
    ensures r.Some? ==> i + |r.value.text| <= |s| && s[i..i + |r.value.text|] == r.value.text
    ensures r.Some? ==> r.value.text != [] && r.value.text[0] == '$' && r.value.name != []
  {
    if s[i] != '$' then None
    else
      var b := if i + 1 < |s| && s[i + 1] == '{' then i + 2 else i + 1;
      if b < |s| && IsVarStart(s[b]) then
        var e := VarNameEnd(s, b + 1);
        var f := if e < |s| && s[e] == '}' then e + 1 else e;
        Some(VarRef(s[i..f], s[b..e]))
      else None
  }

  /** FindAllStringSubmatch: the leftmost non-overlapping matches from i on, in order. */
  function VarRefs(s: string, i: nat): (refs: seq<VarRef>)
    requires i <= |s|
    ensures forall k | 0 <= k < |refs| :: refs[k].text != [] && refs[k].name != []
    decreases |s| - i
  {
    if i == |s| then []
    else match VarRefAt(s, i)
      case Some(r) => [r] + VarRefs(s, i + |r.text|)
      case None => VarRefs(s, i + 1)
  }

  predicate NoDollar(s: string) {
    Avoids(s, '$')
  }

  /** The search passes over text without `$`. */
  lemma {:induction false} VarRefsFrom(s: string, i: nat, k: nat)
    requires i <= k <= |s| && forall j | i <= j < k :: s[j] != '$'
    ensures VarRefs(s, i) == VarRefs(s, k)
    decreases k - i
  {
    if i < k {
      VarRefsFrom(s, i + 1, k);
    }
  }

  /** A text without `$` holds no variable reference. */
  lemma NoDollarNoRefs(s: string, i: nat)
    requires i <= |s| && forall k | i <= k < |s| :: s[k] != '$'
    ensures VarRefs(s, i) == []
  {
    VarRefsFrom(s, i, |s|);
  }

  /**
   * A reference to `name` written `$name`, with no name character or `}`
   * right after it, or written `${name}`.
   */
  predicate RefersTo(ref: string, name: string, post: string) {
    && IsVarName(name)
    && (|| (ref == "$" + name && (post == [] || (!IsVarChar(post[0]) && post[0] != '}')))
        || ref == "${" + name + "}")
  }

  /** The pattern matches the whole reference, and its group is the name. */
  lemma RefAt(s: string, pre: string, ref: string, name: string, post: string)
    requires s == pre + ref + post && RefersTo(ref, name, post)
    ensures VarRefAt(s, |pre|) == Some(VarRef(ref, name))
  {
    if ref == "$" + name {
      PlainRefAt(s, pre, name, post);
    } else {
      BracedRefAt(s, pre, name, post);
    }
  }

  /** `$name`, followed by neither a name character nor `}`. */
  lemma PlainRefAt(s: string, pre: string, name: string, post: string)
    requires s == pre + ("$" + name) + post && IsVarName(name)
    requires post == [] || (!IsVarChar(post[0]) && post[0] != '}')
    ensures VarRefAt(s, |pre|) == Some(VarRef("$" + name, name))
  {
    var i := |pre|;
    var e := i + 1 + |name|;
    assert s[i] == '$' && s[i + 1] == name[0];
    forall q | 0 <= q < |name| ensures s[i + 1 + q] == name[q] {
      assert s[i + 1 + q] == ("$" + name)[1 + q];
    }
    if post != [] {
      assert s[e] == post[0];
    }
    VarNameEndIs(s, i + 2, e);
    assert s[i + 1..e] == name;
    assert s[i..e] == "$" + name;
  }

  /** `${name}`. */
  lemma BracedRefAt(s: string, pre: string, name: string, post: string)
    requires s == pre + ("${" + name + "}") + post && IsVarName(name)
    ensures VarRefAt(s, |pre|) == Some(VarRef("${" + name + "}", name))
  {
    var ref := "${" + name + "}";
    var i := |pre|;
    var e := i + 2 + |name|;
    assert s[i] == '$' && s[i + 1] == '{';
    forall q | 0 <= q < |name| ensures s[i + 2 + q] == name[q] {
      assert s[i + 2 + q] == ref[2 + q];
    }
    assert s[e] == ref[2 + |name|] == '}';
    VarNameEndIs(s, i + 3, e);
    assert s[i + 2..e] == name;
    assert s[i..e + 1] == ref;
  }

  /** The only match in PRE REF POST, when PRE and POST hold no `$`, is REF. */
  lemma SingleRef(s: string, pre: string, ref: string, name: string, post: string)
    requires s == pre + ref + post && RefersTo(ref, name, post)
    requires NoDollar(pre) && NoDollar(post)
    ensures VarRefs(s, 0) == [VarRef(ref, name)]
  {
    var i := |pre|;
    var e := i + |ref|;
    forall j | 0 <= j < i ensures s[j] != '$' {
      assert s[j] == pre[j];
    }
    VarRefsFrom(s, 0, i);
    RefAt(s, pre, ref, name, post);
    forall j | e <= j < |s| ensures s[j] != '$' {
      assert s[j] == post[j - e];
    }
    NoDollarNoRefs(s, e);
  }

  // ---------------------------------------------------------------------
  // expandVariables
  // ---------------------------------------------------------------------

  /** What a resolver knows: the home directory, XDG_CONFIG_HOME and the custom variables. */
  datatype Env = Env(homeDir: string, xdgConfigHome: string, customVars: map<string, string>)

  /** The replacement for a variable: HOME and XDG_CONFIG_HOME first, then the custom table. */
  function Lookup(env: Env, name: string): (v: Option<string>)
    ensures name != "HOME" && name != "XDG_CONFIG_HOME" ==> (v.Some? <==> name in env.customVars)
  {
    if name == "HOME" then Some(env.homeDir)
    else if name == "XDG_CONFIG_HOME" then Some(env.xdgConfigHome)
    else if name in env.customVars then Some(env.customVars[name])
    else None
  }

  /**
   * The loop of expandVariables from match k on: each known reference
   * replaces the first occurrence of its text in the current result;
   * unknown ones are skipped.
   */
  function Substituted(env: Env, result: string, refs: seq<VarRef>): string
    requires forall k | 0 <= k < |refs| :: refs[k].text != []
    decreases |refs|
  {
    if refs == [] then result
    else
      var next := match Lookup(env, refs[0].name)
        case Some(v) => ReplaceFirst(result, refs[0].text, v)
        case None => result;
      Substituted(env, next, refs[1..])
  }

  predicate HasUnknown(env: Env, refs: seq<VarRef>) {
    exists k | 0 <= k < |refs| :: Lookup(env, refs[k].name).None?
  }

  /** expandVariables: failure when any reference is unknown, otherwise the substituted text. */
  function Expand(env: Env, path: string): Option<string> {
    var refs := VarRefs(path, 0);
    if HasUnknown(env, refs) then None else Some(Substituted(env, path, refs))
  }

  /** A path without `$` expands to itself. */
  lemma NoDollarExpand(env: Env, path: string)
    requires NoDollar(path)
    ensures Expand(env, path) == Some(path)
  {
    NoDollarNoRefs(path, 0);
  }

  /**
   * A known variable is replaced by its value, taken literally: a `$` in the
   * value is not expanded again.
   */
  lemma KnownVariableExpands(env: Env, pre: string, ref: string, name: string, post: string, v: string)
    requires RefersTo(ref, name, post) && NoDollar(pre) && NoDollar(post)
    requires Lookup(env, name) == Some(v)
    ensures Expand(env, pre + ref + post) == Some(pre + v + post)
  {
    var s := pre + ref + post;
    SingleRef(s, pre, ref, name, post);
    var refs := [VarRef(ref, name)];
    assert !HasUnknown(env, refs);
    forall j: nat | j < |pre| ensures !OccursAt(s, ref, j) {
      OccursHead(s, ref, j);
      assert s[j] == pre[j];
    }
    assert s[|pre|..|pre| + |ref|] == ref;
    IndexFromIs(s, ref, 0, |pre|);
    assert s[..|pre|] == pre && s[|pre| + |ref|..] == post;
    assert Substituted(env, s, refs) == Substituted(env, ReplaceFirst(s, ref, v), refs[1..]);
  }

  /** An unknown variable makes the expansion fail. */
  lemma UnknownVariableExpands(env: Env, pre: string, ref: string, name: string, post: string)
    requires RefersTo(ref, name, post) && NoDollar(pre) && NoDollar(post)
    requires Lookup(env, name).None?
    ensures Expand(env, pre + ref + post).None?
  {
    SingleRef(pre + ref + post, pre, ref, name, post);
    var refs := [VarRef(ref, name)];
    assert Lookup(env, refs[0].name).None?;
  }

  // ---------------------------------------------------------------------
  // ResolvePath
  // ---------------------------------------------------------------------

  /** The `~` step: `~/rest` becomes the home directory joined with rest, a bare `~` the home directory. */
  function Tilde(homeDir: string, p: string): string {
    if HasPrefix(p, "~/") then Join(homeDir, p[2..])
    else if p == "~" then homeDir
    else p
  }

  /**
   * ResolvePath: fail on the empty path, remove quotes, expand `~` and the
   * variables, clean, and accept only an absolute result.
   */
  function Resolve(env: Env, path: string): (r: Option<string>)
    ensures path == [] ==> r.None?
    ensures r.Some? ==> IsAbs(r.value) && r.value != []
  {
    if path == [] then None
    else
      match Expand(env, Tilde(env.homeDir, RemoveQuotes(path)))
      case None => None
      case Some(e) =>
        var c := Clean(e);
        if IsAbs(c) then Some(c) else None
  }

  /**
   * Resolution succeeds exactly when expansion does and its result is
   * absolute, and then the resolved path is that result cleaned.
   */
  lemma ResolveOutcome(env: Env, path: string)
    requires path != []
    ensures var e := Expand(env, Tilde(env.homeDir, RemoveQuotes(path)));
      && (Resolve(env, path).Some? <==> e.Some? && IsAbs(e.value))
      && (Resolve(env, path).Some? ==> Resolve(env, path).value == Clean(e.value))
  {
    var e := Expand(env, Tilde(env.homeDir, RemoveQuotes(path)));
    if e.Some? {
      CleanKeepsAbs(e.value);
    }
  }

  /** A path written without surrounding blanks or quotes and not starting with `~`. */
  predicate Literal(path: string) {
    path != [] && IsTrimmed(path) && !IsQuote(path[0]) && path[0] != '~'
  }

  /** Quote removal and the `~` step leave a literal path alone. */
  lemma LiteralUntouched(homeDir: string, path: string)
    requires Literal(path)
    ensures Tilde(homeDir, RemoveQuotes(path)) == path
  {
    RemoveQuotesPlain(path);
    if |path| >= 2 {
      assert path[..2][0] == path[0];
    }
  }

  /** `PRE $NAME POST` with NAME unknown fails as a whole, whatever else the path holds. */
  lemma UnknownVariableFails(env: Env, pre: string, ref: string, name: string, post: string)
    requires RefersTo(ref, name, post) && NoDollar(pre) && NoDollar(post) && Literal(pre + ref + post)
    requires Lookup(env, name).None?
    ensures Resolve(env, pre + ref + post).None?
  {
    LiteralUntouched(env.homeDir, pre + ref + post);
    UnknownVariableExpands(env, pre, ref, name, post);
  }

  /** `PRE $NAME POST` with NAME bound to V resolves to PRE V POST, cleaned, when that is absolute. */
  lemma KnownVariableResolves(env: Env, pre: string, ref: string, name: string, post: string, v: string)
    requires RefersTo(ref, name, post) && NoDollar(pre) && NoDollar(post) && Literal(pre + ref + post)
    requires Lookup(env, name) == Some(v) && IsAbs(pre + v + post)
    ensures Resolve(env, pre + ref + post) == Some(Clean(pre + v + post))
  {
    LiteralUntouched(env.homeDir, pre + ref + post);
    KnownVariableExpands(env, pre, ref, name, post, v);
    CleanKeepsAbs(pre + v + post);
  }

  /** After SetVariable(N, V), for N other than HOME and XDG_CONFIG_HOME, `$N` stands for V. */
  lemma SetVariableResolves(env: Env, pre: string, ref: string, name: string, post: string, v: string)
    requires name != "HOME" && name != "XDG_CONFIG_HOME"
    requires RefersTo(ref, name, post) && NoDollar(pre) && NoDollar(post) && Literal(pre + ref + post)
    requires IsAbs(pre + v + post)
    ensures var env' := env.(customVars := env.customVars[name := v]);
      Resolve(env', pre + ref + post) == Some(Clean(pre + v + post))
  {
    var env' := env.(customVars := env.customVars[name := v]);
    KnownVariableResolves(env', pre, ref, name, post, v);
  }

  /** A path without `$`, `~` or quotes that does not start with `/` is relative and fails. */
  lemma RelativeFails(env: Env, path: string)
    requires Literal(path) && path[0] != '/' && NoDollar(path)
    ensures Resolve(env, path).None?
  {
    LiteralUntouched(env.homeDir, path);
    NoDollarExpand(env, path);
    CleanKeepsAbs(path);
  }

  /** An absolute path without `$` or quotes resolves to its cleaned form. */
  lemma AbsoluteResolves(env: Env, path: string)
    requires IsAbs(path) && IsTrimmed(path) && NoDollar(path)
    ensures Resolve(env, path) == Some(Clean(path))
  {
    LiteralUntouched(env.homeDir, path);
    NoDollarExpand(env, path);
    CleanKeepsAbs(path);
  }

  /** `~/rest` resolves under an absolute home directory when neither holds a `$`. */
  lemma TildeResolves(env: Env, rest: string)
    requires IsAbs(env.homeDir) && NoDollar(env.homeDir) && IsTrimmed(rest) && NoDollar(rest)
    ensures Resolve(env, "~/" + rest) == Some(Clean(Join(env.homeDir, rest)))
  {
    var p := "~/" + rest;
    assert p[0] == '~' && p[1] == '/';
    assert IsTrimmed(p) by {
      if rest != [] {
        assert p[|p| - 1] == rest[|rest| - 1];
      }
    }
    RemoveQuotesPlain(p);
    assert HasPrefix(p, "~/") && p[2..] == rest;
    var j := Join(env.homeDir, rest);
    JoinNoDollar(env.homeDir, rest);
    NoDollarExpand(env, j);
    CleanKeepsAbs(j);
  }

  /** Joining adds only `/` characters, and cleaning only `/` and `.`: no `$` appears. */
  lemma JoinNoDollar(a: string, b: string)
    requires NoDollar(a) && NoDollar(b)
    ensures NoDollar(Join(a, b))
  {
    if a != [] || b != [] {
      var s := if a == [] then b else if b == [] then a else a + "/" + b;
      assert forall k | 0 <= k < |s| :: s[k] != '$';
      CleanNoNew(s, '$');
    }
  }

  /** Cleaning introduces no character other than `/` and `.`. */
  lemma CleanNoNew(s: string, c: char)
    requires c != '/' && c != '.' && Avoids(s, c)
    ensures Avoids(Clean(s), c)
  {
    if s != [] {
      var rooted := s[0] == '/';
      SplitSlashAvoids(s, c);
      var st := CleanElems([], SplitSlash(s), rooted);
      CleanElemsAvoid([], SplitSlash(s), rooted, c);
      JoinSlashAvoids(st, c);
    }
  }

  predicate Avoids(e: string, c: char) {
    forall k | 0 <= k < |e| :: e[k] != c
  }

  lemma {:induction false} SplitSlashAvoids(s: string, c: char)
    requires c != '/' && Avoids(s, c)
    ensures forall k | 0 <= k < |SplitSlash(s)| :: Avoids(SplitSlash(s)[k], c)
  {
    if s != [] {
      SplitSlashAvoids(s[1..], c);
      var rest := SplitSlash(s[1..]);
      if s[0] != '/' {
        assert Avoids(rest[0], c);
        assert Avoids([s[0]] + rest[0], c);
      }
    }
  }

  lemma {:induction false} CleanElemsAvoid(stack: seq<string>, elems: seq<string>, rooted: bool, c: char)
    requires Normal(stack, rooted) && forall k | 0 <= k < |elems| :: NoSlash(elems[k])
    requires c != '.' && forall k | 0 <= k < |stack| :: Avoids(stack[k], c)
    requires forall k | 0 <= k < |elems| :: Avoids(elems[k], c)
    ensures forall k | 0 <= k < |CleanElems(stack, elems, rooted)| :: Avoids(CleanElems(stack, elems, rooted)[k], c)
    decreases |elems|
  {
    if elems != [] {
      var next := CleanStep(stack, elems[0], rooted);
      assert forall k | 0 <= k < |next| :: Avoids(next[k], c);
      CleanElemsAvoid(next, elems[1..], rooted, c);
    }
  }

  lemma {:induction false} JoinSlashAvoids(elems: seq<string>, c: char)
    requires c != '/' && forall k | 0 <= k < |elems| :: Avoids(elems[k], c)
    ensures Avoids(JoinSlash(elems), c)
  {
    if |elems| > 1 {
      JoinSlashAvoids(elems[1..], c);
    }
  }

  // ---------------------------------------------------------------------
  // ParseVariableAssignment: ^([A-Z_][A-Z0-9_]*)=(.+)$ on the trimmed line
  // ---------------------------------------------------------------------

  datatype Assignment = Assignment(name: string, value: string)

  /**
   * ParseVariableAssignment: the trimmed line must be a name of the class
   * [A-Z_][A-Z0-9_]*, then `=`, then at least one character and no newline
   * up to the end of the text (`.` does not match a newline and `$` is the
   * end of the text); the value loses one layer of quotes.
   */
  function ParseVariableAssignment(line: string): (r: Option<Assignment>)
    ensures r.Some? ==> IsVarName(r.value.name)
    ensures r.Some? ==>
      var t := TrimSpace(line);
      var k := |r.value.name|;
      && k + 1 < |t| && t[..k] == r.value.name && t[k] == '='
      && '\n' !in t[k + 1..] && r.value.value == RemoveQuotes(t[k + 1..])
  {
    var t := TrimSpace(line);
    if t == [] || !IsVarStart(t[0]) then None
    else
      var k := VarNameEnd(t, 1);
      if k + 1 < |t| && t[k] == '=' then
        var name, value := t[..k], t[k + 1..];
        if '\n' in value then None
        else
          NameRun(t, 1, k);
          assert |name| == k;
          Some(Assignment(name, RemoveQuotes(value)))
      else None
  }

  lemma {:induction false} NameRun(s: string, j: nat, k: nat)
    requires 1 <= j <= |s| && IsVarStart(s[0]) && forall i | 1 <= i < j :: IsVarChar(s[i])
    requires k == VarNameEnd(s, j)
    ensures IsVarName(s[..k])
    decreases |s| - j
  {
    if j < |s| && IsVarChar(s[j]) {
      NameRun(s, j + 1, k);
    }
  }

  /**
   * The converse: a line that trims to `NAME=rest`, with a non-empty rest
   * free of newlines, is accepted, and the value is rest with one quote
   * layer removed.
   */
  lemma AssignmentOf(line: string, name: string, rest: string)
    requires TrimSpace(line) == name + "=" + rest
    requires IsVarName(name) && rest != [] && '\n' !in rest
    ensures ParseVariableAssignment(line) == Some(Assignment(name, RemoveQuotes(rest)))
  {
    AssignmentSplit(name, rest);
  }

  /** In `NAME=rest` the name run ends at the `=`. */
  lemma AssignmentSplit(name: string, rest: string)
    requires IsVarName(name)
    ensures var t := name + "=" + rest;
      && t[0] == name[0] && VarNameEnd(t, 1) == |name| && |name| + 1 <= |t|
      && t[..|name|] == name && t[|name|] == '=' && t[|name| + 1..] == rest
  {
    var t := name + "=" + rest;
    forall i | 1 <= i < |name| ensures IsVarChar(t[i]) {
      assert t[i] == name[i];
    }
    assert t[|name|] == '=';
    VarNameEndIs(t, 1, |name|);
    assert t[..|name|] == name && t[|name| + 1..] == rest;
  }

  /** `NAME=rest` written out with a trimmed rest: the assignment lines of path_test.go. */
  lemma AssignmentLine(name: string, rest: string)
    requires IsVarName(name) && rest != [] && IsTrimmed(rest) && '\n' !in rest
    ensures ParseVariableAssignment(name + "=" + rest) == Some(Assignment(name, RemoveQuotes(rest)))
  {
    var t := name + "=" + rest;
    assert t[0] == name[0] && t[|t| - 1] == rest[|rest| - 1];
    assert IsTrimmed(t);
    TrimSpaceTrimmed(t);
    AssignmentOf(t, name, rest);
  }

  /** A value that runs onto a second line is no assignment: `$` is the end of the text. */
  lemma MultiLineNotAssignment(line: string, name: string, rest: string)
    requires TrimSpace(line) == name + "=" + rest
    requires IsVarName(name) && '\n' in rest
    ensures ParseVariableAssignment(line).None?
  {
    AssignmentSplit(name, rest);
  }

  lemma {:induction false} VarNameEndIs(s: string, j: nat, e: nat)
    requires j <= e <= |s| && forall i | j <= i < e :: IsVarChar(s[i])
    requires e < |s| ==> !IsVarChar(s[e])
    ensures VarNameEnd(s, j) == e
    decreases e - j
  {
    if j < e {
      VarNameEndIs(s, j + 1, e);
    }
  }

  /** A trimmed line whose first character is not a capital letter or `_` is no assignment (`export FOO=bar`, `alias foo=bar`). */
  lemma NotAssignment(line: string)
    requires IsTrimmed(line) && line != [] && !IsVarStart(line[0])
    ensures ParseVariableAssignment(line).None?
  {
    TrimSpaceTrimmed(line);
  }

  // ---------------------------------------------------------------------
  // Canonicalize
  // ---------------------------------------------------------------------

  /**
   * The symbolic-link table as filepath.EvalSymlinks fills it: each
   * absolute path that resolves elsewhere is mapped to an absolute, clean
   * path that is fully resolved, so resolving that target leaves it alone.
   */
  predicate LinksValid(links: map<string, string>) {
    forall a | a in links ::
      && IsAbs(links[a]) && Clean(links[a]) == links[a]
      && (links[a] in links ==> links[links[a]] == links[a])
  }

  /**
   * Canonicalize: the absolute form of the path, then its symbolic links
   * resolved. `links` maps each absolute path that resolves to something
   * else to its resolution; a path it does not name (a missing file among
   * them) stays as its absolute form. Under a well-formed link table the
   * result is absolute, clean, and resolves to itself.
   */
  function Canonicalize(links: map<string, string>, cwd: string, path: string): (r: string)
    requires IsAbs(cwd)
    ensures LinksValid(links) ==> IsAbs(r) && Clean(r) == r && (r in links ==> links[r] == r)
  {
    var a := Abs(cwd, path);
    AbsClean(cwd, path);
    if a in links then links[a] else a
  }

  /** Canonicalizing a canonical path changes nothing. */
  lemma CanonicalizeIdempotent(links: map<string, string>, cwd: string, path: string)
    requires IsAbs(cwd) && LinksValid(links)
    ensures Canonicalize(links, cwd, Canonicalize(links, cwd, path)) == Canonicalize(links, cwd, path)
  {
    var r := Canonicalize(links, cwd, path);
    assert Abs(cwd, r) == Clean(r) == r;
  }

  // ---------------------------------------------------------------------
  // The resolver object
  // ---------------------------------------------------------------------

  /** PathResolver: fixed home and XDG directories, and a custom variable table that SetVariable updates. */
  class PathResolver {
    const homeDir: string
    const xdgConfigHome: string
    var customVars: map<string, string>

    /**
     * NewPathResolver, with the home directory and the XDG_CONFIG_HOME
     * environment value passed in: an empty XDG_CONFIG_HOME falls back to
     * `<home>/.config`.
     */
    constructor (homeDir: string, xdgEnv: string)
      ensures this.homeDir == homeDir && customVars == map[]
      ensures xdgConfigHome == if xdgEnv == [] then Join(homeDir, ".config") else xdgEnv
    {
      this.homeDir := homeDir;
      xdgConfigHome := if xdgEnv == [] then Join(homeDir, ".config") else xdgEnv;
      customVars := map[];
    }

    /** The variables this resolver expands. */
    function Vars(): Env
      reads this
    {
      Env(homeDir, xdgConfigHome, customVars)
    }

    /** SetVariable: bind name to value, replacing any earlier binding of that name only. */
    method SetVariable(name: string, value: string)
      modifies this
      ensures customVars == old(customVars)[name := value]
    {
      customVars := customVars[name := value];
    }

    /**
     * expandVariables: the matches are taken from the input once; the loop
     * substitutes the known ones into the running result and remembers
     * whether any was unknown.
     */
    method ExpandVariables(path: string) returns (result: string, ok: bool)
      ensures ok == Expand(Vars(), path).Some?
      ensures result == if ok then Expand(Vars(), path).value else ""
    {
      var env := Vars();
      var matches := VarRefs(path, 0);
      result := path;
      var foundUnknown := false;
      var i := 0;
      while i < |matches|
        invariant 0 <= i <= |matches|
        invariant Substituted(env, result, matches[i..]) == Substituted(env, path, matches)
        invariant foundUnknown <==> HasUnknown(env, matches[..i])
      {
        var m := matches[i];
        var replacement := "";
        var found := false;
        if m.name == "HOME" {
          replacement := homeDir;
          found := true;
        } else if m.name == "XDG_CONFIG_HOME" {
          replacement := xdgConfigHome;
          found := true;
        } else if m.name in customVars {
          replacement := customVars[m.name];
          found := true;
        } else {
          foundUnknown := true;
        }
        assert found <==> Lookup(env, m.name).Some?;
        assert found ==> Lookup(env, m.name) == Some(replacement);
        if found {
          result := ReplaceFirst(result, m.text, replacement);
        }
        assert matches[i..][1..] == matches[i + 1..];
        HasUnknownExtend(env, matches, i);
        i := i + 1;
      }
      assert matches[..i] == matches;
      if foundUnknown {
        return "", false;
      }
      ok := true;
    }

    /** ResolvePath on this resolver's variables. */
    method ResolvePath(path: string) returns (resolved: string, ok: bool)
      ensures ok == Resolve(Vars(), path).Some?
      ensures resolved == if ok then Resolve(Vars(), path).value else ""
    {
      if path == [] {
        return "", false;
      }
      var p := RemoveQuotes(path);
      if HasPrefix(p, "~/") {
        p := Join(homeDir, p[2..]);
      } else if p == "~" {
        p := homeDir;
      }
      var expanded, found := ExpandVariables(p);
      if !found {
        return "", false;
      }
      expanded := Clean(expanded);
      if !IsAbs(expanded) {
        return "", false;
      }
      return expanded, true;
    }
  }

  lemma HasUnknownExtend(env: Env, refs: seq<VarRef>, i: nat)
    requires i < |refs|
    ensures HasUnknown(env, refs[..i + 1]) <==> HasUnknown(env, refs[..i]) || Lookup(env, refs[i].name).None?
  {
    var a := refs[..i + 1];
    assert a[i] == refs[i];
    assert forall k | 0 <= k < i :: a[k] == refs[..i][k];
  }

  // ---------------------------------------------------------------------
  // Properties of the resolver
  // ---------------------------------------------------------------------

  /** HOME and XDG_CONFIG_HOME are looked up before the custom table: binding them there changes nothing. */
  lemma ReservedNamesIgnored(env: Env, name: string, value: string, path: string)
    requires name == "HOME" || name == "XDG_CONFIG_HOME"
    ensures Resolve(env.(customVars := env.customVars[name := value]), path) == Resolve(env, path)
  {
    var env' := env.(customVars := env.customVars[name := value]);
    forall n ensures Lookup(env', n) == Lookup(env, n) {
    }
    ExpandSameLookup(env, env', Tilde(env.homeDir, RemoveQuotes(path)));
  }

  /** Two variable tables that answer every lookup alike expand every path alike. */
  lemma ExpandSameLookup(env: Env, env': Env, p: string)
    requires forall n :: Lookup(env', n) == Lookup(env, n)
    ensures Expand(env', p) == Expand(env, p)
  {
    var refs := VarRefs(p, 0);
    assert HasUnknown(env', refs) == HasUnknown(env, refs);
    SubstitutedSameLookup(env, env', p, refs);
  }

  lemma {:induction false} SubstitutedSameLookup(env: Env, env': Env, result: string, refs: seq<VarRef>)
    requires forall n :: Lookup(env', n) == Lookup(env, n)
    requires forall k | 0 <= k < |refs| :: refs[k].text != []
    ensures Substituted(env', result, refs) == Substituted(env, result, refs)
    decreases |refs|
  {
    if refs != [] {
      var next := match Lookup(env, refs[0].name)
        case Some(v) => ReplaceFirst(result, refs[0].text, v)
        case None => result;
      SubstitutedSameLookup(env, env', next, refs[1..]);
    }
  }
}
