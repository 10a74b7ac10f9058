/**
 * What one call of scanFile (internal/scanner/scanner.go) leaves behind for
 * the files it touches: the depth ceiling and the visited check, the record
 * of a newly opened file, the definitions and include paths each record
 * collects, the conditional flag, and the variable bindings.
 */
module ScanFacts {
  import opened Wrappers
  import opened Model
  import AliasParser
  import IncludeParser
  import opened PathResolve
  import opened ScanSpec
  import opened ScanProps

  // ---------------------------------------------------------------------
  // What a file contributes, line by line
  // ---------------------------------------------------------------------

  /** The definition line number n of `canon` contributes, if it is an alias line that parses. */
  function LineDefs(canon: string, line: string, n: nat): seq<AliasDefinition> {
    if !AliasParser.IsAliasLine(line) then []
    else match AliasParser.ParseLine(line, canon, n)
      case None => []
      case Some(d) => [d]
  }

  /** The definitions of lines i.. of `canon`, in line order, line i numbered i + 1. */
  function FileDefs(canon: string, lines: seq<string>, i: nat): seq<AliasDefinition>
    requires i <= |lines|
    decreases |lines| - i
  {
    if i == |lines| then [] else LineDefs(canon, lines[i], i + 1) + FileDefs(canon, lines, i + 1)
  }

  /** The raw paths of includes k.. of one line. */
  function IncludePaths(incs: seq<IncludeParser.ParseResult>, k: nat): seq<string>
    requires k <= |incs|
    decreases |incs| - k
  {
    if k == |incs| then [] else [incs[k].path] + IncludePaths(incs, k + 1)
  }

  /** The raw include paths of one line. */
  function LineIncludes(line: string): seq<string> {
    if IncludeParser.IsIncludeLine(line) then IncludePaths(IncludeParser.IncludesOf(line), 0) else []
  }

  /** The raw include paths of lines i.., in line order. */
  function FileIncludes(lines: seq<string>, i: nat): seq<string>
    requires i <= |lines|
    decreases |lines| - i
  {
    if i == |lines| then [] else LineIncludes(lines[i]) + FileIncludes(lines, i + 1)
  }

  /** Every record of st is still in r, with the same definitions and include paths. */
  ghost predicate Kept(st: ScanState, r: ScanState) {
    forall p | p in st.files :: p in r.files && SameLists(st.files[p], r.files[p])
  }

  /** Kept, except for the record of `canon`. */
  ghost predicate KeptBut(st: ScanState, r: ScanState, canon: string) {
    forall p | p in st.files && p != canon :: p in r.files && SameLists(st.files[p], r.files[p])
  }

  ghost predicate SameLists(a: SourceFile, b: SourceFile) {
    a.aliases == b.aliases && a.includes == b.includes
  }

  lemma KeptButTrans(a: ScanState, b: ScanState, c: ScanState, canon: string)
    requires KeptBut(a, b, canon) && KeptBut(b, c, canon)
    ensures KeptBut(a, c, canon)
  {
  }

  lemma Appended<T>(a: seq<T>, x: seq<T>, y: seq<T>, b: seq<T>, c: seq<T>)
    requires b == a + x && c == b + y
    ensures c == a + (x + y)
  {
  }

  // ---------------------------------------------------------------------
  // The outcomes of scanFile
  // ---------------------------------------------------------------------

  /** At or past the ceiling a call only appends its warning: no record, nothing visited, no error. */
  lemma DepthCeiling(s: Setting, path: string, depth: nat, st: ScanState)
    requires s.Valid() && depth >= MaxDepth
    ensures var o := ScanFileSpec(s, path, depth, st);
      && o.err.None? && o.st.files == st.files && o.st.visited == st.visited && o.st.log == st.log
      && o.st.unresolved == st.unresolved && o.st.vars == st.vars
      && o.st.warnings == st.warnings + ["Max include depth (25) reached at " + path]
  {
  }

  /** A path whose canonical form was visited before changes nothing and returns no error. */
  lemma VisitedSkip(s: Setting, path: string, depth: nat, st: ScanState)
    requires s.Valid() && depth < MaxDepth && Canonicalize(s.fs.links, s.fs.cwd, path) in st.visited
    ensures ScanFileSpec(s, path, depth, st) == Outcome(st, None)
  {
  }

  /**
   * A file opened for the first time gets a record under its canonical
   * path with the probe results; a missing file gets "file does not
   * exist", an unreadable one "permission denied", one whose reading fails
   * the read error, which is also returned; a file that is read keeps an
   * empty error.
   */
  lemma OpenRecord(s: Setting, canon: string, depth: nat, st: ScanState)
    requires s.Valid() && depth < MaxDepth && Wf(st) && canon !in st.visited
    ensures var o := OpenSpec(s, canon, depth, st);
      && canon in o.st.files
      && var rec := o.st.files[canon];
      && rec.path == canon && rec.fileExists == (canon in s.fs.nodes)
      && rec.readable == (canon in s.fs.nodes && !s.fs.nodes[canon].Unreadable?)
      && (canon !in s.fs.nodes ==> rec.error == "file does not exist" && o.err.None?)
      && (canon in s.fs.nodes ==> match s.fs.nodes[canon]
           case Unreadable => rec.error == "permission denied" && o.err.None?
           case ReadFailure(m) => rec.error == m && o.err == Some(m)
           case Lines(_) => rec.error == "" && o.err.None?)
  {
    if s.fs.Exists(canon) && s.fs.nodes[canon].Lines? {
      var st1 := Opened(s.fs, canon, st);
      OpenedKeeps(s.fs, canon, st);
      LinesGrows(s, canon, s.fs.nodes[canon].lines, 0, depth, st1);
      assert OpenSpec(s, canon, depth, st).st == LinesSpec(s, canon, s.fs.nodes[canon].lines, 0, depth, st1);
    }
  }

  // ---------------------------------------------------------------------
  // Definitions and include paths stay with their own file
  // ---------------------------------------------------------------------

  lemma {:induction false} ScanFileLists(s: Setting, path: string, depth: nat, st: ScanState)
    requires s.Valid() && Wf(st)
    ensures Kept(st, ScanFileSpec(s, path, depth, st).st)
    decreases Fuel(depth), 4, 0
  {
    if depth < MaxDepth {
      var canon := Canonicalize(s.fs.links, s.fs.cwd, path);
      if canon !in st.visited {
        OpenLists(s, canon, depth, st);
      }
    }
  }

  /**
   * Only a file that is read has definitions and include paths in its
   * record, and then exactly its own, in line order; no other record gains
   * or loses one, whatever the file includes.
   */
  lemma {:induction false} OpenLists(s: Setting, canon: string, depth: nat, st: ScanState)
    requires s.Valid() && depth < MaxDepth && Wf(st) && canon !in st.visited
    ensures var o := OpenSpec(s, canon, depth, st);
      && Kept(st, o.st) && canon in o.st.files
      && o.st.files[canon].aliases == (if s.fs.Exists(canon) && s.fs.nodes[canon].Lines?
                                       then FileDefs(canon, s.fs.nodes[canon].lines, 0) else [])
      && o.st.files[canon].includes == (if s.fs.Exists(canon) && s.fs.nodes[canon].Lines?
                                        then FileIncludes(s.fs.nodes[canon].lines, 0) else [])
    decreases Fuel(depth), 3, 0
  {
    var st1 := Opened(s.fs, canon, st);
    OpenedKeeps(s.fs, canon, st);
    if s.fs.Exists(canon) && s.fs.nodes[canon].Lines? {
      var lines := s.fs.nodes[canon].lines;
      LinesLists(s, canon, lines, 0, depth, st1);
      assert OpenSpec(s, canon, depth, st).st == LinesSpec(s, canon, lines, 0, depth, st1);
    }
  }

  lemma {:induction false} LinesLists(s: Setting, canon: string, lines: seq<string>, i: nat, depth: nat,
                                      st: ScanState)
    requires s.Valid() && i <= |lines| && depth < MaxDepth && Wf(st) && canon in st.files
    ensures var r := LinesSpec(s, canon, lines, i, depth, st);
      && KeptBut(st, r, canon) && canon in r.files
      && r.files[canon].aliases == st.files[canon].aliases + FileDefs(canon, lines, i)
      && r.files[canon].includes == st.files[canon].includes + FileIncludes(lines, i)
    decreases Fuel(depth), 2, |lines| - i, 1
  {
    if i < |lines| {
      LineStepLists(s, canon, lines, i, depth, st);
    }
  }

  lemma {:induction false} LineStepLists(s: Setting, canon: string, lines: seq<string>, i: nat, depth: nat,
                                         st: ScanState)
    requires s.Valid() && i < |lines| && depth < MaxDepth && Wf(st) && canon in st.files
    ensures var r := LinesSpec(s, canon, lines, i, depth, st);
      && KeptBut(st, r, canon) && canon in r.files
      && r.files[canon].aliases == st.files[canon].aliases + FileDefs(canon, lines, i)
      && r.files[canon].includes == st.files[canon].includes + FileIncludes(lines, i)
    decreases Fuel(depth), 2, |lines| - i, 0
  {
    var st1 := LineSpec(s, canon, lines[i], i + 1, depth, st);
    LineWf(s, canon, lines[i], i + 1, depth, st);
    LineLists(s, canon, lines[i], i + 1, depth, st);
    LinesLists(s, canon, lines, i + 1, depth, st1);
    var r := LinesSpec(s, canon, lines, i + 1, depth, st1);
    assert LinesSpec(s, canon, lines, i, depth, st) == r;
    KeptButTrans(st, st1, r, canon);
    Appended(st.files[canon].aliases, LineDefs(canon, lines[i], i + 1), FileDefs(canon, lines, i + 1),
             st1.files[canon].aliases, r.files[canon].aliases);
    Appended(st.files[canon].includes, LineIncludes(lines[i]), FileIncludes(lines, i + 1),
             st1.files[canon].includes, r.files[canon].includes);
  }

  lemma {:induction false} LineLists(s: Setting, canon: string, line: string, n: nat, depth: nat, st: ScanState)
    requires s.Valid() && depth < MaxDepth && Wf(st) && canon in st.files
    ensures var r := LineSpec(s, canon, line, n, depth, st);
      && KeptBut(st, r, canon) && canon in r.files
      && r.files[canon].aliases == st.files[canon].aliases + LineDefs(canon, line, n)
      && r.files[canon].includes == st.files[canon].includes + LineIncludes(line)
    decreases Fuel(depth), 1, 0
  {
    var st1 := AliasStep(canon, line, n, st);
    AliasStepKeeps(canon, line, n, st);
    AliasStepLists(canon, line, n, st);
    var st2 := st1;
    if IncludeParser.IsIncludeLine(line) {
      st2 := IncludesSpec(s, canon, IncludeParser.IncludesOf(line), 0, depth, st1);
      IncludesLists(s, canon, IncludeParser.IncludesOf(line), 0, depth, st1);
      KeptButTrans(st, st1, st2, canon);
    }
    assert LineSpec(s, canon, line, n, depth, st) == AssignStep(line, st2);
    assert AssignStep(line, st2).files == st2.files;
  }

  /** The alias classifier only appends the line's definition to the record of `canon`. */
  lemma AliasStepLists(canon: string, line: string, n: nat, st: ScanState)
    requires canon in st.files
    ensures var r := AliasStep(canon, line, n, st);
      && KeptBut(st, r, canon) && canon in r.files
      && r.files[canon].aliases == st.files[canon].aliases + LineDefs(canon, line, n)
      && r.files[canon].includes == st.files[canon].includes
  {
  }

  lemma {:induction false} IncludesLists(s: Setting, canon: string, incs: seq<IncludeParser.ParseResult>, k: nat,
                                         depth: nat, st: ScanState)
    requires s.Valid() && k <= |incs| && depth < MaxDepth && Wf(st) && canon in st.files
    ensures var r := IncludesSpec(s, canon, incs, k, depth, st);
      && KeptBut(st, r, canon) && canon in r.files
      && r.files[canon].aliases == st.files[canon].aliases
      && r.files[canon].includes == st.files[canon].includes + IncludePaths(incs, k)
    decreases Fuel(depth), 0, |incs| - k + 2
  {
    if k < |incs| {
      var st1 := IncludeSpec(s, canon, incs[k], depth, st);
      IncludeWf(s, canon, incs[k], depth, st);
      IncludeLists(s, canon, incs[k], depth, st);
      IncludesLists(s, canon, incs, k + 1, depth, st1);
      var r := IncludesSpec(s, canon, incs, k + 1, depth, st1);
      assert IncludesSpec(s, canon, incs, k, depth, st) == r;
      KeptButTrans(st, st1, r, canon);
      Appended(st.files[canon].includes, [incs[k].path], IncludePaths(incs, k + 1),
               st1.files[canon].includes, r.files[canon].includes);
    }
  }

  lemma {:induction false} IncludeLists(s: Setting, canon: string, inc: IncludeParser.ParseResult, depth: nat,
                                        st: ScanState)
    requires s.Valid() && depth < MaxDepth && Wf(st) && canon in st.files
    ensures var r := IncludeSpec(s, canon, inc, depth, st);
      && KeptBut(st, r, canon) && canon in r.files
      && r.files[canon].aliases == st.files[canon].aliases
      && r.files[canon].includes == st.files[canon].includes + [inc.path]
    decreases Fuel(depth), 0, 1
  {
    FollowLists(s, inc, depth, IncludeNoted(canon, inc.path, st));
  }

  lemma {:induction false} FollowLists(s: Setting, inc: IncludeParser.ParseResult, depth: nat, st: ScanState)
    requires s.Valid() && depth < MaxDepth && Wf(st)
    ensures Kept(st, FollowSpec(s, inc, depth, st))
    decreases Fuel(depth), 0, 0, 1
  {
    match Resolve(s.EnvAt(st), inc.path)
    case None =>
    case Some(rp) => FollowedLists(s, inc, depth, st, rp);
  }

  lemma {:induction false} FollowedLists(s: Setting, inc: IncludeParser.ParseResult, depth: nat, st: ScanState,
                                         rp: string)
    requires s.Valid() && depth < MaxDepth && Wf(st)
    ensures Kept(st, Marked(inc.conditional, rp, Warned(ScanFileSpec(s, rp, depth + 1, st), IncludeLead(rp))))
    decreases Fuel(depth), 0, 0, 0
  {
    ScanFileLists(s, rp, depth + 1, st);
    MarkedWarnedLists(inc.conditional, rp, ScanFileSpec(s, rp, depth + 1, st), IncludeLead(rp), st);
  }

  /** Neither the warning nor the conditional flag touches a definition or include path. */
  lemma MarkedWarnedLists(conditional: bool, rp: string, o: Outcome, lead: string, st: ScanState)
    requires Kept(st, o.st)
    ensures Kept(st, Marked(conditional, rp, Warned(o, lead)))
  {
  }

  // ---------------------------------------------------------------------
  // The conditional flag and the variable table
  // ---------------------------------------------------------------------

  /**
   * A conditional include whose resolved path is already canonical, below
   * the ceiling, leaves that file's record marked conditional. (The flag is
   * looked up under the resolved path, so for a path that canonicalises to
   * something else the record, stored under the canonical path, is not
   * marked.)
   */
  lemma ConditionalMarked(s: Setting, inc: IncludeParser.ParseResult, depth: nat, st: ScanState, rp: string)
    requires s.Valid() && depth + 1 < MaxDepth && Wf(st) && inc.conditional
    requires Resolve(s.EnvAt(st), inc.path) == Some(rp) && Canonicalize(s.fs.links, s.fs.cwd, rp) == rp
    ensures var r := FollowSpec(s, inc, depth, st); rp in r.files && r.files[rp].conditional
  {
    var o := ScanFileSpec(s, rp, depth + 1, st);
    CanonicalStored(s, rp, depth + 1, st);
    MarkedSets(rp, Warned(o, IncludeLead(rp)));
    assert FollowSpec(s, inc, depth, st) == Marked(inc.conditional, rp, Warned(o, IncludeLead(rp)));
  }

  lemma MarkedSets(rp: string, st: ScanState)
    requires rp in st.files
    ensures rp in Marked(true, rp, st).files && Marked(true, rp, st).files[rp].conditional
  {
  }

  /** Below the ceiling, a canonical path has a record once scanFile returns. */
  lemma CanonicalStored(s: Setting, path: string, depth: nat, st: ScanState)
    requires s.Valid() && depth < MaxDepth && Wf(st) && Canonicalize(s.fs.links, s.fs.cwd, path) == path
    ensures path in ScanFileSpec(s, path, depth, st).st.files
  {
    if path !in st.visited {
      OpenLists(s, path, depth, st);
    }
  }

  /**
   * A `NAME=value` line binds NAME for every later line and file: after
   * the line, resolution looks NAME up as value (unless NAME is one of the
   * two fixed variables).
   */
  lemma LineBindsVariable(s: Setting, canon: string, line: string, n: nat, depth: nat, st: ScanState)
    requires s.Valid() && depth < MaxDepth && canon in st.files && ParseVariableAssignment(line).Some?
    ensures var a := ParseVariableAssignment(line).value; var r := LineSpec(s, canon, line, n, depth, st);
      && a.name in r.vars && r.vars[a.name] == a.value
      && (a.name != "HOME" && a.name != "XDG_CONFIG_HOME" ==> Lookup(s.EnvAt(r), a.name) == Some(a.value))
  {
  }
}
