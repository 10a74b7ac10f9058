/**
 * What the walk of internal/scanner/scanner.go guarantees: the scan only
 * ever adds (records are never dropped, flags never cleared, logs never
 * truncated), each canonical path gets exactly one record, stored under
 * itself, and every alias is filed under the file it came from.
 */
module ScanProps {
  import opened Wrappers
  import opened FilePath
  import opened Model
  import AliasParser
  import IncludeParser
  import opened PathResolve
  import opened ScanSpec

  /**
   * The shape every scan state keeps: the file table holds one record per
   * visited canonical path, under that path; a record's definitions are
   * exactly the definitions passed to AddAlias from its file, in the same
   * order; every definition passed to AddAlias came from a file that has a
   * record.
   */
  ghost predicate Wf(st: ScanState) {
    && st.files.Keys == st.visited
    && (forall p | p in st.files :: Filed(p, st.files[p], st.log))
    && (forall d | d in st.log :: d.location.filePath in st.files)
  }

  /** The record stored under p is p's, and its definitions are the log's definitions from p. */
  ghost predicate Filed(p: string, rec: SourceFile, log: seq<AliasDefinition>) {
    rec.path == p && rec.aliases == FromFile(log, p)
  }

  /** The definitions in `log` found in file p, in log order. */
  function FromFile(log: seq<AliasDefinition>, p: string): (r: seq<AliasDefinition>)
    ensures |r| <= |log|
    ensures forall d | d in r :: d in log && d.location.filePath == p
  {
    if log == [] then []
    else
      var last := log[|log| - 1];
      FromFile(log[..|log| - 1], p) + (if last.location.filePath == p then [last] else [])
  }

  lemma FromFileAppend(log: seq<AliasDefinition>, d: AliasDefinition, p: string)
    ensures FromFile(log + [d], p) == FromFile(log, p) + (if d.location.filePath == p then [d] else [])
  {
    assert (log + [d])[..|log|] == log;
  }

  /** A file no definition of the log came from has none. */
  lemma FromFileAbsent(log: seq<AliasDefinition>, p: string)
    requires forall d | d in log :: d.location.filePath != p
    ensures FromFile(log, p) == []
  {
  }

  /** Every definition is kept: FromFile is exactly the filter of the log by file. */
  lemma {:induction false} FromFileComplete(log: seq<AliasDefinition>, d: AliasDefinition)
    requires d in log
    ensures d in FromFile(log, d.location.filePath)
  {
    var last := log[|log| - 1];
    if last != d {
      assert log == log[..|log| - 1] + [last];
      FromFileComplete(log[..|log| - 1], d);
    }
  }

  /**
   * A later record of the same file: the path, the probe results and the
   * error are as they were, the conditional flag is never cleared, and the
   * alias and include lists only grow at the end.
   */
  ghost predicate Extends(a: SourceFile, b: SourceFile) {
    && b.path == a.path && b.fileExists == a.fileExists && b.readable == a.readable && b.error == a.error
    && (a.conditional ==> b.conditional)
    && a.aliases <= b.aliases && a.includes <= b.includes
  }

  /**
   * From st to r the scan only added: the definition log, the unresolved
   * paths and the warnings are extended at the end, nothing leaves the
   * visited set, no variable binding is dropped, and every record is still
   * there, extended.
   */
  ghost predicate Grows(st: ScanState, r: ScanState) {
    && st.log <= r.log && st.unresolved <= r.unresolved && st.warnings <= r.warnings
    && st.visited <= r.visited && st.vars.Keys <= r.vars.Keys
    && (forall p | p in st.files :: p in r.files && Extends(st.files[p], r.files[p]))
  }

  lemma GrowsTrans(a: ScanState, b: ScanState, c: ScanState)
    requires Grows(a, b) && Grows(b, c)
    ensures Grows(a, c)
  {
    forall p | p in a.files ensures p in c.files && Extends(a.files[p], c.files[p]) {
      PrefixTrans(a.files[p].aliases, b.files[p].aliases, c.files[p].aliases);
      PrefixTrans(a.files[p].includes, b.files[p].includes, c.files[p].includes);
    }
    PrefixTrans(a.log, b.log, c.log);
    PrefixTrans(a.unresolved, b.unresolved, c.unresolved);
    PrefixTrans(a.warnings, b.warnings, c.warnings);
  }

  lemma PrefixTrans<T>(x: seq<T>, y: seq<T>, z: seq<T>)
    requires x <= y && y <= z
    ensures x <= z
  {
    assert z[..|x|] == y[..|x|];
  }

  // ---------------------------------------------------------------------
  // The single steps
  // ---------------------------------------------------------------------

  lemma AliasStepKeeps(canon: string, line: string, n: nat, st: ScanState)
    requires Wf(st) && canon in st.files
    ensures Wf(AliasStep(canon, line, n, st)) && Grows(st, AliasStep(canon, line, n, st))
  {
    if AliasParser.IsAliasLine(line) {
      var r := AliasParser.ParseLine(line, canon, n);
      if r.Some? {
        AliasAddedKeeps(canon, r.value, st);
      }
    }
  }

  lemma AliasAddedKeeps(canon: string, def: AliasDefinition, st: ScanState)
    requires Wf(st) && canon in st.files && def.location.filePath == canon
    ensures Wf(AliasAdded(canon, def, st)) && Grows(st, AliasAdded(canon, def, st))
  {
    var r := AliasAdded(canon, def, st);
    forall p | p in r.files
      ensures Filed(p, r.files[p], r.log)
    {
      AliasAddedFiled(canon, def, st, p);
    }
  }

  lemma AliasAddedFiled(canon: string, def: AliasDefinition, st: ScanState, p: string)
    requires canon in st.files && def.location.filePath == canon
    requires p in st.files && Filed(p, st.files[p], st.log)
    ensures Filed(p, AliasAdded(canon, def, st).files[p], st.log + [def])
  {
    FromFileAppend(st.log, def, p);
  }

  lemma OpenedFailedKeeps(fs: FileSystem, canon: string, error: string, st: ScanState)
    requires Wf(st) && canon !in st.visited
    ensures Wf(Failed(canon, error, Opened(fs, canon, st))) && Grows(st, Failed(canon, error, Opened(fs, canon, st)))
  {
    OpenedKeeps(fs, canon, st);
  }

  lemma OpenedKeeps(fs: FileSystem, canon: string, st: ScanState)
    requires Wf(st) && canon !in st.visited
    ensures Wf(Opened(fs, canon, st)) && Grows(st, Opened(fs, canon, st))
  {
    FromFileAbsent(st.log, canon);
  }

  lemma AssignStepKeeps(line: string, st: ScanState)
    requires Wf(st)
    ensures Wf(AssignStep(line, st)) && Grows(st, AssignStep(line, st))
  {
  }

  lemma MarkedWarnedKeeps(conditional: bool, rp: string, o: Outcome, lead: string)
    requires Wf(o.st)
    ensures Wf(Marked(conditional, rp, Warned(o, lead)))
    ensures Grows(o.st, Marked(conditional, rp, Warned(o, lead)))
  {
  }

  // ---------------------------------------------------------------------
  // The walk
  // ---------------------------------------------------------------------

  /** scanFile keeps the shape. */
  lemma {:induction false} ScanFileWf(s: Setting, path: string, depth: nat, st: ScanState)
    requires s.Valid() && Wf(st)
    ensures Wf(ScanFileSpec(s, path, depth, st).st)
    decreases Fuel(depth), 4, 0
  {
    if depth < MaxDepth {
      var canon := Canonicalize(s.fs.links, s.fs.cwd, path);
      if canon !in st.visited {
        OpenWf(s, canon, depth, st);
      }
    }
  }

  lemma {:induction false} OpenWf(s: Setting, canon: string, depth: nat, st: ScanState)
    requires s.Valid() && depth < MaxDepth && Wf(st) && canon !in st.visited
    ensures Wf(OpenSpec(s, canon, depth, st).st)
    decreases Fuel(depth), 3, 0
  {
    var st1 := Opened(s.fs, canon, st);
    OpenedKeeps(s.fs, canon, st);
    if s.fs.Exists(canon) && s.fs.nodes[canon].Lines? {
      LinesWf(s, canon, s.fs.nodes[canon].lines, 0, depth, st1);
    }
  }

  lemma {:induction false} LinesWf(s: Setting, canon: string, lines: seq<string>, i: nat, depth: nat, st: ScanState)
    requires s.Valid() && i <= |lines| && depth < MaxDepth && Wf(st) && canon in st.files
    ensures Wf(LinesSpec(s, canon, lines, i, depth, st))
    decreases Fuel(depth), 2, |lines| - i
  {
    if i < |lines| {
      LineWf(s, canon, lines[i], i + 1, depth, st);
      LinesWf(s, canon, lines, i + 1, depth, LineSpec(s, canon, lines[i], i + 1, depth, st));
    }
  }

  lemma {:induction false} LineWf(s: Setting, canon: string, line: string, n: nat, depth: nat, st: ScanState)
    requires s.Valid() && depth < MaxDepth && Wf(st) && canon in st.files
    ensures Wf(LineSpec(s, canon, line, n, depth, st))
    decreases Fuel(depth), 1, 0
  {
    AliasStepKeeps(canon, line, n, st);
    if IncludeParser.IsIncludeLine(line) {
      IncludesWf(s, canon, IncludeParser.IncludesOf(line), 0, depth, AliasStep(canon, line, n, st));
    }
  }

  lemma {:induction false} IncludesWf(s: Setting, canon: string, incs: seq<IncludeParser.ParseResult>, k: nat,
                                      depth: nat, st: ScanState)
    requires s.Valid() && k <= |incs| && depth < MaxDepth && Wf(st) && canon in st.files
    ensures Wf(IncludesSpec(s, canon, incs, k, depth, st))
    decreases Fuel(depth), 0, |incs| - k + 2
  {
    if k < |incs| {
      IncludeWf(s, canon, incs[k], depth, st);
      IncludesWf(s, canon, incs, k + 1, depth, IncludeSpec(s, canon, incs[k], depth, st));
    }
  }

  lemma {:induction false} IncludeWf(s: Setting, canon: string, inc: IncludeParser.ParseResult, depth: nat,
                                     st: ScanState)
    requires s.Valid() && depth < MaxDepth && Wf(st) && canon in st.files
    ensures Wf(IncludeSpec(s, canon, inc, depth, st))
    decreases Fuel(depth), 0, 1
  {
    FollowWf(s, inc, depth, IncludeNoted(canon, inc.path, st));
  }

  lemma {:induction false} FollowWf(s: Setting, inc: IncludeParser.ParseResult, depth: nat, st: ScanState)
    requires s.Valid() && depth < MaxDepth && Wf(st)
    ensures Wf(FollowSpec(s, inc, depth, st))
    decreases Fuel(depth), 0, 0, 1
  {
    match Resolve(s.EnvAt(st), inc.path)
    case None =>
    case Some(rp) => FollowedWf(s, inc, depth, st, rp);
  }

  lemma {:induction false} FollowedWf(s: Setting, inc: IncludeParser.ParseResult, depth: nat, st: ScanState,
                                      rp: string)
    requires s.Valid() && depth < MaxDepth && Wf(st)
    ensures Wf(Marked(inc.conditional, rp, Warned(ScanFileSpec(s, rp, depth + 1, st), IncludeLead(rp))))
    decreases Fuel(depth), 0, 0, 0
  {
    ScanFileWf(s, rp, depth + 1, st);
    MarkedWarnedKeeps(inc.conditional, rp, ScanFileSpec(s, rp, depth + 1, st), IncludeLead(rp));
  }

  /** scanFile only adds. */
  lemma {:induction false} ScanFileGrows(s: Setting, path: string, depth: nat, st: ScanState)
    requires s.Valid() && Wf(st)
    ensures Grows(st, ScanFileSpec(s, path, depth, st).st)
    decreases Fuel(depth), 4, 0
  {
    if depth < MaxDepth {
      var canon := Canonicalize(s.fs.links, s.fs.cwd, path);
      if canon !in st.visited {
        OpenGrows(s, canon, depth, st);
      }
    }
  }

  lemma {:induction false} OpenGrows(s: Setting, canon: string, depth: nat, st: ScanState)
    requires s.Valid() && depth < MaxDepth && Wf(st) && canon !in st.visited
    ensures Grows(st, OpenSpec(s, canon, depth, st).st)
    decreases Fuel(depth), 3, 0
  {
    var st1 := Opened(s.fs, canon, st);
    OpenedKeeps(s.fs, canon, st);
    if s.fs.Exists(canon) && s.fs.nodes[canon].Lines? {
      var r := LinesSpec(s, canon, s.fs.nodes[canon].lines, 0, depth, st1);
      LinesGrows(s, canon, s.fs.nodes[canon].lines, 0, depth, st1);
      GrowsTrans(st, st1, r);
    } else {
      var e := if !s.fs.Exists(canon) then "file does not exist"
               else if s.fs.nodes[canon].Unreadable? then "permission denied"
               else s.fs.nodes[canon].message;
      OpenedFailedKeeps(s.fs, canon, e, st);
    }
  }

  lemma {:induction false} LinesGrows(s: Setting, canon: string, lines: seq<string>, i: nat, depth: nat, st: ScanState)
    requires s.Valid() && i <= |lines| && depth < MaxDepth && Wf(st) && canon in st.files
    ensures Grows(st, LinesSpec(s, canon, lines, i, depth, st))
    decreases Fuel(depth), 2, |lines| - i, 1
  {
    if i < |lines| {
      LineStepGrows(s, canon, lines, i, depth, st);
    }
  }

  lemma {:induction false} LineStepGrows(s: Setting, canon: string, lines: seq<string>, i: nat, depth: nat, st: ScanState)
    requires s.Valid() && i < |lines| && depth < MaxDepth && Wf(st) && canon in st.files
    ensures Grows(st, LinesSpec(s, canon, lines, i, depth, st))
    decreases Fuel(depth), 2, |lines| - i, 0
  {
    var st1 := LineSpec(s, canon, lines[i], i + 1, depth, st);
    LineWf(s, canon, lines[i], i + 1, depth, st);
    LineGrows(s, canon, lines[i], i + 1, depth, st);
    LinesGrows(s, canon, lines, i + 1, depth, st1);
    assert LinesSpec(s, canon, lines, i, depth, st) == LinesSpec(s, canon, lines, i + 1, depth, st1);
    GrowsTrans(st, st1, LinesSpec(s, canon, lines, i + 1, depth, st1));
  }

  lemma {:induction false} LineGrows(s: Setting, canon: string, line: string, n: nat, depth: nat, st: ScanState)
    requires s.Valid() && depth < MaxDepth && Wf(st) && canon in st.files
    ensures Grows(st, LineSpec(s, canon, line, n, depth, st))
    decreases Fuel(depth), 1, 0
  {
    var st1 := AliasStep(canon, line, n, st);
    AliasStepKeeps(canon, line, n, st);
    if IncludeParser.IsIncludeLine(line) {
      var st2 := IncludesSpec(s, canon, IncludeParser.IncludesOf(line), 0, depth, st1);
      IncludesWf(s, canon, IncludeParser.IncludesOf(line), 0, depth, st1);
      IncludesGrows(s, canon, IncludeParser.IncludesOf(line), 0, depth, st1);
      AssignStepKeeps(line, st2);
      GrowsTrans(st, st1, st2);
      GrowsTrans(st, st2, AssignStep(line, st2));
    } else {
      AssignStepKeeps(line, st1);
      GrowsTrans(st, st1, AssignStep(line, st1));
    }
  }

  lemma {:induction false} IncludesGrows(s: Setting, canon: string, incs: seq<IncludeParser.ParseResult>, k: nat,
                                         depth: nat, st: ScanState)
    requires s.Valid() && k <= |incs| && depth < MaxDepth && Wf(st) && canon in st.files
    ensures Grows(st, IncludesSpec(s, canon, incs, k, depth, st))
    decreases Fuel(depth), 0, |incs| - k + 2
  {
    if k < |incs| {
      var st1 := IncludeSpec(s, canon, incs[k], depth, st);
      IncludeWf(s, canon, incs[k], depth, st);
      IncludeGrows(s, canon, incs[k], depth, st);
      IncludesGrows(s, canon, incs, k + 1, depth, st1);
      GrowsTrans(st, st1, IncludesSpec(s, canon, incs, k + 1, depth, st1));
    }
  }

  lemma {:induction false} IncludeGrows(s: Setting, canon: string, inc: IncludeParser.ParseResult, depth: nat,
                                        st: ScanState)
    requires s.Valid() && depth < MaxDepth && Wf(st) && canon in st.files
    ensures Grows(st, IncludeSpec(s, canon, inc, depth, st))
    decreases Fuel(depth), 0, 1
  {
    var st1 := IncludeNoted(canon, inc.path, st);
    FollowGrows(s, inc, depth, st1);
    GrowsTrans(st, st1, FollowSpec(s, inc, depth, st1));
  }

  lemma {:induction false} FollowGrows(s: Setting, inc: IncludeParser.ParseResult, depth: nat, st: ScanState)
    requires s.Valid() && depth < MaxDepth && Wf(st)
    ensures Grows(st, FollowSpec(s, inc, depth, st))
    decreases Fuel(depth), 0, 0, 1
  {
    match Resolve(s.EnvAt(st), inc.path)
    case None =>
    case Some(rp) => FollowedGrows(s, inc, depth, st, rp);
  }

  lemma {:induction false} FollowedGrows(s: Setting, inc: IncludeParser.ParseResult, depth: nat, st: ScanState,
                                         rp: string)
    requires s.Valid() && depth < MaxDepth && Wf(st)
    ensures Grows(st, Marked(inc.conditional, rp, Warned(ScanFileSpec(s, rp, depth + 1, st), IncludeLead(rp))))
    decreases Fuel(depth), 0, 0, 0
  {
    var o := ScanFileSpec(s, rp, depth + 1, st);
    ScanFileWf(s, rp, depth + 1, st);
    ScanFileGrows(s, rp, depth + 1, st);
    MarkedWarnedKeeps(inc.conditional, rp, o, IncludeLead(rp));
    GrowsTrans(st, o.st, Marked(inc.conditional, rp, Warned(o, IncludeLead(rp))));
  }

  // ---------------------------------------------------------------------
  // ScanShellFiles
  // ---------------------------------------------------------------------

  lemma WarnedKeeps(o: Outcome, lead: string)
    requires Wf(o.st)
    ensures Wf(Warned(o, lead)) && Grows(o.st, Warned(o, lead))
  {
  }

  /** One root keeps the shape and only adds. */
  lemma RootKeeps(s: Setting, root: string, st: ScanState)
    requires s.Valid() && Wf(st)
    ensures Wf(RootSpec(s, root, st)) && Grows(st, RootSpec(s, root, st))
  {
    match Resolve(s.EnvAt(st), root)
    case None =>
    case Some(e) =>
      var o := ScanFileSpec(s, e, 0, st);
      ScanFileWf(s, e, 0, st);
      ScanFileGrows(s, e, 0, st);
      WarnedKeeps(o, RootLead(e));
      GrowsTrans(st, o.st, Warned(o, RootLead(e)));
  }

  /** Roots i.. keep the shape and only add. */
  lemma {:induction false} RootsKeep(s: Setting, roots: seq<string>, i: nat, st: ScanState)
    requires s.Valid() && i <= |roots| && Wf(st)
    ensures Wf(RootsSpec(s, roots, i, st)) && Grows(st, RootsSpec(s, roots, i, st))
    decreases |roots| - i
  {
    if i < |roots| {
      var st1 := RootSpec(s, roots[i], st);
      RootKeeps(s, roots[i], st);
      RootsKeep(s, roots, i + 1, st1);
      assert RootsSpec(s, roots, i, st) == RootsSpec(s, roots, i + 1, st1);
      GrowsTrans(st, st1, RootsSpec(s, roots, i + 1, st1));
    }
  }

  /**
   * The tables ScanShellFiles returns: one record per canonical path
   * visited, stored under that path; each record's definitions are exactly
   * the definitions passed to AddAlias from its file, in order, so each
   * of them is in the history of its name in the alias table, and every
   * definition passed to AddAlias is in the record of its file; and every
   * variable bound before the scan is still bound after it.
   */
  lemma ScanShellFilesShape(s: Setting, roots: seq<string>, vars: map<string, string>)
    requires s.Valid()
    ensures var r := RootsSpec(s, roots, 0, Start(vars));
      && (forall p | p in r.files :: r.files[p].path == p && r.files[p].aliases == FromFile(r.log, p))
      && (forall p, d | p in r.files && d in r.files[p].aliases :: d.location.filePath == p && d in Named(r.log, d.name))
      && (forall d | d in r.log :: d.location.filePath in r.files && d in r.files[d.location.filePath].aliases)
      && vars.Keys <= r.vars.Keys
  {
    var r := RootsSpec(s, roots, 0, Start(vars));
    RootsKeep(s, roots, 0, Start(vars));
    forall p, d | p in r.files && d in r.files[p].aliases
      ensures d in Named(r.log, d.name)
    {
      NamedComplete(r.log, d);
    }
    forall d | d in r.log
      ensures d in r.files[d.location.filePath].aliases
    {
      FromFileComplete(r.log, d);
    }
  }
}
