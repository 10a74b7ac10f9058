/**
 * The recursive scanner (internal/scanner/scanner.go) as the Go code runs
 * it: a Scanner object owning one PathResolver for its whole life, a
 * ScanResult whose tables and SourceFile records are updated in place, and
 * the visited set, threaded through the recursion.
 *
 * Every method is proved to leave the result, the visited set and the
 * resolver exactly as the pure walk of ScanSpec says.
 */
module Scan {
  import opened Wrappers
  import opened Model
  import AliasParser
  import IncludeParser
  import opened PathResolve
  import opened ScanSpec
  import ScanProps

  /**
   * From the earlier state to this one the result only grew: whatever it
   * came to own is newly allocated, and shell and roots are untouched.
   */
  twostate predicate Grown(result: ScanResult)
    reads result`Repr, result`shell, result`rootFiles
  {
    && fresh(result.Repr - old(result.Repr))
    && result.shell == old(result.shell) && result.rootFiles == old(result.rootFiles)
  }

  /** Scanner: the resolver it keeps between scans, and the file system it reads. */
  class Scanner {
    const resolver: PathResolver
    const fs: FileSystem

    /** NewScanner, with the home directory, XDG_CONFIG_HOME and the file system passed in. */
    constructor (homeDir: string, xdgEnv: string, fs: FileSystem)
      ensures fresh(resolver) && resolver.homeDir == homeDir && resolver.customVars == map[]
      ensures resolver.xdgConfigHome == if xdgEnv == [] then FilePath.Join(homeDir, ".config") else xdgEnv
      ensures this.fs == fs
    {
      resolver := new PathResolver(homeDir, xdgEnv);
      this.fs := fs;
    }

    /** The fixed part of a scan. */
    function World(): Setting {
      Setting(fs, resolver.homeDir, resolver.xdgConfigHome)
    }

    /** The part of the heap a scan changes, with the visited set, as a ScanState. */
    ghost function StateOf(result: ScanResult, visited: set<string>): ScanState
      reads result`log, result`files, result`unresolvedPaths, result`warnings, resolver`customVars
    {
      ScanState(result.log, result.files, result.unresolvedPaths, result.warnings, visited,
                resolver.customVars)
    }

    /** FileReader.ReadLines on a file that exists and is readable: its lines, or the error reading it. */
    method ReadLines(path: string) returns (lines: seq<string>, err: Option<string>)
      requires fs.Readable(path)
      ensures fs.nodes[path].ReadFailure? ==> lines == [] && err == Some(fs.nodes[path].message)
      ensures fs.nodes[path].Lines? ==> lines == fs.nodes[path].lines && err.None?
    {
      match fs.nodes[path]
      case ReadFailure(m) =>
        lines, err := [], Some(m);
      case Lines(ls) =>
        lines, err := ls, None;
    }

    /**
     * ScanShellFiles: a fresh result and visited set; each root is resolved
     * with the scanner's resolver, recorded as unresolved or scanned from
     * depth 0. The resolver is not reset: the scan starts from whatever
     * variables earlier scans bound. (The Go method's error is always nil.)
     */
    method ScanShellFiles(shell: string, rootPaths: seq<string>) returns (result: ScanResult)
      requires fs.Valid()
      modifies resolver
      ensures fresh(result) && result.Valid() && result.shell == shell && result.rootFiles == rootPaths
      ensures var st := RootsSpec(World(), rootPaths, 0, Start(old(resolver.customVars)));
        && result.log == st.log && result.files == st.files
        && result.unresolvedPaths == st.unresolved && result.warnings == st.warnings
        && resolver.customVars == st.vars
      ensures forall p, d | p in result.files && d in result.files[p].aliases ::
        d.name in result.aliases && d in result.aliases[d.name].definitions
    {
      result := new ScanResult(shell, rootPaths);
      var visited: set<string> := {};
      ghost var start := StateOf(result, visited);
      var i := 0;
      while i < |rootPaths|
        invariant i <= |rootPaths|
        invariant fresh(result) && result.Valid() && result.shell == shell && result.rootFiles == rootPaths
        invariant result.files.Keys == visited
        invariant fresh(result.Repr)
        invariant RootsSpec(World(), rootPaths, i, StateOf(result, visited)) == RootsSpec(World(), rootPaths, 0, start)
      {
        visited := ScanRoot(rootPaths[i], result, visited);
        i := i + 1;
      }
      ScanProps.ScanShellFilesShape(World(), rootPaths, old(resolver.customVars));
      forall p, d | p in result.files && d in result.files[p].aliases
        ensures d.name in result.aliases && d in result.aliases[d.name].definitions
      {
        assert d in result.log;
        result.Logged(d);
      }
    }

    /** One root of ScanShellFiles: resolved with the scanner's resolver, then recorded as unresolved or scanned. */
    method ScanRoot(root: string, result: ScanResult, visited: set<string>) returns (visited': set<string>)
      requires fs.Valid() && result.Valid() && result.files.Keys == visited
      modifies result, result.Repr, resolver
      ensures result.Valid() && result.files.Keys == visited' && Grown(result)
      ensures StateOf(result, visited') == RootSpec(World(), root, old(StateOf(result, visited)))
    {
      visited' := visited;
      var expanded, ok := resolver.ResolvePath(root);
      if !ok {
        result.unresolvedPaths := result.unresolvedPaths + [root];
      } else {
        visited' := ScanResolvedRoot(expanded, result, visited);
      }
    }

    /** A resolved root is scanned from depth 0, and its error becomes a warning. */
    method ScanResolvedRoot(expanded: string, result: ScanResult, visited: set<string>) returns (visited': set<string>)
      requires fs.Valid() && result.Valid() && result.files.Keys == visited
      modifies result, result.Repr, resolver
      ensures result.Valid() && result.files.Keys == visited' && Grown(result)
      ensures StateOf(result, visited') ==
        Warned(ScanFileSpec(World(), expanded, 0, old(StateOf(result, visited))), RootLead(expanded))
    {
      var err;
      visited', err := ScanFile(expanded, result, visited, 0);
      if err.Some? {
        result.warnings := result.warnings + [RootLead(expanded) + err.value];
      }
    }

    /** scanFile: the depth ceiling, canonicalisation and the visited check. */
    method ScanFile(filePath: string, result: ScanResult, visited: set<string>, depth: nat)
      returns (visited': set<string>, err: Option<string>)
      requires fs.Valid() && result.Valid() && result.files.Keys == visited
      modifies result, result.Repr, resolver
      ensures result.Valid() && result.files.Keys == visited' && Grown(result)
      ensures var o := ScanFileSpec(World(), filePath, depth, old(StateOf(result, visited)));
        StateOf(result, visited') == o.st && err == o.err
      decreases Fuel(depth), 8
    {
      if depth >= MaxDepth {
        result.warnings := result.warnings + [DepthWarning(filePath)];
        return visited, None;
      }
      var canonPath := Canonicalize(fs.links, fs.cwd, filePath);
      if canonPath in visited {
        return visited, None;
      }
      visited', err := OpenFile(canonPath, result, visited, depth);
    }

    /**
     * The rest of scanFile for a path not visited before: the record stored
     * before reading, the missing / unreadable / read-error exits, and the
     * line loop.
     */
    method OpenFile(canonPath: string, result: ScanResult, visited: set<string>, depth: nat)
      returns (visited': set<string>, err: Option<string>)
      requires fs.Valid() && result.Valid() && result.files.Keys == visited && depth < MaxDepth
      requires canonPath !in visited
      modifies result, result.Repr, resolver
      ensures result.Valid() && result.files.Keys == visited' && Grown(result)
      ensures var o := OpenSpec(World(), canonPath, depth, old(StateOf(result, visited)));
        StateOf(result, visited') == o.st && err == o.err
      decreases Fuel(depth), 7
    {
      var sourceFile;
      visited', sourceFile := StoreRecord(canonPath, result, visited);
      if !sourceFile.fileExists {
        SetError(canonPath, "file does not exist", result, visited');
        return visited', None;
      }
      if !sourceFile.readable {
        SetError(canonPath, "permission denied", result, visited');
        return visited', None;
      }
      var lines, readErr := ReadLines(canonPath);
      if readErr.Some? {
        SetError(canonPath, readErr.value, result, visited');
        return visited', readErr;
      }
      visited' := ScanLines(canonPath, lines, result, visited', depth);
      err := None;
    }

    /** The line loop of scanFile; lines are numbered from 1. */
    method ScanLines(canonPath: string, lines: seq<string>, result: ScanResult, visited: set<string>, depth: nat)
      returns (visited': set<string>)
      requires fs.Valid() && result.Valid() && result.files.Keys == visited && depth < MaxDepth
      requires canonPath in visited
      modifies result, result.Repr, resolver
      ensures result.Valid() && result.files.Keys == visited' && Grown(result)
      ensures StateOf(result, visited') == LinesSpec(World(), canonPath, lines, 0, depth, old(StateOf(result, visited)))
      decreases Fuel(depth), 6
    {
      visited' := visited;
      var i := 0;
      while i < |lines|
        invariant i <= |lines|
        invariant result.Valid() && result.files.Keys == visited' && Grown(result)
        invariant canonPath in visited'
        invariant LinesSpec(World(), canonPath, lines, i, depth, StateOf(result, visited'))
               == LinesSpec(World(), canonPath, lines, 0, depth, old(StateOf(result, visited)))
      {
        visited' := ScanLine(canonPath, lines[i], i + 1, result, visited', depth);
        i := i + 1;
      }
    }

    /** One pass of the line loop: alias, then includes, then a variable assignment. */
    method ScanLine(canonPath: string, line: string, lineNumber: nat,
                    result: ScanResult, visited: set<string>, depth: nat)
      returns (visited': set<string>)
      requires fs.Valid() && result.Valid() && result.files.Keys == visited && depth < MaxDepth
      requires canonPath in visited
      modifies result, result.Repr, resolver
      ensures result.Valid() && result.files.Keys == visited' && Grown(result)
      ensures StateOf(result, visited') == LineSpec(World(), canonPath, line, lineNumber, depth, old(StateOf(result, visited)))
      decreases Fuel(depth), 5
    {
      AliasPhase(canonPath, line, lineNumber, result, visited);
      visited' := IncludePhase(canonPath, line, result, visited, depth);
      AssignPhase(line, result, visited');
    }

    /** The alias classifier of the line loop. */
    method AliasPhase(canonPath: string, line: string, lineNumber: nat, result: ScanResult, ghost visited: set<string>)
      requires result.Valid() && canonPath in result.files
      modifies result, result.Repr
      ensures result.Valid() && result.files.Keys == old(result.files.Keys) && Grown(result)
      ensures StateOf(result, visited) == AliasStep(canonPath, line, lineNumber, old(StateOf(result, visited)))
    {
      if AliasParser.IsAliasLine(line) {
        var aliasDef := AliasParser.ParseLine(line, canonPath, lineNumber);
        if aliasDef.Some? {
          AppendAlias(canonPath, aliasDef.value, result, visited);
        }
      }
    }

    /** The include classifier of the line loop. */
    method IncludePhase(canonPath: string, line: string, result: ScanResult, visited: set<string>, depth: nat)
      returns (visited': set<string>)
      requires fs.Valid() && result.Valid() && result.files.Keys == visited && depth < MaxDepth
      requires canonPath in visited
      modifies result, result.Repr, resolver
      ensures result.Valid() && result.files.Keys == visited' && Grown(result)
      ensures StateOf(result, visited') ==
        if IncludeParser.IsIncludeLine(line) then
          IncludesSpec(World(), canonPath, IncludeParser.IncludesOf(line), 0, depth, old(StateOf(result, visited)))
        else old(StateOf(result, visited))
      decreases Fuel(depth), 4
    {
      visited' := visited;
      if IncludeParser.IsIncludeLine(line) {
        var includes := IncludeParser.ParseLine(line);
        visited' := FollowIncludes(canonPath, includes, result, visited, depth);
      }
    }

    /** The assignment classifier of the line loop: the resolver learns NAME=value. */
    method AssignPhase(line: string, ghost result: ScanResult, ghost visited: set<string>)
      modifies resolver
      ensures StateOf(result, visited) == AssignStep(line, old(StateOf(result, visited)))
    {
      var assignment := ParseVariableAssignment(line);
      if assignment.Some? {
        resolver.SetVariable(assignment.value.name, assignment.value.value);
      }
    }

    /** The include loop of one line. */
    method FollowIncludes(canonPath: string, includes: seq<IncludeParser.ParseResult>,
                          result: ScanResult, visited: set<string>, depth: nat)
      returns (visited': set<string>)
      requires fs.Valid() && result.Valid() && result.files.Keys == visited && depth < MaxDepth
      requires canonPath in visited
      modifies result, result.Repr, resolver
      ensures result.Valid() && result.files.Keys == visited' && Grown(result)
      ensures StateOf(result, visited') == IncludesSpec(World(), canonPath, includes, 0, depth, old(StateOf(result, visited)))
      decreases Fuel(depth), 3
    {
      visited' := visited;
      var k := 0;
      while k < |includes|
        invariant k <= |includes|
        invariant result.Valid() && result.files.Keys == visited' && Grown(result)
        invariant canonPath in visited'
        invariant IncludesSpec(World(), canonPath, includes, k, depth, StateOf(result, visited'))
               == IncludesSpec(World(), canonPath, includes, 0, depth, old(StateOf(result, visited)))
      {
        visited' := FollowInclude(canonPath, includes[k], result, visited', depth);
        k := k + 1;
      }
    }

    /**
     * One include: note the raw path in the file's record; record an
     * unresolvable one, scan a resolved one a level deeper, turn its error
     * into a warning, and for a conditional include mark the record stored
     * under the resolved path.
     */
    method FollowInclude(canonPath: string, inc: IncludeParser.ParseResult,
                         result: ScanResult, visited: set<string>, depth: nat)
      returns (visited': set<string>)
      requires fs.Valid() && result.Valid() && result.files.Keys == visited && depth < MaxDepth
      requires canonPath in visited
      modifies result, result.Repr, resolver
      ensures result.Valid() && result.files.Keys == visited' && Grown(result)
      ensures StateOf(result, visited') == IncludeSpec(World(), canonPath, inc, depth, old(StateOf(result, visited)))
      decreases Fuel(depth), 2
    {
      visited' := visited;
      AppendInclude(canonPath, inc.path, result, visited);
      visited' := ResolveInclude(inc, result, visited, depth);
    }

    /** Resolve an include's path; record it if that fails, follow it if not. */
    method ResolveInclude(inc: IncludeParser.ParseResult, result: ScanResult, visited: set<string>, depth: nat)
      returns (visited': set<string>)
      requires fs.Valid() && result.Valid() && result.files.Keys == visited && depth < MaxDepth
      modifies result, result.Repr, resolver
      ensures result.Valid() && result.files.Keys == visited' && Grown(result)
      ensures StateOf(result, visited') == FollowSpec(World(), inc, depth, old(StateOf(result, visited)))
      decreases Fuel(depth), 1
    {
      var resolvedPath, ok := resolver.ResolvePath(inc.path);
      if !ok {
        result.unresolvedPaths := result.unresolvedPaths + [inc.path];
        return visited;
      }
      visited' := ScanInclude(resolvedPath, inc.conditional, result, visited, depth);
    }

    /**
     * A resolved include: scan it one level deeper, turn its error into a
     * warning, and if the include was conditional mark the record stored
     * under the resolved path.
     */
    method ScanInclude(resolvedPath: string, conditional: bool, result: ScanResult, visited: set<string>, depth: nat)
      returns (visited': set<string>)
      requires fs.Valid() && result.Valid() && result.files.Keys == visited && depth < MaxDepth
      modifies result, result.Repr, resolver
      ensures result.Valid() && result.files.Keys == visited' && Grown(result)
      ensures var o := ScanFileSpec(World(), resolvedPath, depth + 1, old(StateOf(result, visited)));
        StateOf(result, visited') == Marked(conditional, resolvedPath, Warned(o, IncludeLead(resolvedPath)))
      decreases Fuel(depth), 0
    {
      var scanErr;
      visited', scanErr := ScanFile(resolvedPath, result, visited, depth + 1);
      if scanErr.Some? {
        result.warnings := result.warnings + [IncludeLead(resolvedPath) + scanErr.value];
      }
      if conditional && resolvedPath in result.files {
        MarkConditional(resolvedPath, result, visited');
      }
    }

    /** sourceFile.Aliases = append(sourceFile.Aliases, def), then AddAlias(def). */
    method AppendAlias(canonPath: string, def: AliasDefinition, result: ScanResult, ghost visited: set<string>)
      requires result.Valid() && canonPath in result.files
      modifies result, result.Repr
      ensures result.Valid() && result.files.Keys == old(result.files.Keys) && Grown(result)
      ensures StateOf(result, visited) == AliasAdded(canonPath, def, old(StateOf(result, visited)))
    {
      var sf := result.files[canonPath];
      result.files := result.files[canonPath := sf.(aliases := sf.aliases + [def])];
      result.AddAlias(def);
    }

    /** sourceFile.Includes = append(sourceFile.Includes, path). */
    method AppendInclude(canonPath: string, path: string, result: ScanResult, ghost visited: set<string>)
      requires result.Valid() && canonPath in result.files
      modifies result`files
      ensures result.Valid() && result.files.Keys == old(result.files.Keys)
      ensures StateOf(result, visited) == IncludeNoted(canonPath, path, old(StateOf(result, visited)))
    {
      var sf := result.files[canonPath];
      result.files := result.files[canonPath := sf.(includes := sf.includes + [path])];
    }

    /** result.Files[path].Conditional = true. */
    method MarkConditional(path: string, result: ScanResult, ghost visited: set<string>)
      requires result.Valid() && path in result.files
      modifies result`files
      ensures result.Valid() && result.files.Keys == old(result.files.Keys)
      ensures StateOf(result, visited) == Marked(true, path, old(StateOf(result, visited)))
    {
      var sf := result.files[path];
      result.files := result.files[path := sf.(conditional := true)];
    }

    /** visited[canonPath] = true, then the new record is stored in the file table. */
    method StoreRecord(canonPath: string, result: ScanResult, visited: set<string>)
      returns (visited': set<string>, sourceFile: SourceFile)
      requires result.Valid() && result.files.Keys == visited
      modifies result`files
      ensures result.Valid() && result.files.Keys == visited'
      ensures sourceFile == NewRecord(fs, canonPath)
      ensures StateOf(result, visited') == Opened(fs, canonPath, old(StateOf(result, visited)))
    {
      visited' := visited + {canonPath};
      sourceFile := SourceFile(canonPath, fs.Exists(canonPath), fs.Readable(canonPath), false, [], [], "");
      result.files := result.files[canonPath := sourceFile];
    }

    /** sourceFile.Error = message, on the record just stored. */
    method SetError(canonPath: string, message: string, result: ScanResult, ghost visited: set<string>)
      requires result.Valid() && canonPath in result.files
      modifies result`files
      ensures result.Valid() && result.files.Keys == old(result.files.Keys)
      ensures StateOf(result, visited) == Failed(canonPath, message, old(StateOf(result, visited)))
    {
      var sf := result.files[canonPath];
      result.files := result.files[canonPath := sf.(error := message)];
    }
  }
}
