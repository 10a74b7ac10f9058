/**
 * What a scan computes (internal/scanner/scanner.go), as a pure walk over
 * an abstract file system: the depth ceiling, canonicalisation, the visited
 * set, the per-file record, and per line the alias, include and variable
 * assignment classifiers, with recursion into resolved includes.
 *
 * The walk threads one ScanState value through the same steps, in the same
 * order, as scanFile threads its mutable ScanResult, visited map and
 * resolver; the Scanner class is proved to leave exactly that state.
 */
module ScanSpec {
  import opened Wrappers
  import opened FilePath
  import opened Model
  import AliasParser
  import IncludeParser
  import opened PathResolve

  /** maxDepth: include chains are followed to this depth and no further. */
  const MaxDepth: nat := 25

  /**
   * What the file system holds under a canonical path: an unreadable file,
   * a file whose reading fails with a message, or the file's lines (already
   * split, line endings removed). A path that is not in `nodes` does not
   * exist.
   */
  datatype Node = Unreadable | ReadFailure(message: string) | Lines(lines: seq<string>)

  /**
   * The file system a scan sees: the working directory (absolute), the
   * targets of the paths that resolve to something else through symbolic
   * links, and the files.
   */
  datatype FileSystem = FileSystem(cwd: string, links: map<string, string>, nodes: map<string, Node>)
  {
    /** Besides the working directory and links, every line is free of line breaks. */
    predicate Valid() {
      && IsAbs(cwd) && LinksValid(links)
      && forall p, l | p in nodes && nodes[p].Lines? && l in nodes[p].lines :: '\n' !in l
    }

    /** FileExists */
    predicate Exists(p: string) {
      p in nodes
    }

    /** FileReadable */
    predicate Readable(p: string) {
      p in nodes && !nodes[p].Unreadable?
    }
  }

  /**
   * Everything a scan changes: the definitions passed to AddAlias, the file
   * records, the unresolved paths, the warnings, the visited set and the
   * resolver's custom variables.
   */
  datatype ScanState = ScanState(log: seq<AliasDefinition>, files: map<string, SourceFile>,
                                 unresolved: seq<string>, warnings: seq<string>,
                                 visited: set<string>, vars: map<string, string>)

  /** The state ScanShellFiles starts from: empty tables, nothing visited, the resolver's variables as they are. */
  function Start(vars: map<string, string>): ScanState {
    ScanState([], map[], [], [], {}, vars)
  }

  /** What does not change during a scan: the file system and the resolver's fixed directories. */
  datatype Setting = Setting(fs: FileSystem, homeDir: string, xdgConfigHome: string)
  {
    predicate Valid() {
      fs.Valid()
    }

    /** The resolver's variables in state st. */
    function EnvAt(st: ScanState): Env {
      Env(homeDir, xdgConfigHome, st.vars)
    }
  }

  /** The outcome of scanFile: the new state and the error it returns. */
  datatype Outcome = Outcome(st: ScanState, err: Option<string>)

  function DepthWarning(path: string): string {
    "Max include depth (25) reached at " + path
  }

  /** What the warning for a failed include puts before the error message. */
  function IncludeLead(path: string): string {
    "Error scanning included file " + path + ": "
  }

  /** What the warning for a failed root puts before the error message. */
  function RootLead(path: string): string {
    "Error scanning " + path + ": "
  }

  /** How many more levels the walk may descend from `depth`. */
  function Fuel(depth: nat): nat {
    if depth < MaxDepth then MaxDepth - depth else 0
  }

  // ---------------------------------------------------------------------
  // The steps of scanFile
  // ---------------------------------------------------------------------

  /** The record scanFile stores for a canonical path before reading it. */
  function NewRecord(fs: FileSystem, canon: string): SourceFile {
    SourceFile(canon, fs.Exists(canon), fs.Readable(canon), false, [], [], "")
  }

  /** Mark `canon` visited and store its new record. */
  function Opened(fs: FileSystem, canon: string, st: ScanState): ScanState {
    st.(visited := st.visited + {canon}, files := st.files[canon := NewRecord(fs, canon)])
  }

  /** Set the error of the record stored under `canon`. */
  function Failed(canon: string, error: string, st: ScanState): ScanState
    requires canon in st.files
  {
    st.(files := st.files[canon := st.files[canon].(error := error)])
  }

  /** A definition found in `canon` goes to the file record and to AddAlias. */
  function AliasAdded(canon: string, def: AliasDefinition, st: ScanState): ScanState
    requires canon in st.files
  {
    var rec := st.files[canon];
    st.(files := st.files[canon := rec.(aliases := rec.aliases + [def])], log := st.log + [def])
  }

  /** The alias classifier on line number n of `canon`. */
  function AliasStep(canon: string, line: string, n: nat, st: ScanState): ScanState
    requires canon in st.files
  {
    if !AliasParser.IsAliasLine(line) then st
    else match AliasParser.ParseLine(line, canon, n)
      case None => st
      case Some(def) => AliasAdded(canon, def, st)
  }

  /** The assignment classifier: a `NAME=value` line binds NAME for all later resolution. */
  function AssignStep(line: string, st: ScanState): ScanState {
    match ParseVariableAssignment(line)
    case None => st
    case Some(a) => st.(vars := st.vars[a.name := a.value])
  }

  /** The raw include path goes to the including file's record. */
  function IncludeNoted(canon: string, path: string, st: ScanState): ScanState
    requires canon in st.files
  {
    var rec := st.files[canon];
    st.(files := st.files[canon := rec.(includes := rec.includes + [path])])
  }

  /** A conditional include marks the record stored under the resolved path, if there is one. */
  function Marked(conditional: bool, resolved: string, st: ScanState): ScanState {
    if conditional && resolved in st.files then
      st.(files := st.files[resolved := st.files[resolved].(conditional := true)])
    else st
  }

  /** A scan's error becomes a warning: the lead text, then the message. */
  function Warned(o: Outcome, lead: string): ScanState {
    match o.err
    case None => o.st
    case Some(m) => o.st.(warnings := o.st.warnings + [lead + m])
  }

  // ---------------------------------------------------------------------
  // The walk
  // ---------------------------------------------------------------------

  /**
   * scanFile(path, depth): past the ceiling only a warning; a canonical path
   * seen before changes nothing; otherwise the file is opened.
   */
  function ScanFileSpec(s: Setting, path: string, depth: nat, st: ScanState): (o: Outcome)
    requires s.Valid()
    ensures st.files.Keys <= o.st.files.Keys
    decreases Fuel(depth), 4, 0
  {
    if depth >= MaxDepth then Outcome(st.(warnings := st.warnings + [DepthWarning(path)]), None)
    else
      var canon := Canonicalize(s.fs.links, s.fs.cwd, path);
      if canon in st.visited then Outcome(st, None)
      else OpenSpec(s, canon, depth, st)
  }

  /**
   * A canonical path seen for the first time: it is marked visited and its
   * record stored; a missing, unreadable or failing file ends there with the
   * record's error set (a read failure is also returned), while a readable
   * file has its lines walked.
   */
  function OpenSpec(s: Setting, canon: string, depth: nat, st: ScanState): (o: Outcome)
    requires s.Valid() && depth < MaxDepth
    ensures st.files.Keys <= o.st.files.Keys
    decreases Fuel(depth), 3, 0
  {
    var st1 := Opened(s.fs, canon, st);
    if !s.fs.Exists(canon) then Outcome(Failed(canon, "file does not exist", st1), None)
    else match s.fs.nodes[canon]
      case Unreadable => Outcome(Failed(canon, "permission denied", st1), None)
      case ReadFailure(m) => Outcome(Failed(canon, m, st1), Some(m))
      case Lines(lines) => Outcome(LinesSpec(s, canon, lines, 0, depth, st1), None)
  }

  /** The line loop of scanFile from line i on. */
  function LinesSpec(s: Setting, canon: string, lines: seq<string>, i: nat, depth: nat, st: ScanState): (r: ScanState)
    requires s.Valid() && i <= |lines| && depth < MaxDepth && canon in st.files
    ensures st.files.Keys <= r.files.Keys
    decreases Fuel(depth), 2, |lines| - i
  {
    if i == |lines| then st
    else LinesSpec(s, canon, lines, i + 1, depth, LineSpec(s, canon, lines[i], i + 1, depth, st))
  }

  /** One line, numbered n: the alias classifier, then the include classifier, then the assignment classifier. */
  function LineSpec(s: Setting, canon: string, line: string, n: nat, depth: nat, st: ScanState): (r: ScanState)
    requires s.Valid() && depth < MaxDepth && canon in st.files
    ensures st.files.Keys <= r.files.Keys
    decreases Fuel(depth), 1, 0
  {
    var st1 := AliasStep(canon, line, n, st);
    var st2 := if IncludeParser.IsIncludeLine(line) then
      IncludesSpec(s, canon, IncludeParser.IncludesOf(line), 0, depth, st1)
    else st1;
    AssignStep(line, st2)
  }

  /** The include loop of one line from include k on. */
  function IncludesSpec(s: Setting, canon: string, incs: seq<IncludeParser.ParseResult>, k: nat, depth: nat,
                        st: ScanState): (r: ScanState)
    requires s.Valid() && k <= |incs| && depth < MaxDepth && canon in st.files
    ensures st.files.Keys <= r.files.Keys
    decreases Fuel(depth), 0, |incs| - k + 2
  {
    if k == |incs| then st
    else IncludesSpec(s, canon, incs, k + 1, depth, IncludeSpec(s, canon, incs[k], depth, st))
  }

  /**
   * One include: the raw path goes to the including file's record, then the
   * path is resolved and followed.
   */
  function IncludeSpec(s: Setting, canon: string, inc: IncludeParser.ParseResult, depth: nat, st: ScanState): (r: ScanState)
    requires s.Valid() && depth < MaxDepth && canon in st.files
    ensures st.files.Keys <= r.files.Keys
    decreases Fuel(depth), 0, 1
  {
    FollowSpec(s, inc, depth, IncludeNoted(canon, inc.path, st))
  }

  /**
   * An unresolvable include is recorded as such; a resolved one is scanned
   * one level deeper, its error becomes a warning and, if the include was
   * conditional, the record stored under the resolved path is marked.
   */
  function FollowSpec(s: Setting, inc: IncludeParser.ParseResult, depth: nat, st: ScanState): (r: ScanState)
    requires s.Valid() && depth < MaxDepth
    ensures st.files.Keys <= r.files.Keys
    decreases Fuel(depth), 0, 0
  {
    match Resolve(s.EnvAt(st), inc.path)
    case None => st.(unresolved := st.unresolved + [inc.path])
    case Some(rp) =>
      var o := ScanFileSpec(s, rp, depth + 1, st);
      Marked(inc.conditional, rp, Warned(o, IncludeLead(rp)))
  }

  /** One root of ScanShellFiles: an unresolvable root is recorded, a resolved one is scanned at depth 0. */
  function RootSpec(s: Setting, root: string, st: ScanState): ScanState
    requires s.Valid()
  {
    match Resolve(s.EnvAt(st), root)
    case None => st.(unresolved := st.unresolved + [root])
    case Some(e) => Warned(ScanFileSpec(s, e, 0, st), RootLead(e))
  }

  /** ScanShellFiles from root i on. */
  function RootsSpec(s: Setting, roots: seq<string>, i: nat, st: ScanState): ScanState
    requires s.Valid() && i <= |roots|
    decreases |roots| - i
  {
    if i == |roots| then st
    else RootsSpec(s, roots, i + 1, RootSpec(s, roots[i], st))
  }
}
