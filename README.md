# falias alias discovery, modelled in Dafny

falias finds every shell alias a user's startup files define. The model
covers its discovery engine. It starts from the shell's root files
(`~/.zshrc`, `~/.bashrc`, …) and resolves each path: quotes are removed,
`~` is expanded, `$VAR`/`${VAR}` is substituted, the path is cleaned, and
only absolute paths are accepted. It canonicalises the path through
symbolic links and scans each file once, with include chains followed at
most 25 levels deep. Every line goes through three classifiers in this order:

- an alias classifier: `alias name=value` and the zsh global form
  `alias -g name=value`;
- an include classifier: `source p`, `. p`, and the conditional forms
  `if [ -f x ]; then source p; fi` and `[[ -f x ]] && source p`;
- a variable-assignment classifier: a `NAME=value` line binds NAME for all
  later path resolution.

The result has four parts:

- an alias table, with each alias's complete definition history and its
  override flag;
- a table of per-file records: path, existence and readability probes,
  conditional flag, definitions, raw include paths and error;
- the include paths that could not be resolved;
- the warnings.

The Dafny project has these modules:

| module | file | models |
|---|---|---|
| `Wrappers` | Wrappers.dfy | `Option` |
| `Model` | Model.dfy | `internal/model/types.go`: records, the `AliasEntry` and `ScanResult` classes |
| `ShellText` | ShellText.dfy | the parts of Go's `strings` package used by the core (TrimSpace, HasPrefix, Contains, Index, Replace), and the quote/escape scanner shared by the two comment removers |
| `AliasParser` | AliasParser.dfy | `internal/parser/alias.go` |
| `IncludeParser` | IncludeParser.dfy | `internal/scanner/include.go` |
| `FilePath` | FilePath.dfy | the slash-separated `path/filepath` operations the resolver uses (Clean, Join, IsAbs, Abs) |
| `PathResolve` | PathResolve.dfy | `internal/resolve/path.go`, with the `PathResolver` class |
| `ScanSpec` | ScanSpec.dfy | `scanFile`/`ScanShellFiles` of `internal/scanner/scanner.go` as a pure walk over an abstract file system |
| `Scan` | Scanner.dfy | the same code as the Go program runs it: a `Scanner` class owning one `PathResolver`, a `ScanResult` updated in place, every method proved to leave exactly the state the walk describes |
| `ScanProps` | ScanProps.dfy | invariants of the walk: the shape of the result, and "only adds" |
| `ScanFacts` | ScanFacts.dfy | what a scan records per file, the depth ceiling, the visited check, conditional marking, variable binding |

A few things the Go code does are easy to miss when reading its comments
and names; the model keeps each of them:

- **The resolver lives as long as the scanner.**
  - `NewScanner` creates one `PathResolver` (`scanner.go:28`), and
    `ScanShellFiles` never resets it.
  - A variable bound while scanning one file therefore stays bound for all
    later files and later scans.
  - `Scan.Scanner.ScanShellFiles` starts from the resolver's current
    variables, not from an empty table.
- **The conditional flag is set under the resolved path, not the canonical one.**
  - After a conditional include, the record is looked up under the
    resolved path (`scanner.go:140`).
  - The record itself was stored under the canonical path.
  - When the two differ (a symbolic link), no record is marked.
  - `ScanFacts.ConditionalMarked` proves that the record is marked when the
    resolved path is canonical, and its comment states the exception.
- **A read error drops the file's lines.**
  - The record keeps the read error, and the error is also returned.
  - The caller turns the returned error into a warning.
  - No line of the file is classified.
- **Tab-separated `source` and `alias` lines are never parsed.**
  - The include classifier runs only when the cheap pre-check
    `IsIncludeLine` accepts the line.
  - `IsIncludeLine` looks for `source ` with a blank.
  - So `source<TAB>path` is never parsed, although the include parser
    itself would accept it (`IncludeParser.TabSeparatedSourceSkipped`).
  - Likewise `IsAliasLine` wants `alias` followed by a blank, while the
    alias patterns accept any white space there.
- **Guarded `.` includes are never followed.**
  - The conditional pattern accepts `source` or `.` after the test, so
    `[ -f X ] && . P` is a conditional include of P for `ParseLine`.
  - `IsIncludeLine` accepts `. ` only at the start of the line, and
    otherwise wants `source ` somewhere in it.
  - So such a line (with no `source ` anywhere) never reaches the include
    parser (`IncludeParser.GuardedDotSkipped`).

## Model

| member | source | states |
|---|---|---|
| `Model.Named` | internal/model/types.go:32 | the history of one name: only definitions from the log that carry that name, never more than the log |
| `Model.NamedAppend` | internal/model/types.go:32 | a new definition extends exactly its own name's history, at the end |
| `Model.NamedComplete` | internal/model/types.go:32 | every logged definition appears in its name's history |
| `Model.NamedAbsent` | internal/model/types.go:32 | a name no logged definition carries has an empty history |
| `Model.NamedPrefix` | internal/model/types.go:32 | a longer log only extends each name's history ("all definitions in parse order") |
| `Model.AliasEntry.constructor` | internal/model/types.go:85-92 | the composite literal sets each field to the given value |
| `Model.AliasEntry.AddDefinition` | internal/model/types.go:37-45 | the definition is appended; value, location and type become the new definition's; the overridden flag is set once there are two or more definitions and never cleared; the override law (active fields mirror the last definition, overridden exactly when more than one) is preserved |
| `Model.ScanResult.constructor` | internal/model/types.go:69-78 | empty alias and file tables, no unresolved paths or warnings, the given shell and root files, and the result invariant holds |
| `Model.ScanResult.AddAlias` | internal/model/types.go:81-94 | exactly the entry of the definition's name changes: an existing entry is extended as AddDefinition says, a missing one is created fresh holding just this definition, not overridden; every entry keeps holding exactly its name's logged definitions under the override law; nothing else changes |
| `Model.ScanResult.ExtendEntry` | internal/model/types.go:82-83 | the existing-entry branch: the entry gains the definition as its active one, no entry is added |
| `Model.ScanResult.InsertEntry` | internal/model/types.go:84-92 | the new-entry branch: one fresh entry with the single definition, not overridden |
| `Model.ScanResult.Logged` | internal/model/types.go:81-94 | every definition passed to AddAlias is in the history of its name's entry |
| `Model.ScanResult.GetAliasesSorted` | internal/model/types.go:97-103 | one entry per alias name, and exactly the table's entries (the Go code does not sort either) |
| `ShellText.TrimSpace` | internal/parser/alias.go:69 | the result is the input minus its leading and trailing white space, and starts and ends with non-space |
| `ShellText.TrimSpaceOf` | internal/scanner/include.go:37 | blanks around a trimmed text are exactly what TrimSpace removes |
| `ShellText.TrimSpaceTrimmed` | internal/scanner/include.go:82 | TrimSpace is the identity on trimmed text |
| `ShellText.IndexFrom` | internal/resolve/path.go:110 | the first occurrence at or after a position, or None when there is none |
| `ShellText.IndexFromIs` | internal/resolve/path.go:110 | an occurrence with none before it is the one found |
| `ShellText.CommentStart` | internal/parser/alias.go:99-141 | the first `#` outside quotes and not escaped, or the end of the text |
| `ShellText.StateAtConcat` | internal/parser/alias.go:99-141 | the quote state after a prefix that ends unquoted is the same as scanning the rest alone |
| `ShellText.LeadingHashIsComment` | internal/scanner/include.go:40 | on a line whose first non-blank is `#`, the comment starts there |
| `ShellText.ClosedConcat` | internal/parser/alias.go:99-141 | after a closed prefix, comment detection in the rest is unchanged, and closure composes |
| `ShellText.QuotedClosed` | internal/parser/alias.go:99-141 | a quoted text with no backslash and no same quote inside is closed: a `#` inside it starts no comment |
| `ShellText.HashStartsComment` | internal/parser/alias.go:125-128 | a text starting with `#` is all comment |
| `ShellText.FirstLine` | internal/parser/alias.go:14 | what `.` can reach from the start: a newline-free prefix, followed by a newline unless it is the whole text |
| `ShellText.SkipRegexSpace` | internal/scanner/include.go:10 | the longest run of `\s` characters from a position |
| `AliasParser.RemoveInlineComment` | internal/parser/alias.go:99-141 | the loop returns the line cut at the first unquoted, unescaped `#`, right-trimmed |
| `AliasParser.SplitOnUnescapedChar` | internal/parser/alias.go:144-178 | the loop returns the pieces between unescaped delimiters, last piece dropped when empty |
| `AliasParser.PiecesRoundTrip` | internal/parser/alias.go:144-178 | rejoining the pieces with the delimiter gives back the text (up to a trailing delimiter) |
| `AliasParser.PiecesFirst` | internal/parser/alias.go:91-92 | there are no pieces exactly for the empty text; the first piece is the text up to the first unescaped delimiter |
| `AliasParser.ExtractValue` | internal/parser/alias.go:68-96 | the loop returns the value: inside a leading quote up to its first unescaped closing quote (rest of text when unclosed), else the text before the first unescaped `#`, trimmed |
| `AliasParser.QuotedValue` | internal/parser/alias.go:72-83 | a value in matching quotes loses exactly the quotes |
| `AliasParser.BareValue` | internal/parser/alias.go:88-93 | an unquoted value is cut at its first unescaped `#` and trimmed |
| `AliasParser.MatchAssignment` | internal/parser/alias.go:14 | a match yields a well-formed alias name and a non-empty right side without a newline; `name=rest` stands right after the white-space run and is followed by a newline or the end of the text (`.` does not match a newline) |
| `AliasParser.AssignmentAt` | internal/parser/alias.go:14 | conversely, white space then `name=rest` matches with that name and the first line of rest, and does not match when that line is empty |
| `AliasParser.PatternsExclusive` | internal/parser/alias.go:14-16 | a line matched as global is never also matched as normal |
| `AliasParser.ParseLine` | internal/parser/alias.go:29-65 | a definition has a well-formed name and records the file, line number and raw line; it comes only from a line whose uncommented text starts, after white space, with `alias` and a white-space character |
| `AliasParser.MatchRenderedNormal` | internal/parser/alias.go:14 | `alias name=rhs` matches with exactly that name and the first line of rhs, and only when that line is non-empty |
| `AliasParser.MatchRenderedGlobal` | internal/parser/alias.go:16 | `alias -g name=rhs` matches with exactly that name and the first line of rhs, and only when that line is non-empty |
| `AliasParser.NormalRenderNotGlobal` | internal/parser/alias.go:16 | a normal alias line never matches the global pattern |
| `AliasParser.GlobalRenderNotNormal` | internal/parser/alias.go:14 | a global alias line never matches the normal pattern (`-g` is not a name) |
| `AliasParser.ParseRendered` | internal/parser/alias.go:29-65 | a normal or global alias line, with leading blanks and a trailing comment, parses to that name, the value extracted from the first line of the right side, the right type and the exact location; an empty first line gives nothing |
| `AliasParser.ParseQuoted` | internal/parser/alias.go:29-96 | an alias whose value is quoted (with no backslash or same quote inside, a `#` allowed), followed by blanks and an inline comment, parses to exactly the text inside the quotes (the `with inline comment` and `hash in value` cases of alias_test.go) |
| `AliasParser.ParseBare` | internal/parser/alias.go:88-93 | an unquoted value with no quote, backslash, `#` or newline is parsed to itself |
| `AliasParser.ParseEmptyRight` | internal/parser/alias.go:14-16 | `alias name=` with nothing after `=` is not a definition |
| `AliasParser.CommentLineIgnored` | internal/parser/alias.go:31-34 | a line whose first non-blank is `#` never yields a definition |
| `AliasParser.NotAliasKeyword` | internal/parser/alias.go:64 | a line whose first character is not white space, `#` or `a` is not a definition |
| `AliasParser.RenderedIsAliasLine` | internal/parser/alias.go:181-184 | IsAliasLine (the trimmed line starts with `alias ` and a blank) accepts every line `alias name=rhs` or `alias -g name=rhs` written with a blank after `alias`, whatever leads or follows, as in alias_test.go:129-131 |
| `AliasParser.AliasLineRejects` | internal/parser/alias.go:181-184 | IsAliasLine rejects a line whose trimmed text is empty or does not start with `a`, as `# alias foo='bar'`, `export FOO=bar`, `""` and `source ~/.bashrc` in alias_test.go:132-135 |
| `AliasParser.ExampleSingleQuoted` | internal/parser/alias_test.go:20-27 | `alias ll='ls -la'` gives ll = `ls -la`, normal |
| `AliasParser.ExampleNewlineEndsValue` | internal/parser/alias.go:14 | `alias ll=ls` followed by a newline and `rm -rf` gives ll = `ls`: the value stops at the newline |
| `AliasParser.ExampleDoubleQuoted` | internal/parser/alias_test.go:28-35 | `alias gs="git status"` gives gs = `git status` |
| `AliasParser.ExampleUnquoted` | internal/parser/alias_test.go:36-43 | `alias ..=cd ..` gives `..` = `cd ..` |
| `AliasParser.ExampleGlobal` | internal/parser/alias_test.go:52-59 | `alias -g G='\| grep'` gives a global G = `\| grep` |
| `AliasParser.ExampleLeadingWhitespace` | internal/parser/alias_test.go:60-67 | leading blanks are ignored |
| `AliasParser.ExampleEmptyValue` | internal/parser/alias_test.go:68-75 | `alias empty=''` gives the empty value |
| `AliasParser.ExampleCommentLine` | internal/parser/alias_test.go:84-88 | a commented-out alias is not parsed |
| `AliasParser.ExampleNotAlias` | internal/parser/alias_test.go:89-94 | `export FOO=bar` is not parsed |
| `IncludeParser.CommentStripped` | internal/scanner/include.go:88-122 | a text without an unquoted comment is unchanged; otherwise the result is trimmed and no longer than the text before the `#` |
| `IncludeParser.RemoveTrailingComment` | internal/scanner/include.go:88-122 | the loop returns the text cut at the first unquoted, unescaped `#` and trimmed |
| `IncludeParser.TrimSemicolons` | internal/scanner/include.go:81 | the result is a prefix, what was removed is all `;`, and the result does not end with `;` |
| `IncludeParser.PathOf` | internal/scanner/include.go:74-85 | the extracted path is trimmed and no longer than its input |
| `IncludeParser.ExtractPath` | internal/scanner/include.go:74-85 | the method returns PathOf of its argument |
| `IncludeParser.PathOfPlain` | internal/scanner/include.go:74-85 | a bare path with blanks around it and `;` after it is extracted as itself |
| `IncludeParser.PathOfCommented` | internal/scanner/include.go:77-82 | a bare path followed by blanks and a comment is extracted as itself |
| `IncludeParser.SourceArg` | internal/scanner/include.go:10 | the argument of `source`/`.` is non-empty and shorter than the line |
| `IncludeParser.GuardedArg` | internal/scanner/include.go:14 | the argument of the command after a `[ -f … ]` guard is non-empty and shorter than the line |
| `IncludeParser.IncludesOf` | internal/scanner/include.go:33-70 | at most one include, with a trimmed non-empty path; a blank line or a `#` line gives none |
| `IncludeParser.ParseLine` | internal/scanner/include.go:33-70 | the method returns IncludesOf of the line |
| `IncludeParser.PlainSourceLine` | internal/scanner/include_test.go:16-33 | `source p`/`. p` with leading blanks gives one unconditional include of the extracted path; with PathOfCommented it also covers the leading-blank and inline-comment cases at include_test.go:46-57 |
| `IncludeParser.GuardedSourceLine` | internal/scanner/include.go:12-14 | a line `HEAD[ -f x ]MID source p REST` or `HEAD[[ -f x ]]MID source p REST` (or with `.`), with no `[` in HEAD and REST empty or `; …` without `s` or `.`, gives exactly one conditional include of p, whatever x is |
| `IncludeParser.GuardedBashLine` | internal/scanner/include_test.go:34-39 | `if [ -f p ]; then source p; fi` gives one conditional include of p and passes IsIncludeLine |
| `IncludeParser.GuardedZshLine` | internal/scanner/include_test.go:40-45 | `[[ -f p ]] && source p` gives one conditional include of p and passes IsIncludeLine |
| `IncludeParser.GuardedArgOf` | internal/scanner/include.go:14 | after a guard, the lazy argument group stops at the first `;` or at the end |
| `IncludeParser.IncludesOfPlain` | internal/scanner/include.go:58-67 | without a guard, the simple pattern's argument is taken, unconditional |
| `IncludeParser.IncludesOfGuarded` | internal/scanner/include.go:45-55 | the guarded pattern is tried first, and its include is conditional |
| `IncludeParser.NoBracketNoGuard` | internal/scanner/include.go:14 | a line without `[` never matches the conditional pattern |
| `IncludeParser.PlainSourceIsIncludeLine` | internal/scanner/include.go:125-134 | IsIncludeLine (the trimmed line is not a `#` line and starts with `source ` or `. `, or contains `source `) accepts every `source p` / `. p` line with a blank after the command, as in include_test.go:97-99 |
| `IncludeParser.GuardedSourceIsIncludeLine` | internal/scanner/include.go:125-134 | IsIncludeLine accepts a guarded line whose command is `source` followed by a space, as in include_test.go:100 |
| `IncludeParser.PreCheckRejects` | internal/scanner/include.go:125-134 | IsIncludeLine rejects a blank line, a `#` line, and a line that does not start with `. ` and has no `u`, as `alias foo=bar` and `export FOO=bar` in include_test.go:101-104 |
| `IncludeParser.GuardedDotSkipped` | internal/scanner/include.go:14 | `[ -f x ] && . p` (or with `[[ … ]]`) is one conditional include of p for ParseLine, yet IsIncludeLine rejects it when neither x nor p holds a `u` |
| `IncludeParser.TabSeparatedSourceSkipped` | internal/scanner/include.go:125-134 | `source<TAB>p` is parsed by ParseLine but rejected by IsIncludeLine |
| `FilePath.Clean` | internal/resolve/path.go:66 | the cleaned path is never empty |
| `FilePath.CleanIdempotent` | internal/resolve/path.go:66 | cleaning a cleaned path changes nothing |
| `FilePath.AbsClean` | internal/resolve/path.go:135 | the absolute form of a path is already clean |
| `FilePath.CleanKeepsAbs` | internal/resolve/path.go:66-71 | cleaning keeps a path absolute exactly when it was |
| `FilePath.Join` | internal/resolve/path.go:27 | the join is empty only when both parts are, and joining onto an absolute path gives one |
| `FilePath.Abs` | internal/resolve/path.go:135 | the result is always absolute |
| `PathResolve.RemoveQuotes` | internal/resolve/path.go:123-131 | the trimmed text, with one matching pair of outer quotes removed when there are at least two characters |
| `PathResolve.RemoveQuotesOf` | internal/resolve/path.go:123-131 | exactly one layer of quotes comes off |
| `PathResolve.RemoveQuotesPlain` | internal/resolve/path.go:123-131 | trimmed text not starting with a quote is unchanged |
| `PathResolve.VarRefAt` | internal/resolve/path.go:12 | a match is the text at that position, starts with `$`, and names a variable |
| `PathResolve.VarRefs` | internal/resolve/path.go:82 | every match found has a non-empty text and name |
| `PathResolve.NoDollarNoRefs` | internal/resolve/path.go:82 | a text without `$` holds no reference |
| `PathResolve.RefAt` | internal/resolve/path.go:12 | `$NAME` (not followed by a name character or `}`) and `${NAME}` match as a whole, with group NAME |
| `PathResolve.SingleRef` | internal/resolve/path.go:82 | a single reference between `$`-free texts is the only match |
| `PathResolve.Lookup` | internal/resolve/path.go:91-107 | HOME and XDG_CONFIG_HOME are fixed; any other name is found exactly when it is a custom variable |
| `PathResolve.NoDollarExpand` | internal/resolve/path.go:77-120 | a path without `$` expands to itself |
| `PathResolve.KnownVariableExpands` | internal/resolve/path.go:109-111 | a known variable is replaced by its value, literally |
| `PathResolve.UnknownVariableExpands` | internal/resolve/path.go:103-117 | one unknown variable makes the expansion fail |
| `PathResolve.Resolve` | internal/resolve/path.go:44-74 | the empty path fails; a success is absolute and non-empty |
| `PathResolve.ResolveOutcome` | internal/resolve/path.go:59-73 | resolution succeeds exactly when expansion does and its cleaned form is absolute, and then gives that cleaned form |
| `PathResolve.LiteralUntouched` | internal/resolve/path.go:50-57 | quote removal and the `~` step leave a literal path unchanged |
| `PathResolve.UnknownVariableFails` | internal/resolve/path_test.go:55-59 | a path naming an unknown variable does not resolve |
| `PathResolve.KnownVariableResolves` | internal/resolve/path_test.go:25-36 | a path `pre $NAME post` or `pre ${NAME} post` with NAME bound to v resolves to `pre v post`, cleaned, when that is absolute (the `$HOME` and `${HOME}` cases) |
| `PathResolve.SetVariableResolves` | internal/resolve/path_test.go:90-102 | after SetVariable(N, V), `$N` resolves through V |
| `PathResolve.RelativeFails` | internal/resolve/path_test.go:60-64 | a relative path does not resolve |
| `PathResolve.AbsoluteResolves` | internal/resolve/path_test.go:49-54 | an absolute path resolves to its cleaned form |
| `PathResolve.TildeResolves` | internal/resolve/path_test.go:19-24 | `~/rest` resolves to the home directory joined with rest, cleaned |
| `PathResolve.JoinNoDollar` | internal/resolve/path.go:54-60 | joining the home directory adds no `$`, so no new variable reference appears before expansion |
| `PathResolve.CleanNoNew` | internal/resolve/path.go:66 | cleaning adds no character other than `/` and `.` |
| `PathResolve.ParseVariableAssignment` | internal/resolve/path.go:153-167 | an accepted line trims to `NAME=rest` with NAME of the class `[A-Z_][A-Z0-9_]*` and rest non-empty and free of newlines, and the value is rest with one quote layer removed |
| `PathResolve.AssignmentOf` | internal/resolve/path.go:153-167 | conversely, every line that trims to such a `NAME=rest` is accepted with NAME and rest unquoted |
| `PathResolve.AssignmentLine` | internal/resolve/path_test.go:128-155 | `NAME=rest` written out gives NAME and rest with one quote layer removed |
| `PathResolve.MultiLineNotAssignment` | internal/resolve/path.go:157 | a value running past a newline is rejected (`$` is the end of the text) |
| `PathResolve.NotAssignment` | internal/resolve/path_test.go:156-166 | a line not starting with a capital letter or `_` (`export FOO=bar`) is not an assignment |
| `PathResolve.Canonicalize` | internal/resolve/path.go:134-149 | under a link table whose targets are absolute, clean and fully resolved, the canonical path is absolute, clean, and its own link target when it has one |
| `PathResolve.CanonicalizeIdempotent` | internal/resolve/path.go:134-149 | canonicalising a canonical path gives it back |
| `PathResolve.PathResolver.constructor` | internal/resolve/path.go:23-35 | the given home directory, no custom variables, and XDG_CONFIG_HOME from the environment or `<home>/.config` when empty |
| `PathResolve.PathResolver.SetVariable` | internal/resolve/path.go:38-40 | binds the name to the value, leaving other bindings |
| `PathResolve.PathResolver.ExpandVariables` | internal/resolve/path.go:77-120 | the loop succeeds exactly when Expand does, returning its text, and otherwise returns "" |
| `PathResolve.PathResolver.ResolvePath` | internal/resolve/path.go:44-74 | succeeds exactly when Resolve does, returning its path, and otherwise returns "" |
| `PathResolve.HasUnknownExtend` | internal/resolve/path.go:103-106 | the unknown flag after one more match is the old flag or that match being unknown |
| `PathResolve.ReservedNamesIgnored` | internal/resolve/path.go:91-97 | binding HOME or XDG_CONFIG_HOME as a custom variable changes no resolution |
| `PathResolve.ExpandSameLookup` | internal/resolve/path.go:77-120 | expansion depends only on the lookups |
| `ScanSpec.ScanFileSpec` | internal/scanner/scanner.go:59-155 | no file record is ever removed |
| `Scan.Scanner.constructor` | internal/scanner/scanner.go:26-33 | a fresh resolver built from the home directory and XDG_CONFIG_HOME, with no variables |
| `Scan.Scanner.ReadLines` | internal/scanner/scanner.go:101-106 | the file's lines, or no lines and the read error |
| `Scan.Scanner.ScanShellFiles` | internal/scanner/scanner.go:36-56 | a fresh valid result for the shell and roots whose tables, unresolved paths, warnings and the resolver's variables are those of the walk over the roots, started from the resolver's current variables; every definition in a file record is in its name's entry of the alias table |
| `Scan.Scanner.ScanRoot` | internal/scanner/scanner.go:43-53 | an unresolvable root is recorded; a resolved one is scanned at depth 0 |
| `Scan.Scanner.ScanResolvedRoot` | internal/scanner/scanner.go:50-52 | the root's error becomes `Error scanning <path>: <err>` |
| `Scan.Scanner.ScanFile` | internal/scanner/scanner.go:59-76 | the new result, visited set, variables and error are those of the walk: the depth ceiling, canonicalisation, the visited check |
| `Scan.Scanner.OpenFile` | internal/scanner/scanner.go:76-107 | the record stored before reading, the missing, unreadable and read-error exits, then the lines |
| `Scan.Scanner.ScanLines` | internal/scanner/scanner.go:109-152 | the loop over the lines, numbered from 1, leaves the walk's state |
| `Scan.Scanner.ScanLine` | internal/scanner/scanner.go:110-151 | alias, then includes, then assignment, in that order |
| `Scan.Scanner.AliasPhase` | internal/scanner/scanner.go:113-118 | a parsed definition goes to the file's record and to AddAlias |
| `Scan.Scanner.IncludePhase` | internal/scanner/scanner.go:121-145 | includes are followed only on lines passing the pre-check |
| `Scan.Scanner.AssignPhase` | internal/scanner/scanner.go:148-151 | an assignment line binds the variable in the resolver |
| `Scan.Scanner.FollowIncludes` | internal/scanner/scanner.go:123-144 | the loop over a line's includes leaves the walk's state |
| `Scan.Scanner.FollowInclude` | internal/scanner/scanner.go:124-143 | the raw path is noted in the record, then resolved and followed |
| `Scan.Scanner.ResolveInclude` | internal/scanner/scanner.go:127-131 | an unresolvable include is recorded as unresolved |
| `Scan.Scanner.ScanInclude` | internal/scanner/scanner.go:134-143 | the include is scanned one level deeper, its error becomes `Error scanning included file <path>: <err>`, and a conditional include marks the record under the resolved path |
| `Scan.Scanner.StoreRecord` | internal/scanner/scanner.go:76-88 | the path is visited and its new record, with the probe results and empty lists, is stored |
| `Scan.Scanner.SetError` | internal/scanner/scanner.go:91-105 | only the stored record's error changes |
| `Scan.Scanner.AppendAlias` | internal/scanner/scanner.go:115-116 | the definition is appended to the record and added to the alias table |
| `Scan.Scanner.AppendInclude` | internal/scanner/scanner.go:124 | the raw path is appended to the record |
| `Scan.Scanner.MarkConditional` | internal/scanner/scanner.go:139-143 | only the record's conditional flag is set |
| `ScanProps.ScanFileWf` | internal/scanner/scanner.go:59-155 | a scan keeps the shape: one record per visited path, stored under it, holding exactly the definitions passed to AddAlias from its file, in order, and every added definition's file recorded |
| `ScanProps.FromFile` | internal/scanner/scanner.go:113-117 | a file's definitions are taken from the log, come from that file, and are never more than the log |
| `ScanProps.FromFileAppend` | internal/scanner/scanner.go:115-116 | a new definition extends exactly its own file's list, at the end |
| `ScanProps.FromFileComplete` | internal/scanner/scanner.go:113-117 | every logged definition appears in its file's list |
| `ScanProps.ScanFileGrows` | internal/scanner/scanner.go:59-155 | a scan only adds: log, unresolved paths and warnings are extended at the end, the visited set and variable bindings never shrink, and every record is kept with the same path, probes and error, its conditional flag never cleared and its lists only extended |
| `ScanProps.LinesGrows` | internal/scanner/scanner.go:109-152 | the line loop only adds |
| `ScanProps.LineGrows` | internal/scanner/scanner.go:110-151 | one line only adds |
| `ScanProps.IncludesGrows` | internal/scanner/scanner.go:123-144 | the include loop only adds |
| `ScanProps.FollowGrows` | internal/scanner/scanner.go:127-143 | following one include only adds |
| `ScanProps.RootsKeep` | internal/scanner/scanner.go:43-53 | the loop over the roots keeps the shape and only adds |
| `ScanProps.ScanShellFilesShape` | internal/scanner/scanner.go:36-56 | in the final result every record sits under its own path and holds exactly the definitions passed to AddAlias from its file, in order; each of them is in its name's history; every added definition is in its file's record; every variable bound before the scan is still bound |
| `ScanFacts.DepthCeiling` | internal/scanner/scanner.go:61-64 | at depth 25 or more only the warning `Max include depth (25) reached at <path>` is added and no error is returned |
| `ScanFacts.VisitedSkip` | internal/scanner/scanner.go:72-75 | a path whose canonical form was visited changes nothing and returns no error |
| `ScanFacts.OpenRecord` | internal/scanner/scanner.go:78-107 | a first visit stores a record under the canonical path with the probe results; its error is "file does not exist", "permission denied", the read error (also returned), or empty for a read file |
| `ScanFacts.OpenLists` | internal/scanner/scanner.go:108-152 | only a read file's record gets definitions and include paths, exactly its own in line order; no other record's lists change, whatever it includes |
| `ScanFacts.ScanFileLists` | internal/scanner/scanner.go:59-155 | a scan never changes the definitions or include paths of a record that already existed |
| `ScanFacts.LinesLists` | internal/scanner/scanner.go:109-152 | the line loop appends exactly the file's definitions and include paths, in line order, to its own record and no other |
| `ScanFacts.LineLists` | internal/scanner/scanner.go:110-151 | one line appends its definition and its include paths to its own record only |
| `ScanFacts.IncludesLists` | internal/scanner/scanner.go:123-144 | the include loop appends the raw paths, in order, to the including record only |
| `ScanFacts.FollowLists` | internal/scanner/scanner.go:127-143 | following an include changes no existing record's lists |
| `ScanFacts.ConditionalMarked` | internal/scanner/scanner.go:139-143 | below the ceiling, a conditional include whose resolved path is canonical leaves that file recorded and marked conditional |
| `ScanFacts.CanonicalStored` | internal/scanner/scanner.go:66-88 | below the ceiling, a canonical path has a record once the scan returns |
| `ScanFacts.LineBindsVariable` | internal/scanner/scanner.go:148-151 | after a `NAME=value` line the resolver binds NAME to value, and resolution looks NAME up as value (HOME and XDG_CONFIG_HOME aside) |

## Left out

- The file system is a value. Each path maps to one of: unreadable, a read
  failure with its message, or its lines already split. `FileExists`,
  `FileReadable` and `FileReader.ReadLines` of `internal/scanner/file.go`
  are not part of this model; their results are read off that value.
- The home directory, `XDG_CONFIG_HOME` and the working directory are
  parameters, not read from the environment.
- `Canonicalize` models `filepath.EvalSymlinks` as a map from absolute path
  to link target. A valid file system's map (`PathResolve.LinksValid`) has
  absolute, clean, fully resolved targets, as `EvalSymlinks` returns them. `filepath.Abs` never fails here (the working directory
  is a given absolute path).
- Only slash-separated paths are modelled: no Windows volumes.
- The regular expressions are modelled for the shapes the code relies on,
  not in full generality:
  - the alias patterns and the variable-assignment pattern are written
    out in full, `.` stopping at a newline;
  - the include patterns are written out for text without a newline,
    which is all the scanner hands them (it splits the file into lines,
    and `ScanSpec.FileSystem.Valid` requires every line of a file to be free
    of line breaks);
    on text with a newline RE2's `.` would stop where the model does not;
  - for the conditional include pattern, the lazy path group, the
    `[[`/`[` guard and the `(?:source|\.)` command search are written out
    as functions;
  - `\s` is the regex white-space class.
- `strings.Replace(result, fullMatch, replacement, 1)` is `ReplaceFirst` on
  characters. Strings are sequences of characters, not UTF-8 bytes.
- `ScanShellFiles` always returns a nil error in the code. The model
  returns only the result.
- `DetectShell`, `GetDefaultRootFiles` and `FilterExistingFiles`
  (`scanner.go:157-208`) read the environment or the disk. They are not
  part of this model.
- `Scan.Scanner.ScanShellFiles` states the result tables, warnings and
  variables, not the alias entries' object identities. The alias table is
  covered by `ScanResult.Valid()`: every entry holds exactly the logged
  definitions of its name.
- The `SourceFile` record is a value in the file table. In Go it is a
  pointer, but it is reachable only through that table, so every update
  is written as a replacement of the table entry.
- `visited` is a set passed into and returned from each method, not a
  shared mutable map. The Go map is only ever set to true, so the two
  agree.
- `Model.ScanResult.GetAliasesSorted`: like the code, it does not sort.
  Its contract states that it returns exactly the entries, one per name.
  Go's map iteration order is unspecified, so no order is modelled.
- `AliasParser.ParseLine`: its own ensures gives only the shape of a
  definition. The exact name, value and type for alias lines are stated by
  `ParseRendered`, `ParseQuoted`, `ParseBare` and the `Example*` lemmas.
- `PathResolve.VarRefs`: the model finds matches left to right without
  overlap, the way `FindAllStringSubmatch` does. Its contract states that
  the matches are non-empty, not that they are leftmost; `RefAt` and
  `SingleRef` pin the matches down for the reference shapes the scanner
  relies on.
- The TUI, configuration, themes, JSON export and the command-line entry
  point are outside the discovery core.
