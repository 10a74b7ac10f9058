/**
 * The records of the alias table (internal/model/types.go): source
 * locations, alias definitions, per-name entries with their override
 * history, per-file records and the aggregate scan result.
 *
 * AliasEntry and ScanResult are updated in place by the scan, so they are
 * classes; an entry's name, assigned only in the composite literal that
 * creates it, is `const`. A SourceFile is only ever reached through the file
 * table, so it is a value.
 */
module Model {

  datatype AliasType = Normal | Global

  /** Where an alias was defined: file, 1-based line number, the raw line. */
  datatype SourceLocation = SourceLocation(filePath: string, lineNum: int, rawLine: string)

  datatype AliasDefinition = AliasDefinition(name: string, value: string, aliasType: AliasType, location: SourceLocation)

  /** The definitions in `log` that carry `name`, in log order. */
  function Named(log: seq<AliasDefinition>, name: string): (r: seq<AliasDefinition>)
    ensures |r| <= |log|
    ensures forall d | d in r :: d in log && d.name == name
  {
    if log == [] then []
    else Named(log[..|log| - 1], name) + (if log[|log| - 1].name == name then [log[|log| - 1]] else [])
  }

  lemma NamedAppend(log: seq<AliasDefinition>, d: AliasDefinition, name: string)
    ensures Named(log + [d], name) == Named(log, name) + (if d.name == name then [d] else [])
  {
    assert (log + [d])[..|log|] == log;
  }

  /** Every definition with the name is kept: Named is exactly the filter of the log by name. */
  lemma {:induction false} NamedComplete(log: seq<AliasDefinition>, d: AliasDefinition)
    requires d in log
    ensures d in Named(log, d.name)
  {
    var last := log[|log| - 1];
    if last != d {
      assert log == log[..|log| - 1] + [last];
      NamedComplete(log[..|log| - 1], d);
    }
  }

  /** A name that no definition in the log carries has no history. */
  lemma NamedAbsent(log: seq<AliasDefinition>, name: string)
    requires forall d | d in log :: d.name != name
    ensures Named(log, name) == []
  {
  }

  /** Extending the log only extends each name's history. */
  lemma {:induction false} NamedPrefix(log: seq<AliasDefinition>, more: seq<AliasDefinition>, name: string)
    ensures Named(log, name) <= Named(log + more, name)
    decreases |more|
  {
    if more == [] {
      assert log + more == log;
    } else {
      var init := more[..|more| - 1];
      assert log + more == (log + init) + [more[|more| - 1]];
      NamedAppend(log + init, more[|more| - 1], name);
      NamedPrefix(log, init, name);
      assert Named(log + init, name) <= Named(log + more, name);
    }
  }

  /** One alias name with all its definitions (AliasEntry). */
  class AliasEntry {
    const name: string
    var aliasType: AliasType
    var activeValue: string
    var activeLocation: SourceLocation
    var definitions: seq<AliasDefinition>
    var isOverridden: bool

    /**
     * The override law: the active fields mirror the last definition, and the
     * entry is overridden exactly when it holds more than one definition.
     */
    ghost predicate Valid()
      reads this
    {
      && |definitions| > 0
      && activeValue == definitions[|definitions| - 1].value
      && activeLocation == definitions[|definitions| - 1].location
      && aliasType == definitions[|definitions| - 1].aliasType
      && isOverridden == (|definitions| > 1)
    }

    /** The composite literal &AliasEntry{...}. */
    constructor (name: string, aliasType: AliasType, activeValue: string, activeLocation: SourceLocation,
                 definitions: seq<AliasDefinition>, isOverridden: bool)
      ensures this.name == name && this.aliasType == aliasType && this.activeValue == activeValue
      ensures this.activeLocation == activeLocation && this.definitions == definitions
      ensures this.isOverridden == isOverridden
    {
      this.name := name;
      this.aliasType := aliasType;
      this.activeValue := activeValue;
      this.activeLocation := activeLocation;
      this.definitions := definitions;
      this.isOverridden := isOverridden;
    }

    /**
     * AddDefinition: append, make the new definition the active one, and set
     * the overridden flag once there is more than one definition (it is never
     * cleared).
     */
    method AddDefinition(def: AliasDefinition)
      modifies this
      ensures definitions == old(definitions) + [def]
      ensures activeValue == def.value && activeLocation == def.location && aliasType == def.aliasType
      ensures isOverridden == (old(isOverridden) || |definitions| > 1)
      ensures old(Valid()) ==> Valid()
    {
      definitions := definitions + [def];
      activeValue := def.value;
      activeLocation := def.location;
      aliasType := def.aliasType;
      if |definitions| > 1 {
        isOverridden := true;
      }
    }
  }

  /**
   * One scanned file (SourceFile), keyed by its canonical path. The scan
   * reaches a record only through the file table, so the record is a value
   * and each in-place update becomes a replacement of the table entry.
   */
  datatype SourceFile = SourceFile(path: string, fileExists: bool, readable: bool, conditional: bool,
                                   aliases: seq<AliasDefinition>, includes: seq<string>, error: string)

  /** Entry `e` is the entry of `name` built from `log`: the override law over exactly its definitions. */
  ghost predicate Tracks(e: AliasEntry, name: string, log: seq<AliasDefinition>)
    reads e
  {
    e.name == name && e.Valid() && e.definitions == Named(log, name)
  }

  /**
   * Entry `e` now holds `before` followed by `def`, `def` is its active
   * definition, and it is overridden if it was or if it now has more than one.
   */
  ghost predicate Added(e: AliasEntry, def: AliasDefinition, before: seq<AliasDefinition>, wasOverridden: bool)
    reads e
  {
    && e.definitions == before + [def]
    && e.activeValue == def.value && e.activeLocation == def.location && e.aliasType == def.aliasType
    && e.isOverridden == (wasOverridden || |e.definitions| > 1)
  }

  /** The aggregate result of one scan (ScanResult). */
  class ScanResult {
    var aliases: map<string, AliasEntry>
    var files: map<string, SourceFile>
    var unresolvedPaths: seq<string>
    var warnings: seq<string>
    var shell: string
    var rootFiles: seq<string>
    /** Every definition passed to AddAlias so far, in order. */
    ghost var log: seq<AliasDefinition>
    /** The alias entries this result owns. */
    ghost var Repr: set<object>

    /**
     * Each entry sits under its own name and holds exactly the logged
     * definitions of that name, in discovery order, with the override law;
     * every logged name has an entry; each file record sits under its path;
     * the entries are owned.
     */
    ghost predicate Valid()
      reads this`aliases, this`log, this`files, this`Repr, aliases.Values
    {
      EntriesValid() && FilesIndexed() && Owns()
    }

    ghost predicate EntriesValid()
      reads this`aliases, this`log, aliases.Values
    {
      && (forall n {:trigger Tracks(aliases[n], n, log)} | n in aliases :: Tracks(aliases[n], n, log))
      && (forall d | d in log :: d.name in aliases)
    }

    /** Every definition passed to AddAlias is in the history of its name's entry. */
    lemma Logged(d: AliasDefinition)
      requires Valid() && d in log
      ensures d.name in aliases && d in aliases[d.name].definitions
    {
      assert Tracks(aliases[d.name], d.name, log);
      NamedComplete(log, d);
    }

    ghost predicate FilesIndexed()
      reads this`files
    {
      forall p | p in files :: files[p].path == p
    }

    ghost predicate Owns()
      reads this`aliases, this`Repr
    {
      forall n | n in aliases :: aliases[n] in Repr
    }

    /** NewScanResult: empty tables, the given shell and root list. */
    constructor (shell: string, rootFiles: seq<string>)
      ensures aliases == map[] && files == map[] && unresolvedPaths == [] && warnings == []
      ensures this.shell == shell && this.rootFiles == rootFiles && log == [] && Repr == {}
      ensures Valid()
    {
      aliases := map[];
      files := map[];
      unresolvedPaths := [];
      warnings := [];
      this.shell := shell;
      this.rootFiles := rootFiles;
      log := [];
      Repr := {};
    }

    /**
     * AddAlias: extend the entry of def.name, or create it with def as its
     * only, non-overridden definition; no other entry is touched.
     */
    method AddAlias(def: AliasDefinition)
      modifies this, if def.name in aliases then {aliases[def.name]} else {}
      ensures log == old(log) + [def]
      ensures def.name in aliases && aliases == old(aliases)[def.name := aliases[def.name]]
      ensures def.name in old(aliases) ==> aliases[def.name] == old(aliases[def.name])
      ensures def.name !in old(aliases) ==> fresh(aliases[def.name]) && aliases[def.name].name == def.name
      ensures def.name in old(aliases) ==>
        Added(aliases[def.name], def, old(aliases[def.name].definitions), old(aliases[def.name].isOverridden))
      ensures def.name !in old(aliases) ==> Added(aliases[def.name], def, [], false)
      ensures files == old(files) && unresolvedPaths == old(unresolvedPaths) && warnings == old(warnings)
      ensures shell == old(shell) && rootFiles == old(rootFiles)
      ensures fresh(Repr - old(Repr))
      ensures old(Valid()) ==> Valid()
    {
      if def.name in aliases {
        ExtendEntry(def);
      } else {
        InsertEntry(def);
      }
    }

    /** The branch of AddAlias for a name that already has an entry. */
    method ExtendEntry(def: AliasDefinition)
      requires def.name in aliases
      modifies this, aliases[def.name]
      ensures log == old(log) + [def] && aliases == old(aliases)
      ensures Added(aliases[def.name], def, old(aliases[def.name].definitions), old(aliases[def.name].isOverridden))
      ensures files == old(files) && unresolvedPaths == old(unresolvedPaths) && warnings == old(warnings)
      ensures shell == old(shell) && rootFiles == old(rootFiles) && Repr == old(Repr)
      ensures old(Valid()) ==> Valid()
    {
      ghost var wasValid := Valid();
      ghost var oldLog := log;
      log := log + [def];
      var entry := aliases[def.name];
      entry.AddDefinition(def);
      if wasValid {
        assert old(Tracks(aliases[def.name], def.name, log));
        forall n | n in aliases ensures Tracks(aliases[n], n, log) {
          assert old(Tracks(aliases[n], n, log));
          NamedAppend(oldLog, def, n);
          if n != def.name {
            assert aliases[n] != entry;
          }
        }
      }
    }

    /** The branch of AddAlias for a name seen for the first time. */
    method InsertEntry(def: AliasDefinition)
      requires def.name !in aliases
      modifies this
      ensures log == old(log) + [def]
      ensures def.name in aliases && aliases == old(aliases)[def.name := aliases[def.name]]
      ensures fresh(aliases[def.name]) && aliases[def.name].name == def.name
      ensures Added(aliases[def.name], def, [], false)
      ensures files == old(files) && unresolvedPaths == old(unresolvedPaths) && warnings == old(warnings)
      ensures shell == old(shell) && rootFiles == old(rootFiles) && Repr == old(Repr) + {aliases[def.name]}
      ensures old(Valid()) ==> Valid()
    {
      ghost var wasValid := Valid();
      ghost var oldLog := log;
      log := log + [def];
      var entry := new AliasEntry(def.name, def.aliasType, def.value, def.location, [def], false);
      aliases := aliases[def.name := entry];
      Repr := Repr + {entry};
      if wasValid {
        NamedAbsent(oldLog, def.name);
        forall n | n in aliases ensures Tracks(aliases[n], n, log) {
          if n != def.name {
            assert old(Tracks(aliases[n], n, log));
          }
          NamedAppend(oldLog, def, n);
        }
      }
    }

    /**
     * GetAliasesSorted: one pointer per map entry, in map iteration order
     * (which Go leaves unspecified); despite the name, nothing is sorted.
     */
    method GetAliasesSorted() returns (entries: seq<AliasEntry>)
      ensures |entries| == |aliases|
      ensures forall e :: e in entries <==> e in aliases.Values
    {
      entries := [];
      var keys := aliases.Keys;
      while keys != {}
        invariant keys <= aliases.Keys
        invariant |entries| + |keys| == |aliases.Keys|
        invariant forall e | e in entries :: e in aliases.Values
        invariant forall k | k in aliases.Keys - keys :: aliases[k] in entries
        decreases keys
      {
        var k :| k in keys;
        entries := entries + [aliases[k]];
        keys := keys - {k};
      }
    }
  }
}
