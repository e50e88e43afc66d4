/**
 * The extractor driver (src/parser/index.ts): walks the workspace for
 * source files, then parses each one in turn, taking a cached record when
 * the content-hash cache has a fresh one, and dropping a file whose parse
 * fails.
 *
 * The TypeScript front end is a parameter `syntax` from a path and its
 * content to the file's import and export declarations (`None` when the
 * front end rejects the file); the directory tree, the file contents, the
 * clock and the cancellation token (whether cancellation is requested when
 * the loop reaches the `i`-th file) are inputs.
 */
module Parser {
  import opened Wrappers
  import opened Strings
  import opened Paths
  import opened ParserTypes
  import opened Cache

  // ---------------------------------------------------------------------------
  // Discovery
  // ---------------------------------------------------------------------------

  /** The default `excludePatterns` setting. */
  const DefaultExcludes: seq<string> := ["node_modules", "dist", "build"]

  /** The extensions of the files the walk collects. */
  const SourceExtensions: seq<string> := [".ts", ".tsx", ".js", ".jsx", ".mjs"]

  /** A directory entry as `readdir` reports it; `Other` is neither a file nor a directory. */
  datatype DirEntry =
    | FileEntry(name: string)
    | DirectoryEntry(name: string, children: seq<DirEntry>)
    | Other(name: string)

  /** `shouldExclude` */
  function ShouldExclude(relativePath: string, patterns: seq<string>): bool {
    if patterns == [] then false
    else Contains(relativePath, patterns[0]) || ShouldExclude(relativePath, patterns[1..])
  }

  /** The exclude patterns: the configured setting, or `DefaultExcludes` when it is not set. */
  function ConfiguredExcludes(configured: Option<seq<string>>): seq<string> {
    if configured.Some? then configured.value else DefaultExcludes
  }

  /**
   * Without a setting, every path under a `node_modules`, `dist` or `build`
   * name is excluded, and a path mentioning none of them is not.
   */
  lemma DefaultExcludesIff(relativePath: string)
    ensures ShouldExclude(relativePath, ConfiguredExcludes(None))
            <==> Contains(relativePath, "node_modules") || Contains(relativePath, "dist") || Contains(relativePath, "build")
  {
    ShouldExcludeIff(relativePath, DefaultExcludes);
    if Contains(relativePath, "dist") {
      assert DefaultExcludes[1] == "dist";
    }
    if Contains(relativePath, "build") {
      assert DefaultExcludes[2] == "build";
    }
  }

  /** A path is excluded exactly when some pattern occurs in it. */
  lemma {:induction false} ShouldExcludeIff(relativePath: string, patterns: seq<string>)
    ensures ShouldExclude(relativePath, patterns) <==> exists k :: 0 <= k < |patterns| && Contains(relativePath, patterns[k])
  {
    if patterns != [] {
      ShouldExcludeIff(relativePath, patterns[1..]);
      if ShouldExclude(relativePath, patterns[1..]) {
        var k :| 0 <= k < |patterns[1..]| && Contains(relativePath, patterns[1..][k]);
        assert patterns[1..][k] == patterns[k + 1];
      }
      if exists k :: 0 <= k < |patterns| && Contains(relativePath, patterns[k]) {
        var k :| 0 <= k < |patterns| && Contains(relativePath, patterns[k]);
        if k != 0 {
          assert patterns[1..][k - 1] == patterns[k];
        }
      }
    }
  }

  /**
   * The test `findSourceFiles` applies to the full path of each entry: the
   * path relative to the workspace root `ws`, tested against the patterns.
   */
  function Excluder(ws: string, patterns: seq<string>): string -> bool {
    fullPath => ShouldExclude(Relative(ws, fullPath), patterns)
  }

  /** The files the walk collects from one entry of directory `dir`, skipping every full path `excluded` holds of. */
  function EntryFiles(excluded: string -> bool, dir: string, e: DirEntry): seq<string>
    decreases e
  {
    var fullPath := dir + "/" + e.name;
    if excluded(fullPath) then []
    else match e
      case DirectoryEntry(_, children) => EntriesFiles(excluded, fullPath, children)
      case FileEntry(name) => if Extname(name) in SourceExtensions then [fullPath] else []
      case Other(_) => []
  }

  /** The files the walk collects from the entries of `dir`, in `readdir` order, depth first. */
  function EntriesFiles(excluded: string -> bool, dir: string, es: seq<DirEntry>): seq<string>
    decreases es
  {
    if es == [] then []
    else EntriesFiles(excluded, dir, es[..|es| - 1]) + EntryFiles(excluded, dir, es[|es| - 1])
  }

  /** What `findSourceFiles` returns for the workspace `ws` whose top-level entries are `tree`. */
  function SourceFiles(ws: string, tree: seq<DirEntry>, patterns: seq<string>): seq<string> {
    EntriesFiles(Excluder(ws, patterns), ws, tree)
  }

  lemma EntriesFilesSnoc(excluded: string -> bool, dir: string, es: seq<DirEntry>, i: nat)
    requires i < |es|
    ensures EntriesFiles(excluded, dir, es[..i + 1]) == EntriesFiles(excluded, dir, es[..i]) + EntryFiles(excluded, dir, es[i])
  {
    assert es[..i + 1][..i] == es[..i];
  }

  /** Every name in the tree is a plain segment, as `readdir` reports them. */
  predicate ValidEntry(e: DirEntry)
    decreases e
  {
    IsSegment(e.name) && (e.DirectoryEntry? ==> ValidEntries(e.children))
  }

  predicate ValidEntries(es: seq<DirEntry>)
    decreases es
  {
    forall k :: 0 <= k < |es| ==> ValidEntry(es[k])
  }

  /** A collected file has a source extension and is not excluded. */
  predicate Qualifies(excluded: string -> bool, f: string) {
    Extname(f) in SourceExtensions && !excluded(f)
  }

  /** A source file that is not excluded is collected, and it qualifies. */
  lemma FileEntryQualifies(excluded: string -> bool, dir: string, name: string)
    requires IsSegment(name) && !excluded(dir + "/" + name)
    ensures forall k :: 0 <= k < |EntryFiles(excluded, dir, FileEntry(name))| ==>
              Qualifies(excluded, EntryFiles(excluded, dir, FileEntry(name))[k])
  {
    ExtnameChild(dir, name);
    QualifiesIfExtension(excluded, dir + "/" + name, Extname(name), EntryFiles(excluded, dir, FileEntry(name)));
  }

  lemma QualifiesIfExtension(excluded: string -> bool, fullPath: string, ext: string, files: seq<string>)
    requires Extname(fullPath) == ext && !excluded(fullPath)
    requires files == if ext in SourceExtensions then [fullPath] else []
    ensures forall k :: 0 <= k < |files| ==> Qualifies(excluded, files[k])
  {
  }

  lemma {:induction false} EntryFilesQualify(excluded: string -> bool, dir: string, e: DirEntry)
    requires ValidEntry(e)
    ensures forall k :: 0 <= k < |EntryFiles(excluded, dir, e)| ==> Qualifies(excluded, EntryFiles(excluded, dir, e)[k])
    decreases e
  {
    if !excluded(dir + "/" + e.name) {
      match e
      case DirectoryEntry(_, children) =>
        EntriesFilesQualify(excluded, dir + "/" + e.name, children);
      case FileEntry(name) =>
        FileEntryQualifies(excluded, dir, name);
      case Other(_) =>
    }
  }

  lemma {:induction false} EntriesFilesQualify(excluded: string -> bool, dir: string, es: seq<DirEntry>)
    requires ValidEntries(es)
    ensures forall k :: 0 <= k < |EntriesFiles(excluded, dir, es)| ==> Qualifies(excluded, EntriesFiles(excluded, dir, es)[k])
    decreases es
  {
    if es != [] {
      var init := es[..|es| - 1];
      assert ValidEntries(init) by {
        forall k | 0 <= k < |init|
          ensures ValidEntry(init[k])
        {
          assert init[k] == es[k];
        }
      }
      EntriesFilesQualify(excluded, dir, init);
      EntryFilesQualify(excluded, dir, es[|es| - 1]);
    }
  }

  /**
   * Every file `findSourceFiles` returns has one of the source extensions,
   * and no exclude pattern occurs in its path relative to the workspace.
   */
  lemma SourceFilesQualify(ws: string, tree: seq<DirEntry>, patterns: seq<string>)
    requires ValidEntries(tree)
    ensures forall f :: f in SourceFiles(ws, tree, patterns) ==>
              Extname(f) in SourceExtensions &&
              forall k :: 0 <= k < |patterns| ==> !Contains(Relative(ws, f), patterns[k])
  {
    EntriesFilesQualify(Excluder(ws, patterns), ws, tree);
    AllQualify(Excluder(ws, patterns), f => Relative(ws, f), patterns, SourceFiles(ws, tree, patterns));
  }

  /** The qualification of every file, spelt out with the patterns, for any relative-path function. */
  lemma AllQualify(excluded: string -> bool, rel: string -> string, patterns: seq<string>, files: seq<string>)
    requires forall f :: excluded(f) == ShouldExclude(rel(f), patterns)
    requires forall k :: 0 <= k < |files| ==> Qualifies(excluded, files[k])
    ensures forall f :: f in files ==>
              Extname(f) in SourceExtensions &&
              forall k :: 0 <= k < |patterns| ==> !Contains(rel(f), patterns[k])
  {
    forall f | f in files
      ensures Extname(f) in SourceExtensions
      ensures forall k :: 0 <= k < |patterns| ==> !Contains(rel(f), patterns[k])
    {
      var j :| 0 <= j < |files| && files[j] == f;
      assert Qualifies(excluded, files[j]);
      ShouldExcludeIff(rel(f), patterns);
    }
  }

  /** An excluded entry contributes nothing: an excluded directory is not descended into. */
  lemma ExcludedEntryIsSkipped(ws: string, dir: string, e: DirEntry, patterns: seq<string>)
    requires ShouldExclude(Relative(ws, dir + "/" + e.name), patterns)
    ensures EntryFiles(Excluder(ws, patterns), dir, e) == []
  {
  }

  // ---------------------------------------------------------------------------
  // Declarations and record shaping
  // ---------------------------------------------------------------------------

  datatype NamedImport = NamedImport(name: string, alias: Option<string>)

  /** An import declaration as the front end reports it. */
  datatype ImportDeclaration = ImportDeclaration(
    moduleSpecifier: string,
    line: int,
    column: int,
    namedImports: seq<NamedImport>,
    defaultImport: Option<string>,
    namespaceImport: Option<string>)

  /** An `export { ... } [from "..."]` declaration. */
  datatype ExportDeclaration = ExportDeclaration(moduleSpecifier: Option<string>, line: int, column: int, namedExports: seq<string>)

  /** An `export default ...` / `export = ...` assignment. */
  datatype ExportAssignment = ExportAssignment(line: int, column: int)

  datatype SourceFile = SourceFile(
    imports: seq<ImportDeclaration>,
    exportDeclarations: seq<ExportDeclaration>,
    exportAssignments: seq<ExportAssignment>)

  /**
   * The specifiers of one import: the named ones in order, then the
   * default import, then the namespace import.
   */
  function Specifiers(d: ImportDeclaration): seq<ImportSpecifier>
  {
    var named := seq(|d.namedImports|, k requires 0 <= k < |d.namedImports| =>
                   ImportSpecifier(d.namedImports[k].name, d.namedImports[k].alias, false, false));
    var withDefault := if d.defaultImport.Some? then named + [ImportSpecifier(d.defaultImport.value, None, true, false)] else named;
    if d.namespaceImport.Some? then withDefault + [ImportSpecifier(d.namespaceImport.value, None, false, true)] else withDefault
  }

  /** `extractImports`: one ES6 import record per declaration, in order. */
  function ExtractImports(sf: SourceFile): seq<ImportRecord> {
    seq(|sf.imports|, k requires 0 <= k < |sf.imports| =>
      var d := sf.imports[k];
      ImportRecord(d.moduleSpecifier, Specifiers(d), ES6, d.line, d.column))
  }

  /**
   * Every extracted import is an ES6 import of its declaration's module, its
   * specifiers the named ones in order, then the default import, then the
   * namespace import.
   */
  lemma ImportsShape(sf: SourceFile, k: nat)
    requires k < |sf.imports|
    ensures var r := ExtractImports(sf);
            var d := sf.imports[k];
            var sp := r[k].specifiers;
            |r| == |sf.imports| && r[k].kind == ES6 && r[k].source == d.moduleSpecifier
            && |sp| == |d.namedImports| + (if d.defaultImport.Some? then 1 else 0) + (if d.namespaceImport.Some? then 1 else 0)
            && (forall j :: 0 <= j < |d.namedImports| ==>
                  sp[j] == ImportSpecifier(d.namedImports[j].name, d.namedImports[j].alias, false, false))
            && (d.defaultImport.Some? ==> sp[|d.namedImports|] == ImportSpecifier(d.defaultImport.value, None, true, false))
            && (d.namespaceImport.Some? ==> sp[|sp| - 1] == ImportSpecifier(d.namespaceImport.value, None, false, true))
  {
  }

  /** The named exports of the export declarations, in order. */
  function NamedExports(ds: seq<ExportDeclaration>): seq<ExportRecord> {
    if ds == [] then []
    else
      var d := ds[|ds| - 1];
      NamedExports(ds[..|ds| - 1])
        + seq(|d.namedExports|, k requires 0 <= k < |d.namedExports| => ExportRecord(d.namedExports[k], Named, d.moduleSpecifier, d.line, d.column))
  }

  /** Number of names exported by the declarations. */
  function NamedCount(ds: seq<ExportDeclaration>): nat {
    if ds == [] then 0 else NamedCount(ds[..|ds| - 1]) + |ds[|ds| - 1].namedExports|
  }

  /** One `Named` export per exported name. */
  lemma {:induction false} NamedExportsCount(ds: seq<ExportDeclaration>)
    ensures |NamedExports(ds)| == NamedCount(ds)
    ensures forall k :: 0 <= k < |NamedExports(ds)| ==> NamedExports(ds)[k].kind == Named
  {
    if ds != [] {
      NamedExportsCount(ds[..|ds| - 1]);
    }
  }

  /**
   * The `j`-th name of the `i`-th declaration is the export of `r` that
   * follows the names of the declarations before it, with that
   * declaration's module specifier and position.
   */
  predicate NamedExportPlaced(r: seq<ExportRecord>, ds: seq<ExportDeclaration>, i: nat, j: nat)
    requires i < |ds| && j < |ds[i].namedExports|
  {
    var pos := NamedCount(ds[..i]) + j;
    pos < |r| && r[pos] == ExportRecord(ds[i].namedExports[j], Named, ds[i].moduleSpecifier, ds[i].line, ds[i].column)
  }

  /**
   * The `j`-th name of the `i`-th declaration sits after the names of the
   * declarations before it, with that declaration's module specifier and
   * position.
   */
  lemma {:induction false} NamedExportAt(ds: seq<ExportDeclaration>, i: nat, j: nat)
    requires i < |ds| && j < |ds[i].namedExports|
    ensures |NamedExports(ds)| == NamedCount(ds)
    ensures NamedCount(ds[..i]) + j < NamedCount(ds)
    ensures NamedExportPlaced(NamedExports(ds), ds, i, j)
  {
    var init := ds[..|ds| - 1];
    var d := ds[|ds| - 1];
    var block := seq(|d.namedExports|, k requires 0 <= k < |d.namedExports| =>
                   ExportRecord(d.namedExports[k], Named, d.moduleSpecifier, d.line, d.column));
    NamedExportsCount(init);
    NamedExportsCount(ds);
    assert NamedExports(ds) == NamedExports(init) + block;
    if i < |init| {
      assert ds[..i] == init[..i];
      assert ds[i] == init[i];
      NamedExportAt(init, i, j);
    } else {
      assert ds[..i] == init;
    }
  }

  /** Every declaration's names, in order, with the declaration's module specifier and position. */
  lemma NamedExportsShape(ds: seq<ExportDeclaration>)
    ensures |NamedExports(ds)| == NamedCount(ds)
    ensures forall i: nat, j: nat :: i < |ds| && j < |ds[i].namedExports| ==>
              NamedExportPlaced(NamedExports(ds), ds, i, j)
  {
    NamedExportsCount(ds);
    forall i: nat, j: nat | i < |ds| && j < |ds[i].namedExports| {
      NamedExportAt(ds, i, j);
    }
  }

  /** `extractExports`: the named exports of every declaration, then one "default" export per assignment. */
  function ExtractExports(sf: SourceFile): seq<ExportRecord> {
    NamedExports(sf.exportDeclarations)
      + seq(|sf.exportAssignments|, k requires 0 <= k < |sf.exportAssignments| =>
          ExportRecord("default", Default, None, sf.exportAssignments[k].line, sf.exportAssignments[k].column))
  }

  /**
   * The exports are all the named ones, each carrying its name, its
   * declaration's module specifier and position, followed by exactly one
   * default export per export assignment, at that assignment's position.
   */
  lemma ExportsShape(sf: SourceFile)
    ensures var r := ExtractExports(sf);
            var n := NamedCount(sf.exportDeclarations);
            |r| == n + |sf.exportAssignments|
            && (forall k :: 0 <= k < n ==> r[k].kind == Named)
            && (forall k :: n <= k < |r| ==> r[k].kind == Default && r[k].name == "default")
    ensures var r := ExtractExports(sf);
            var ds := sf.exportDeclarations;
            forall i: nat, j: nat :: i < |ds| && j < |ds[i].namedExports| ==>
              NamedExportPlaced(r, ds, i, j)
    ensures var r := ExtractExports(sf);
            var n := NamedCount(sf.exportDeclarations);
            var a := sf.exportAssignments;
            |r| == n + |a|
            && forall k :: 0 <= k < |a| ==> r[n + k] == ExportRecord("default", Default, None, a[k].line, a[k].column)
  {
    var ds := sf.exportDeclarations;
    NamedExportsCount(ds);
    forall i: nat, j: nat | i < |ds| && j < |ds[i].namedExports|
      ensures NamedExportPlaced(ExtractExports(sf), ds, i, j)
    {
      NamedExportAt(ds, i, j);
    }
  }

  // ---------------------------------------------------------------------------
  // Line metrics and parsing one file
  // ---------------------------------------------------------------------------

  /** A line of code: not blank once trimmed, and not a `//` comment. */
  predicate IsCodeLine(line: string) {
    var t := Trim(line);
    t != "" && !StartsWith(t, "//")
  }

  /** The number of lines of code among `lines`. */
  function CountCode(lines: seq<string>): (n: nat)
    ensures n <= |lines|
  {
    if lines == [] then 0
    else CountCode(lines[..|lines| - 1]) + (if IsCodeLine(lines[|lines| - 1]) then 1 else 0)
  }

  /** No line is code, so none is counted. */
  lemma {:induction false} NoCodeLines(lines: seq<string>)
    requires forall k :: 0 <= k < |lines| ==> !IsCodeLine(lines[k])
    ensures CountCode(lines) == 0
  {
    if lines != [] {
      NoCodeLines(lines[..|lines| - 1]);
    }
  }

  /** The metrics of a file with the given content and extracted records. */
  function MetricsOf(content: string, imports: seq<ImportRecord>, exports: seq<ExportRecord>): FileMetrics {
    var lines := Split(content, '\n');
    var linesOfCode := CountCode(lines);
    FileMetrics(linesOfCode, |lines| - linesOfCode, 1, |imports|, |exports|)
  }

  /** Code and non-code lines add up to the number of '\n'-separated lines. */
  lemma LineTotals(content: string, imports: seq<ImportRecord>, exports: seq<ExportRecord>)
    ensures var m := MetricsOf(content, imports, exports);
            m.linesOfCode + m.linesOfComments == Occurrences(content, '\n') + 1
  {
    SplitCount(content, '\n');
  }

  /** `parseFile`: `None` when the file cannot be read or the front end rejects it. */
  function ParseFile(path: string, fs: map<string, string>, syntax: (string, string) -> Option<SourceFile>): Option<ParseResult>
  {
    if path !in fs then None
    else match syntax(path, fs[path])
      case None => None
      case Some(sf) =>
        var imports := ExtractImports(sf);
        var exports := ExtractExports(sf);
        Some(ParseResult(path, imports, exports, MetricsOf(fs[path], imports, exports)))
  }

  /**
   * A parse succeeds only on a readable file the front end accepts; its
   * record carries the file's path, metrics that count its own imports and
   * exports, complexity 1, and line counts that add up to the file's lines.
   */
  lemma ParsedRecord(path: string, fs: map<string, string>, syntax: (string, string) -> Option<SourceFile>)
    ensures var r := ParseFile(path, fs, syntax);
            (r.Some? <==> path in fs && syntax(path, fs[path]).Some?)
            && (r.Some? ==>
                  r.value.filePath == path
                  && r.value.metrics.imports == |r.value.imports| && r.value.metrics.exports == |r.value.exports|
                  && r.value.metrics.complexity == 1
                  && r.value.metrics.linesOfCode + r.value.metrics.linesOfComments == Occurrences(fs[path], '\n') + 1)
  {
    if path in fs {
      SplitCount(fs[path], '\n');
    }
  }

  // ---------------------------------------------------------------------------
  // The per-file loop
  // ---------------------------------------------------------------------------

  /** Everything the loop reads but does not change: configuration, files, front end, clock. */
  datatype Env = Env(enabled: bool, fs: map<string, string>, syntax: (string, string) -> Option<SourceFile>, now: int)

  /** The loop's results so far and the cache's map and persisted snapshot. */
  datatype RunState = RunState(results: seq<ParseResult>, entries: map<string, CacheEntry>, stored: Option<map<string, CacheEntry>>)

  /**
   * One file: a cache hit is taken as is; otherwise a successful parse is
   * appended and cached, and a failed one is dropped.
   */
  function Step(s: RunState, file: string, digest: string -> string, env: Env): RunState {
    var g := Lookup(s.entries, file, env.enabled, FileHash(digest, env.fs, file), env.now);
    if g.value.Some? then RunState(s.results + [g.value.value], g.entries, s.stored)
    else match ParseFile(file, env.fs, env.syntax)
      case None => RunState(s.results, g.entries, s.stored)
      case Some(r) =>
        if env.enabled then
          var entries := g.entries[file := CacheEntry(FileHash(digest, env.fs, file), r, env.now)];
          RunState(s.results + [r], entries, Some(entries))
        else RunState(s.results + [r], g.entries, s.stored)
  }

  /** The loop over `files` in order. */
  function Steps(s: RunState, files: seq<string>, digest: string -> string, env: Env): RunState {
    if files == [] then s
    else Step(Steps(s, files[..|files| - 1], digest, env), files[|files| - 1], digest, env)
  }

  /** Where the loop stops: the first position from `i` on at which cancellation is requested. */
  function StopIndex(cancelled: nat -> bool, i: nat, n: nat): (r: nat)
    requires i <= n
    ensures i <= r <= n
    ensures forall k :: i <= k < r ==> !cancelled(k)
    ensures r < n ==> cancelled(r)
    decreases n - i
  {
    if i == n || cancelled(i) then i else StopIndex(cancelled, i + 1, n)
  }

  /** A cache hit is appended as is, with no parse and no write to the cache. */
  lemma CacheHitSkipsParse(s: RunState, file: string, digest: string -> string, env: Env)
    requires Lookup(s.entries, file, env.enabled, FileHash(digest, env.fs, file), env.now).value.Some?
    ensures Step(s, file, digest, env)
            == RunState(s.results + [s.entries[file].data], s.entries, s.stored)
  {
  }

  /** A file that misses the cache and fails to parse adds nothing and is not cached. */
  lemma FailureDropsFile(s: RunState, file: string, digest: string -> string, env: Env)
    requires Lookup(s.entries, file, env.enabled, FileHash(digest, env.fs, file), env.now).value.None?
    requires ParseFile(file, env.fs, env.syntax).None?
    ensures Step(s, file, digest, env)
            == RunState(s.results, Lookup(s.entries, file, env.enabled, FileHash(digest, env.fs, file), env.now).entries, s.stored)
  {
  }

  /** One step appends at most one result and keeps the earlier ones. */
  lemma StepAppendsAtMostOne(s: RunState, file: string, digest: string -> string, env: Env)
    ensures |s.results| <= |Step(s, file, digest, env).results| <= |s.results| + 1
    ensures Step(s, file, digest, env).results[..|s.results|] == s.results
  {
  }

  /** Each file adds at most one result, and earlier results are never changed. */
  lemma {:induction false} AtMostOnePerFile(s: RunState, files: seq<string>, digest: string -> string, env: Env)
    ensures |s.results| <= |Steps(s, files, digest, env).results| <= |s.results| + |files|
    ensures Steps(s, files, digest, env).results[..|s.results|] == s.results
  {
    if files != [] {
      var t := Steps(s, files[..|files| - 1], digest, env);
      AtMostOnePerFile(s, files[..|files| - 1], digest, env);
      StepAppendsAtMostOne(t, files[|files| - 1], digest, env);
      var u := Steps(s, files, digest, env);
      assert u.results[..|t.results|] == t.results;
      assert u.results[..|s.results|] == u.results[..|t.results|][..|s.results|];
    }
  }

  /** The records a fresh parse of every file gives, failures dropped. */
  function FreshResults(files: seq<string>, env: Env): seq<ParseResult> {
    if files == [] then []
    else
      var r := ParseFile(files[|files| - 1], env.fs, env.syntax);
      FreshResults(files[..|files| - 1], env) + (if r.Some? then [r.value] else [])
  }

  /**
   * A cache is sound for the current files when every entry whose hash is
   * the file's current hash holds what parsing the file now gives.
   */
  ghost predicate Sound(entries: map<string, CacheEntry>, digest: string -> string, env: Env) {
    forall p :: p in entries && entries[p].hash == FileHash(digest, env.fs, p) ==>
      ParseFile(p, env.fs, env.syntax) == Some(entries[p].data)
  }

  /** Each step keeps the cache sound: it only evicts entries or stores a fresh parse under the current hash. */
  lemma StepKeepsSound(s: RunState, file: string, digest: string -> string, env: Env)
    requires Sound(s.entries, digest, env)
    ensures Sound(Step(s, file, digest, env).entries, digest, env)
    ensures Step(s, file, digest, env).results
            == s.results + (if ParseFile(file, env.fs, env.syntax).Some? then [ParseFile(file, env.fs, env.syntax).value] else [])
  {
    var g := Lookup(s.entries, file, env.enabled, FileHash(digest, env.fs, file), env.now);
    assert forall p :: p in g.entries ==> p in s.entries && g.entries[p] == s.entries[p];
  }

  /**
   * The cache is transparent: starting from a sound cache, the loop yields
   * exactly what parsing every file afresh yields.
   */
  lemma {:induction false} CacheIsTransparent(s: RunState, files: seq<string>, digest: string -> string, env: Env)
    requires Sound(s.entries, digest, env)
    ensures Steps(s, files, digest, env).results == s.results + FreshResults(files, env)
    ensures Sound(Steps(s, files, digest, env).entries, digest, env)
  {
    if files != [] {
      var init := files[..|files| - 1];
      CacheIsTransparent(s, init, digest, env);
      StepKeepsSound(Steps(s, init, digest, env), files[|files| - 1], digest, env);
    }
  }

  /** A workspace whose files cannot be read gives no results, whatever a sound cache holds. */
  lemma {:induction false} UnreadableFilesGiveNothing(files: seq<string>, env: Env)
    requires forall k :: 0 <= k < |files| ==> files[k] !in env.fs
    ensures FreshResults(files, env) == []
  {
    if files != [] {
      UnreadableFilesGiveNothing(files[..|files| - 1], env);
    }
  }

  /**
   * `walk`, the closure inside `findSourceFiles`: appends to `files0` the
   * files under the entries `es` of `dir`; `excluded` is the exclusion test
   * over full paths that the closure captures.
   */
  method Walk(excluded: string -> bool, dir: string, es: seq<DirEntry>, files0: seq<string>) returns (files: seq<string>)
    ensures files == files0 + EntriesFiles(excluded, dir, es)
    decreases es
  {
    files := files0;
    var i := 0;
    while i < |es|
      invariant 0 <= i <= |es|
      invariant files == files0 + EntriesFiles(excluded, dir, es[..i])
    {
      EntriesFilesSnoc(excluded, dir, es, i);
      ConcatAssoc(files0, EntriesFiles(excluded, dir, es[..i]), EntryFiles(excluded, dir, es[i]));
      files := WalkEntry(excluded, dir, es[i], files);
      i := i + 1;
    }
    assert es[..i] == es;
  }

  /** The body of `walk`'s loop for one entry. */
  method WalkEntry(excluded: string -> bool, dir: string, entry: DirEntry, files0: seq<string>) returns (files: seq<string>)
    ensures files == files0 + EntryFiles(excluded, dir, entry)
    decreases entry
  {
    files := files0;
    var fullPath := dir + "/" + entry.name;
    if excluded(fullPath) {
      return;
    }
    if entry.DirectoryEntry? {
      files := Walk(excluded, fullPath, entry.children, files);
    } else if entry.FileEntry? {
      var ext := Extname(entry.name);
      if ext in SourceExtensions {
        files := files + [fullPath];
      }
    }
  }

  /** The parser: the exclusion setting and the cache it shares with the rest of the extension. */
  class Parser {
    const excludePatterns: seq<string>
    const cacheManager: CacheManager

    /**
     * `configured` is the `visualCodeMap.excludePatterns` setting, `None`
     * when it is not set; then the patterns are `DefaultExcludes`.
     */
    constructor(cacheManager: CacheManager, configured: Option<seq<string>>)
      ensures this.cacheManager == cacheManager
      ensures excludePatterns == ConfiguredExcludes(configured)
    {
      this.cacheManager := cacheManager;
      this.excludePatterns := ConfiguredExcludes(configured);
    }

    /** `findSourceFiles` over the workspace's directory tree. */
    method FindSourceFiles(ws: string, tree: seq<DirEntry>) returns (files: seq<string>)
      ensures files == SourceFiles(ws, tree, excludePatterns)
    {
      files := Walk(Excluder(ws, excludePatterns), ws, tree, []);
    }

    /**
     * `parseWorkspace`: the source files of the workspace, then the loop
     * over them.
     */
    method ParseWorkspace(ws: string, tree: seq<DirEntry>, env: Env, cancelled: nat -> bool)
      returns (results: seq<ParseResult>)
      modifies cacheManager
      ensures var files := SourceFiles(ws, tree, excludePatterns);
              var s := Steps(RunState([], old(cacheManager.entries), old(cacheManager.stored)),
                             files[..StopIndex(cancelled, 0, |files|)], cacheManager.digest, env);
              results == s.results && cacheManager.entries == s.entries && cacheManager.stored == s.stored
    {
      var files := FindSourceFiles(ws, tree);
      results := ParseFiles(files, env, cancelled);
    }

    /**
     * The loop of `parseWorkspace` over `files`, stopped at the first file
     * for which cancellation is requested.
     */
    method ParseFiles(files: seq<string>, env: Env, cancelled: nat -> bool) returns (results: seq<ParseResult>)
      modifies cacheManager
      ensures var s := Steps(RunState([], old(cacheManager.entries), old(cacheManager.stored)),
                             files[..StopIndex(cancelled, 0, |files|)], cacheManager.digest, env);
              results == s.results && cacheManager.entries == s.entries && cacheManager.stored == s.stored
    {
      ghost var s0 := RunState([], cacheManager.entries, cacheManager.stored);
      results := [];
      var i := 0;
      while i < |files|
        invariant 0 <= i <= |files|
        invariant forall k :: 0 <= k < i ==> !cancelled(k)
        invariant RunState(results, cacheManager.entries, cacheManager.stored)
                  == Steps(s0, files[..i], cacheManager.digest, env)
      {
        assert files[..i + 1][..i] == files[..i];
        var file := files[i];
        if cancelled(i) {
          break;
        }
        results := ProcessFile(file, env, results);
        i := i + 1;
      }
      assert i == StopIndex(cancelled, 0, |files|);
    }

    /** The body of `parseWorkspace`'s loop for one file. */
    method ProcessFile(file: string, env: Env, results0: seq<ParseResult>) returns (results: seq<ParseResult>)
      modifies cacheManager
      ensures RunState(results, cacheManager.entries, cacheManager.stored)
              == Step(RunState(results0, old(cacheManager.entries), old(cacheManager.stored)), file, cacheManager.digest, env)
    {
      results := results0;
      var cached := cacheManager.Get(file, env.enabled, env.fs, env.now);
      if cached.Some? {
        results := results + [cached.value];
        return;
      }
      var parsed := ParseFile(file, env.fs, env.syntax);
      if parsed.Some? {
        results := results + [parsed.value];
        cacheManager.Set(file, parsed.value, env.enabled, env.fs, env.now);
      }
    }
  }
}
