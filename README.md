# VisualCodeMap analysis pipeline in Dafny

This project models the analysis pipeline of the VisualCodeMap VS Code
extension. The pipeline turns a workspace into a dependency graph for display:

- **Extractor driver** (`Parser`, src/parser/index.ts):
  - walks the workspace for source files, skipping excluded paths;
  - parses each file in turn;
  - takes a cached record when the content-hash cache holds a fresh one;
  - drops files that fail to parse;
  - stops at the first file for which cancellation is requested.
- **Content-hash cache** (`Cache`, src/utils/cache.ts): a map from file path to
  `{hash, data, timestamp}`, written through to the extension's global state.
- **Dependency analyzer** (`Analyzer` and `DependencyGraph`,
  src/analyzer/index.ts):
  - resolves relative import specifiers against the known files;
  - folds repeated imports into one dependency per (source, target) pair;
  - builds the per-file dependency map;
  - computes orphans and entry points;
  - finds import cycles with a depth-first search.
- **Graph projector** (`Graph`, src/graph/index.ts): turns the analysis into
  nodes, edges and metadata, with node types, colours, edge types and the
  common workspace root.

The record types of src/types/parser.ts and src/types/graph.ts are the
datatypes of `ParserTypes` and `GraphTypes`. `Strings` and `Paths` give the
parts of JavaScript strings and Node's POSIX `path` module that the pipeline
relies on.

The model follows the source's own form:

- Loops that build arrays become methods with loop invariants. These are
  `Analyze`, `createNodes`, `createEdges`, `findCommonRoot`, the walk and the
  per-file loop.
- Each such method is proved equal to a specification function. The lemmas
  are stated about those functions.
- The cache and the cycle search keep mutable state, so they are classes whose
  methods are specified by pure transition functions.

The orphan computation and the cycle test's weak assertion are kept as
written:

- `Analyzer.OrphansAlwaysEmpty` proves that no file is ever reported as an
  orphan.
- `AnalyzerScenarios.OrphanTestAsWritten` takes the orphan unit test's
  three files, with the same paths and imports. Only the metrics differ (the
  test gives index.js 10 lines of code), and the analysis never reads them.
  It shows that `/project/orphaned.js` would be an orphan under the evident
  intent, yet the analysis reports none.
- `AnalyzerScenarios.CycleTestHasOneCycle` takes the cycle test's three
  files, again up to the metrics, which the analysis ignores. It proves what
  that test leaves open: the analysis reports exactly the one cycle
  a.js -> b.js -> c.js -> a.js.

## Model

| member | source | states |
|---|---|---|
| Analyzer.ResolveImportPath | src/analyzer/index.ts:76-89 | a specifier not starting with "." never resolves; otherwise the result is the first of the nine candidate paths, in the fixed suffix order, that is a known file, and there is no result exactly when no candidate is known; any result is in `files` |
| Analyzer.FirstMatch | src/analyzer/index.ts:80-85 | the suffix search returns the first position from `i` whose candidate is a known file, and none when no later candidate is known |
| Analyzer.FilePaths | src/analyzer/index.ts:27 | `files` is the input file paths, in input order |
| Analyzer.ImportEvents | src/analyzer/index.ts:35-39 | every counted import of a file comes from that file and resolves to a known file other than the file itself, so self-imports are dropped |
| Analyzer.EventsWellFormed | src/analyzer/index.ts:30-56 | every counted import has different ends, a known target and a parsed source |
| Analyzer.FindEdge | src/analyzer/index.ts:41-43 | the lookup finds the first dependency for the pair, and -1 exactly when there is none |
| Analyzer.RecordAllAppend | src/analyzer/index.ts:41-54 | folding two runs of imports one after the other is folding their concatenation |
| Analyzer.RecordUnique | src/analyzer/index.ts:41-54 | one increment-or-push step keeps (source, target) pairs unique |
| Analyzer.RecordCountsAndKinds | src/analyzer/index.ts:45-53 | one step keeps every dependency's count equal to its pair's number of imports and its type equal to the first import's type |
| Analyzer.RecordCovers | src/analyzer/index.ts:45-53 | after a step every import seen so far has its dependency |
| Analyzer.CountPairPositive | src/analyzer/index.ts:41-54 | a pair's import count is positive exactly when some import is for that pair |
| Analyzer.FirstKindIsFirst | src/analyzer/index.ts:48-53 | the type kept for a pair is that of the first import for the pair |
| Analyzer.AggregateSummarises | src/analyzer/index.ts:41-54 | the dependency list has one entry per pair, an entry for every pair that occurs, and each entry carries its pair's import count and first import type |
| Analyzer.SumCountsUpdate | src/analyzer/index.ts:46 | incrementing one count raises the sum of counts by exactly the change |
| Analyzer.AggregateSum | src/analyzer/index.ts:30-58 | the counts add up to the number of imports that resolved to a known file other than their own |
| Analyzer.Targets | src/analyzer/index.ts:33-39 | a file's target set holds each target once, and exactly the targets of its counted imports |
| Analyzer.TargetLists | src/analyzer/index.ts:30-58 | there is one target list per parsed file |
| Analyzer.BuildKeys | src/analyzer/index.ts:58 | the dependency map's keys are exactly the parsed files |
| Analyzer.BuildSucc | src/analyzer/index.ts:58 | with distinct paths, each file maps to its own target list |
| Analyzer.BuildLastWins | src/analyzer/index.ts:58 | with repeated paths, `Map.set` overwrites: a path's entry is the target list of its last occurrence |
| Analyzer.RepeatedPathKeepsFirstPosition | src/analyzer/index.ts:58 | files a, b, a give keys [a, b] (an overwritten key keeps its insertion position) with a mapped to the last a's targets |
| Analyzer.AdjacencyKeys | src/analyzer/index.ts:58 | every source file gets an entry in the dependency map, and nothing else does |
| Analyzer.AdjacencySucc | src/analyzer/index.ts:58 | with distinct paths, each file's entry is its set of resolved targets |
| Analyzer.Without | src/analyzer/index.ts:100-104 | the filter keeps exactly the files outside the excluded set |
| Analyzer.WithoutAppend | src/analyzer/index.ts:100-104 | filtering a concatenation is the concatenation of the filtered parts, so the filter keeps the input order |
| Analyzer.WithoutSnoc | src/analyzer/index.ts:100-104 | filtering a list with one more file appends that file exactly when it is not excluded |
| Analyzer.WithoutSingleton | src/analyzer/index.ts:100-104 | a lone file is kept exactly when it is not excluded |
| Analyzer.OrphansAlwaysEmpty | src/analyzer/index.ts:91-107 | every file is a key of the dependency map and so counts as referenced; `orphanedFiles` is always empty |
| Analyzer.UntouchedIsIntendedOrphan | src/analyzer/index.ts:91-107 | a file that is no edge's source or target is an orphan under the evident intent |
| Analyzer.OrphanNeverReported | src/analyzer/index.ts:91-107 | a file without edges in either direction is an intended orphan, yet it is never reported |
| Analyzer.EmptyAnalysis | test/unit/analyzer.test.ts:187-195 | empty input gives empty files, dependencies, orphans, cycles and entry points |
| Analyzer.HasEventAppend | src/analyzer/index.ts:30-56 | a pair occurs among two runs of imports exactly when it occurs in one of them |
| Analyzer.FileEventsTargets | src/analyzer/index.ts:35-39 | a file has an import for (s, t) exactly when it is s and t is in its target set |
| Analyzer.EventsOfFile | src/analyzer/index.ts:30-58 | an import for (s, t) occurs in the whole run exactly when s's target set holds t |
| Analyzer.AggregateHasEdge | src/analyzer/index.ts:41-54 | there is a dependency for a pair exactly when some import is for it |
| Analyzer.DependenciesWellFormed | src/analyzer/index.ts:38-54 | no dependency is a self-loop, and both ends of each are parsed files |
| Analyzer.AdjacencyMatchesDependencies | src/analyzer/index.ts:39-58 | t is in s's entry of the dependency map exactly when there is a dependency from s to t |
| Analyzer.EntryPointsAreUntargeted | src/analyzer/index.ts:146-154 | a file is an entry point exactly when it is a parsed file and no dependency targets it |
| Analyzer.CycleStepsAreDependencies | src/analyzer/index.ts:114-131 | each consecutive pair of a reported cycle is a dependency |
| Analyzer.AnalyzeImport | src/analyzer/index.ts:36-55 | one import either changes nothing (unresolved or a self-import) or adds its target to the file's set and records it in the dependency list |
| Analyzer.AnalyzeImports | src/analyzer/index.ts:33-56 | the inner loop leaves the file's target set and the dependency list folded over the file's imports |
| Analyzer.Analyze | src/analyzer/index.ts:23-74 | the result is the analysis of the parse results; its files are the input paths, its orphans are empty, and every reported cycle is a closed walk of the dependency map |
| DependencyGraph.Nodes | src/analyzer/index.ts:109-144 | every key of the map is a node of the search |
| DependencyGraph.SuccInNodes | src/analyzer/index.ts:119 | every target the search can step to is a node |
| DependencyGraph.IndexOf | src/analyzer/index.ts:125 | `path.indexOf` gives the first position of the node, and -1 exactly when it is not on the path |
| DependencyGraph.Visit | src/analyzer/index.ts:114-135 | a visit marks the node and never marks anything outside the graph |
| DependencyGraph.VisitAll | src/analyzer/index.ts:121-132 | the loop over a node's targets never unmarks a node and stays within the graph |
| DependencyGraph.SuffixClosesCycle | src/analyzer/index.ts:125-129 | a back edge to the k-th node of the current path closes a cycle from that node |
| DependencyGraph.RecordCycleKeepsCycles | src/analyzer/index.ts:124-130 | recording a back edge keeps every recorded cycle a closed walk |
| DependencyGraph.VisitKeepsCycles | src/analyzer/index.ts:114-135 | a visit restores the recursion stack and records only closed walks |
| DependencyGraph.VisitAllKeepsCycles | src/analyzer/index.ts:121-132 | the loop over targets keeps the recursion stack and records only closed walks |
| DependencyGraph.DetectFromKeepsCycles | src/analyzer/index.ts:137-141 | the outer loop over the map's keys records only closed walks |
| DependencyGraph.DetectedCyclesAreClosedWalks | src/analyzer/index.ts:114-131 | every reported cycle has at least two entries, the same first and last node, and each step an edge |
| DependencyGraph.RingShape | test/unit/analyzer.test.ts:80-108 | the three-file ring a, b, c has one target per file and exactly three nodes |
| DependencyGraph.RingVisitC | src/analyzer/index.ts:114-135 | visiting c on the path [a, b] records the cycle [a, b, c, a] |
| DependencyGraph.RingVisitB | src/analyzer/index.ts:114-135 | visiting b on the path [a] records the cycle [a, b, c, a] |
| DependencyGraph.RingVisitA | src/analyzer/index.ts:114-135 | visiting a from the empty path records the cycle [a, b, c, a] |
| DependencyGraph.TriangleHasOneCycle | src/analyzer/index.ts:109-141 | the ring a -> b -> c -> a yields exactly the one cycle [a, b, c, a] |
| AnalyzerScenarios.ResolvesToJs | src/analyzer/index.ts:76-89 | among files "/project/<stem>.js", the import "./<stem>" from "/project" resolves to "/project/<stem>.js", the fourth candidate, since none of the three earlier candidates is a file |
| AnalyzerScenarios.SingleImportEvents | src/analyzer/index.ts:30-39 | a file with the one import "./<target>" yields the one es6 import of "/project/<target>.js" |
| AnalyzerScenarios.OrphanScenario | src/analyzer/index.ts:91-107 | when x.js imports y.js and z.js imports nothing, z.js is an analysed file and an intended orphan, and the orphan list is empty |
| AnalyzerScenarios.OrphanTestAsWritten | test/unit/analyzer.test.ts:116-154 | on the test's three files (same paths and imports; the metrics, which the analysis ignores, differ), "/project/orphaned.js" is an intended orphan, while the analysis reports no orphan, contrary to the expectation at line 153 |
| AnalyzerScenarios.CycleAdjacency | src/analyzer/index.ts:58 | when x.js, y.js and z.js import each other in a ring, the dependency map is that ring, in file order |
| AnalyzerScenarios.CycleScenario | src/analyzer/index.ts:109-141 | the ring of three files yields exactly the one cycle x.js -> y.js -> z.js -> x.js |
| AnalyzerScenarios.CycleTestHasOneCycle | test/unit/analyzer.test.ts:76-113 | on the test's three files (same paths and imports; the metrics, which the analysis ignores, differ) the analysis reports exactly the cycle ["/project/a.js", "/project/b.js", "/project/c.js", "/project/a.js"], which the test only bounds below by 0 |
| DependencyGraph.CycleDetector.constructor | src/analyzer/index.ts:110-112 | the search starts with nothing visited, an empty recursion stack and no cycles |
| DependencyGraph.CycleDetector.Dfs | src/analyzer/index.ts:114-135 | the recursive `dfs` leaves the visited set, recursion stack and cycle list exactly as the specification's visit does |
| DependencyGraph.CycleDetector.Run | src/analyzer/index.ts:137-143 | the outer loop leaves exactly the specified cycle list |
| DependencyGraph.DetectCircularDependencies | src/analyzer/index.ts:109-144 | the reported cycles are the specified ones, and each is a closed walk of the map |
| Graph.NodeTypeOf | src/graph/index.ts:35-40 | the type is Orphaned exactly for orphaned files, Entry exactly for non-orphaned entry points, and File otherwise |
| Graph.NodeColor | src/graph/index.ts:111-123 | the orphan colour is used exactly for orphaned nodes and the entry colour exactly for entries; other nodes get the TypeScript colour exactly for .ts, the JavaScript colour exactly for .js, the React colour exactly for .tsx/.jsx and the default exactly for extensions outside the table |
| Graph.Run | src/graph/index.ts:99-106 | the loop's stopping index lies between its start and the number of components |
| Graph.FindCommonRoot | src/graph/index.ts:92-109 | the loop with its early break returns the specified common root |
| Graph.RunPrefixes | src/graph/index.ts:99-106 | every candidate before the stopping index is a prefix of every file |
| Graph.JoinPrefix | src/graph/index.ts:100 | a shorter candidate is a string prefix of a longer one |
| Graph.RunLength | src/graph/index.ts:99-106 | the root has at least as many components as candidates accepted, and the next candidate fails |
| Graph.RunStops | src/graph/index.ts:103-105 | the loop stops at the first candidate that is not a prefix of every file |
| Graph.CommonRootIsLongestPrefix | src/graph/index.ts:92-109 | for two or more files the root is a prefix of every file, and no longer candidate is |
| Graph.SplitUnderAB | src/graph/index.ts:96 | the components of "/a/b/<name>", for a name without '/', are "", "a", "b" and the name |
| Graph.ExampleRun | src/graph/index.ts:99-106 | for "/a/b/y.ts" and "/a/bc/x.ts" the loop accepts three components |
| Graph.CommonRootNotDirectory | src/graph/index.ts:101 | the test is a string prefix, not a path prefix: "/a/b/y.ts" and "/a/bc/x.ts" have common root "/a/b" |
| Graph.MapNodes | src/graph/index.ts:29-50 | one node is pushed per file |
| Graph.MapNodesAt | src/graph/index.ts:29-50 | the k-th node is the node of the k-th file |
| Graph.NodesOf | src/graph/index.ts:29-50 | there are as many nodes as files |
| Graph.NodesAt | src/graph/index.ts:29-50 | exactly one node per file, in file order, each with id the file, label its basename, path relative to the root, type, group and colour |
| Graph.CreateNodes | src/graph/index.ts:25-53 | the loop pushes exactly the specified nodes for the common root |
| Graph.FindNode | test/unit/graph.test.ts:64 | `nodes.find` by id returns a node with that id, and nothing exactly when no node has it |
| Graph.FindMapped | src/graph/index.ts:42-43 | when each node's id is its file, a lookup by file finds that file's node |
| Graph.FindFileNode | test/unit/graph.test.ts:64-65 | looking a file up among the nodes gives that file's node, with its type |
| Graph.GroupOfChild | src/graph/index.ts:47 | a file's group is its directory relative to the root ("." for the root itself) |
| Graph.SameDirectorySameGroup | test/unit/graph.test.ts:183 | two files in the same directory get the same group |
| Graph.SiblingOfFileRoot | src/graph/index.ts:30-47 | when the common root is a file d/x itself, that file's group is "." while a sibling d/y in the same directory gets group ".." |
| Graph.CommonRootOfPrefixFiles | src/graph/index.ts:92-109 | the common root of "/a/b/x.ts" and "/a/b/x.tsx" is the file "/a/b/x.ts" |
| Graph.PrefixFilesSplitGroups | test/unit/graph.test.ts:183 | the two files "/a/b/x.ts" and "/a/b/x.tsx" share a directory yet get the groups "." and ".." |
| Graph.EdgeTypeOf | src/graph/index.ts:59-67 | the edge type is Dynamic exactly for "dynamic", Require exactly for "commonjs", TypeOnly exactly for "type-only", and Import otherwise; never Export |
| Graph.EdgeTypeOfImportTag | src/graph/index.ts:59-67 | distinct import types map to distinct edge types, with "es6" mapping to Import |
| Graph.EdgesOf | src/graph/index.ts:58-76 | one edge is pushed per dependency |
| Graph.EdgesAt | src/graph/index.ts:58-76 | exactly one edge per dependency, in order, with id source + "-" + target, the same ends, its type and its count as weight |
| Graph.CreateEdges | src/graph/index.ts:55-79 | the loop pushes exactly the specified edges |
| Graph.EdgeIdInjective | src/graph/index.ts:70 | when sources contain no "-", equal edge ids mean equal ends |
| Graph.EdgeIdCollision | src/graph/index.ts:70 | with a "-" in a path two different pairs share an id |
| Graph.EdgeIdsDistinct | src/graph/index.ts:70 | unique pairs whose sources contain no "-" give distinct edge ids |
| Graph.Generate | src/graph/index.ts:9-23 | the graph is the specified nodes, edges and metadata |
| Graph.MetadataMatchesGraph | src/graph/index.ts:81-90 | the metadata counts the graph's nodes and edges, and its workspace path is the common root |
| Graph.EmptyGraph | test/unit/graph.test.ts:160-162 | an empty analysis gives no nodes, no edges and zero counts, with "" as the workspace path |
| Cache.FileHash | src/utils/cache.ts:94-101 | a readable file hashes to the digest of its content, and an unreadable one to "" |
| Cache.Unexpired | src/utils/cache.ts:44-51 | exactly the entries with age at most `maxAge` are kept, unchanged |
| Cache.Lookup | src/utils/cache.ts:53-76 | a hit exactly when caching is on, the entry exists, its hash is current and it is at most an hour old; a hit returns the data and changes nothing; a miss evicts the entry exactly when it exists and caching is on |
| Cache.CacheManager.constructor | src/utils/cache.ts:16-32 | the map starts as the stored snapshot less expired entries when caching is on and a snapshot exists, and empty otherwise |
| Cache.CacheManager.SaveCache | src/utils/cache.ts:34-42 | the snapshot becomes the map when caching is on, and is left alone otherwise |
| Cache.CacheManager.CleanExpired | src/utils/cache.ts:44-51 | the deletion loop leaves exactly the unexpired entries and does not write the snapshot |
| Cache.CacheManager.Get | src/utils/cache.ts:53-76 | returns and leaves behind what the lookup specifies, for the file's current hash |
| Cache.CacheManager.Set | src/utils/cache.ts:78-92 | with caching on, the entry becomes {current hash, data, now}, other keys are unchanged and the snapshot is written; with caching off nothing changes |
| Cache.CacheManager.Invalidate | src/utils/cache.ts:103-106 | only that key is removed, and the snapshot is written when caching is on |
| Cache.CacheManager.Clear | src/utils/cache.ts:108-111 | the map and the snapshot are both emptied |
| Cache.CacheManager.EntryCount | src/utils/cache.ts:113-118 | `entries` is the number of keys |
| Cache.SetThenGet | src/utils/cache.ts:78-92 | a record just stored is returned while the file is unchanged and at most an hour old |
| Cache.ChangedContentMisses | src/utils/cache.ts:64-68 | after the content changes to one with another digest, the entry misses and is evicted |
| Cache.ExpiryBoundary | src/utils/cache.ts:70-73 | an entry exactly `maxAge` old still hits; one millisecond older, it misses and is evicted |
| Cache.DisabledMisses | src/utils/cache.ts:54-57 | with caching off `get` misses and changes nothing |
| Cache.UnreadableFileHits | src/utils/cache.ts:94-101 | an unreadable file hashes to "", so an entry stored while it was unreadable keeps hitting |
| Cache.CleanExpiredInvisible | src/utils/cache.ts:44-51 | cleaning expired entries first does not change what `get` returns at the same time |
| Cache.LookupIdempotent | src/utils/cache.ts:53-76 | a second `get` right after the first returns the same and leaves the same map |
| Strings.ContainsIff | src/parser/index.ts:93 | `includes` holds exactly when the pattern occurs at some position |
| Strings.Trim | src/parser/index.ts:105 | the trimmed line is empty exactly when the line is all whitespace |
| Strings.SplitCount | src/parser/index.ts:104 | splitting at '\n' gives one more line than there are newlines |
| Strings.JoinSplit | src/graph/index.ts:96-100 | joining all the pieces of a split with the separator gives back the string, so the longest candidate root is the first file itself |
| Paths.ResolveDotSegment | src/analyzer/index.ts:81 | resolving "./x" against a directory appends the segment x to the directory's canonical segments |
| Paths.ExtnameChild | src/parser/index.ts:80 | the extension of an entry's full path is that of its name |
| Parser.ShouldExcludeIff | src/parser/index.ts:91-95 | a path is excluded exactly when some pattern occurs in it |
| Parser.EntriesFilesSnoc | src/parser/index.ts:68-84 | the walk over one more entry appends that entry's files |
| Parser.FileEntryQualifies | src/parser/index.ts:78-83 | a file entry that is not excluded contributes only a path with a source extension |
| Parser.EntryFilesQualify | src/parser/index.ts:68-83 | every file collected from an entry has a source extension and is not excluded |
| Parser.EntriesFilesQualify | src/parser/index.ts:65-84 | every file collected from a directory's entries has a source extension and is not excluded |
| Parser.AllQualify | src/parser/index.ts:91-95 | a file the exclusion test passes matches none of the patterns |
| Parser.SourceFilesQualify | src/parser/index.ts:61-89 | every discovered file has one of the five source extensions and no exclude pattern occurs in its workspace-relative path |
| Parser.ExcludedEntryIsSkipped | src/parser/index.ts:72-74 | an excluded entry contributes nothing; an excluded directory is not descended into |
| Parser.Walk | src/parser/index.ts:65-84 | the `walk` loop appends exactly the files specified for the directory's entries, in order |
| Parser.WalkEntry | src/parser/index.ts:68-83 | one entry appends exactly its specified files |
| Parser.Parser.FindSourceFiles | src/parser/index.ts:61-89 | the walk from the workspace root returns exactly the specified source files |
| Parser.ImportsShape | src/parser/index.ts:125-170 | one ES6 record per import declaration, with the declaration's module and its specifiers named first in order, then default, then namespace |
| Parser.NamedCount | src/parser/index.ts:175-188 | counts the names the export declarations list |
| Parser.NamedExportsCount | src/parser/index.ts:175-188 | there is one export per exported name, and all are Named |
| Parser.NamedExportAt | src/parser/index.ts:175-188 | the j-th name of the i-th export declaration sits at position (names of earlier declarations) + j, with that name, the declaration's module specifier and its line and column |
| Parser.NamedExportsShape | src/parser/index.ts:175-188 | the named exports are exactly the declarations' names, declaration by declaration and name by name, each with its declaration's specifier and position |
| Parser.ExportsShape | src/parser/index.ts:172-200 | the exports are the named ones, placed as `NamedExportsShape` states, followed by one "default" export per export assignment, in order, with that assignment's line and column |
| Parser.CountCode | src/parser/index.ts:105 | the lines of code are at most the number of lines |
| Parser.NoCodeLines | src/parser/index.ts:105 | a file with only blank or `//` lines has no lines of code |
| Parser.LineTotals | src/parser/index.ts:104-117 | lines of code and comment lines add up to the number of '\n'-separated lines |
| Parser.ParsedRecord | src/parser/index.ts:97-123 | a parse succeeds exactly on a readable file the front end accepts; its record carries the path, import and export counts equal to the list lengths, complexity 1 and line counts adding up to the file's lines |
| Parser.StopIndex | src/parser/index.ts:37-40 | the loop stops at the first position where cancellation is requested, and nothing before it was cancelled |
| Parser.CacheHitSkipsParse | src/parser/index.ts:42-46 | a cache hit appends the cached record, with no parse and no write to the cache |
| Parser.FailureDropsFile | src/parser/index.ts:48-54 | a miss whose parse fails appends nothing and caches nothing |
| Parser.StepAppendsAtMostOne | src/parser/index.ts:42-54 | one file appends at most one record and keeps the earlier ones |
| Parser.AtMostOnePerFile | src/parser/index.ts:37-55 | each file adds at most one record, and earlier records never change |
| Parser.StepKeepsSound | src/parser/index.ts:42-54 | from a sound cache, one file appends exactly its fresh parse (if any) and keeps the cache sound |
| Parser.CacheIsTransparent | src/parser/index.ts:37-55 | from a sound cache the loop yields exactly what parsing every file afresh yields |
| Parser.UnreadableFilesGiveNothing | test/unit/parser.test.ts:95-106 | files that cannot be read give no records |
| Parser.Parser.constructor | src/parser/index.ts:13-26 | the parser keeps the cache; its exclude patterns are the configured ones, or the defaults when the setting is absent |
| Parser.DefaultExcludesIff | src/parser/index.ts:24-25 | with the setting absent, a path is excluded exactly when it contains "node_modules", "dist" or "build" |
| Parser.Parser.ParseWorkspace | src/parser/index.ts:28-59 | the results and the cache's map and snapshot are those of the per-file steps over the discovered files, up to the first cancelled position |
| Parser.Parser.ParseFiles | src/parser/index.ts:37-55 | the loop with its cancellation break performs exactly the per-file steps before the first cancelled position |
| Parser.Parser.ProcessFile | src/parser/index.ts:42-54 | one iteration leaves the results, map and snapshot the specified step gives |

## Left out

- The webview, D3 layout, panel, commands, extension activation and logger are UI or VS Code glue with no effect on the analysis; they are not part of this model.
- The ts-morph front end is a parameter `syntax` from a path and its content to the file's import and export declarations. `None` stands for a file the front end rejects; the declaration getters themselves are not modelled.
- SHA-256 is an uninterpreted `digest` function of a file's content. The file system is a map from path to content, and an absent path is unreadable. `Date.now()` is a `now` parameter, held fixed for one run, and `cacheEnabled` is a parameter.
- The global state is a ghost snapshot field `stored`. `getStats`' `size`, the length of the JSON serialisation, is not modelled; only `entries` is.
- Asynchrony is not modelled, since the pipeline awaits each step in turn. The cancellation token is a predicate `cancelled(i)` saying whether cancellation is requested when the loop reaches the i-th file.
- `readdir` is a directory tree value, and read errors of `readdir` are not modelled. `path.join(dir, name)` is `dir + "/" + name`.
- `Parser.Walk`: the exclusion test is passed in as the function `excluded` over full paths. `findSourceFiles` builds it from `path.relative` and `shouldExclude`, and `Parser.SourceFilesQualify` states the resulting property in those terms.
- Paths are POSIX strings, and the working directory is taken as "/". `dirname`, `basename` and `extname` ignore Node's special cases for roots written with "//" and for names made only of dots.
- The whitespace set of `trim` covers the common ASCII and Unicode spaces, not every Unicode space separator.
- `Strings.Trim`: its contract states emptiness and the end characters, not the exact slice taken.
- The lists `functions`, `classes`, `variables` and `errors` of a parse result are always empty in the source and are left out of the record.
- The metadata's `timestamp` (src/graph/index.ts:87) is a parameter instead of the current ISO date.
- Analyzer.AdjacencySucc: is stated for distinct file paths only. The `Map.set` overwrite itself is modelled by `SetSucc`: a repeated path keeps its first key position and takes the last file's targets (`Analyzer.BuildLastWins`, `Analyzer.RepeatedPathKeepsFirstPosition`). `findSourceFiles` yields distinct paths anyway.
- Analyzer.AdjacencyMatchesDependencies: is stated for distinct file paths only, because a repeated path's entry holds only the last file's targets; with a repeated path an earlier file's edges can be in the dependency list yet missing from the map.
- Analyzer.EntryPointsAreUntargeted: is stated for distinct file paths only, because a repeated path's entry holds only the last file's targets.
- Analyzer.CycleStepsAreDependencies: is stated for distinct file paths only, because a repeated path's entry holds only the last file's targets.
- Graph.GroupOfChild: assumes the common root is a segment ancestor of the file's directory. `Graph.CommonRootNotDirectory` shows that the string-prefix root need not be one.
- Graph.EdgeIdsDistinct: assumes no source path contains "-". `Graph.EdgeIdCollision` shows two pairs sharing an id otherwise.
- The orphan computation and the cycle test are modelled as written, not corrected. `Analyzer.OrphansAlwaysEmpty` and `AnalyzerScenarios.OrphanTestAsWritten` record the first, and `AnalyzerScenarios.CycleTestHasOneCycle` the second.
- Graph.SameDirectorySameGroup: needs the common root to be a directory (a segment ancestor of the files). The graph test at test/unit/graph.test.ts:183 expects siblings to share a group, but `Graph.PrefixFilesSplitGroups` shows two siblings whose string-prefix root is one of the files, and they get different groups.
