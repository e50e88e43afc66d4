/**
 * The dependency analyzer (src/analyzer/index.ts): resolves each relative
 * import of each parsed file against the known files, folds repeated
 * imports into one counted edge per (source, target) pair, builds the
 * adjacency map, and derives orphans, cycles and entry points from it.
 *
 * The specification is a stream of edge events (one per import that
 * resolves to a known file other than its own) folded by `Record`; the
 * method `Analyze` performs the source's nested loop and is proved to
 * compute `AnalysisOf`.
 */
module Analyzer {
  import opened Wrappers
  import opened Strings
  import opened Paths
  import opened ParserTypes
  import opened DependencyGraph

  /** `IDependency`: `kind` is the import type string of the first import seen for the pair. */
  datatype Dependency = Dependency(source: string, target: string, kind: string, count: nat)

  /** `IAnalysisResult` */
  datatype AnalysisResult = AnalysisResult(
    dependencies: seq<Dependency>,
    files: seq<string>,
    orphanedFiles: seq<string>,
    circularDependencies: seq<seq<string>>,
    entryPoints: seq<string>)

  predicate Distinct(xs: seq<string>) {
    forall i, j :: 0 <= i < j < |xs| ==> xs[i] != xs[j]
  }

  // ---------------------------------------------------------------------------
  // Import resolution
  // ---------------------------------------------------------------------------

  /** The suffixes tried, in order, when resolving a relative specifier. */
  const Suffixes: seq<string> :=
    ["", ".ts", ".tsx", ".js", ".jsx", "/index.ts", "/index.tsx", "/index.js", "/index.jsx"]

  /** The `i`-th path tried for `spec` imported from directory `dir`. */
  function Candidate(spec: string, dir: string, i: nat): string
    requires i < |Suffixes|
  {
    Resolve(dir, spec + Suffixes[i])
  }

  /** Index of the first candidate from `i` on that is a known file. */
  function FirstMatch(spec: string, dir: string, files: seq<string>, i: nat): (r: Option<nat>)
    requires i <= |Suffixes|
    ensures r.Some? ==> i <= r.value < |Suffixes| && Candidate(spec, dir, r.value) in files
    ensures r.Some? ==> forall j :: i <= j < r.value ==> Candidate(spec, dir, j) !in files
    ensures r.None? ==> forall j :: i <= j < |Suffixes| ==> Candidate(spec, dir, j) !in files
    decreases |Suffixes| - i
  {
    if i == |Suffixes| then None
    else if Candidate(spec, dir, i) in files then Some(i)
    else FirstMatch(spec, dir, files, i + 1)
  }

  /**
   * `resolveImportPath`: only specifiers starting with "." resolve, and then
   * to the first candidate that is a known file.
   */
  function ResolveImportPath(spec: string, dir: string, files: seq<string>): (r: Option<string>)
    ensures !StartsWith(spec, ".") ==> r.None?
    ensures r.Some? ==> r.value in files
    ensures r.Some? ==> exists i :: 0 <= i < |Suffixes| && r.value == Candidate(spec, dir, i)
                                   && forall j :: 0 <= j < i ==> Candidate(spec, dir, j) !in files
    ensures r.None? && StartsWith(spec, ".") ==>
              forall i :: 0 <= i < |Suffixes| ==> Candidate(spec, dir, i) !in files
  {
    if StartsWith(spec, ".") then
      match FirstMatch(spec, dir, files, 0)
      case Some(i) => Some(Candidate(spec, dir, i))
      case None => None
    else None
  }

  // ---------------------------------------------------------------------------
  // Edge events
  // ---------------------------------------------------------------------------

  /** One import of `source` that resolved to the known file `target`. */
  datatype Event = Event(source: string, target: string, kind: string)

  /**
   * The event an import of `src` (whose directory is `dir`) produces: none
   * when it does not resolve or resolves to its own file.
   */
  function ImportEvent(src: string, dir: string, imp: ImportRecord, files: seq<string>): Option<Event> {
    var resolved := ResolveImportPath(imp.source, dir, files);
    if resolved.Some? && resolved.value != src then Some(Event(src, resolved.value, ImportTag(imp.kind)))
    else None
  }

  /** The events of the imports of one file, in import order. */
  function ImportEvents(src: string, dir: string, imps: seq<ImportRecord>, files: seq<string>): (r: seq<Event>)
    ensures |r| <= |imps|
    ensures forall k :: 0 <= k < |r| ==> r[k].source == src && r[k].target != src && r[k].target in files
  {
    if imps == [] then []
    else
      var e := ImportEvent(src, dir, imps[|imps| - 1], files);
      ImportEvents(src, dir, imps[..|imps| - 1], files) + (if e.Some? then [e.value] else [])
  }

  /** `parseResults.map(r => r.filePath)` */
  function FilePaths(prs: seq<ParseResult>): (r: seq<string>)
    ensures |r| == |prs| && forall k :: 0 <= k < |prs| ==> r[k] == prs[k].filePath
  {
    seq(|prs|, k requires 0 <= k < |prs| => prs[k].filePath)
  }

  /** The events of one parsed file. */
  function FileEvents(pr: ParseResult, files: seq<string>): seq<Event> {
    ImportEvents(pr.filePath, Dirname(pr.filePath), pr.imports, files)
  }

  /** The events of all files, file by file. */
  function Events(prs: seq<ParseResult>, files: seq<string>): seq<Event> {
    if prs == [] then [] else Events(prs[..|prs| - 1], files) + FileEvents(prs[|prs| - 1], files)
  }

  lemma FilePathsSnoc(prs: seq<ParseResult>)
    requires prs != []
    ensures FilePaths(prs) == FilePaths(prs[..|prs| - 1]) + [prs[|prs| - 1].filePath]
  {
  }

  /** Each event is an import of a parsed file that resolved to a different known file. */
  lemma {:induction false} EventsWellFormed(prs: seq<ParseResult>, files: seq<string>)
    ensures forall e :: e in Events(prs, files) ==> e.source != e.target && e.target in files && e.source in FilePaths(prs)
  {
    if prs != [] {
      var init := prs[..|prs| - 1];
      EventsWellFormed(init, files);
      FilePathsSnoc(prs);
      var last := FileEvents(prs[|prs| - 1], files);
      forall e | e in last ensures e.source != e.target && e.target in files && e.source in FilePaths(prs) {
        var k :| 0 <= k < |last| && last[k] == e;
      }
    }
  }

  // ---------------------------------------------------------------------------
  // Folding events into dependencies
  // ---------------------------------------------------------------------------

  predicate Matches(d: Dependency, s: string, t: string) {
    d.source == s && d.target == t
  }

  /** `dependencies.find(d => d.source === s && d.target === t)`, as an index (-1 when absent). */
  function FindEdge(deps: seq<Dependency>, s: string, t: string, i: nat): (r: int)
    requires i <= |deps|
    ensures r == -1 || i <= r < |deps|
    ensures r >= 0 ==> Matches(deps[r], s, t) && forall k :: i <= k < r ==> !Matches(deps[k], s, t)
    ensures r == -1 ==> forall k :: i <= k < |deps| ==> !Matches(deps[k], s, t)
    decreases |deps| - i
  {
    if i == |deps| then -1
    else if Matches(deps[i], s, t) then i
    else FindEdge(deps, s, t, i + 1)
  }

  /** One event: bump the count of its pair's edge, or append a new edge with count 1. */
  function Record(deps: seq<Dependency>, e: Event): seq<Dependency> {
    var k := FindEdge(deps, e.source, e.target, 0);
    if k >= 0 then deps[k := deps[k].(count := deps[k].count + 1)]
    else deps + [Dependency(e.source, e.target, e.kind, 1)]
  }

  /** `deps` after the events `evs`, in order. */
  function RecordAll(deps: seq<Dependency>, evs: seq<Event>): seq<Dependency> {
    if evs == [] then deps else Record(RecordAll(deps, evs[..|evs| - 1]), evs[|evs| - 1])
  }

  /** The dependency list after all events. */
  function Aggregate(evs: seq<Event>): seq<Dependency> {
    RecordAll([], evs)
  }

  /** Folding two runs of events one after the other is folding their concatenation. */
  lemma {:induction false} RecordAllAppend(deps: seq<Dependency>, a: seq<Event>, b: seq<Event>)
    ensures RecordAll(deps, a + b) == RecordAll(RecordAll(deps, a), b)
  {
    if b == [] {
      assert a + b == a;
    } else {
      var n := |b| - 1;
      RecordAllAppend(deps, a, b[..n]);
      assert (a + b)[..|a + b| - 1] == a + b[..n];
    }
  }

  predicate IsPair(e: Event, s: string, t: string) {
    e.source == s && e.target == t
  }

  /** Number of events for the pair (s, t). */
  function CountPair(evs: seq<Event>, s: string, t: string): nat {
    if evs == [] then 0
    else CountPair(evs[..|evs| - 1], s, t) + (if IsPair(evs[|evs| - 1], s, t) then 1 else 0)
  }

  /** The kind of the first event for the pair (s, t), or "" when there is none. */
  function FirstKind(evs: seq<Event>, s: string, t: string): string {
    if evs == [] then ""
    else if CountPair(evs[..|evs| - 1], s, t) > 0 then FirstKind(evs[..|evs| - 1], s, t)
    else if IsPair(evs[|evs| - 1], s, t) then evs[|evs| - 1].kind
    else ""
  }

  /** A pair has a positive count exactly when one of the events is for it. */
  lemma {:induction false} CountPairPositive(evs: seq<Event>, s: string, t: string)
    ensures CountPair(evs, s, t) > 0 <==> exists k :: 0 <= k < |evs| && IsPair(evs[k], s, t)
  {
    if evs != [] {
      var init := evs[..|evs| - 1];
      CountPairPositive(init, s, t);
      assert forall k :: 0 <= k < |init| ==> init[k] == evs[k];
    }
  }

  /** `FirstKind` is the kind of the earliest event for the pair. */
  lemma {:induction false} FirstKindIsFirst(evs: seq<Event>, s: string, t: string)
    requires CountPair(evs, s, t) > 0
    ensures exists k :: 0 <= k < |evs| && IsPair(evs[k], s, t) && evs[k].kind == FirstKind(evs, s, t)
                        && forall j :: 0 <= j < k ==> !IsPair(evs[j], s, t)
  {
    var init := evs[..|evs| - 1];
    assert forall k :: 0 <= k < |init| ==> init[k] == evs[k];
    if CountPair(init, s, t) > 0 {
      FirstKindIsFirst(init, s, t);
      var k :| 0 <= k < |init| && IsPair(init[k], s, t) && init[k].kind == FirstKind(init, s, t)
               && forall j :: 0 <= j < k ==> !IsPair(init[j], s, t);
      assert IsPair(evs[k], s, t);
    } else {
      CountPairPositive(init, s, t);
      assert IsPair(evs[|evs| - 1], s, t);
    }
  }

  /** No two edges share a pair. */
  predicate UniquePairs(deps: seq<Dependency>) {
    forall i, j :: 0 <= i < j < |deps| ==> !Matches(deps[j], deps[i].source, deps[i].target)
  }

  /** Each edge carries its pair's event count (at least one) and the kind of the pair's first event. */
  predicate CountsAndKinds(deps: seq<Dependency>, evs: seq<Event>) {
    forall i :: 0 <= i < |deps| ==>
      deps[i].count == CountPair(evs, deps[i].source, deps[i].target) && deps[i].count > 0
      && deps[i].kind == FirstKind(evs, deps[i].source, deps[i].target)
  }

  /** Every event's pair has an edge. */
  predicate Covers(deps: seq<Dependency>, evs: seq<Event>) {
    forall k :: 0 <= k < |evs| ==> FindEdge(deps, evs[k].source, evs[k].target, 0) >= 0
  }

  /**
   * What the dependency list says about the event stream: one edge per
   * pair, every pair that occurs has an edge, and each edge carries the
   * pair's number of events and the kind of its first event.
   */
  predicate Summarises(deps: seq<Dependency>, evs: seq<Event>) {
    UniquePairs(deps) && CountsAndKinds(deps, evs) && Covers(deps, evs)
  }

  lemma RecordUnique(deps: seq<Dependency>, e: Event)
    requires UniquePairs(deps)
    ensures UniquePairs(Record(deps, e))
  {
    var k := FindEdge(deps, e.source, e.target, 0);
    var deps' := Record(deps, e);
    if k < 0 {
      forall i, j | 0 <= i < j < |deps'| ensures !Matches(deps'[j], deps'[i].source, deps'[i].target) {
        if j == |deps| {
          assert !Matches(deps[i], e.source, e.target);
        }
      }
    }
  }

  lemma RecordCountsAndKinds(deps: seq<Dependency>, evs: seq<Event>, e: Event)
    requires UniquePairs(deps) && CountsAndKinds(deps, evs) && Covers(deps, evs)
    ensures CountsAndKinds(Record(deps, e), evs + [e])
  {
    var evs' := evs + [e];
    assert evs'[..|evs|] == evs;
    var deps' := Record(deps, e);
    var k := FindEdge(deps, e.source, e.target, 0);
    if k >= 0 {
      forall i | 0 <= i < |deps'|
        ensures deps'[i].count == CountPair(evs', deps'[i].source, deps'[i].target) && deps'[i].count > 0
        ensures deps'[i].kind == FirstKind(evs', deps'[i].source, deps'[i].target)
      {
        if i != k {
          assert deps'[i] == deps[i];
          if i > k {
            assert !Matches(deps[i], deps[k].source, deps[k].target);
          }
        }
      }
    } else {
      assert CountPair(evs, e.source, e.target) == 0 by {
        forall j | 0 <= j < |evs| ensures !IsPair(evs[j], e.source, e.target) {
          assert FindEdge(deps, evs[j].source, evs[j].target, 0) >= 0;
        }
        CountPairPositive(evs, e.source, e.target);
      }
      forall i | 0 <= i < |deps'|
        ensures deps'[i].count == CountPair(evs', deps'[i].source, deps'[i].target) && deps'[i].count > 0
        ensures deps'[i].kind == FirstKind(evs', deps'[i].source, deps'[i].target)
      {
        if i < |deps| {
          assert deps'[i] == deps[i];
        }
      }
    }
  }

  lemma RecordCovers(deps: seq<Dependency>, evs: seq<Event>, e: Event)
    requires Covers(deps, evs)
    ensures Covers(Record(deps, e), evs + [e])
  {
    var evs' := evs + [e];
    var deps' := Record(deps, e);
    var k := FindEdge(deps, e.source, e.target, 0);
    forall j | 0 <= j < |evs'| ensures FindEdge(deps', evs'[j].source, evs'[j].target, 0) >= 0 {
      if j < |evs| {
        assert evs'[j] == evs[j];
        var i := FindEdge(deps, evs[j].source, evs[j].target, 0);
        assert Matches(deps'[i], evs'[j].source, evs'[j].target);
      } else if k >= 0 {
        assert Matches(deps'[k], evs'[j].source, evs'[j].target);
      } else {
        assert Matches(deps'[|deps|], evs'[j].source, evs'[j].target);
      }
    }
  }

  /** The fold keeps one edge per pair, with its event count and the kind of its first event. */
  lemma {:induction false} AggregateSummarises(evs: seq<Event>)
    ensures Summarises(Aggregate(evs), evs)
  {
    if evs != [] {
      var init := evs[..|evs| - 1];
      var e := evs[|evs| - 1];
      AggregateSummarises(init);
      assert init + [e] == evs;
      RecordUnique(Aggregate(init), e);
      RecordCountsAndKinds(Aggregate(init), init, e);
      RecordCovers(Aggregate(init), init, e);
    }
  }

  function SumCounts(deps: seq<Dependency>): nat {
    if deps == [] then 0 else SumCounts(deps[..|deps| - 1]) + deps[|deps| - 1].count
  }

  lemma {:induction false} SumCountsUpdate(deps: seq<Dependency>, k: nat, d: Dependency)
    requires k < |deps|
    ensures SumCounts(deps[k := d]) + deps[k].count == SumCounts(deps) + d.count
    decreases |deps|
  {
    var n := |deps| - 1;
    var deps' := deps[k := d];
    if k < n {
      assert deps'[..n] == deps[..n][k := d];
      SumCountsUpdate(deps[..n], k, d);
    } else {
      assert deps'[..n] == deps[..n];
    }
  }

  /** The counts add up to the number of events: every counted import is counted once. */
  lemma {:induction false} AggregateSum(evs: seq<Event>)
    ensures SumCounts(Aggregate(evs)) == |evs|
  {
    if evs != [] {
      var init := evs[..|evs| - 1];
      var e := evs[|evs| - 1];
      var deps := Aggregate(init);
      AggregateSum(init);
      var k := FindEdge(deps, e.source, e.target, 0);
      if k >= 0 {
        SumCountsUpdate(deps, k, deps[k].(count := deps[k].count + 1));
      } else {
        var deps' := deps + [Dependency(e.source, e.target, e.kind, 1)];
        assert deps'[..|deps|] == deps;
      }
    }
  }

  // ---------------------------------------------------------------------------
  // The adjacency map
  // ---------------------------------------------------------------------------

  /** `deps.add(t)` on an insertion-ordered set. */
  function AddTarget(ts: seq<string>, t: string): seq<string> {
    if t in ts then ts else ts + [t]
  }

  /** The set of targets of some events, in first-insertion order. */
  function Targets(evs: seq<Event>): (r: seq<string>)
    ensures Distinct(r)
    ensures forall t :: t in r <==> exists k :: 0 <= k < |evs| && evs[k].target == t
  {
    if evs == [] then []
    else
      var init := evs[..|evs| - 1];
      assert forall k :: 0 <= k < |evs| - 1 ==> init[k] == evs[k];
      AddTarget(Targets(init), evs[|evs| - 1].target)
  }

  /** `dependencyMap.set(k, ts)`: an existing key keeps its position. */
  function SetSucc(g: DependencyMap, k: string, ts: seq<string>): DependencyMap {
    DependencyMap(if k in g.succ then g.keys else g.keys + [k], g.succ[k := ts])
  }

  /** The targets of one parsed file, as `deps` holds them after its inner loop. */
  function FileTargets(pr: ParseResult, files: seq<string>): seq<string> {
    Targets(FileEvents(pr, files))
  }

  /** The target list of each file, file by file. */
  function TargetLists(prs: seq<ParseResult>, files: seq<string>): (r: seq<seq<string>>)
    ensures |r| == |prs|
  {
    if prs == [] then [] else TargetLists(prs[..|prs| - 1], files) + [FileTargets(prs[|prs| - 1], files)]
  }

  /** The map after `set(paths[k], lists[k])` for each k in order. */
  function Build(paths: seq<string>, lists: seq<seq<string>>): DependencyMap
    requires |paths| == |lists|
  {
    if paths == [] then DependencyMap([], map[])
    else SetSucc(Build(paths[..|paths| - 1], lists[..|lists| - 1]), paths[|paths| - 1], lists[|lists| - 1])
  }

  /** The adjacency map after the given files. */
  function Adjacency(prs: seq<ParseResult>, files: seq<string>): DependencyMap {
    Build(FilePaths(prs), TargetLists(prs, files))
  }

  /** Every path, and nothing else, is a key of the built map. */
  lemma {:induction false} BuildKeys(paths: seq<string>, lists: seq<seq<string>>)
    requires |paths| == |lists|
    ensures forall x :: x in Build(paths, lists).succ <==> x in paths
  {
    if paths != [] {
      var n := |paths| - 1;
      BuildKeys(paths[..n], lists[..n]);
      assert paths == paths[..n] + [paths[n]];
    }
  }

  /** With distinct paths, each path's entry is its own list. */
  lemma {:induction false} BuildSucc(paths: seq<string>, lists: seq<seq<string>>)
    requires |paths| == |lists| && Distinct(paths)
    ensures forall k :: 0 <= k < |paths| ==> Succ(Build(paths, lists), paths[k]) == lists[k]
  {
    if paths != [] {
      var n := |paths| - 1;
      BuildSucc(paths[..n], lists[..n]);
      forall k | 0 <= k < n ensures Succ(Build(paths, lists), paths[k]) == lists[k] {
        assert paths[..n][k] == paths[k] && lists[..n][k] == lists[k];
      }
    }
  }

  /**
   * With repeated paths the last write wins: a path's entry is the list of its
   * last occurrence, as with `Map.set` on an existing key.
   */
  lemma {:induction false} BuildLastWins(paths: seq<string>, lists: seq<seq<string>>)
    requires |paths| == |lists|
    ensures forall k :: 0 <= k < |paths| && paths[k] !in paths[k + 1..] ==> Succ(Build(paths, lists), paths[k]) == lists[k]
  {
    if paths != [] {
      var n := |paths| - 1;
      BuildLastWins(paths[..n], lists[..n]);
      forall k | 0 <= k < n && paths[k] !in paths[k + 1..] ensures Succ(Build(paths, lists), paths[k]) == lists[k] {
        assert paths[n] in paths[k + 1..];
        assert paths[..n][k] == paths[k] && lists[..n][k] == lists[k];
        assert paths[..n][k + 1..] == paths[k + 1..n];
      }
    }
  }

  /** A path seen twice keeps the key position of its first occurrence and the list of its last. */
  lemma RepeatedPathKeepsFirstPosition(a: string, b: string, l1: seq<string>, l2: seq<string>, l3: seq<string>)
    requires a != b
    ensures Build([a, b, a], [l1, l2, l3]) == DependencyMap([a, b], map[a := l3, b := l2])
  {
    assert [a, b, a][..2] == [a, b] && [l1, l2, l3][..2] == [l1, l2];
    assert [a, b][..1] == [a] && [l1, l2][..1] == [l1];
    assert Build([a], [l1]) == DependencyMap([a], map[a := l1]);
    assert Build([a, b], [l1, l2]) == DependencyMap([a, b], map[a := l1][b := l2]);
    assert map[a := l1][b := l2][a := l3] == map[a := l3, b := l2];
  }

  /** Every analysed file, and nothing else, is a key of the adjacency map. */
  lemma AdjacencyKeys(prs: seq<ParseResult>, files: seq<string>)
    ensures forall x :: x in Adjacency(prs, files).succ <==> x in FilePaths(prs)
  {
    BuildKeys(FilePaths(prs), TargetLists(prs, files));
  }

  /** With distinct paths, each file's entry holds exactly that file's targets. */
  lemma AdjacencySucc(prs: seq<ParseResult>, files: seq<string>)
    requires Distinct(FilePaths(prs))
    ensures forall k :: 0 <= k < |prs| ==> Succ(Adjacency(prs, files), prs[k].filePath) == TargetLists(prs, files)[k]
  {
    BuildSucc(FilePaths(prs), TargetLists(prs, files));
  }

  // ---------------------------------------------------------------------------
  // Orphans, entry points, the whole analysis
  // ---------------------------------------------------------------------------

  /** `xs` filtered, order preserved, to the elements outside `out`. */
  function Without(xs: seq<string>, out: set<string>): (r: seq<string>)
    ensures |r| <= |xs|
    ensures forall x :: x in r <==> x in xs && x !in out
    ensures (forall x :: x in xs ==> x in out) ==> r == []
  {
    if xs == [] then []
    else
      var init := xs[..|xs| - 1];
      assert xs == init + [xs[|xs| - 1]];
      Without(init, out) + (if xs[|xs| - 1] in out then [] else [xs[|xs| - 1]])
  }

  /** The filter keeps a single element exactly when it is outside `out`. */
  lemma WithoutSingleton(x: string, out: set<string>)
    ensures Without([x], out) == if x in out then [] else [x]
  {
    WithoutSnoc([], x, out);
    assert [] + [x] == [x];
  }

  /** Appending one element appends it to the filtered list exactly when it is outside `out`. */
  lemma WithoutSnoc(xs: seq<string>, x: string, out: set<string>)
    ensures Without(xs + [x], out) == Without(xs, out) + (if x in out then [] else [x])
  {
    var ys := xs + [x];
    assert ys[..|ys| - 1] == xs;
  }

  /** The filter distributes over concatenation, so it keeps order and multiplicity. */
  lemma {:induction false} WithoutAppend(a: seq<string>, b: seq<string>, out: set<string>)
    ensures Without(a + b, out) == Without(a, out) + Without(b, out)
    decreases |b|
  {
    if b == [] {
      assert a + b == a;
    } else {
      var init := b[..|b| - 1];
      var last := b[|b| - 1];
      assert b == init + [last];
      assert a + b == (a + init) + [last];
      var t := if last in out then [] else [last];
      WithoutSnoc(a + init, last, out);
      WithoutSnoc(init, last, out);
      WithoutAppend(a, init, out);
      ConcatAssoc(Without(a, out), Without(init, out), t);
    }
  }

  /** Every key of the map (a file that was analysed) and every target counts as referenced. */
  function Referenced(g: DependencyMap): set<string> {
    g.succ.Keys + ImportedTargets(g)
  }

  /** `findOrphanedFiles` */
  function FindOrphanedFiles(files: seq<string>, g: DependencyMap): seq<string> {
    Without(files, Referenced(g))
  }

  /** `findEntryPoints` */
  function FindEntryPoints(files: seq<string>, g: DependencyMap): seq<string> {
    Without(files, ImportedTargets(g))
  }

  /** `analyze` as a function of the parse results. */
  function AnalysisOf(prs: seq<ParseResult>): AnalysisResult {
    var files := FilePaths(prs);
    var g := Adjacency(prs, files);
    AnalysisResult(Aggregate(Events(prs, files)), files, FindOrphanedFiles(files, g), DetectCycles(g),
                   FindEntryPoints(files, g))
  }

  /**
   * Every analysed file is a key of the adjacency map and so counts as
   * referenced: the orphan list is empty for every input.
   */
  lemma OrphansAlwaysEmpty(prs: seq<ParseResult>)
    ensures AnalysisOf(prs).orphanedFiles == []
  {
    AdjacencyKeys(prs, FilePaths(prs));
  }

  /** The orphans the unit test expects: files that neither import nor are imported by a known file. */
  function IntendedOrphans(r: AnalysisResult): seq<string> {
    Without(r.files, (set d | d in r.dependencies :: d.source) + (set d | d in r.dependencies :: d.target))
  }

  /**
   * A file with no edge in either direction is an intended orphan, yet the
   * analysis never lists it.
   */
  lemma OrphanNeverReported(prs: seq<ParseResult>, f: string)
    requires f in FilePaths(prs)
    requires forall d :: d in AnalysisOf(prs).dependencies ==> d.source != f && d.target != f
    ensures f in IntendedOrphans(AnalysisOf(prs))
    ensures f !in AnalysisOf(prs).orphanedFiles
  {
    UntouchedIsIntendedOrphan(AnalysisOf(prs), f);
    OrphansAlwaysEmpty(prs);
  }

  /** A listed file that no dependency starts or ends at is an intended orphan. */
  lemma UntouchedIsIntendedOrphan(r: AnalysisResult, f: string)
    requires f in r.files
    requires forall d :: d in r.dependencies ==> d.source != f && d.target != f
    ensures f in IntendedOrphans(r)
  {
    var ends := (set d | d in r.dependencies :: d.source) + (set d | d in r.dependencies :: d.target);
    assert f !in ends;
  }

  /** With no parse results, everything is empty. */
  lemma {:induction false} EmptyAnalysis()
    ensures AnalysisOf([]) == AnalysisResult([], [], [], [], [])
  {
    assert DetectFrom(DependencyMap([], map[]), 0, Search({}, {}, [])) == Search({}, {}, []);
  }

  /** Some event is for the pair (s, t). */
  predicate HasEvent(evs: seq<Event>, s: string, t: string) {
    exists k :: 0 <= k < |evs| && IsPair(evs[k], s, t)
  }

  /** Some path s has t in its list. */
  predicate HasTargetIn(paths: seq<string>, lists: seq<seq<string>>, s: string, t: string) {
    exists j :: 0 <= j < |paths| && j < |lists| && paths[j] == s && t in lists[j]
  }

  /** Some file with path s has t among its targets. */
  predicate HasTarget(prs: seq<ParseResult>, files: seq<string>, s: string, t: string) {
    HasTargetIn(FilePaths(prs), TargetLists(prs, files), s, t)
  }

  lemma HasEventAppend(a: seq<Event>, b: seq<Event>, s: string, t: string)
    ensures HasEvent(a + b, s, t) <==> HasEvent(a, s, t) || HasEvent(b, s, t)
  {
    if HasEvent(a + b, s, t) {
      var k :| 0 <= k < |a + b| && IsPair((a + b)[k], s, t);
      if k >= |a| {
        assert IsPair(b[k - |a|], s, t);
      }
    }
    if HasEvent(a, s, t) {
      var k :| 0 <= k < |a| && IsPair(a[k], s, t);
      assert IsPair((a + b)[k], s, t);
    }
    if HasEvent(b, s, t) {
      var k :| 0 <= k < |b| && IsPair(b[k], s, t);
      assert IsPair((a + b)[|a| + k], s, t);
    }
  }

  lemma FileEventsTargets(pr: ParseResult, files: seq<string>, s: string, t: string)
    ensures HasEvent(FileEvents(pr, files), s, t) <==> pr.filePath == s && t in FileTargets(pr, files)
  {
  }

  lemma HasTargetInSnoc(paths: seq<string>, lists: seq<seq<string>>, p: string, l: seq<string>, s: string, t: string)
    requires |paths| == |lists|
    ensures HasTargetIn(paths + [p], lists + [l], s, t) <==> HasTargetIn(paths, lists, s, t) || (p == s && t in l)
  {
    var n := |paths|;
    if HasTargetIn(paths + [p], lists + [l], s, t) {
      var j :| 0 <= j < n + 1 && (paths + [p])[j] == s && t in (lists + [l])[j];
      if j < n {
        assert paths[j] == s && t in lists[j];
      }
    }
    if HasTargetIn(paths, lists, s, t) {
      var j :| 0 <= j < n && paths[j] == s && t in lists[j];
      assert (paths + [p])[j] == s && t in (lists + [l])[j];
    }
    if p == s && t in l {
      assert (paths + [p])[n] == s && t in (lists + [l])[n];
    }
  }

  /** The pairs of all events are exactly the (file, target) pairs of the files. */
  lemma {:induction false} EventsOfFile(prs: seq<ParseResult>, files: seq<string>, s: string, t: string)
    ensures HasEvent(Events(prs, files), s, t) <==> HasTarget(prs, files, s, t)
  {
    if prs != [] {
      var n := |prs| - 1;
      var init := prs[..n];
      EventsOfFile(init, files, s, t);
      assert Events(prs, files) == Events(init, files) + FileEvents(prs[n], files);
      HasEventAppend(Events(init, files), FileEvents(prs[n], files), s, t);
      FileEventsTargets(prs[n], files, s, t);
      FilePathsSnoc(prs);
      HasTargetInSnoc(FilePaths(init), TargetLists(init, files), prs[n].filePath, FileTargets(prs[n], files), s, t);
    }
  }

  /** Some edge of `deps` is for the pair (s, t). */
  predicate HasEdge(deps: seq<Dependency>, s: string, t: string) {
    exists i :: 0 <= i < |deps| && Matches(deps[i], s, t)
  }

  /** The fold has an edge for a pair exactly when some event is for it. */
  lemma AggregateHasEdge(evs: seq<Event>, s: string, t: string)
    ensures HasEdge(Aggregate(evs), s, t) <==> HasEvent(evs, s, t)
  {
    var deps := Aggregate(evs);
    AggregateSummarises(evs);
    CountPairPositive(evs, s, t);
    if HasEvent(evs, s, t) {
      var k :| 0 <= k < |evs| && IsPair(evs[k], s, t);
      assert Matches(deps[FindEdge(deps, evs[k].source, evs[k].target, 0)], s, t);
    }
    if HasEdge(deps, s, t) {
      var i :| 0 <= i < |deps| && Matches(deps[i], s, t);
    }
  }

  /**
   * No dependency is a self-import, and both ends of every dependency are
   * analysed files.
   */
  lemma DependenciesWellFormed(prs: seq<ParseResult>)
    ensures forall d :: d in AnalysisOf(prs).dependencies ==>
              d.source != d.target && d.source in FilePaths(prs) && d.target in FilePaths(prs)
  {
    var files := FilePaths(prs);
    var evs := Events(prs, files);
    var deps := Aggregate(evs);
    EventsWellFormed(prs, files);
    AggregateSummarises(evs);
    forall d | d in deps ensures d.source != d.target && d.source in files && d.target in files {
      var i :| 0 <= i < |deps| && deps[i] == d;
      CountPairPositive(evs, d.source, d.target);
      var k :| 0 <= k < |evs| && IsPair(evs[k], d.source, d.target);
      assert evs[k] in evs;
    }
  }

  /**
   * With distinct file paths, the adjacency map has an edge from s to t
   * exactly when the dependency list has an edge (s, t).
   */
  lemma AdjacencyMatchesDependencies(prs: seq<ParseResult>, s: string, t: string)
    requires Distinct(FilePaths(prs))
    ensures t in Succ(Adjacency(prs, FilePaths(prs)), s) <==> HasEdge(AnalysisOf(prs).dependencies, s, t)
  {
    var files := FilePaths(prs);
    var g := Adjacency(prs, files);
    AdjacencyKeys(prs, files);
    AdjacencySucc(prs, files);
    EventsOfFile(prs, files, s, t);
    AggregateHasEdge(Events(prs, files), s, t);
    if t in Succ(g, s) {
      assert s in files;
      var j :| 0 <= j < |prs| && files[j] == s;
      assert HasTarget(prs, files, s, t);
    }
    if HasTarget(prs, files, s, t) {
      var j :| 0 <= j < |files| && j < |prs| && files[j] == s && t in TargetLists(prs, files)[j];
      assert Succ(g, prs[j].filePath) == TargetLists(prs, files)[j];
    }
  }

  /**
   * With distinct file paths, the entry points are exactly the files that are
   * the target of no dependency.
   */
  lemma EntryPointsAreUntargeted(prs: seq<ParseResult>, f: string)
    requires Distinct(FilePaths(prs))
    ensures f in AnalysisOf(prs).entryPoints
        <==> f in FilePaths(prs) && forall d :: d in AnalysisOf(prs).dependencies ==> d.target != f
  {
    var files := FilePaths(prs);
    var g := Adjacency(prs, files);
    var deps := AnalysisOf(prs).dependencies;
    if f !in ImportedTargets(g) {
      forall d | d in deps ensures d.target != f {
        var i :| 0 <= i < |deps| && deps[i] == d;
        AdjacencyMatchesDependencies(prs, d.source, d.target);
      }
    } else {
      var s :| s in g.succ && f in g.succ[s];
      AdjacencyMatchesDependencies(prs, s, f);
      var i :| 0 <= i < |deps| && Matches(deps[i], s, f);
      assert deps[i] in deps;
    }
  }

  /**
   * With distinct file paths, every step of every reported cycle is a
   * dependency of the analysis.
   */
  lemma CycleStepsAreDependencies(prs: seq<ParseResult>)
    requires Distinct(FilePaths(prs))
    ensures forall c, i :: c in AnalysisOf(prs).circularDependencies && 0 <= i < |c| - 1 ==>
              exists d :: d in AnalysisOf(prs).dependencies && d.source == c[i] && d.target == c[i + 1]
  {
    var g := Adjacency(prs, FilePaths(prs));
    var r := AnalysisOf(prs);
    DetectedCyclesAreClosedWalks(g);
    forall c, i | c in r.circularDependencies && 0 <= i < |c| - 1
      ensures exists d :: d in r.dependencies && d.source == c[i] && d.target == c[i + 1]
    {
      assert IsWalk(g, c);
      AdjacencyMatchesDependencies(prs, c[i], c[i + 1]);
      var j :| 0 <= j < |r.dependencies| && Matches(r.dependencies[j], c[i], c[i + 1]);
      assert r.dependencies[j] in r.dependencies;
    }
  }

  // ---------------------------------------------------------------------------
  // The analysis as the source runs it
  // ---------------------------------------------------------------------------

  lemma AdjacencySnoc(prs: seq<ParseResult>, files: seq<string>)
    requires prs != []
    ensures Adjacency(prs, files)
         == SetSucc(Adjacency(prs[..|prs| - 1], files), prs[|prs| - 1].filePath, FileTargets(prs[|prs| - 1], files))
  {
    FilePathsSnoc(prs);
    var n := |prs| - 1;
    assert FilePaths(prs)[..n] == FilePaths(prs[..n]);
    assert TargetLists(prs, files)[..n] == TargetLists(prs[..n], files);
  }

  lemma RecordAllSnoc(deps: seq<Dependency>, evs: seq<Event>, e: Event)
    ensures RecordAll(deps, evs + [e]) == Record(RecordAll(deps, evs), e)
  {
    assert (evs + [e])[..|evs|] == evs;
  }

  lemma TargetsSnoc(evs: seq<Event>, e: Event)
    ensures Targets(evs + [e]) == AddTarget(Targets(evs), e.target)
  {
    assert (evs + [e])[..|evs|] == evs;
  }

  lemma ImportEventsSnoc(src: string, dir: string, imps: seq<ImportRecord>, j: nat, files: seq<string>)
    requires j < |imps|
    ensures ImportEvents(src, dir, imps[..j + 1], files)
         == ImportEvents(src, dir, imps[..j], files)
            + (if ImportEvent(src, dir, imps[j], files).Some? then [ImportEvent(src, dir, imps[j], files).value] else [])
  {
    assert imps[..j + 1][..j] == imps[..j];
  }

  /** One more import extends the target set and the dependency list by its event, if any. */
  lemma ImportStep(src: string, dir: string, imps: seq<ImportRecord>, j: nat, files: seq<string>, deps0: seq<Dependency>)
    requires j < |imps|
    ensures var done := ImportEvents(src, dir, imps[..j], files);
            var next := ImportEvents(src, dir, imps[..j + 1], files);
            var ev := ImportEvent(src, dir, imps[j], files);
            (ev.None? ==> Targets(next) == Targets(done) && RecordAll(deps0, next) == RecordAll(deps0, done))
            && (ev.Some? ==> Targets(next) == AddTarget(Targets(done), ev.value.target)
                             && RecordAll(deps0, next) == Record(RecordAll(deps0, done), ev.value))
  {
    var done := ImportEvents(src, dir, imps[..j], files);
    var ev := ImportEvent(src, dir, imps[j], files);
    ImportEventsSnoc(src, dir, imps, j, files);
    if ev.Some? {
      RecordAllSnoc(deps0, done, ev.value);
      TargetsSnoc(done, ev.value);
    } else {
      assert done + [] == done;
    }
  }

  /**
   * The body of the inner loop of `analyze`: one import of the file at
   * `sourcePath`, which adds its resolved target and counts its edge.
   */
  method AnalyzeImport(sourcePath: string, sourceDir: string, imp: ImportRecord, files: seq<string>,
                       deps0: seq<string>, dependencies0: seq<Dependency>)
    returns (deps: seq<string>, dependencies: seq<Dependency>)
    ensures ImportEvent(sourcePath, sourceDir, imp, files).None? ==> deps == deps0 && dependencies == dependencies0
    ensures ImportEvent(sourcePath, sourceDir, imp, files).Some? ==>
              deps == AddTarget(deps0, ImportEvent(sourcePath, sourceDir, imp, files).value.target)
              && dependencies == Record(dependencies0, ImportEvent(sourcePath, sourceDir, imp, files).value)
  {
    deps, dependencies := deps0, dependencies0;
    var resolvedPath := ResolveImportPath(imp.source, sourceDir, files);
    if resolvedPath.Some? && resolvedPath.value != sourcePath {
      var target := resolvedPath.value;
      ghost var e := Event(sourcePath, target, ImportTag(imp.kind));
      assert ImportEvent(sourcePath, sourceDir, imp, files) == Some(e);
      deps := AddTarget(deps, target);
      var existing := FindEdge(dependencies, sourcePath, target, 0);
      if existing >= 0 {
        dependencies := dependencies[existing := dependencies[existing].(count := dependencies[existing].count + 1)];
      } else {
        dependencies := dependencies + [Dependency(sourcePath, target, ImportTag(imp.kind), 1)];
      }
      assert dependencies == Record(dependencies0, e);
    } else {
      assert ImportEvent(sourcePath, sourceDir, imp, files).None?;
    }
  }

  /**
   * The inner loop of `analyze` over the imports of one file: the file's
   * target set, and the dependency list extended by the file's events.
   */
  method AnalyzeImports(result: ParseResult, files: seq<string>, dependencies0: seq<Dependency>)
    returns (deps: seq<string>, dependencies: seq<Dependency>)
    ensures deps == FileTargets(result, files)
    ensures dependencies == RecordAll(dependencies0, FileEvents(result, files))
  {
    var sourcePath := result.filePath;
    var sourceDir := Dirname(sourcePath);
    deps := [];
    dependencies := dependencies0;
    var j := 0;
    assert result.imports[..0] == [];
    while j < |result.imports|
      invariant 0 <= j <= |result.imports|
      invariant deps == Targets(ImportEvents(sourcePath, sourceDir, result.imports[..j], files))
      invariant dependencies == RecordAll(dependencies0, ImportEvents(sourcePath, sourceDir, result.imports[..j], files))
    {
      ImportStep(sourcePath, sourceDir, result.imports, j, files, dependencies0);
      deps, dependencies := AnalyzeImport(sourcePath, sourceDir, result.imports[j], files, deps, dependencies);
      j := j + 1;
    }
    assert result.imports[..j] == result.imports;
  }

  /**
   * `analyze`: one pass over the files and their imports, updating the
   * dependency list and the adjacency map in place.
   */
  method Analyze(prs: seq<ParseResult>) returns (r: AnalysisResult)
    ensures r == AnalysisOf(prs)
    ensures r.files == FilePaths(prs) && r.orphanedFiles == []
    ensures forall k :: 0 <= k < |r.circularDependencies| ==>
              IsCycle(Adjacency(prs, r.files), r.circularDependencies[k])
  {
    var files := FilePaths(prs);
    var dependencies: seq<Dependency> := [];
    var dependencyMap := DependencyMap([], map[]);
    var i := 0;
    while i < |prs|
      invariant 0 <= i <= |prs|
      invariant dependencies == Aggregate(Events(prs[..i], files))
      invariant dependencyMap == Adjacency(prs[..i], files)
    {
      var result := prs[i];
      var deps;
      deps, dependencies := AnalyzeImports(result, files, dependencies);
      assert prs[..i + 1][..i] == prs[..i];
      RecordAllAppend([], Events(prs[..i], files), FileEvents(result, files));
      AdjacencySnoc(prs[..i + 1], files);
      dependencyMap := SetSucc(dependencyMap, result.filePath, deps);
      i := i + 1;
    }
    assert prs[..i] == prs;
    var orphanedFiles := FindOrphanedFiles(files, dependencyMap);
    var circularDependencies := DetectCircularDependencies(dependencyMap);
    var entryPoints := FindEntryPoints(files, dependencyMap);
    r := AnalysisResult(dependencies, files, orphanedFiles, circularDependencies, entryPoints);
    OrphansAlwaysEmpty(prs);
  }
}
