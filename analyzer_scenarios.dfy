/**
 * The analyzer on the inputs of its unit tests (test/unit/analyzer.test.ts):
 * files "/project/<stem>.js" whose relative imports "./<stem>" all resolve
 * with the ".js" suffix. The lemmas compute what `analyze` returns for the
 * orphan and cycle scenarios and compare it with what the tests expect.
 */
module AnalyzerScenarios {
  import opened Wrappers
  import opened Strings
  import opened Paths
  import opened ParserTypes
  import opened DependencyGraph
  import opened Analyzer

  /** The directory every scenario file lives in. */
  const Project: string := "/project"

  /** A file name without extension, as the scenarios use: a segment with no dot. */
  predicate Stem(x: string) {
    IsSegment(x) && '.' !in x
  }

  predicate AllStems(stems: seq<string>) {
    forall k :: 0 <= k < |stems| ==> Stem(stems[k])
  }

  /** The path of the scenario file `stem`: "/project/<stem>.js". */
  function JsPath(stem: string): string {
    Project + "/" + stem + ".js"
  }

  function JsPaths(stems: seq<string>): seq<string> {
    seq(|stems|, k requires 0 <= k < |stems| => JsPath(stems[k]))
  }

  /**
   * A parsed file with the given imports and no exports. The metrics differ
   * from the unit tests' own (which give index.js 10 lines of code, say), but
   * the analysis never reads them.
   */
  function TestFile(stem: string, imports: seq<ImportRecord>): ParseResult {
    ParseResult(JsPath(stem), imports, [], FileMetrics(5, 0, 1, |imports|, 0))
  }

  /** An ES6 import of "./<stem>" on line 1, as every scenario writes it. */
  function TestImport(stem: string): ImportRecord {
    ImportRecord("./" + stem, [], ES6, 1, 0)
  }

  /** Different stems give different paths. */
  lemma JsPathInjective(a: string, b: string)
    requires JsPath(a) == JsPath(b)
    ensures a == b
  {
    assert |a| == |b|;
    assert JsPath(a)[|Project| + 1..|Project| + 1 + |a|] == a;
    assert JsPath(b)[|Project| + 1..|Project| + 1 + |b|] == b;
  }

  /** The candidate without suffix is not a scenario file: its third-last character is not '.'. */
  lemma BareCandidateMiss(stem: string, g: string)
    requires Stem(stem) && Stem(g)
    ensures Project + "/" + stem != JsPath(g)
  {
    var q := Project + "/" + stem;
    var p := JsPath(g);
    if |q| == |p| {
      assert q[|q| - 3] == stem[|stem| - 3];
      assert p[|p| - 3] == '.';
    }
  }

  /** The ".ts" candidate is not a scenario file: its second-last character is 't'. */
  lemma TsCandidateMiss(stem: string, g: string)
    ensures Project + "/" + stem + ".ts" != JsPath(g)
  {
    var q := Project + "/" + stem + ".ts";
    var p := JsPath(g);
    if |q| == |p| {
      assert q[|q| - 2] == 't' && p[|p| - 2] == 'j';
    }
  }

  /** The ".tsx" candidate is not a scenario file: its last character is 'x'. */
  lemma TsxCandidateMiss(stem: string, g: string)
    ensures Project + "/" + stem + ".tsx" != JsPath(g)
  {
    var q := Project + "/" + stem + ".tsx";
    var p := JsPath(g);
    if |q| == |p| {
      assert q[|q| - 1] == 'x' && p[|p| - 1] == 's';
    }
  }

  /** Every scenario file's directory is "/project". */
  lemma DirnameInProject(stem: string)
    requires Stem(stem)
    ensures Dirname(JsPath(stem)) == Project
  {
    var name := stem + ".js";
    var p := JsPath(stem);
    assert p == Project + [Sep] + name;
    LastSeparator(Project, name);
    assert p[|p| - 1] == 's';
  }

  /** The first four candidates for "./stem" from "/project" are "/project/stem" with the plain suffixes. */
  lemma CandidateInProject(stem: string, i: nat)
    requires Stem(stem) && i < 4
    ensures Candidate("./" + stem, Project, i) == Project + "/" + stem + Suffixes[i]
  {
    var suffix := Suffixes[i];
    var x := stem + suffix;
    EarlySuffix(i);
    SegmentWithSuffix(stem, suffix);
    assert ("./" + stem) + suffix == "./" + x;
    ResolveDotSegment(Project, x);
    ProjectChild(x);
    assert Project + "/" + x == Project + "/" + stem + Suffixes[i];
  }

  /** The first four suffixes hold no separator, and each is empty or at least three characters long. */
  lemma EarlySuffix(i: nat)
    requires i < 4
    ensures Sep !in Suffixes[i] && (Suffixes[i] == "" || |Suffixes[i]| >= 3)
  {
  }

  /** A stem with a suffix of that kind is still a segment. */
  lemma SegmentWithSuffix(stem: string, suffix: string)
    requires Stem(stem) && Sep !in suffix && (suffix == "" || |suffix| >= 3)
    ensures IsSegment(stem + suffix)
  {
    if suffix == "" {
      assert stem + suffix == stem;
    }
  }

  /** A segment directly under the root is the path's one segment. */
  lemma CanonicalRootChild(x: string)
    requires IsSegment(x)
    ensures Canonical("/" + x) == [x]
  {
    CanonicalChild("", x);
    assert "" + "/" + x == "/" + x;
    var pieces := Split("", Sep);
    assert pieces == [""];
    assert pieces[..0] == [];
    assert Normalize(pieces) == Push([], "");
  }

  lemma ProjectCanonical()
    ensures Canonical(Project) == ["project"]
  {
    assert Project == "/" + "project";
    CanonicalRootChild("project");
  }

  /** "/project" is the one segment "project", and a segment below it is joined with a separator. */
  lemma ProjectChild(x: string)
    ensures Absolute(Canonical(Project) + [x]) == Project + "/" + x
  {
    ProjectCanonical();
    var segs := ["project", x];
    assert Canonical(Project) + [x] == segs;
    assert segs[1..] == [x];
    assert Join(segs, "/") == "project" + "/" + x;
  }

  /** Among scenario files, an import "./stem" resolves to "/project/stem.js" when that file is known. */
  lemma ResolvesToJs(stem: string, stems: seq<string>)
    requires Stem(stem) && stem in stems
    requires AllStems(stems)
    ensures ResolveImportPath("./" + stem, Project, JsPaths(stems)) == Some(JsPath(stem))
  {
    var files := JsPaths(stems);
    CandidateInProject(stem, 0);
    CandidateInProject(stem, 1);
    CandidateInProject(stem, 2);
    CandidateInProject(stem, 3);
    forall k | 0 <= k < |stems|
      ensures files[k] != Project + "/" + stem
      ensures files[k] != Project + "/" + stem + ".ts"
      ensures files[k] != Project + "/" + stem + ".tsx"
    {
      BareCandidateMiss(stem, stems[k]);
      TsCandidateMiss(stem, stems[k]);
      TsxCandidateMiss(stem, stems[k]);
    }
    var j :| 0 <= j < |stems| && stems[j] == stem;
    assert files[j] == JsPath(stem);
    assert Project + "/" + stem + Suffixes[0] == Project + "/" + stem;
    assert ("./" + stem)[..1] == ".";
  }

  /** A scenario file with one import "./target" has the one event towards "/project/<target>.js". */
  lemma SingleImportEvents(stem: string, target: string, stems: seq<string>)
    requires Stem(stem) && Stem(target) && stem != target && target in stems
    requires AllStems(stems)
    ensures FileEvents(TestFile(stem, [TestImport(target)]), JsPaths(stems))
            == [Event(JsPath(stem), JsPath(target), "es6")]
  {
    DirnameInProject(stem);
    ResolvesToJs(target, stems);
    if JsPath(target) == JsPath(stem) {
      JsPathInjective(target, stem);
    }
    assert [TestImport(target)][..0] == [];
  }

  /** A single event has its target as the only target. */
  lemma SingleEventTarget(e: Event)
    ensures Targets([e]) == [e.target]
  {
    assert [e][..0] == [];
  }

  /** A scenario file with one import "./target" has "/project/<target>.js" as its only target. */
  lemma SingleImportTargets(stem: string, target: string, stems: seq<string>)
    requires Stem(stem) && Stem(target) && stem != target && target in stems
    requires AllStems(stems)
    ensures FileTargets(TestFile(stem, [TestImport(target)]), JsPaths(stems)) == [JsPath(target)]
  {
    SingleImportEvents(stem, target, stems);
    SingleEventTarget(Event(JsPath(stem), JsPath(target), "es6"));
  }

  /** A file without imports has no events. */
  lemma NoImportNoEvents(pr: ParseResult, files: seq<string>)
    requires pr.imports == []
    ensures FileEvents(pr, files) == [] && FileTargets(pr, files) == []
  {
  }

  /** Appending a file appends its events. */
  lemma EventsSnoc(prs: seq<ParseResult>, p: ParseResult, files: seq<string>)
    ensures Events(prs + [p], files) == Events(prs, files) + FileEvents(p, files)
  {
    var ps := prs + [p];
    assert ps[..|ps| - 1] == prs;
  }

  /** Appending a file appends its target list. */
  lemma TargetListsSnoc(prs: seq<ParseResult>, p: ParseResult, files: seq<string>)
    ensures TargetLists(prs + [p], files) == TargetLists(prs, files) + [FileTargets(p, files)]
  {
    var ps := prs + [p];
    assert ps[..|ps| - 1] == prs;
  }

  /** The events of three files, file by file. */
  lemma ThreeEvents(p0: ParseResult, p1: ParseResult, p2: ParseResult, files: seq<string>)
    ensures Events([p0, p1, p2], files) == FileEvents(p0, files) + FileEvents(p1, files) + FileEvents(p2, files)
  {
    TwoEvents(p0, p1, files);
    EventsSnoc([p0, p1], p2, files);
    assert [p0, p1] + [p2] == [p0, p1, p2];
  }

  /** The events of two files, file by file. */
  lemma TwoEvents(p0: ParseResult, p1: ParseResult, files: seq<string>)
    ensures Events([p0, p1], files) == FileEvents(p0, files) + FileEvents(p1, files)
  {
    EventsSnoc([], p0, files);
    assert [] + [p0] == [p0];
    EventsSnoc([p0], p1, files);
    assert [p0] + [p1] == [p0, p1];
  }

  /** The target lists of three files, file by file. */
  lemma ThreeTargetLists(p0: ParseResult, p1: ParseResult, p2: ParseResult, files: seq<string>)
    ensures TargetLists([p0, p1, p2], files) == [FileTargets(p0, files), FileTargets(p1, files), FileTargets(p2, files)]
  {
    TargetListsSnoc([], p0, files);
    assert [] + [p0] == [p0];
    TargetListsSnoc([p0], p1, files);
    assert [p0] + [p1] == [p0, p1];
    TargetListsSnoc([p0, p1], p2, files);
    assert [p0, p1] + [p2] == [p0, p1, p2];
  }

  /** Appending a path and its list sets that path last. */
  lemma BuildSnoc(paths: seq<string>, lists: seq<seq<string>>, p: string, l: seq<string>)
    requires |paths| == |lists|
    ensures Build(paths + [p], lists + [l]) == SetSucc(Build(paths, lists), p, l)
  {
    var ps, ls := paths + [p], lists + [l];
    assert ps[..|ps| - 1] == paths && ls[..|ls| - 1] == lists;
  }

  /** Setting three distinct keys in order gives the map with those keys in that order. */
  lemma BuildThree(a: string, b: string, c: string, la: seq<string>, lb: seq<string>, lc: seq<string>)
    requires a != b && b != c && a != c
    ensures Build([a, b, c], [la, lb, lc]) == DependencyMap([a, b, c], map[a := la, b := lb, c := lc])
  {
    BuildSnoc([], [], a, la);
    assert [] + [a] == [a] && [] + [la] == [la];
    var g1 := DependencyMap([a], map[a := la]);
    assert Build([a], [la]) == g1;
    BuildSnoc([a], [la], b, lb);
    assert [a] + [b] == [a, b] && [la] + [lb] == [la, lb];
    var g2 := DependencyMap([a, b], map[a := la, b := lb]);
    assert Build([a, b], [la, lb]) == g2;
    BuildSnoc([a, b], [la, lb], c, lc);
    assert [a, b] + [c] == [a, b, c] && [la, lb] + [lc] == [la, lb, lc];
  }

  /** Three scenario files: their paths are the stems' paths. */
  lemma ThreePaths(s0: string, s1: string, s2: string, i0: seq<ImportRecord>, i1: seq<ImportRecord>, i2: seq<ImportRecord>)
    ensures FilePaths([TestFile(s0, i0), TestFile(s1, i1), TestFile(s2, i2)]) == JsPaths([s0, s1, s2])
  {
  }

  // ---------------------------------------------------------------------------
  // The orphan scenario
  // ---------------------------------------------------------------------------

  /** `x` imports "./y"; `y` and `z` import nothing. */
  function OrphanInput(x: string, y: string, z: string): seq<ParseResult> {
    [TestFile(x, [TestImport(y)]), TestFile(y, []), TestFile(z, [])]
  }

  /** The orphan test's files: index.js imports "./used"; used.js and orphaned.js import nothing. */
  function OrphanTestInput(): seq<ParseResult> {
    OrphanInput("index", "used", "orphaned")
  }

  /** The only edge of the orphan scenario is x.js -> y.js. */
  lemma OrphanEvents(x: string, y: string, z: string)
    requires Stem(x) && Stem(y) && Stem(z) && x != y
    ensures var prs := OrphanInput(x, y, z);
            FilePaths(prs) == JsPaths([x, y, z])
            && Events(prs, FilePaths(prs)) == [Event(JsPath(x), JsPath(y), "es6")]
  {
    var p0, p1, p2 := TestFile(x, [TestImport(y)]), TestFile(y, []), TestFile(z, []);
    var stems := [x, y, z];
    var files := JsPaths(stems);
    assert AllStems(stems) && y in stems;
    ThreePaths(x, y, z, [TestImport(y)], [], []);
    ThreeEvents(p0, p1, p2, files);
    SingleImportEvents(x, y, stems);
    NoImportNoEvents(p1, files);
    NoImportNoEvents(p2, files);
  }

  /**
   * In the orphan scenario the file z.js neither imports nor is imported
   * by anything, so it is an intended orphan; yet `orphanedFiles` is empty.
   */
  lemma OrphanScenario(x: string, y: string, z: string)
    requires Stem(x) && Stem(y) && Stem(z) && x != y && y != z && x != z
    ensures var r := AnalysisOf(OrphanInput(x, y, z));
            JsPath(z) in r.files && JsPath(z) in IntendedOrphans(r) && r.orphanedFiles == []
  {
    var prs := OrphanInput(x, y, z);
    var f := JsPath(z);
    var evs := Events(prs, FilePaths(prs));
    OrphanEvents(x, y, z);
    assert FilePaths(prs)[2] == f;
    if JsPath(x) == f {
      JsPathInjective(x, z);
    }
    if JsPath(y) == f {
      JsPathInjective(y, z);
    }
    forall d | d in AnalysisOf(prs).dependencies
      ensures d.source != f && d.target != f
    {
      var i :| 0 <= i < |AnalysisOf(prs).dependencies| && AnalysisOf(prs).dependencies[i] == d;
      assert Matches(d, d.source, d.target);
      AggregateHasEdge(evs, d.source, d.target);
      var k :| 0 <= k < |evs| && IsPair(evs[k], d.source, d.target);
    }
    OrphanNeverReported(prs, f);
    OrphansAlwaysEmpty(prs);
  }

  lemma OrphanTestPath()
    ensures JsPath("orphaned") == "/project/orphaned.js"
  {
  }

  /**
   * On the orphan test's files (paths and imports), "/project/orphaned.js" is an intended
   * orphan that `orphanedFiles` leaves out, so the expectation at
   * test/unit/analyzer.test.ts:153 fails.
   */
  lemma OrphanTestAsWritten()
    ensures var r := AnalysisOf(OrphanTestInput());
            "/project/orphaned.js" in r.files
            && "/project/orphaned.js" in IntendedOrphans(r)
            && r.orphanedFiles == []
  {
    assert Stem("index") && Stem("used") && Stem("orphaned");
    assert "index" != "used" && "used" != "orphaned" && "index" != "orphaned";
    OrphanTestPath();
    OrphanScenario("index", "used", "orphaned");
  }

  // ---------------------------------------------------------------------------
  // The cycle scenario
  // ---------------------------------------------------------------------------

  /** `x` imports "./y", `y` imports "./z" and `z` imports "./x". */
  function CycleInput(x: string, y: string, z: string): seq<ParseResult> {
    [TestFile(x, [TestImport(y)]), TestFile(y, [TestImport(z)]), TestFile(z, [TestImport(x)])]
  }

  /** The cycle test's files: a.js imports "./b", b.js imports "./c" and c.js imports "./a". */
  function CycleTestInput(): seq<ParseResult> {
    CycleInput("a", "b", "c")
  }

  /** Distinct stems have distinct paths. */
  lemma DistinctPaths(x: string, y: string, z: string)
    requires x != y && y != z && x != z
    ensures JsPath(x) != JsPath(y) && JsPath(y) != JsPath(z) && JsPath(x) != JsPath(z)
  {
    if JsPath(x) == JsPath(y) {
      JsPathInjective(x, y);
    }
    if JsPath(y) == JsPath(z) {
      JsPathInjective(y, z);
    }
    if JsPath(x) == JsPath(z) {
      JsPathInjective(x, z);
    }
  }

  /** Each file of the ring has the next file as its one target. */
  lemma CycleTargetLists(x: string, y: string, z: string)
    requires Stem(x) && Stem(y) && Stem(z) && x != y && y != z && x != z
    ensures TargetLists(CycleInput(x, y, z), JsPaths([x, y, z])) == [[JsPath(y)], [JsPath(z)], [JsPath(x)]]
  {
    var stems := [x, y, z];
    var p0, p1, p2 := TestFile(x, [TestImport(y)]), TestFile(y, [TestImport(z)]), TestFile(z, [TestImport(x)]);
    assert AllStems(stems) && x in stems && y in stems && z in stems;
    ThreeTargetLists(p0, p1, p2, JsPaths(stems));
    SingleImportTargets(x, y, stems);
    SingleImportTargets(y, z, stems);
    SingleImportTargets(z, x, stems);
  }

  /** The cycle scenario's dependency map is the ring x.js -> y.js -> z.js -> x.js. */
  lemma CycleAdjacency(x: string, y: string, z: string)
    requires Stem(x) && Stem(y) && Stem(z) && x != y && y != z && x != z
    ensures var prs := CycleInput(x, y, z);
            Adjacency(prs, FilePaths(prs)) == Ring(JsPath(x), JsPath(y), JsPath(z))
  {
    var a, b, c := JsPath(x), JsPath(y), JsPath(z);
    ThreePaths(x, y, z, [TestImport(y)], [TestImport(z)], [TestImport(x)]);
    assert JsPaths([x, y, z]) == [a, b, c];
    CycleTargetLists(x, y, z);
    DistinctPaths(x, y, z);
    BuildThree(a, b, c, [b], [c], [a]);
  }

  /** The cycle scenario reports exactly the one cycle x.js -> y.js -> z.js -> x.js. */
  lemma CycleScenario(x: string, y: string, z: string)
    requires Stem(x) && Stem(y) && Stem(z) && x != y && y != z && x != z
    ensures AnalysisOf(CycleInput(x, y, z)).circularDependencies
            == [[JsPath(x), JsPath(y), JsPath(z), JsPath(x)]]
  {
    DistinctPaths(x, y, z);
    CycleAdjacency(x, y, z);
    TriangleHasOneCycle(JsPath(x), JsPath(y), JsPath(z));
  }

  lemma CycleTestPaths()
    ensures JsPath("a") == "/project/a.js" && JsPath("b") == "/project/b.js" && JsPath("c") == "/project/c.js"
  {
  }

  /**
   * On the cycle test's files (paths and imports) the analysis reports exactly the cycle
   * a.js -> b.js -> c.js -> a.js; the test at
   * test/unit/analyzer.test.ts:113 only asks for a count of at least 0.
   */
  lemma CycleTestHasOneCycle()
    ensures AnalysisOf(CycleTestInput()).circularDependencies
            == [["/project/a.js", "/project/b.js", "/project/c.js", "/project/a.js"]]
  {
    assert Stem("a") && Stem("b") && Stem("c") && "a" != "b" && "b" != "c" && "a" != "c";
    CycleTestPaths();
    CycleScenario("a", "b", "c");
  }
}
