/**
 * The graph projector (src/graph/index.ts): turns an analysis result into
 * the nodes, edges and metadata the visualisation draws. Nodes and edges
 * are built by loops that append one element per file and per dependency;
 * each loop is proved to build the fold `NodesOf` / `EdgesOf`, and the
 * lemmas below say what those folds contain.
 */
module Graph {
  import opened Wrappers
  import opened Strings
  import opened Paths
  import ParserTypes
  import opened GraphTypes
  import opened Analyzer

  // ---------------------------------------------------------------------------
  // Node type and colour
  // ---------------------------------------------------------------------------

  /** Orphaned takes priority over entry, entry over a plain file. */
  function NodeTypeOf(file: string, orphaned: seq<string>, entries: seq<string>): (t: NodeType)
    ensures t == Orphaned <==> file in orphaned
    ensures t == Entry <==> file !in orphaned && file in entries
    ensures t == File <==> file !in orphaned && file !in entries
  {
    if file in orphaned then Orphaned
    else if file in entries then Entry
    else File
  }

  const OrphanColor := "#ff6b6b"
  const EntryColor := "#51cf66"
  const TypeScriptColor := "#3178c6"
  const ReactColor := "#61dafb"
  const JavaScriptColor := "#f7df1e"
  const DefaultColor := "#868e96"

  /** The colour by extension, for a node that is neither orphaned nor an entry. */
  function ExtensionColor(ext: string): string {
    if ext == ".ts" then TypeScriptColor
    else if ext == ".tsx" || ext == ".jsx" then ReactColor
    else if ext == ".js" then JavaScriptColor
    else DefaultColor
  }

  /**
   * `getNodeColor`: the two status colours are reserved for their status,
   * and every other node is coloured by its extension.
   */
  function NodeColor(kind: NodeType, ext: string): (c: string)
    ensures c == OrphanColor <==> kind == Orphaned
    ensures c == EntryColor <==> kind == Entry
    ensures kind != Orphaned && kind != Entry ==>
              (c == TypeScriptColor <==> ext == ".ts")
              && (c == JavaScriptColor <==> ext == ".js")
              && (c == ReactColor <==> ext == ".tsx" || ext == ".jsx")
              && (c == DefaultColor <==> ext !in [".ts", ".tsx", ".js", ".jsx"])
  {
    if kind == Orphaned then OrphanColor
    else if kind == Entry then EntryColor
    else ExtensionColor(ext)
  }

  // ---------------------------------------------------------------------------
  // Common root
  // ---------------------------------------------------------------------------

  /** Every file starts with `prefix` (`files.every(f => f.startsWith(prefix))`). */
  predicate AllStartWith(files: seq<string>, prefix: string) {
    forall k :: 0 <= k < |files| ==> StartsWith(files[k], prefix)
  }

  /** The candidate made of the first `i + 1` components. */
  function TestPath(parts: seq<string>, i: nat): string
    requires i < |parts|
  {
    Join(parts[..i + 1], "/")
  }

  /** How many leading candidates, from the `i`-th on, are prefixes of every file. */
  function Run(files: seq<string>, parts: seq<string>, i: nat): (n: nat)
    requires i <= |parts|
    ensures i <= n <= |parts|
    decreases |parts| - i
  {
    if i < |parts| && AllStartWith(files, TestPath(parts, i)) then Run(files, parts, i + 1) else i
  }

  /** `findCommonRoot` */
  function CommonRoot(files: seq<string>): string {
    if |files| == 0 then ""
    else if |files| == 1 then Dirname(files[0])
    else
      var parts := Split(files[0], Sep);
      Join(parts[..Run(files, parts, 0)], "/")
  }

  /** The loop of `findCommonRoot`, which stops at the first candidate that is not a prefix of every file. */
  method FindCommonRoot(files: seq<string>) returns (commonPath: string)
    ensures commonPath == CommonRoot(files)
  {
    if |files| == 0 {
      return "";
    }
    if |files| == 1 {
      return Dirname(files[0]);
    }
    var parts := Split(files[0], Sep);
    commonPath := "";
    var i := 0;
    while i < |parts|
      invariant 0 <= i <= |parts|
      invariant Run(files, parts, 0) == Run(files, parts, i)
      invariant commonPath == Join(parts[..i], "/")
    {
      var testPath := Join(parts[..i + 1], "/");
      if AllStartWith(files, testPath) {
        commonPath := testPath;
      } else {
        break;
      }
      i := i + 1;
    }
  }

  /** Every candidate up to the end of the run is a prefix of every file. */
  lemma {:induction false} RunPrefixes(files: seq<string>, parts: seq<string>, i: nat, j: nat)
    requires i <= j < |parts| && j < Run(files, parts, i)
    ensures AllStartWith(files, TestPath(parts, j))
    decreases j - i
  {
    if i < j {
      RunPrefixes(files, parts, i + 1, j);
    }
  }

  /** A join of a longer leading run starts with the join of a shorter one. */
  lemma {:induction false} JoinPrefix(parts: seq<string>, i: nat, j: nat)
    requires i <= j < |parts|
    ensures StartsWith(Join(parts[..j + 1], "/"), Join(parts[..i + 1], "/"))
  {
    if i == 0 {
      JoinHead(parts[..j + 1], "/");
    } else {
      JoinPrefix(parts[1..], i - 1, j - 1);
      assert parts[..j + 1] == [parts[0]] + parts[1..][..j];
      assert parts[..i + 1] == [parts[0]] + parts[1..][..i];
      var a := Join(parts[1..][..j], "/");
      var b := Join(parts[1..][..i], "/");
      assert Join(parts[..j + 1], "/") == parts[0] + "/" + a;
      assert Join(parts[..i + 1], "/") == parts[0] + "/" + b;
      assert (parts[0] + "/" + a)[..|parts[0] + "/" + b|] == parts[0] + "/" + a[..|b|];
    }
  }

  /**
   * For two or more files the common root is a prefix of every file, and no
   * longer leading run of the first file's components is: the loop's early
   * exit loses nothing.
   */
  lemma CommonRootIsLongestPrefix(files: seq<string>)
    requires |files| >= 2
    ensures AllStartWith(files, CommonRoot(files))
    ensures var parts := Split(files[0], Sep);
            forall j :: |Split(CommonRoot(files), Sep)| <= j < |parts| ==> !AllStartWith(files, TestPath(parts, j))
  {
    var parts := Split(files[0], Sep);
    var n := Run(files, parts, 0);
    var root := CommonRoot(files);
    assert root == Join(parts[..n], "/");
    if n > 0 {
      RunPrefixes(files, parts, 0, n - 1);
      assert parts[..n - 1 + 1] == parts[..n];
    } else {
      assert root == "";
    }
    RunLength(files, parts, n);
    forall j | |Split(root, Sep)| <= j < |parts|
      ensures !AllStartWith(files, TestPath(parts, j))
    {
      if AllStartWith(files, TestPath(parts, j)) {
        JoinPrefix(parts, n, j);
        forall k | 0 <= k < |files|
          ensures StartsWith(files[k], TestPath(parts, n))
        {
          StartsWithTransitive(files[k], TestPath(parts, j), TestPath(parts, n));
        }
      }
    }
  }

  /**
   * The root has as many components as the run is long (the empty root
   * splits into one piece), and the run stops where a candidate fails.
   */
  lemma RunLength(files: seq<string>, parts: seq<string>, n: nat)
    requires |files| >= 1 && parts == Split(files[0], Sep) && n == Run(files, parts, 0)
    ensures n <= |Split(Join(parts[..n], "/"), Sep)|
    ensures n < |parts| ==> !AllStartWith(files, TestPath(parts, n))
  {
    RunStops(files, parts, 0);
    if n > 0 {
      SplitJoin(parts[..n], Sep);
      assert "/" == [Sep];
    }
  }

  /** Where a run ends, the next candidate fails. */
  lemma {:induction false} RunStops(files: seq<string>, parts: seq<string>, i: nat)
    requires i <= |parts|
    ensures Run(files, parts, i) < |parts| ==> !AllStartWith(files, TestPath(parts, Run(files, parts, i)))
    decreases |parts| - i
  {
    if i < |parts| && AllStartWith(files, TestPath(parts, i)) {
      RunStops(files, parts, i + 1);
    }
  }

  /**
   * The root is a string prefix, not a directory: "/a/b" is the root of
   * "/a/b/y.ts" and "/a/bc/x.ts", though the second file is not inside it.
   */
  lemma CommonRootNotDirectory()
    ensures CommonRoot(["/a/b/y.ts", "/a/bc/x.ts"]) == "/a/b"
  {
    var parts := ["", "a", "b", "y.ts"];
    SplitUnderAB("y.ts");
    assert "/a/b/" + "y.ts" == "/a/b/y.ts";
    ExampleRun();
    assert parts[..3] == ["", "a", "b"];
    assert Join(parts[..3][2..], "/") == "b";
  }

  /** The components of "/a/b/<name>", for a name without separator, are "", "a", "b" and the name. */
  lemma SplitUnderAB(name: string)
    requires Sep !in name
    ensures Split("/a/b/" + name, Sep) == ["", "a", "b", name]
  {
    var parts := ["", "a", "b", name];
    assert Join(parts[3..], "/") == name;
    assert Join(parts[2..], "/") == "b/" + name;
    assert Join(parts[1..], "/") == "a/b/" + name;
    assert Join(parts, "/") == "" + "/" + ("a/b/" + name) == "/a/b/" + name;
    SplitJoin(parts, Sep);
    assert [Sep] == "/";
  }

  /** The run over the example stops after three candidates: "", "/a" and "/a/b". */
  lemma ExampleRun()
    ensures Run(["/a/b/y.ts", "/a/bc/x.ts"], ["", "a", "b", "y.ts"], 0) == 3
  {
    var files := ["/a/b/y.ts", "/a/bc/x.ts"];
    var parts := ["", "a", "b", "y.ts"];
    assert parts[..1] == [""] && parts[..2] == ["", "a"] && parts[..3] == ["", "a", "b"] && parts[..4] == parts;
    assert TestPath(parts, 3) == files[0] by {
      assert Join(parts[3..], "/") == "y.ts";
      assert Join(parts[2..], "/") == "b/y.ts";
      assert Join(parts[1..], "/") == "a/b/y.ts";
    }
    assert files[1][4] != files[0][4];
    assert Run(files, parts, 3) == 3;
    assert TestPath(parts, 2) == "/a/b" by {
      assert Join(parts[..3][2..], "/") == "b";
    }
    assert files[1][..4] == "/a/b" && files[0][..4] == "/a/b";
    assert Run(files, parts, 2) == 3;
    assert TestPath(parts, 1) == "/a";
    assert files[1][..2] == "/a" && files[0][..2] == "/a";
    assert TestPath(parts, 0) == "";
  }

  // ---------------------------------------------------------------------------
  // Nodes
  // ---------------------------------------------------------------------------

  /** The node drawn for one file under the workspace root `root`. */
  function NodeOf(root: string, file: string, orphaned: seq<string>, entries: seq<string>): GraphNode {
    var rel := Relative(root, file);
    var kind := NodeTypeOf(file, orphaned, entries);
    GraphNode(file, Basename(file), rel, kind, Dirname(rel), NodeColor(kind, Extname(file)))
  }

  /** The nodes pushed for `files`, one per file, in order. */
  function MapNodes(node: string -> GraphNode, files: seq<string>): seq<GraphNode> {
    if files == [] then [] else MapNodes(node, files[..|files| - 1]) + [node(files[|files| - 1])]
  }

  lemma {:induction false} MapNodesAt(node: string -> GraphNode, files: seq<string>)
    ensures |MapNodes(node, files)| == |files|
    ensures forall k :: 0 <= k < |files| ==> MapNodes(node, files)[k] == node(files[k])
  {
    if files != [] {
      var init := files[..|files| - 1];
      MapNodesAt(node, init);
      forall k | 0 <= k < |init|
        ensures MapNodes(node, files)[k] == node(files[k])
      {
        assert init[k] == files[k];
      }
    }
  }

  /** The nodes `createNodes` pushes, under the workspace root `root`. */
  function NodesOf(root: string, files: seq<string>, orphaned: seq<string>, entries: seq<string>): seq<GraphNode> {
    MapNodes(file => NodeOf(root, file, orphaned, entries), files)
  }

  /** Exactly one node per file, in file order, each the node of its file. */
  lemma NodesAt(root: string, files: seq<string>, orphaned: seq<string>, entries: seq<string>)
    ensures |NodesOf(root, files, orphaned, entries)| == |files|
    ensures forall k :: 0 <= k < |files| ==>
              NodesOf(root, files, orphaned, entries)[k] == NodeOf(root, files[k], orphaned, entries)
  {
    MapNodesAt(file => NodeOf(root, file, orphaned, entries), files);
  }

  /** One more file appends its node. */
  lemma NodesOfSnoc(root: string, files: seq<string>, orphaned: seq<string>, entries: seq<string>, i: nat)
    requires i < |files|
    ensures NodesOf(root, files[..i + 1], orphaned, entries)
         == NodesOf(root, files[..i], orphaned, entries) + [NodeOf(root, files[i], orphaned, entries)]
  {
    assert files[..i + 1][..i] == files[..i];
  }

  /** `createNodes` */
  method CreateNodes(analysis: AnalysisResult) returns (nodes: seq<GraphNode>)
    ensures nodes == NodesOf(CommonRoot(analysis.files), analysis.files, analysis.orphanedFiles, analysis.entryPoints)
  {
    nodes := [];
    var workspaceRoot := FindCommonRoot(analysis.files);
    var i := 0;
    while i < |analysis.files|
      invariant 0 <= i <= |analysis.files|
      invariant nodes == NodesOf(workspaceRoot, analysis.files[..i], analysis.orphanedFiles, analysis.entryPoints)
    {
      var file := analysis.files[i];
      var relativePath := Relative(workspaceRoot, file);
      var fileName := Basename(file);
      var isOrphaned := file in analysis.orphanedFiles;
      var isEntry := file in analysis.entryPoints;
      var kind := File;
      if isOrphaned {
        kind := Orphaned;
      } else if isEntry {
        kind := Entry;
      }
      assert kind == NodeTypeOf(file, analysis.orphanedFiles, analysis.entryPoints);
      nodes := nodes + [GraphNode(file, fileName, relativePath, kind, Dirname(relativePath), NodeColor(kind, Extname(file)))];
      NodesOfSnoc(workspaceRoot, analysis.files, analysis.orphanedFiles, analysis.entryPoints, i);
      i := i + 1;
    }
    assert analysis.files[..i] == analysis.files;
  }

  /** The first node with the given id (`nodes.find(n => n.id === id)`). */
  function FindNode(nodes: seq<GraphNode>, id: string): (r: Option<GraphNode>)
    ensures r.Some? ==> r.value in nodes && r.value.id == id
    ensures r.None? <==> forall k :: 0 <= k < |nodes| ==> nodes[k].id != id
  {
    if nodes == [] then None
    else if nodes[0].id == id then Some(nodes[0])
    else FindNode(nodes[1..], id)
  }

  /** In nodes made one per file by a function that keeps the file as id, looking a file up finds its node. */
  lemma {:induction false} FindMapped(node: string -> GraphNode, files: seq<string>, file: string)
    requires file in files
    requires forall f :: node(f).id == f
    ensures FindNode(MapNodes(node, files), file) == Some(node(file))
  {
    var nodes := MapNodes(node, files);
    MapNodesAt(node, files);
    var k :| 0 <= k < |files| && files[k] == file;
    assert nodes[k].id == file;
    var r := FindNode(nodes, file);
    var j :| 0 <= j < |nodes| && nodes[j] == r.value;
    assert files[j] == file;
  }

  /**
   * Looking a file up by id finds its node, whose type follows the priority
   * orphaned, entry, file, and whose colour follows from that type.
   */
  lemma FindFileNode(root: string, files: seq<string>, orphaned: seq<string>, entries: seq<string>, file: string)
    requires file in files
    ensures FindNode(NodesOf(root, files, orphaned, entries), file) == Some(NodeOf(root, file, orphaned, entries))
  {
    FindMapped(f => NodeOf(root, f, orphaned, entries), files, file);
  }

  /**
   * Files in one directory below the root share a group: the group of `d/x`
   * is the path of `d` relative to the root ("." for the root itself),
   * whatever the file name `x`.
   */
  lemma GroupOfChild(root: string, d: string, x: string, orphaned: seq<string>, entries: seq<string>)
    requires IsSegment(x)
    requires |Canonical(root)| <= |Canonical(d)| && Canonical(d)[..|Canonical(root)|] == Canonical(root)
    ensures var rest := Canonical(d)[|Canonical(root)|..];
            NodeOf(root, d + "/" + x, orphaned, entries).group == if rest == [] then "." else Join(rest, "/")
  {
    var r := Canonical(root);
    var dd := Canonical(d);
    var t := Canonical(d + "/" + x);
    CanonicalChild(d, x);
    var k := CommonPrefixLength(r, t);
    assert t[..|r|] == r;
    assert k == |r|;
    assert Repeat("..", |r| - k) + t[k..] == dd[|r|..] + [x];
    assert Relative(root, d + "/" + x) == Join(dd[|r|..] + [x], "/");
    DirnameOfJoin(dd[|r|..], x);
  }

  /** Two files in the same directory below the root get the same group. */
  lemma SameDirectorySameGroup(root: string, d: string, x: string, y: string, orphaned: seq<string>, entries: seq<string>)
    requires IsSegment(x) && IsSegment(y)
    requires |Canonical(root)| <= |Canonical(d)| && Canonical(d)[..|Canonical(root)|] == Canonical(root)
    ensures NodeOf(root, d + "/" + x, orphaned, entries).group == NodeOf(root, d + "/" + y, orphaned, entries).group
  {
    GroupOfChild(root, d, x, orphaned, entries);
    GroupOfChild(root, d, y, orphaned, entries);
  }

  /** A path relative to itself is empty, so the root's own group is ".". */
  lemma RelativeSelf(p: string)
    ensures Relative(p, p) == ""
  {
    var f := Canonical(p);
    assert CommonPrefixLength(f, f) == |f|;
    assert Repeat("..", 0) + f[|f|..] == [];
  }

  /** Two different last segments after the same segments share exactly those segments. */
  lemma {:induction false} CommonPrefixOfSiblings(dd: seq<string>, x: string, y: string)
    requires x != y
    ensures CommonPrefixLength(dd + [x], dd + [y]) == |dd|
  {
    if dd != [] {
      CommonPrefixOfSiblings(dd[1..], x, y);
      assert (dd + [x])[1..] == dd[1..] + [x];
      assert (dd + [y])[1..] == dd[1..] + [y];
    }
  }

  /** From the file `d/x`, its sibling `d/y` is "../y". */
  lemma RelativeSibling(d: string, x: string, y: string)
    requires IsSegment(x) && IsSegment(y) && x != y
    ensures Relative(d + "/" + x, d + "/" + y) == ".." + [Sep] + y
  {
    var dd := Canonical(d);
    CanonicalChild(d, x);
    CanonicalChild(d, y);
    var f := dd + [x];
    var t := dd + [y];
    var k := CommonPrefixLength(f, t);
    CommonPrefixOfSiblings(dd, x, y);
    assert Repeat("..", |f| - k) + t[k..] == [".."] + [y];
    JoinSnoc([".."], y, "/");
  }

  /** The directory of "../y" is "..". */
  lemma DirnameUp(y: string)
    requires IsSegment(y)
    ensures Dirname(".." + [Sep] + y) == ".."
  {
    var rel := ".." + [Sep] + y;
    LastSeparator("..", y);
    assert rel[|rel| - 1] == y[|y| - 1];
  }

  /**
   * Without the segment-ancestor condition the groups can differ: the
   * string-prefix root of "/a/b/x.ts" and "/a/b/x.tsx" is "/a/b/x.ts"
   * itself, and with a root `d/x` the file `d/x` is in group "." while its
   * sibling `d/y` is in group "..".
   */
  lemma SiblingOfFileRoot(d: string, x: string, y: string, orphaned: seq<string>, entries: seq<string>)
    requires IsSegment(x) && IsSegment(y) && x != y
    ensures NodeOf(d + "/" + x, d + "/" + x, orphaned, entries).group == "."
    ensures NodeOf(d + "/" + x, d + "/" + y, orphaned, entries).group == ".."
  {
    RelativeSelf(d + "/" + x);
    RelativeSibling(d, x, y);
    DirnameUp(y);
  }

  /** Every candidate of "/a/b/x.ts", the file itself included, is a prefix of "/a/b/x.tsx". */
  lemma PrefixFilesRun()
    ensures Run(["/a/b/x.ts", "/a/b/x.tsx"], ["", "a", "b", "x.ts"], 0) == 4
  {
    var files := ["/a/b/x.ts", "/a/b/x.tsx"];
    var parts := ["", "a", "b", "x.ts"];
    assert parts[..1] == [""] && parts[..2] == ["", "a"] && parts[..3] == ["", "a", "b"] && parts[..4] == parts;
    assert TestPath(parts, 3) == files[0] by {
      assert Join(parts[3..], "/") == "x.ts";
      assert Join(parts[2..], "/") == "b/x.ts";
      assert Join(parts[1..], "/") == "a/b/x.ts";
    }
    assert files[1][..9] == files[0];
    assert Run(files, parts, 3) == 4;
    assert TestPath(parts, 2) == "/a/b" by {
      assert Join(parts[..3][2..], "/") == "b";
    }
    assert files[1][..4] == "/a/b" && files[0][..4] == "/a/b";
    assert Run(files, parts, 2) == 4;
    assert TestPath(parts, 1) == "/a";
    assert files[1][..2] == "/a" && files[0][..2] == "/a";
    assert TestPath(parts, 0) == "";
  }

  /** The string-prefix root of "/a/b/x.ts" and "/a/b/x.tsx" is the first file itself. */
  lemma CommonRootOfPrefixFiles()
    ensures CommonRoot(["/a/b/x.ts", "/a/b/x.tsx"]) == "/a/b/x.ts"
  {
    var files := ["/a/b/x.ts", "/a/b/x.tsx"];
    var parts := ["", "a", "b", "x.ts"];
    SplitUnderAB("x.ts");
    assert "/a/b/" + "x.ts" == "/a/b/x.ts";
    PrefixFilesRun();
    JoinPrefixParts();
    assert |files| == 2 && Split(files[0], Sep) == parts;
    assert parts[..4] == parts;
  }

  lemma JoinPrefixParts()
    ensures Join(["", "a", "b", "x.ts"], "/") == "/a/b/x.ts"
  {
    var parts := ["", "a", "b", "x.ts"];
    assert Join(parts[3..], "/") == "x.ts";
    assert Join(parts[2..], "/") == "b/x.ts";
    assert Join(parts[1..], "/") == "a/b/x.ts";
  }

  /**
   * So for those two files the source puts the first in group "." and the
   * second, in the same directory, in group "..".
   */
  lemma PrefixFilesSplitGroups(orphaned: seq<string>, entries: seq<string>)
    ensures var root := CommonRoot(["/a/b/x.ts", "/a/b/x.tsx"]);
            NodeOf(root, "/a/b/x.ts", orphaned, entries).group == "."
            && NodeOf(root, "/a/b/x.tsx", orphaned, entries).group == ".."
  {
    CommonRootOfPrefixFiles();
    assert "/a/b" + "/" + "x.ts" == "/a/b/x.ts";
    assert "/a/b" + "/" + "x.tsx" == "/a/b/x.tsx";
    SiblingOfFileRoot("/a/b", "x.ts", "x.tsx", orphaned, entries);
  }

  // ---------------------------------------------------------------------------
  // Edges
  // ---------------------------------------------------------------------------

  /** The edge type of a dependency's type string; anything unrecognised, "es6" included, is an import. */
  function EdgeTypeOf(kind: string): (t: EdgeType)
    ensures t != Export
    ensures t == Dynamic <==> kind == "dynamic"
    ensures t == Require <==> kind == "commonjs"
    ensures t == TypeOnly <==> kind == "type-only"
  {
    if kind == "dynamic" then Dynamic
    else if kind == "commonjs" then Require
    else if kind == "type-only" then TypeOnly
    else Import
  }

  /** Distinct import types give distinct edge types, so an edge's type names its import type. */
  lemma EdgeTypeOfImportTag(a: ParserTypes.ImportType, b: ParserTypes.ImportType)
    ensures EdgeTypeOf(ParserTypes.ImportTag(a)) == EdgeTypeOf(ParserTypes.ImportTag(b)) <==> a == b
  {
  }

  /** An edge's id: its source and target joined by '-'. */
  function EdgeId(source: string, target: string): string {
    source + "-" + target
  }

  function EdgeOf(d: Dependency): GraphEdge {
    GraphEdge(EdgeId(d.source, d.target), d.source, d.target, EdgeTypeOf(d.kind), d.count)
  }

  /** The edges pushed for `deps`, in order. */
  function EdgesOf(deps: seq<Dependency>): seq<GraphEdge> {
    if deps == [] then [] else EdgesOf(deps[..|deps| - 1]) + [EdgeOf(deps[|deps| - 1])]
  }

  /** Exactly one edge per dependency, in order, with its endpoints, type and count as weight. */
  lemma {:induction false} EdgesAt(deps: seq<Dependency>)
    ensures |EdgesOf(deps)| == |deps|
    ensures forall k :: 0 <= k < |deps| ==>
              var e := EdgesOf(deps)[k];
              e.source == deps[k].source && e.target == deps[k].target && e.weight == deps[k].count
              && e.id == EdgeId(deps[k].source, deps[k].target) && e.kind == EdgeTypeOf(deps[k].kind)
  {
    if deps != [] {
      EdgesAt(deps[..|deps| - 1]);
    }
  }

  /** `createEdges` */
  method CreateEdges(analysis: AnalysisResult) returns (edges: seq<GraphEdge>)
    ensures edges == EdgesOf(analysis.dependencies)
  {
    edges := [];
    var i := 0;
    while i < |analysis.dependencies|
      invariant 0 <= i <= |analysis.dependencies|
      invariant edges == EdgesOf(analysis.dependencies[..i])
    {
      var dep := analysis.dependencies[i];
      var edgeType := Import;
      if dep.kind == "dynamic" {
        edgeType := Dynamic;
      } else if dep.kind == "commonjs" {
        edgeType := Require;
      } else if dep.kind == "type-only" {
        edgeType := TypeOnly;
      }
      edges := edges + [GraphEdge(dep.source + "-" + dep.target, dep.source, dep.target, edgeType, dep.count)];
      assert analysis.dependencies[..i + 1][..i] == analysis.dependencies[..i];
      i := i + 1;
    }
    assert analysis.dependencies[..i] == analysis.dependencies;
  }

  /** When the sources hold no '-', an edge id determines its source and target. */
  lemma EdgeIdInjective(s1: string, t1: string, s2: string, t2: string)
    requires '-' !in s1 && '-' !in s2
    requires EdgeId(s1, t1) == EdgeId(s2, t2)
    ensures s1 == s2 && t1 == t2
  {
    var id := EdgeId(s1, t1);
    assert forall i :: 0 <= i < |s1| ==> id[i] == s1[i] != '-';
    assert forall i :: 0 <= i < |s2| ==> id[i] == s2[i] != '-';
    assert id[|s1|] == '-' && id[|s2|] == '-';
    assert s1 == id[..|s1|] == s2;
    assert t1 == id[|s1| + 1..] == t2;
  }

  /** With '-' in a path, two different pairs can share an edge id. */
  lemma EdgeIdCollision()
    ensures EdgeId("/a-b", "/c") == EdgeId("/a", "b-/c")
  {
  }

  /** Dependencies with distinct pairs and '-'-free sources give edges with distinct ids. */
  lemma EdgeIdsDistinct(deps: seq<Dependency>)
    requires UniquePairs(deps)
    requires forall k :: 0 <= k < |deps| ==> '-' !in deps[k].source
    ensures forall i, j :: 0 <= i < j < |EdgesOf(deps)| ==> EdgesOf(deps)[i].id != EdgesOf(deps)[j].id
  {
    EdgesAt(deps);
    forall i, j | 0 <= i < j < |deps|
      ensures EdgesOf(deps)[i].id != EdgesOf(deps)[j].id
    {
      assert !Matches(deps[j], deps[i].source, deps[i].target);
      if EdgesOf(deps)[i].id == EdgesOf(deps)[j].id {
        EdgeIdInjective(deps[i].source, deps[i].target, deps[j].source, deps[j].target);
      }
    }
  }

  // ---------------------------------------------------------------------------
  // Metadata and the whole graph
  // ---------------------------------------------------------------------------

  /** `createMetadata`; `timestamp` stands for the current time as an ISO string. */
  function MetadataOf(analysis: AnalysisResult, timestamp: string): GraphMetadata {
    GraphMetadata(|analysis.files|, |analysis.dependencies|, |analysis.circularDependencies|,
                  |analysis.orphanedFiles|, timestamp, CommonRoot(analysis.files))
  }

  function GraphOf(analysis: AnalysisResult, timestamp: string): GraphData {
    var root := CommonRoot(analysis.files);
    GraphData(NodesOf(root, analysis.files, analysis.orphanedFiles, analysis.entryPoints),
              EdgesOf(analysis.dependencies), MetadataOf(analysis, timestamp))
  }

  /** `generate` */
  method Generate(analysis: AnalysisResult, timestamp: string) returns (graph: GraphData)
    ensures graph == GraphOf(analysis, timestamp)
  {
    var nodes := CreateNodes(analysis);
    var edges := CreateEdges(analysis);
    var root := FindCommonRoot(analysis.files);
    var metadata := GraphMetadata(|analysis.files|, |analysis.dependencies|, |analysis.circularDependencies|,
                                  |analysis.orphanedFiles|, timestamp, root);
    graph := GraphData(nodes, edges, metadata);
  }

  /**
   * The metadata agrees with the drawn graph: as many files as nodes and as
   * many dependencies as edges.
   */
  lemma MetadataMatchesGraph(analysis: AnalysisResult, timestamp: string)
    ensures var g := GraphOf(analysis, timestamp);
            g.metadata.totalFiles == |g.nodes| && g.metadata.totalDependencies == |g.edges|
            && g.metadata.workspacePath == CommonRoot(analysis.files)
  {
    NodesAt(CommonRoot(analysis.files), analysis.files, analysis.orphanedFiles, analysis.entryPoints);
    EdgesAt(analysis.dependencies);
  }

  /** An empty analysis gives an empty graph with an empty workspace path. */
  lemma EmptyGraph(timestamp: string)
    ensures GraphOf(AnalysisResult([], [], [], [], []), timestamp)
            == GraphData([], [], GraphMetadata(0, 0, 0, 0, timestamp, ""))
  {
  }
}
