/**
 * The analyzer's adjacency map (`dependencyMap`) and its cycle search
 * (`detectCircularDependencies` in src/analyzer/index.ts).
 *
 * The search is a depth-first traversal keeping a global visited set and a
 * recursion-stack set. When an edge reaches a node on the stack, the part of
 * the current path from that node on, followed by the node again, is
 * recorded. `Visit`/`VisitAll`/`DetectCycles` state the traversal as
 * functions; `CycleDetector` runs it on mutable fields as the source does.
 */
module DependencyGraph {

  /** A JavaScript `Map<string, Set<string>>`: keys in insertion order, targets in insertion order. */
  datatype DependencyMap = DependencyMap(keys: seq<string>, succ: map<string, seq<string>>)

  /** `dependencyMap.get(n) || new Set()` */
  function Succ(g: DependencyMap, n: string): seq<string> {
    if n in g.succ then g.succ[n] else []
  }

  /** Every target recorded in the map. */
  function ImportedTargets(g: DependencyMap): set<string> {
    set k, t | k in g.succ && t in g.succ[k] :: t
  }

  /** Every node the traversal can reach. */
  function Nodes(g: DependencyMap): set<string> {
    (set k | k in g.keys) + g.succ.Keys + ImportedTargets(g)
  }

  lemma SuccInNodes(g: DependencyMap, n: string)
    ensures forall t :: t in Succ(g, n) ==> t in Nodes(g)
  {
  }

  function Elems(p: seq<string>): set<string> {
    set x | x in p
  }

  /** `path.indexOf(x)` */
  function IndexOf(p: seq<string>, x: string): (r: int)
    ensures -1 <= r < |p|
    ensures r == -1 <==> x !in p
    ensures r >= 0 ==> p[r] == x && x !in p[..r]
  {
    if p == [] then -1
    else if p[0] == x then 0
    else
      var r := IndexOf(p[1..], x);
      assert r >= 0 ==> p[..r + 1] == [p[0]] + p[1..][..r];
      if r == -1 then -1 else r + 1
  }

  /** The traversal state: `visited`, `recursionStack` and `circular` of the source. */
  datatype Search = Search(visited: set<string>, onStack: set<string>, cycles: seq<seq<string>>)

  /** An edge from the last node of `path` reaches `dep`, which is on the stack. */
  function RecordCycle(path: seq<string>, dep: string, s: Search): Search {
    var k := IndexOf(path, dep);
    if k >= 0 then s.(cycles := s.cycles + [path[k..] + [dep]]) else s
  }

  /** `dfs(node, path)`: visit `node`, then its targets in order, then pop it from the stack. */
  function Visit(g: DependencyMap, node: string, path: seq<string>, s: Search): (r: Search)
    requires node in Nodes(g) && node !in s.visited && s.visited <= Nodes(g)
    ensures s.visited + {node} <= r.visited <= Nodes(g)
    decreases Nodes(g) - s.visited, 0
  {
    var s1 := Search(s.visited + {node}, s.onStack + {node}, s.cycles);
    SuccInNodes(g, node);
    var s2 := VisitAll(g, Succ(g, node), 0, path + [node], s1);
    s2.(onStack := s2.onStack - {node})
  }

  /** The loop over the targets `deps` of the last node of `path`, from index `i`. */
  function VisitAll(g: DependencyMap, deps: seq<string>, i: nat, path: seq<string>, s: Search): (r: Search)
    requires i <= |deps| && s.visited <= Nodes(g)
    requires forall d :: d in deps ==> d in Nodes(g)
    ensures s.visited <= r.visited <= Nodes(g)
    decreases Nodes(g) - s.visited, 1, |deps| - i
  {
    if i == |deps| then s
    else
      var dep := deps[i];
      var next :=
        if dep !in s.visited then Visit(g, dep, path, s)
        else if dep in s.onStack then RecordCycle(path, dep, s)
        else s;
      VisitAll(g, deps, i + 1, path, next)
  }

  /** The outer loop over the keys of the map, from index `i`. */
  function DetectFrom(g: DependencyMap, i: nat, s: Search): (r: Search)
    requires i <= |g.keys| && s.visited <= Nodes(g)
    decreases |g.keys| - i
  {
    if i == |g.keys| then s
    else
      var next := if g.keys[i] !in s.visited then Visit(g, g.keys[i], [], s) else s;
      DetectFrom(g, i + 1, next)
  }

  /** The cycles reported for `g`, in the order they are found. */
  function DetectCycles(g: DependencyMap): seq<seq<string>> {
    DetectFrom(g, 0, Search({}, {}, [])).cycles
  }

  /** Each consecutive pair of `p` is an edge of `g`. */
  predicate IsWalk(g: DependencyMap, p: seq<string>) {
    forall i :: 0 <= i < |p| - 1 ==> p[i + 1] in Succ(g, p[i])
  }

  /** A closed walk: at least two entries, first equals last, every step an edge. */
  predicate IsCycle(g: DependencyMap, c: seq<string>) {
    |c| >= 2 && c[0] == c[|c| - 1] && IsWalk(g, c)
  }

  predicate AllCycles(g: DependencyMap, cs: seq<seq<string>>) {
    forall k :: 0 <= k < |cs| ==> IsCycle(g, cs[k])
  }

  /** What holds whenever `dfs` is entered or resumes its loop: the stack is the current path. */
  predicate OnPath(g: DependencyMap, path: seq<string>, s: Search) {
    IsWalk(g, path) && s.onStack == Elems(path) && Elems(path) <= s.visited && AllCycles(g, s.cycles)
  }

  /** A back edge from the end of a walk to its k-th node closes a cycle. */
  lemma SuffixClosesCycle(g: DependencyMap, path: seq<string>, k: nat, dep: string)
    requires IsWalk(g, path) && k < |path| && path[k] == dep && dep in Succ(g, path[|path| - 1])
    ensures IsCycle(g, path[k..] + [dep])
  {
    var c := path[k..] + [dep];
    forall i | 0 <= i < |c| - 1 ensures c[i + 1] in Succ(g, c[i]) {
      if i < |c| - 2 {
        assert c[i] == path[k + i] && c[i + 1] == path[k + i + 1];
      } else {
        assert c[i] == path[|path| - 1];
      }
    }
  }

  /** Recording the cycle of a back edge keeps every recorded cycle closed. */
  lemma RecordCycleKeepsCycles(g: DependencyMap, path: seq<string>, dep: string, s: Search)
    requires path != [] && OnPath(g, path, s)
    requires dep in s.onStack && dep in Succ(g, path[|path| - 1])
    ensures AllCycles(g, RecordCycle(path, dep, s).cycles)
  {
    var k := IndexOf(path, dep);
    assert dep in Elems(path);
    SuffixClosesCycle(g, path, k, dep);
    var cs := s.cycles + [path[k..] + [dep]];
    assert RecordCycle(path, dep, s).cycles == cs;
    forall j | 0 <= j < |cs| ensures IsCycle(g, cs[j]) {
      if j < |s.cycles| {
        assert cs[j] == s.cycles[j];
      }
    }
  }

  lemma {:induction false} VisitKeepsCycles(g: DependencyMap, node: string, path: seq<string>, s: Search)
    requires node in Nodes(g) && node !in s.visited && s.visited <= Nodes(g)
    requires OnPath(g, path, s)
    requires path != [] ==> node in Succ(g, path[|path| - 1])
    ensures Visit(g, node, path, s).onStack == s.onStack
    ensures AllCycles(g, Visit(g, node, path, s).cycles)
    decreases Nodes(g) - s.visited, 0
  {
    var s1 := Search(s.visited + {node}, s.onStack + {node}, s.cycles);
    var p := path + [node];
    assert IsWalk(g, p) by {
      forall i | 0 <= i < |p| - 1 ensures p[i + 1] in Succ(g, p[i]) {
        if i < |p| - 2 {
          assert p[i] == path[i] && p[i + 1] == path[i + 1];
        }
      }
    }
    assert Elems(p) == Elems(path) + {node};
    SuccInNodes(g, node);
    VisitAllKeepsCycles(g, Succ(g, node), 0, p, s1);
    assert node !in Elems(path);
  }

  lemma {:induction false} VisitAllKeepsCycles(g: DependencyMap, deps: seq<string>, i: nat, path: seq<string>, s: Search)
    requires i <= |deps| && s.visited <= Nodes(g)
    requires forall d :: d in deps ==> d in Nodes(g)
    requires path != [] && deps == Succ(g, path[|path| - 1])
    requires OnPath(g, path, s)
    ensures VisitAll(g, deps, i, path, s).onStack == s.onStack
    ensures AllCycles(g, VisitAll(g, deps, i, path, s).cycles)
    decreases Nodes(g) - s.visited, 1, |deps| - i
  {
    if i < |deps| {
      var dep := deps[i];
      var next :=
        if dep !in s.visited then Visit(g, dep, path, s)
        else if dep in s.onStack then RecordCycle(path, dep, s)
        else s;
      if dep !in s.visited {
        VisitKeepsCycles(g, dep, path, s);
      } else if dep in s.onStack {
        RecordCycleKeepsCycles(g, path, dep, s);
      }
      assert OnPath(g, path, next);
      VisitAllKeepsCycles(g, deps, i + 1, path, next);
    }
  }

  lemma {:induction false} DetectFromKeepsCycles(g: DependencyMap, i: nat, s: Search)
    requires i <= |g.keys| && s.visited <= Nodes(g)
    requires s.onStack == {} && AllCycles(g, s.cycles)
    ensures AllCycles(g, DetectFrom(g, i, s).cycles)
    decreases |g.keys| - i
  {
    if i < |g.keys| {
      var next := if g.keys[i] !in s.visited then Visit(g, g.keys[i], [], s) else s;
      if g.keys[i] !in s.visited {
        assert Elems([]) == {};
        VisitKeepsCycles(g, g.keys[i], [], s);
      }
      DetectFromKeepsCycles(g, i + 1, next);
    }
  }

  /**
   * Every reported cycle is a closed walk of the map: at least two entries,
   * the first equal to the last, and each consecutive pair an edge.
   */
  lemma DetectedCyclesAreClosedWalks(g: DependencyMap)
    ensures forall k :: 0 <= k < |DetectCycles(g)| ==> IsCycle(g, DetectCycles(g)[k])
  {
    DetectFromKeepsCycles(g, 0, Search({}, {}, []));
  }

  /** Three files importing each other in a ring: a -> b -> c -> a. */
  function Ring(a: string, b: string, c: string): DependencyMap {
    DependencyMap([a, b, c], map[a := [b], b := [c], c := [a]])
  }

  lemma RingShape(a: string, b: string, c: string)
    requires a != b && b != c && a != c
    ensures Succ(Ring(a, b, c), a) == [b] && Succ(Ring(a, b, c), b) == [c] && Succ(Ring(a, b, c), c) == [a]
    ensures Nodes(Ring(a, b, c)) == {a, b, c}
  {
    var g := Ring(a, b, c);
    assert a in g.keys && b in g.keys && c in g.keys;
  }

  /** Visiting c with [a, b] on the stack closes the cycle [a, b, c, a]. */
  lemma RingVisitC(a: string, b: string, c: string)
    requires a != b && b != c && a != c
    ensures Nodes(Ring(a, b, c)) == {a, b, c}
    ensures Visit(Ring(a, b, c), c, [a, b], Search({a, b}, {a, b}, []))
         == Search({a, b, c}, {a, b}, [[a, b, c, a]])
  {
    RingShape(a, b, c);
    var g := Ring(a, b, c);
    var sc := Search({a, b, c}, {a, b, c}, []);
    var closed := Search({a, b, c}, {a, b, c}, [[a, b, c, a]]);
    assert IndexOf([a, b, c], a) == 0;
    assert [a, b, c][0..] + [a] == [a, b, c, a];
    assert RecordCycle([a, b, c], a, sc) == closed;
    assert VisitAll(g, [a], 0, [a, b, c], sc) == closed;
    assert [a, b] + [c] == [a, b, c];
    assert {a, b} + {c} == {a, b, c} && {a, b, c} - {c} == {a, b};
  }

  lemma RingVisitB(a: string, b: string, c: string)
    requires a != b && b != c && a != c
    ensures Nodes(Ring(a, b, c)) == {a, b, c}
    ensures Visit(Ring(a, b, c), b, [a], Search({a}, {a}, []))
         == Search({a, b, c}, {a}, [[a, b, c, a]])
  {
    RingShape(a, b, c);
    RingVisitC(a, b, c);
    var g := Ring(a, b, c);
    var afterC := Search({a, b, c}, {a, b}, [[a, b, c, a]]);
    assert [a] + [b] == [a, b];
    assert {a} + {b} == {a, b} && {a, b, c} - {b} == {a, c};
    assert VisitAll(g, [c], 0, [a, b], Search({a, b}, {a, b}, [])) == afterC;
    assert {a, b} - {b} == {a};
  }

  lemma RingVisitA(a: string, b: string, c: string)
    requires a != b && b != c && a != c
    ensures Nodes(Ring(a, b, c)) == {a, b, c}
    ensures Visit(Ring(a, b, c), a, [], Search({}, {}, []))
         == Search({a, b, c}, {}, [[a, b, c, a]])
  {
    RingShape(a, b, c);
    RingVisitB(a, b, c);
    var g := Ring(a, b, c);
    var afterB := Search({a, b, c}, {a}, [[a, b, c, a]]);
    assert [] + [a] == [a];
    assert {} + {a} == {a} && {a} - {a} == {};
    assert VisitAll(g, [b], 0, [a], Search({a}, {a}, [])) == afterB;
  }

  /**
   * A ring of three files importing each other produces exactly one reported
   * cycle, [a, b, c, a].
   */
  lemma {:induction false} TriangleHasOneCycle(a: string, b: string, c: string)
    requires a != b && b != c && a != c
    ensures DetectCycles(Ring(a, b, c)) == [[a, b, c, a]]
  {
    RingVisitA(a, b, c);
    var g := Ring(a, b, c);
    var afterA := Search({a, b, c}, {}, [[a, b, c, a]]);
    assert g.keys[1] == b && g.keys[2] == c && |g.keys| == 3;
    assert DetectFrom(g, 3, afterA) == afterA;
    assert DetectFrom(g, 2, afterA) == afterA;
    assert DetectFrom(g, 1, afterA) == afterA;
    assert DetectFrom(g, 0, Search({}, {}, [])) == afterA;
  }

  /** The state the closure in the source captures, as fields updated in place. */
  class CycleDetector {
    const graph: DependencyMap
    var visited: set<string>
    var recursionStack: set<string>
    var circular: seq<seq<string>>

    function State(): Search
      reads this
    {
      Search(visited, recursionStack, circular)
    }

    constructor(g: DependencyMap)
      ensures graph == g && State() == Search({}, {}, [])
    {
      graph := g;
      visited := {};
      recursionStack := {};
      circular := [];
    }

    /** `dfs(node, path)`; `path` is passed by copy, as the source does with `[...path]`. */
    method Dfs(node: string, path: seq<string>)
      requires node in Nodes(graph) && node !in visited && visited <= Nodes(graph)
      modifies this
      ensures State() == Visit(graph, node, path, old(State()))
      decreases Nodes(graph) - visited
    {
      ghost var s0 := State();
      visited := visited + {node};
      recursionStack := recursionStack + {node};
      var p := path + [node];
      var deps := Succ(graph, node);
      SuccInNodes(graph, node);
      ghost var s1 := State();
      var i := 0;
      while i < |deps|
        invariant 0 <= i <= |deps|
        invariant s1.visited <= visited <= Nodes(graph)
        invariant VisitAll(graph, deps, i, p, State()) == VisitAll(graph, deps, 0, p, s1)
      {
        var dep := deps[i];
        if dep !in visited {
          Dfs(dep, p);
        } else if dep in recursionStack {
          var cycleStart := IndexOf(p, dep);
          if cycleStart >= 0 {
            circular := circular + [p[cycleStart..] + [dep]];
          }
        }
        i := i + 1;
      }
      recursionStack := recursionStack - {node};
    }

    /** The outer loop of `detectCircularDependencies` over the map's keys. */
    method Run()
      requires State() == Search({}, {}, [])
      modifies this
      ensures circular == DetectCycles(graph)
    {
      var i := 0;
      while i < |graph.keys|
        invariant 0 <= i <= |graph.keys|
        invariant visited <= Nodes(graph)
        invariant DetectFrom(graph, i, State()) == DetectFrom(graph, 0, Search({}, {}, []))
      {
        var file := graph.keys[i];
        if file !in visited {
          Dfs(file, []);
        }
        i := i + 1;
      }
    }
  }

  /** `detectCircularDependencies(dependencyMap)` */
  method DetectCircularDependencies(g: DependencyMap) returns (circular: seq<seq<string>>)
    ensures circular == DetectCycles(g)
    ensures forall k :: 0 <= k < |circular| ==> IsCycle(g, circular[k])
  {
    var detector := new CycleDetector(g);
    detector.Run();
    circular := detector.circular;
    DetectedCyclesAreClosedWalks(g);
  }
}
