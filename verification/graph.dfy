/**
 * `dfsNode` and `findRootNodes`: the import graph's roots, and the check
 * that no stylesheet imports itself, however indirectly.
 */
module ImportGraph {
  import opened Wrappers
  import opened Model
  import opened Util

  /** The `@import` edges of every template, as lists of child indices. */
  type Graph = seq<seq<nat>>

  /** Every edge names a template of the graph. */
  predicate ValidGraph(g: Graph) {
    forall i :: 0 <= i < |g| ==> Targets(g, g[i])
  }

  predicate Targets(g: Graph, cs: seq<nat>) {
    forall c :: c in cs ==> c < |g|
  }

  /** Step `i` of `w` follows an edge. */
  predicate Step(g: Graph, w: seq<nat>, i: nat)
    requires 0 < i < |w|
  {
    w[i - 1] < |g| && w[i] in g[w[i - 1]]
  }

  /** A walk along import edges. */
  predicate IsWalk(g: Graph, w: seq<nat>) {
    && (forall i :: 0 <= i < |w| ==> w[i] < |g|)
    && (forall i :: 0 < i < |w| ==> Step(g, w, i))
  }

  predicate Distinct(s: seq<nat>) {
    forall i, j :: 0 <= i < j < |s| ==> s[i] != s[j]
  }

  /** Some template imports itself through one or more edges. */
  ghost predicate HasCycle(g: Graph) {
    exists w :: IsWalk(g, w) && |w| >= 2 && w[0] == w[|w| - 1]
  }

  /** The trail a cycle is reported with: a walk that repeats only its last node, which it met before. */
  predicate CycleTrail(g: Graph, t: seq<nat>) {
    && IsWalk(g, t)
    && |t| >= 2
    && Distinct(t[..|t| - 1])
    && t[|t| - 1] in t[..|t| - 1]
  }

  /** Every walk from `x` visits each template at most once. */
  ghost predicate SimpleFrom(g: Graph, x: nat) {
    forall w :: IsWalk(g, w) && |w| >= 1 && w[0] == x ==> Distinct(w)
  }

  /** The templates not on the current path: the measure of the search. */
  function OffPath(g: Graph, path: seq<nat>): set<nat> {
    set i: nat | i < |g| && i !in path
  }

  /** Putting a node not yet on the path onto it leaves fewer nodes off the path. */
  lemma OffPathShrinks(g: Graph, path: seq<nat>, node: nat)
    requires node < |g| && node !in path
    ensures OffPath(g, path + [node]) < OffPath(g, path)
  {
    assert node in OffPath(g, path);
    assert node in path + [node];
    assert node !in OffPath(g, path + [node]);
  }

  /** `unvisited.splice(unvisited.indexOf(node), 1)` when `node` is present: its first occurrence removed. */
  function Remove(unv: seq<nat>, node: nat): (r: seq<nat>)
    ensures forall x :: x in r ==> x in unv
    ensures forall x :: x in unv && x !in r ==> x == node
    ensures node in unv ==> |r| < |unv|
    ensures |r| <= |unv|
  {
    var k := GetArrIdx(unv, (x: nat) => x, node);
    if k == -1 then unv
    else
      SpliceMembers(unv, k);
      unv[..k] + unv[k + 1..]
  }

  lemma SpliceMembers(s: seq<nat>, k: nat)
    requires k < |s|
    ensures forall x :: x in s[..k] + s[k + 1..] ==> x in s
    ensures forall x :: x in s && x != s[k] ==> x in s[..k] + s[k + 1..]
  {
    var r := s[..k] + s[k + 1..];
    forall x | x in r
      ensures x in s
    {
      var j :| 0 <= j < |r| && r[j] == x;
      if j < k { assert s[j] == x; } else { assert s[j + 1] == x; }
    }
    forall x | x in s && x != s[k]
      ensures x in r
    {
      var j :| 0 <= j < |s| && s[j] == x;
      if j < k { assert r[j] == x; } else { assert r[j - 1] == x; }
    }
  }

  /** A walk extended along an edge out of its last node is a walk. */
  lemma ExtendWalk(g: Graph, path: seq<nat>, c: nat)
    requires ValidGraph(g) && IsWalk(g, path)
    requires |path| == 0 ==> c < |g|
    requires |path| > 0 ==> c in g[path[|path| - 1]]
    ensures IsWalk(g, path + [c])
  {
    var w := path + [c];
    assert forall i :: 0 <= i < |path| ==> w[i] == path[i];
    if |path| > 0 {
      assert Targets(g, g[path[|path| - 1]]);
    }
    forall i | 0 < i < |w|
      ensures Step(g, w, i)
    {
      if i < |path| { assert Step(g, path, i); }
    }
  }

  // ---------------------------------------------------------------------------
  // dfsNode
  // ---------------------------------------------------------------------------

  /**
   * `dfsNode(path, unvisited, node)`: a node already on the path closes a
   * cycle, reported as the path with the node appended; otherwise the node
   * leaves `unvisited` and every child is searched with the node on the
   * path. Visited nodes are searched again, so a success speaks for every
   * walk from the node. The result is the remaining `unvisited`, or the
   * cycle's trail.
   */
  function Dfs(g: Graph, path: seq<nat>, unv: seq<nat>, node: nat): (r: Result<seq<nat>, seq<nat>>)
    requires ValidGraph(g) && IsWalk(g, path + [node]) && Distinct(path)
    ensures r.Ok? ==> |r.value| <= |unv| && (node in unv ==> |r.value| < |unv|)
    ensures r.Ok? ==> forall x :: x in r.value ==> x in unv
    ensures r.Err? ==> CycleTrail(g, r.error)
    decreases OffPath(g, path), 0, 0
  {
    if node in path then
      assert (path + [node])[..|path + [node]| - 1] == path;
      Err(path + [node])
    else
      var p := path + [node];
      assert Distinct(p);
      assert (path + [node])[|path|] == node;
      OffPathShrinks(g, path, node);
      DfsChildren(g, p, Remove(unv, node), 0)
  }

  /** The loop over the children of the path's last node; the first cycle found stops it. */
  function DfsChildren(g: Graph, path: seq<nat>, unv: seq<nat>, k: nat): (r: Result<seq<nat>, seq<nat>>)
    requires ValidGraph(g) && IsWalk(g, path) && Distinct(path) && |path| > 0
    requires k <= |g[path[|path| - 1]]|
    ensures r.Ok? ==> |r.value| <= |unv|
    ensures r.Ok? ==> forall x :: x in r.value ==> x in unv
    ensures r.Err? ==> CycleTrail(g, r.error)
    decreases OffPath(g, path), 1, |g[path[|path| - 1]]| - k
  {
    var last := path[|path| - 1];
    if k == |g[last]| then Ok(unv)
    else
      var child := g[last][k];
      ExtendWalk(g, path, child);
      match Dfs(g, path, unv, child)
      case Err(t) => Err(t)
      case Ok(u) => DfsChildren(g, path, u, k + 1)
  }

  /** A successful search from the `k`-th child on also searched every later child successfully. */
  lemma {:induction false} ChildDone(g: Graph, path: seq<nat>, unv: seq<nat>, k: nat, m: nat) returns (u0: seq<nat>)
    requires ValidGraph(g) && IsWalk(g, path) && Distinct(path) && |path| > 0
    requires k <= m < |g[path[|path| - 1]]|
    requires DfsChildren(g, path, unv, k).Ok?
    ensures IsWalk(g, path + [g[path[|path| - 1]][m]])
    ensures Dfs(g, path, u0, g[path[|path| - 1]][m]).Ok?
    decreases m - k
  {
    var last := path[|path| - 1];
    ExtendWalk(g, path, g[last][m]);
    ExtendWalk(g, path, g[last][k]);
    var first := Dfs(g, path, unv, g[last][k]);
    if k == m {
      u0 := unv;
    } else {
      u0 := ChildDone(g, path, first.value, k + 1, m);
    }
  }

  /**
   * A successful search from `node` with `path` above it: every walk from
   * `node` visits each template once and never returns to the path.
   */
  lemma {:induction false} DfsWalks(g: Graph, path: seq<nat>, unv: seq<nat>, node: nat, w: seq<nat>)
    requires ValidGraph(g) && IsWalk(g, path + [node]) && Distinct(path)
    requires Dfs(g, path, unv, node).Ok?
    requires IsWalk(g, w) && |w| >= 1 && w[0] == node
    ensures Distinct(w)
    ensures forall j :: 0 <= j < |w| ==> w[j] !in path
    decreases |w|
  {
    assert node !in path;
    if |w| > 1 {
      var p := path + [node];
      assert Step(g, w, 1);
      var m :| 0 <= m < |g[node]| && g[node][m] == w[1];
      assert p[|p| - 1] == node;
      assert Distinct(p);
      assert IsWalk(g, p) by {
        assert forall i :: 0 < i < |p| ==> Step(g, path + [node], i);
      }
      var u0 := ChildDone(g, p, Remove(unv, node), 0, m);
      var rest := w[1..];
      assert IsWalk(g, rest) by {
        forall i | 0 < i < |rest|
          ensures Step(g, rest, i)
        {
          assert Step(g, w, i + 1) && rest[i - 1] == w[i] && rest[i] == w[i + 1];
        }
      }
      DfsWalks(g, p, u0, w[1], rest);
      forall i, j | 0 <= i < j < |w|
        ensures w[i] != w[j]
      {
        if i == 0 {
          assert w[j] == rest[j - 1] && w[j] !in p;
        } else {
          assert w[i] == rest[i - 1] && w[j] == rest[j - 1];
        }
      }
      forall j | 0 <= j < |w|
        ensures w[j] !in path
      {
        if j > 0 { assert w[j] == rest[j - 1]; }
      }
    }
  }

  /** A successful search leaves every node it removed from `unvisited` with simple walks only. */
  lemma DfsSimple(g: Graph, path: seq<nat>, unv: seq<nat>, node: nat)
    requires ValidGraph(g) && IsWalk(g, path + [node]) && Distinct(path)
    requires Dfs(g, path, unv, node).Ok?
    ensures forall x :: x in unv && x !in Dfs(g, path, unv, node).value ==> SimpleFrom(g, x)
    decreases OffPath(g, path), 0, 0
  {
    forall w | IsWalk(g, w) && |w| >= 1 && w[0] == node
      ensures Distinct(w)
    {
      DfsWalks(g, path, unv, node, w);
    }
    var p := path + [node];
    assert node in OffPath(g, path) && node !in OffPath(g, p);
    assert Distinct(p);
    DfsChildrenSimple(g, p, Remove(unv, node), 0);
  }

  lemma DfsChildrenSimple(g: Graph, path: seq<nat>, unv: seq<nat>, k: nat)
    requires ValidGraph(g) && IsWalk(g, path) && Distinct(path) && |path| > 0
    requires k <= |g[path[|path| - 1]]|
    requires DfsChildren(g, path, unv, k).Ok?
    ensures forall x :: x in unv && x !in DfsChildren(g, path, unv, k).value ==> SimpleFrom(g, x)
    decreases OffPath(g, path), 1, |g[path[|path| - 1]]| - k
  {
    var last := path[|path| - 1];
    if k < |g[last]| {
      var child := g[last][k];
      ExtendWalk(g, path, child);
      var u := Dfs(g, path, unv, child).value;
      DfsSimple(g, path, unv, child);
      DfsChildrenSimple(g, path, u, k + 1);
    }
  }

  // ---------------------------------------------------------------------------
  // findRootNodes
  // ---------------------------------------------------------------------------

  predicate InGraph(g: Graph, s: seq<nat>) {
    forall i :: 0 <= i < |s| ==> s[i] < |g|
  }

  /** Searching from each root in turn. */
  function SearchRoots(g: Graph, roots: seq<nat>, i: nat, unv: seq<nat>): (r: Result<seq<nat>, seq<nat>>)
    requires ValidGraph(g) && InGraph(g, roots) && i <= |roots|
    ensures r.Ok? ==> forall x :: x in r.value ==> x in unv
    ensures r.Ok? ==> forall x :: x in unv && x !in r.value ==> SimpleFrom(g, x)
    ensures r.Err? ==> CycleTrail(g, r.error)
    decreases |roots| - i
  {
    if i == |roots| then Ok(unv)
    else
      ExtendWalk(g, [], roots[i]);
      match Dfs(g, [], unv, roots[i])
      case Err(t) => Err(t)
      case Ok(u) =>
        DfsSimple(g, [], unv, roots[i]);
        SearchRoots(g, roots, i + 1, u)
  }

  /** Searching from the first unvisited node until none is left. */
  function Sweep(g: Graph, unv: seq<nat>): (r: Result<(), seq<nat>>)
    requires ValidGraph(g) && InGraph(g, unv)
    ensures r.Ok? ==> forall x :: x in unv ==> SimpleFrom(g, x)
    ensures r.Err? ==> CycleTrail(g, r.error)
    decreases |unv|
  {
    if |unv| == 0 then Ok(())
    else
      ExtendWalk(g, [], unv[0]);
      match Dfs(g, [], unv, unv[0])
      case Err(t) => Err(t)
      case Ok(u) =>
        DfsSimple(g, [], unv, unv[0]);
        assert InGraph(g, u) by {
          forall i | 0 <= i < |u| ensures u[i] < |g| { assert u[i] in unv; }
        }
        Sweep(g, u)
  }

  /** `0, 1, ..., n - 1`: the initial `unvisited`. */
  function Range(n: nat): (r: seq<nat>)
    ensures |r| == n && forall i :: 0 <= i < n ==> r[i] == i
  {
    seq(n, i => i)
  }

  /** The roots' searches, then the sweep: a cycle trail, or success. */
  function FindCycle(g: Graph, roots: seq<nat>): (r: Result<(), seq<nat>>)
    requires ValidGraph(g) && InGraph(g, roots)
    ensures r.Err? ==> CycleTrail(g, r.error)
    ensures r.Ok? ==> forall x: nat :: x < |g| ==> SimpleFrom(g, x)
  {
    var all := Range(|g|);
    match SearchRoots(g, roots, 0, all)
    case Err(t) => Err(t)
    case Ok(u) =>
      assert InGraph(g, u) by {
        forall i | 0 <= i < |u| ensures u[i] < |g| { assert u[i] in all; }
      }
      var s := Sweep(g, u);
      assert forall x: nat :: x < |g| ==> x in all by {
        forall x: nat | x < |g| ensures x in all { assert all[x] == x; }
      }
      s
  }

  /** A reported trail holds a cycle: its part from the first visit of the repeated node. */
  lemma TrailHasCycle(g: Graph, t: seq<nat>)
    requires CycleTrail(g, t)
    ensures HasCycle(g)
  {
    var last := t[|t| - 1];
    var k :| 0 <= k < |t| - 1 && t[k] == last;
    var w := t[k..];
    assert IsWalk(g, w) by {
      forall i | 0 < i < |w|
        ensures Step(g, w, i)
      {
        assert Step(g, t, i + k) && w[i - 1] == t[i - 1 + k] && w[i] == t[i + k];
      }
    }
    assert w[0] == w[|w| - 1];
  }

  /** If every walk is simple, no walk returns to its start. */
  lemma SimpleMeansAcyclic(g: Graph)
    requires forall x: nat :: x < |g| ==> SimpleFrom(g, x)
    ensures !HasCycle(g)
  {
    forall w | IsWalk(g, w) && |w| >= 2
      ensures w[0] != w[|w| - 1]
    {
      assert SimpleFrom(g, w[0]);
      assert Distinct(w);
    }
  }

  /** The search fails exactly when the graph has a cycle. */
  lemma FindCycleComplete(g: Graph, roots: seq<nat>)
    requires ValidGraph(g) && InGraph(g, roots)
    ensures FindCycle(g, roots).Err? <==> HasCycle(g)
  {
    var r := FindCycle(g, roots);
    if r.Err? {
      TrailHasCycle(g, r.error);
    } else {
      SimpleMeansAcyclic(g);
    }
  }

  // ---------------------------------------------------------------------------
  // Over templates
  // ---------------------------------------------------------------------------

  /** The import graph of a compile: each template's child indices. */
  function ChildGraph(ts: seq<Template>): (g: Graph)
    ensures |g| == |ts| && forall i :: 0 <= i < |ts| ==> g[i] == Indices(ts[i].children)
  {
    seq(|ts|, i requires 0 <= i < |ts| => Indices(ts[i].children))
  }

  /** The templates no other template imports, in ascending order from `i`. */
  function RootsFrom(ts: seq<Template>, i: nat): (r: seq<nat>)
    requires i <= |ts|
    ensures forall x: nat :: x in r <==> i <= x < |ts| && |ts[x].parents| == 0
    ensures forall a, b :: 0 <= a < b < |r| ==> r[a] < r[b]
    decreases |ts| - i
  {
    if i == |ts| then []
    else
      var rest := RootsFrom(ts, i + 1);
      forall a | 0 <= a < |rest|
        ensures rest[a] > i
      {
        assert rest[a] in rest;
      }
      if |ts[i].parents| == 0 then [i] + rest else rest
  }

  /** The paths of the templates along a trail, as the cycle error names them. */
  function TrailPaths(ts: seq<Template>, t: seq<nat>): (r: seq<string>)
    requires forall i :: 0 <= i < |t| ==> t[i] < |ts|
    ensures |r| == |t| && forall i :: 0 <= i < |t| ==> r[i] == ts[t[i]].path
  {
    seq(|t|, i requires 0 <= i < |t| => ts[t[i]].path)
  }

  /**
   * `findRootNodes`: the templates no other template imports, in index
   * order, or the cycle error naming the templates along the cycle's trail.
   * It fails exactly when some template imports itself, however indirectly.
   */
  function FindRootNodes(ts: seq<Template>): (r: Result<seq<nat>, CompileError>)
    requires ValidGraph(ChildGraph(ts))
    ensures r.Ok? <==> !HasCycle(ChildGraph(ts))
    ensures r.Ok? ==> forall x: nat :: x in r.value <==> x < |ts| && |ts[x].parents| == 0
    ensures r.Ok? ==> forall a, b :: 0 <= a < b < |r.value| ==> r.value[a] < r.value[b]
    ensures r.Err? ==> (&& r.error.CycleImport?
                        && exists t :: CycleTrail(ChildGraph(ts), t) && r.error.trail == TrailPaths(ts, t))
  {
    var g := ChildGraph(ts);
    var roots := RootsFrom(ts, 0);
    assert InGraph(g, roots) by {
      forall a | 0 <= a < |roots| ensures roots[a] < |g| { assert roots[a] in roots; }
    }
    FindCycleComplete(g, roots);
    match FindCycle(g, roots)
    case Err(t) =>
      var err := CycleImport(TrailPaths(ts, t));
      assert CycleTrail(g, t) && err.trail == TrailPaths(ts, t);
      Err(err)
    case Ok(_) => Ok(roots)
  }
}
