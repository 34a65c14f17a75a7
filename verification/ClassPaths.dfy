/** Sets of paths with their least member: what a node of the class walk carries in place of a list. */
module ClassPaths {
  import opened Ordering
  import opened FailureGraph
  import opened Chains
  import opened Enumeration
  import opened LiveChains
  import opened Layers

  /** A node of the class walk: dead when some node or passage on the way to it is ruled out. */
  datatype ClassNode = ClassNode(node: Node, dead: bool)

  /** One edge on: death is passed along, or begins here. */
  function ClassStep(live: Liveness, n: ClassNode, to: Node): ClassNode {
    ClassNode(to, n.dead || !LiveEdge(live, n.node, to))
  }

  function ClassTargets(live: Liveness, n: ClassNode, es: seq<Edge>): seq<ClassNode> {
    seq(|es|, i requires 0 <= i < |es| => ClassStep(live, n, es[i].to))
  }

  function ClassNext(g: Graph, live: Liveness, root: string): ClassNode -> seq<ClassNode> {
    (n: ClassNode) => ClassTargets(live, n, Edges(g, root, n.node))
  }

  lemma ClassNextMeans(g: Graph, live: Liveness, root: string, n: ClassNode, m: ClassNode)
    requires WellFormed(g)
    ensures m in ClassNext(g, live, root)(n) <==> IsEdge(g, root, n.node, m.node) && m == ClassStep(live, n, m.node)
  {
    var es := Edges(g, root, n.node);
    EdgesListed(g, root, n.node);
    if IsEdge(g, root, n.node, m.node) && m == ClassStep(live, n, m.node) {
      var e := Edge(m.node, LabelOf(g, n.node, m.node));
      assert e in es;
      var i :| 0 <= i < |es| && es[i] == e;
      assert ClassTargets(live, n, es)[i] == m;
    }
    if m in ClassTargets(live, n, es) {
      var i :| 0 <= i < |es| && ClassTargets(live, n, es)[i] == m;
      assert es[i] in es;
    }
  }

  // ---------------------------------------------------------------- the order of paths from one root

  predicate PathLess(v: Path, w: Path) {
    |v| < |w| || (|v| == |w| && StringLess(PathKey(v), PathKey(w)))
  }

  lemma PathLessTotal(v: Path, w: Path)
    requires CleanPath(v) && CleanPath(w)
    ensures v == w || PathLess(v, w) || PathLess(w, v)
    ensures !(PathLess(v, w) && PathLess(w, v))
  {
    StringTotal(PathKey(v), PathKey(w));
    StringAlmost(PathKey(v), PathKey(w), PathKey(v));
    if PathKey(v) == PathKey(w) { PathKeyInjective(v, w); }
  }

  lemma PathLessTransitive(u: Path, v: Path, w: Path)
    requires PathLess(u, v) && PathLess(v, w)
    ensures PathLess(u, w)
  {
    StringAlmost(PathKey(u), PathKey(v), PathKey(w));
  }

  lemma PathLessIsLess(g: Graph, v: Path, w: Path)
    requires v != [] && w != [] && v[0] == w[0]
    ensures Less(ScenarioOf(g, v), ScenarioOf(g, w)) == PathLess(v, w)
  {
    RenderNodes(g, v);
    RenderNodes(g, w);
  }

  /** A lesser prefix makes a lesser chain: keys of equally long paths are prefix-free. */
  lemma PathLessExtends(v: Path, w: Path, m: Node)
    requires CleanPath(v) && CleanPath(w) && v != w
    ensures PathLess(v + [m], w + [m]) == PathLess(v, w)
  {
    if |v| == |w| { PathKeyOrderExtends(v, w, [m], [m]); }
  }

  ghost predicate IsLeast(s: set<Path>, w: Path) {
    w in s && forall v :: v in s ==> v == w || PathLess(w, v)
  }

  ghost predicate AllClean(s: set<Path>) {
    forall v :: v in s ==> v != [] && CleanPath(v)
  }

  lemma MergeLeast(s: set<Path>, a: set<Path>, w: Path, v: Path)
    requires IsLeast(s, w) && IsLeast(a, v) && s !! a && AllClean(s) && AllClean(a)
    ensures IsLeast(s + a, if PathLess(v, w) then v else w)
    ensures |s + a| == |s| + |a|
  {
    hide PathLess;
    PathLessTotal(v, w);
    forall u | u in s + a ensures var x := if PathLess(v, w) then v else w; u == x || PathLess(x, u) {
      if PathLess(v, w) && u in s && u != w { PathLessTransitive(v, w, u); }
      if PathLess(w, v) && u in a && u != v { PathLessTransitive(w, v, u); }
    }
  }

  ghost function Extension(a: set<Path>, m: Node): set<Path> {
    set p | p in a :: p + [m]
  }

  lemma ExtensionMeans(a: set<Path>, m: Node, w: Path)
    ensures w in Extension(a, m) <==> w != [] && Last(w) == m && w[..|w| - 1] in a
  {
    if w != [] && Last(w) == m && w[..|w| - 1] in a {
      assert w == w[..|w| - 1] + [m];
    }
    if p :| p in a && w == p + [m] {
      assert w[..|w| - 1] == p;
    }
  }

  lemma {:induction false} ExtensionSize(a: set<Path>, m: Node)
    ensures |Extension(a, m)| == |a|
  {
    if a != {} {
      var p :| p in a;
      ExtensionSize(a - {p}, m);
      forall w ensures w in Extension(a, m) <==> w in Extension(a - {p}, m) + {p + [m]} {
        ExtensionMeans(a, m, w);
        ExtensionMeans(a - {p}, m, w);
        assert w == p + [m] ==> w[..|w| - 1] == p;
        if w != [] && Last(w) == m && w[..|w| - 1] == p { assert w == p + [m]; }
      }
      assert Extension(a, m) == Extension(a - {p}, m) + {p + [m]};
      ExtensionMeans(a - {p}, m, p + [m]);
      assert (p + [m])[..|p + [m]| - 1] == p;
    }
  }

  lemma ExtensionLeast(a: set<Path>, m: Node, v: Path)
    requires IsLeast(a, v) && AllClean(a) && CleanNode(m)
    ensures IsLeast(Extension(a, m), v + [m]) && AllClean(Extension(a, m))
  {
    hide PathLess;
    forall w | w in Extension(a, m) ensures w == v + [m] || PathLess(v + [m], w) {
      ExtensionMeans(a, m, w);
      var p := w[..|w| - 1];
      assert w == p + [m];
      if p != v { PathLessExtends(v, p, m); }
    }
    ExtensionMeans(a, m, v + [m]);
    assert (v + [m])[..|v + [m]| - 1] == v;
    forall w | w in Extension(a, m) ensures w != [] && CleanPath(w) {
      ExtensionMeans(a, m, w);
    }
  }

  // ---------------------------------------------------------------- paths from a root, by class

  ghost predicate Rooted(g: Graph, r: Node, w: Path) {
    w != [] && w[0] == r && IsPath(g, r.comp, w)
  }

  function ClassOf(live: Liveness, w: Path): ClassNode
    requires w != []
  {
    ClassNode(Last(w), !LivePath(live, w))
  }

  function Front(w: Path): Path
    requires w != []
  {
    w[..|w| - 1]
  }

  lemma ByLastStep(g: Graph, live: Liveness, r: Node, w: Path)
    requires |w| >= 2
    ensures Rooted(g, r, w) <==> Rooted(g, r, Front(w)) && IsEdge(g, r.comp, Last(Front(w)), Last(w))
    ensures ClassOf(live, w) == ClassStep(live, ClassOf(live, Front(w)), Last(w))
  {
    var p, m := Front(w), Last(w);
    assert w == p + [m];
    if Rooted(g, r, w) { PathTail(g, r.comp, w); }
    if Rooted(g, r, p) && IsEdge(g, r.comp, Last(p), m) { PathSnoc(g, r.comp, p, m); }
    LiveByLast(live, p, m);
  }

  lemma RootedClean(g: Graph, r: Node, w: Path)
    requires WellFormed(g) && InGraph(g, r) && Rooted(g, r, w)
    ensures CleanPath(w) && CleanNode(Last(w)) && InGraph(g, Last(w))
  {
    PathClean(g, r.comp, w);
  }

  /** w is counted: it is the root alone, its last node but one is done, or that is n and w's end is in ts. */
  ghost predicate Came(live: Liveness, w: Path, done: set<ClassNode>, n: ClassNode, ts: seq<ClassNode>)
    requires w != []
  {
    |w| == 1 || ClassOf(live, Front(w)) in done || (ClassOf(live, Front(w)) == n && ClassOf(live, w) in ts)
  }

  /** arr holds, class by class, exactly the rooted paths counted so far. */
  ghost predicate Arrived(g: Graph, live: Liveness, r: Node, arr: map<ClassNode, set<Path>>,
                          done: set<ClassNode>, n: ClassNode, ts: seq<ClassNode>)
  {
    forall k, w :: (k in arr && w in arr[k]) <==> (Rooted(g, r, w) && ClassOf(live, w) == k && Came(live, w, done, n, ts))
  }

  ghost function Got<K>(arr: map<K, set<Path>>, k: K): set<Path> {
    if k in arr then arr[k] else {}
  }

  lemma ArrivedClean(g: Graph, live: Liveness, r: Node, arr: map<ClassNode, set<Path>>,
                     done: set<ClassNode>, n: ClassNode, ts: seq<ClassNode>, k: ClassNode)
    requires WellFormed(g) && InGraph(g, r) && Arrived(g, live, r, arr, done, n, ts)
    ensures AllClean(Got(arr, k))
  {
    forall w | w in Got(arr, k) ensures w != [] && CleanPath(w) {
      assert k in arr && w in arr[k];
      RootedClean(g, r, w);
    }
  }

  /** Following one more edge from n adds exactly the extensions of the paths to n. */
  lemma ArriveOne(g: Graph, live: Liveness, r: Node, arr: map<ClassNode, set<Path>>,
                  done: set<ClassNode>, n: ClassNode, ts: seq<ClassNode>, m: Node)
    requires Arrived(g, live, r, arr, done, n, ts) && n in arr && n !in done
    requires forall w :: w in arr[n] <==> Rooted(g, r, w) && ClassOf(live, w) == n
    requires IsEdge(g, r.comp, n.node, m) && ClassStep(live, n, m) !in ts
    ensures var to := ClassStep(live, n, m);
            && Got(arr, to) !! Extension(arr[n], m)
            && Arrived(g, live, r, arr[to := Got(arr, to) + Extension(arr[n], m)], done, n, ts + [to])
  {
    hide IsEdge, LivePath, IsPath, Extension;
    var to := ClassStep(live, n, m);
    var arr' := arr[to := Got(arr, to) + Extension(arr[n], m)];
    forall w | w != []
      ensures w in Extension(arr[n], m) <==>
              |w| >= 2 && Rooted(g, r, w) && ClassOf(live, Front(w)) == n && ClassOf(live, w) == to
    {
      ExtensionArrives(g, live, r, arr[n], n, m, w);
    }
    forall w | w in Extension(arr[n], m) ensures w != [] { ExtensionMeans(arr[n], m, w); }
    forall w | w in Got(arr, to) ensures w !in Extension(arr[n], m) {
      assert to in arr && w in arr[to];
    }
    forall k, w ensures (k in arr' && w in arr'[k]) <==>
                        (Rooted(g, r, w) && ClassOf(live, w) == k && Came(live, w, done, n, ts + [to]))
    {
      assert (k in arr && w in arr[k]) <==> (Rooted(g, r, w) && ClassOf(live, w) == k && Came(live, w, done, n, ts));
    }
  }

  lemma ExtensionArrives(g: Graph, live: Liveness, r: Node, a: set<Path>, n: ClassNode, m: Node, w: Path)
    requires forall v :: v in a <==> Rooted(g, r, v) && ClassOf(live, v) == n
    requires IsEdge(g, r.comp, n.node, m) && w != []
    ensures w in Extension(a, m) <==>
            |w| >= 2 && Rooted(g, r, w) && ClassOf(live, Front(w)) == n && ClassOf(live, w) == ClassStep(live, n, m)
  {
    ExtensionMeans(a, m, w);
    if |w| >= 2 { ByLastStep(g, live, r, w); }
  }
}
