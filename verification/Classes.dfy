/** Representatives and counts over the graph, without listing a chain. */
module Classes {
  import opened Ordering
  import opened FailureGraph
  import opened Chains
  import opened Enumeration
  import opened LiveChains
  import opened Layers
  import opened Representatives
  import opened ClassPaths
  import Counting
  import PostOrder

  /** How many paths reach a class node, and the steps of the least of them, the last still open. */
  datatype ClassPath = ClassPath(count: nat, steps: seq<Step>)

  /** Among the chains of one root: where they end, and whether anything on the way is contradicted. */
  datatype Class = Class(terminal: string, dead: bool)

  // ---------------------------------------------------------------- entries

  function GrownSteps(steps: seq<Step>, e: Edge): seq<Step>
    requires steps != []
  {
    steps[|steps| - 1 := steps[|steps| - 1].(emitsOnEdge := e.via)] + [Step(e.to.comp, e.to.state, "", [])]
  }

  predicate Shorter(a: seq<Step>, b: seq<Step>) {
    |a| < |b| || (|a| == |b| && StringLess(ChainKey(a), ChainKey(b)))
  }

  /** cp counts the paths of s and holds the least of them. */
  ghost predicate Entry(g: Graph, cp: ClassPath, s: set<Path>) {
    var w := NodesOf(cp.steps);
    cp.count == |s| && IsLeast(s, w) && cp.steps == OpenSteps(g, w)
  }

  lemma EntryExtends(g: Graph, cp: ClassPath, a: set<Path>, e: Edge)
    requires Entry(g, cp, a) && AllClean(a) && CleanNode(e.to)
    requires cp.steps != [] && e.via == LabelOf(g, NodeOf(cp.steps[|cp.steps| - 1]), e.to)
    ensures Entry(g, ClassPath(cp.count, GrownSteps(cp.steps, e)), Extension(a, e.to))
  {
    var w := NodesOf(cp.steps);
    StepsExtend(g, w, e.to);
    assert GrownSteps(cp.steps, e) == OpenSteps(g, w + [e.to]);
    assert NodesOf(OpenSteps(g, w + [e.to])) == w + [e.to];
    ExtensionSize(a, e.to);
    ExtensionLeast(a, e.to, w);
  }

  lemma EntryMerges(g: Graph, q: ClassPath, s: set<Path>, c: ClassPath, a: set<Path>)
    requires Entry(g, q, s) && Entry(g, c, a) && s !! a && AllClean(s) && AllClean(a)
    ensures Entry(g, ClassPath(q.count + c.count, if Shorter(c.steps, q.steps) then c.steps else q.steps), s + a)
  {
    MergeLeast(s, a, NodesOf(q.steps), NodesOf(c.steps));
    assert |NodesOf(q.steps)| == |q.steps| && |NodesOf(c.steps)| == |c.steps|;
  }

  ghost predicate PathsHold(g: Graph, paths: map<ClassNode, ClassPath>, arr: map<ClassNode, set<Path>>) {
    paths.Keys == arr.Keys && forall k :: k in paths ==> Entry(g, paths[k], arr[k])
  }

  /** The walk's table once p's paths have gone on along e to class node `to`. */
  function Relaxed(paths: map<ClassNode, ClassPath>, p: ClassPath, to: ClassNode, e: Edge): map<ClassNode, ClassPath>
    requires p.steps != []
  {
    var steps := GrownSteps(p.steps, e);
    if to !in paths then paths[to := ClassPath(p.count, steps)]
    else
      var q := paths[to];
      paths[to := ClassPath(q.count + p.count, if Shorter(steps, q.steps) then steps else q.steps)]
  }

  lemma RelaxHolds(g: Graph, live: Liveness, r: Node, paths: map<ClassNode, ClassPath>, arr: map<ClassNode, set<Path>>,
                   done: set<ClassNode>, n: ClassNode, ts: seq<ClassNode>, e: Edge)
    requires WellFormed(g) && InGraph(g, r) && PathsHold(g, paths, arr) && Arrived(g, live, r, arr, done, n, ts)
    requires n in arr && n !in done && forall w :: w in arr[n] <==> Rooted(g, r, w) && ClassOf(live, w) == n
    requires IsEdge(g, r.comp, n.node, e.to) && e.via == LabelOf(g, n.node, e.to) && ClassStep(live, n, e.to) !in ts
    ensures paths[n].steps != []
    ensures var to := ClassStep(live, n, e.to);
            var arr' := arr[to := Got(arr, to) + Extension(arr[n], e.to)];
            && PathsHold(g, Relaxed(paths, paths[n], to, e), arr')
            && Arrived(g, live, r, arr', done, n, ts + [to])
  {
    hide Arrived, IsEdge, Rooted, LabelOf, OpenSteps, WellFormed, InGraph, Shorter, IsLeast, AllClean, Extension, ClassOf;
    var to := ClassStep(live, n, e.to);
    LastOfEntry(g, live, r, paths[n], arr[n], n);
    EdgeIsClean(g, r.comp, n.node, e.to);
    ArrivedClean(g, live, r, arr, done, n, ts, n);
    ArrivedClean(g, live, r, arr, done, n, ts, to);
    ArriveOne(g, live, r, arr, done, n, ts, e.to);
    EntryExtends(g, paths[n], arr[n], e);
    ExtensionLeast(arr[n], e.to, NodesOf(paths[n].steps));
    if to in paths {
      EntryMerges(g, paths[to], arr[to], ClassPath(paths[n].count, GrownSteps(paths[n].steps, e)), Extension(arr[n], e.to));
    }
  }

  lemma LastOfEntry(g: Graph, live: Liveness, r: Node, cp: ClassPath, a: set<Path>, n: ClassNode)
    requires Entry(g, cp, a) && forall w :: w in a <==> Rooted(g, r, w) && ClassOf(live, w) == n
    ensures cp.steps != [] && NodeOf(cp.steps[|cp.steps| - 1]) == n.node
  {
    var w := NodesOf(cp.steps);
    assert w in a && Last(w) == n.node;
  }

  lemma EdgeIsClean(g: Graph, root: string, a: Node, b: Node)
    requires WellFormed(g) && IsEdge(g, root, a, b)
    ensures CleanNode(b)
  {
    CleanNodeInGraph(g, b);
  }

  // ---------------------------------------------------------------- the topological walk

  ghost function DoneFrom(order: seq<ClassNode>, i: nat): set<ClassNode> {
    set j | i <= j < |order| :: order[j]
  }

  /** Every rooted path's class is listed: the order holds the root's and is closed. */
  lemma {:induction false} Listed(g: Graph, live: Liveness, r: Node, order: seq<ClassNode>, w: Path)
    requires WellFormed(g) && Rooted(g, r, w)
    requires PostOrder.Topological(ClassNext(g, live, r.comp), order) && ClassOf(live, [r]) in order
    ensures ClassOf(live, w) in order
  {
    if |w| == 1 {
      assert w == [r];
    } else {
      ByLastStep(g, live, r, w);
      Listed(g, live, r, order, Front(w));
      ClassNextMeans(g, live, r.comp, ClassOf(live, Front(w)), ClassOf(live, w));
      var i :| 0 <= i < |order| && order[i] == ClassOf(live, Front(w));
      assert ClassOf(live, w) in order[..i];
    }
  }

  /** When a node's turn comes, every path to it has arrived. */
  lemma Complete(g: Graph, live: Liveness, r: Node, order: seq<ClassNode>, i: nat, arr: map<ClassNode, set<Path>>, n0: ClassNode)
    requires WellFormed(g) && NoDup(order) && i < |order|
    requires PostOrder.Topological(ClassNext(g, live, r.comp), order) && ClassOf(live, [r]) in order
    requires Arrived(g, live, r, arr, DoneFrom(order, i + 1), n0, [])
    ensures forall w :: w in Got(arr, order[i]) <==> Rooted(g, r, w) && ClassOf(live, w) == order[i]
  {
    hide WellFormed, PostOrder.Topological, NoDup, ClassNext, IsPath, LivePath;
    var n := order[i];
    forall w | Rooted(g, r, w) && ClassOf(live, w) == n ensures Came(live, w, DoneFrom(order, i + 1), n0, []) {
      if |w| >= 2 { Precedes(g, live, r, order, i, w); }
    }
  }

  lemma Precedes(g: Graph, live: Liveness, r: Node, order: seq<ClassNode>, i: nat, w: Path)
    requires WellFormed(g) && NoDup(order) && i < |order| && |w| >= 2 && Rooted(g, r, w) && ClassOf(live, w) == order[i]
    requires PostOrder.Topological(ClassNext(g, live, r.comp), order) && ClassOf(live, [r]) in order
    ensures ClassOf(live, Front(w)) in DoneFrom(order, i + 1)
  {
    ByLastStep(g, live, r, w);
    Listed(g, live, r, order, Front(w));
    ClassNextMeans(g, live, r.comp, ClassOf(live, Front(w)), ClassOf(live, w));
    var j :| 0 <= j < |order| && order[j] == ClassOf(live, Front(w));
    assert order[i] in order[..j];
    var k :| 0 <= k < j && order[k] == order[i];
  }

  /** Once every edge of n has been followed, n is done. */
  lemma NodeDone(g: Graph, live: Liveness, r: Node, arr: map<ClassNode, set<Path>>, done: set<ClassNode>, n: ClassNode, n0: ClassNode)
    requires WellFormed(g) && Arrived(g, live, r, arr, done, n, ClassNext(g, live, r.comp)(n))
    ensures Arrived(g, live, r, arr, done + {n}, n0, [])
  {
    forall w | Rooted(g, r, w)
      ensures Came(live, w, done, n, ClassNext(g, live, r.comp)(n)) <==> Came(live, w, done + {n}, n0, [])
    {
      if |w| >= 2 && ClassOf(live, Front(w)) == n {
        ByLastStep(g, live, r, w);
        ClassNextMeans(g, live, r.comp, n, ClassOf(live, w));
      }
    }
  }

  /** A node no path has come to has no edges to follow. */
  lemma NodeUnreached(g: Graph, live: Liveness, r: Node, arr: map<ClassNode, set<Path>>, done: set<ClassNode>, n: ClassNode, n0: ClassNode)
    requires Arrived(g, live, r, arr, done, n0, [])
    requires forall w :: Rooted(g, r, w) ==> ClassOf(live, w) != n
    ensures Arrived(g, live, r, arr, done + {n}, n0, [])
  {
    forall w | Rooted(g, r, w) ensures Came(live, w, done, n0, []) <==> Came(live, w, done + {n}, n0, []) {
      if |w| >= 2 { ByLastStep(g, live, r, w); }
    }
  }

  lemma ArrivedAny(g: Graph, live: Liveness, r: Node, arr: map<ClassNode, set<Path>>, done: set<ClassNode>, n: ClassNode, n': ClassNode)
    requires Arrived(g, live, r, arr, done, n, [])
    ensures Arrived(g, live, r, arr, done, n', [])
  {
    forall w | w != [] ensures Came(live, w, done, n, []) <==> Came(live, w, done, n', []) {}
  }

  /** Follows every edge of n, adding the paths to n, one step longer, where each leads. */
  method RelaxAll(g: Graph, live: Liveness, r: Node, n: ClassNode, paths0: map<ClassNode, ClassPath>,
                  ghost arr0: map<ClassNode, set<Path>>, ghost done: set<ClassNode>)
    returns (paths: map<ClassNode, ClassPath>, ghost arr: map<ClassNode, set<Path>>)
    requires WellFormed(g) && InGraph(g, r) && n in paths0 && PathsHold(g, paths0, arr0)
    requires n !in ClassNext(g, live, r.comp)(n)
    requires Arrived(g, live, r, arr0, done, n, []) && n !in done
    requires forall w :: w in arr0[n] <==> Rooted(g, r, w) && ClassOf(live, w) == n
    ensures PathsHold(g, paths, arr) && Arrived(g, live, r, arr, done, n, ClassNext(g, live, r.comp)(n))
  {
    hide Arrived, Entry, IsEdge, LabelOf, OpenSteps, Rooted, Edges;
    paths, arr := paths0, arr0;
    var p := paths[n];
    LastOfEntry(g, live, r, p, arr[n], n);
    var es := Next(g, r.comp, n.node);
    EdgesListed(g, r.comp, n.node);
    ghost var ts := ClassTargets(live, n, es);
    for i := 0 to |es|
      invariant n in paths && paths[n] == p && n in arr && arr[n] == arr0[n]
      invariant PathsHold(g, paths, arr) && Arrived(g, live, r, arr, done, n, ts[..i])
    {
      var e := es[i];
      assert e in es;
      var to := ClassStep(live, n, e.to);
      assert to == ts[i] && to in ts;
      assert to !in ts[..i] by {
        forall j | 0 <= j < i ensures ts[j] != to { assert es[j].to != es[i].to; }
      }
      RelaxHolds(g, live, r, paths, arr, done, n, ts[..i], e);
      assert ts[..i + 1] == ts[..i] + [to];
      arr := arr[to := Got(arr, to) + Extension(arr[n], e.to)];
      var steps := GrownSteps(p.steps, e);
      if to !in paths {
        paths := paths[to := ClassPath(p.count, steps)];
        continue;
      }
      var q := paths[to];
      q := q.(count := q.count + p.count);
      if Shorter(steps, q.steps) { q := q.(steps := steps); }
      paths := paths[to := q];
    }
    assert ts[..|es|] == ts;
  }

  // ---------------------------------------------------------------- collecting the classes

  ghost function ClassKeyOf(live: Liveness, w: Path): Class
    requires w != []
  {
    Class(Last(w).comp, !LivePath(live, w))
  }

  /** rep counts the chains of s and is the least of them. */
  ghost predicate RepEntry(g: Graph, r: Node, rep: Representative, s: set<Path>) {
    var w := NodesOf(rep.scenario.chain);
    && rep.count == |s|
    && IsLeast(s, w)
    && rep.scenario == ScenarioOf(g, w)
    && forall v :: v in s ==> v != [] && v[0] == r && CleanPath(v)
  }

  ghost predicate RepsHold(g: Graph, r: Node, reps: map<Class, Representative>, col: map<Class, set<Path>>) {
    reps.Keys == col.Keys && forall k :: k in reps ==> RepEntry(g, r, reps[k], col[k])
  }

  /** n chains more in class k, of which cand is the least. */
  function Added(reps: map<Class, Representative>, k: Class, cand: Scenario, n: nat): map<Class, Representative> {
    if k !in reps then reps[k := Representative(cand, n)]
    else
      var rep := reps[k];
      reps[k := Representative(if Less(cand, rep.scenario) then cand else rep.scenario, rep.count + n)]
  }

  lemma AddHolds(g: Graph, r: Node, reps: map<Class, Representative>, col: map<Class, set<Path>>, k: Class,
                 cand: Representative, a: set<Path>)
    requires RepsHold(g, r, reps, col) && RepEntry(g, r, cand, a) && Got(col, k) !! a
    ensures RepsHold(g, r, Added(reps, k, cand.scenario, cand.count), col[k := Got(col, k) + a])
  {
    hide Less, PathLess, ScenarioOf, NodesOf, CleanPath;
    if k in reps {
      var v, w := NodesOf(cand.scenario.chain), NodesOf(reps[k].scenario.chain);
      MergeLeast(col[k], a, w, v);
      PathLessIsLess(g, v, w);
    }
  }

  /** col holds the chains of r of more than one node that end at a node done. */
  ghost predicate Collected(g: Graph, live: Liveness, r: Node, col: map<Class, set<Path>>, done: set<ClassNode>) {
    forall k, w :: (k in col && w in col[k]) <==>
      (Rooted(g, r, w) && |w| >= 2 && Observing(g, Last(w)) && ClassOf(live, w) in done && ClassKeyOf(live, w) == k)
  }

  lemma CollectOne(g: Graph, live: Liveness, r: Node, col: map<Class, set<Path>>, done: set<ClassNode>, n: ClassNode, a: set<Path>)
    requires Collected(g, live, r, col, done) && n !in done && Observing(g, n.node)
    requires forall w :: w in a <==> Rooted(g, r, w) && ClassOf(live, w) == n
    requires forall w :: w in a ==> |w| >= 2
    ensures var k := Class(n.node.comp, n.dead);
            Got(col, k) !! a && Collected(g, live, r, col[k := Got(col, k) + a], done + {n})
  {
    hide IsPath, LivePath, Observes;
    var k := Class(n.node.comp, n.dead);
    var col' := col[k := Got(col, k) + a];
    forall w | w in Got(col, k) ensures w !in a { assert k in col && w in col[k]; }
    forall k', w ensures (k' in col' && w in col'[k']) <==>
      (Rooted(g, r, w) && |w| >= 2 && Observing(g, Last(w)) && ClassOf(live, w) in done + {n} && ClassKeyOf(live, w) == k')
    {
      assert (k' in col && w in col[k']) <==>
        (Rooted(g, r, w) && |w| >= 2 && Observing(g, Last(w)) && ClassOf(live, w) in done && ClassKeyOf(live, w) == k');
    }
  }

  lemma CollectNone(g: Graph, live: Liveness, r: Node, col: map<Class, set<Path>>, done: set<ClassNode>, n: ClassNode)
    requires Collected(g, live, r, col, done)
    requires forall w :: Rooted(g, r, w) && |w| >= 2 && Observing(g, Last(w)) ==> ClassOf(live, w) != n
    ensures Collected(g, live, r, col, done + {n})
  {
    hide IsPath, LivePath, Observes, IsEdge;
    forall k, w ensures (k in col && w in col[k]) <==>
      (Rooted(g, r, w) && |w| >= 2 && Observing(g, Last(w)) && ClassOf(live, w) in done + {n} && ClassKeyOf(live, w) == k)
    {
      assert (k in col && w in col[k]) <==>
        (Rooted(g, r, w) && |w| >= 2 && Observing(g, Last(w)) && ClassOf(live, w) in done && ClassKeyOf(live, w) == k);
    }
  }

  /** col holds, by class, every chain of the graph from r. */
  ghost predicate HoldsChains(g: Graph, live: Liveness, r: Node, col: map<Class, set<Path>>) {
    forall k, w :: (k in col && w in col[k]) <==> (IsChain(g, w) && w[0] == r && ClassKeyOf(live, w) == k)
  }

  lemma CollectRoot(g: Graph, live: Liveness, r: Node, col: map<Class, set<Path>>, order: seq<ClassNode>)
    requires WellFormed(g) && InGraph(g, r) && Collected(g, live, r, col, DoneFrom(order, 0))
    requires PostOrder.Topological(ClassNext(g, live, r.comp), order) && ClassOf(live, [r]) in order
    ensures var k := ClassKeyOf(live, [r]);
            && Got(col, k) !! {[r]}
            && HoldsChains(g, live, r, if StandsAlone(g, r) then col[k := Got(col, k) + {[r]}] else col)
  {
    hide IsPath, LivePath, Observes, GoesOn, InGraph;
    var k := ClassKeyOf(live, [r]);
    var col' := if StandsAlone(g, r) then col[k := Got(col, k) + {[r]}] else col;
    forall w | Rooted(g, r, w) ensures ClassOf(live, w) in DoneFrom(order, 0) {
      Listed(g, live, r, order, w);
    }
    forall w | w in Got(col, k) ensures |w| >= 2 { assert k in col && w in col[k]; }
    forall k', w ensures (k' in col' && w in col'[k']) <==> (IsChain(g, w) && w[0] == r && ClassKeyOf(live, w) == k') {
      OneNode(g, r, w);
      assert (k' in col && w in col[k']) <==>
        (Rooted(g, r, w) && |w| >= 2 && Observing(g, Last(w)) && ClassOf(live, w) in DoneFrom(order, 0) && ClassKeyOf(live, w) == k');
    }
  }

  lemma OneNode(g: Graph, r: Node, w: Path)
    requires InGraph(g, r)
    ensures IsChain(g, w) && w[0] == r && |w| == 1 <==> w == [r] && StandsAlone(g, r)
    ensures IsChain(g, w) && w[0] == r && |w| >= 2 <==> Rooted(g, r, w) && |w| >= 2 && Observing(g, Last(w))
  {
    assert IsPath(g, r.comp, [r]) && Last([r]) == r;
    assert |w| == 1 && w[0] == r ==> w == [r];
  }

  // ---------------------------------------------------------------- one root

  datatype RootResult = RootClassesOf(alive: seq<Representative>, dead: seq<Representative>) | RootCycle

  /** What the walk starts from: the root alone has reached its own class. */
  lemma StartHolds(g: Graph, live: Liveness, r: Node, order: seq<ClassNode>)
    ensures var start := ClassOf(live, [r]);
            && Entry(g, ClassPath(1, [Step(r.comp, r.state, "", [])]), {[r]})
            && Arrived(g, live, r, map[start := {[r]}], DoneFrom(order, |order|), start, [])
            && start == ClassNode(r, !live.node(r.comp, r.state))
            && Collected(g, live, r, map[], DoneFrom(order, |order|))
  {
    var start, arr := ClassOf(live, [r]), map[ClassOf(live, [r]) := {[r]}];
    var steps := [Step(r.comp, r.state, "", [])];
    assert NodesOf(steps) == [r] && steps == OpenSteps(g, [r]);
    assert IsPath(g, r.comp, [r]);
    assert DoneFrom(order, |order|) == {};
    forall k, w ensures (k in arr && w in arr[k]) <==>
                        (Rooted(g, r, w) && ClassOf(live, w) == k && Came(live, w, {}, start, []))
    {
      assert |w| == 1 && w[0] == r <==> w == [r];
    }
  }

  lemma DoneStep(order: seq<ClassNode>, i: nat)
    requires NoDup(order) && i < |order|
    ensures DoneFrom(order, i) == DoneFrom(order, i + 1) + {order[i]} && order[i] !in DoneFrom(order, i + 1)
  {}

  /** Where n stands in order; past its end when it is not there. */
  ghost function Place(order: seq<ClassNode>, n: ClassNode): nat {
    if order == [] then 0 else if order[0] == n then 0 else 1 + Place(order[1..], n)
  }

  lemma {:induction false} PlaceIs(order: seq<ClassNode>, n: ClassNode)
    requires n in order
    ensures Place(order, n) < |order| && order[Place(order, n)] == n && n !in order[..Place(order, n)]
  {
    if order[0] != n {
      assert order == [order[0]] + order[1..];
      PlaceIs(order[1..], n);
      var k := Place(order[1..], n);
      assert order[..k + 1] == [order[0]] + order[1..][..k];
    }
  }

  /** A step goes to an earlier place. */
  lemma {:induction false} StepsBack(g: Graph, live: Liveness, root: string, order: seq<ClassNode>, n: ClassNode, m: ClassNode)
    requires PostOrder.Topological(ClassNext(g, live, root), order) && n in order && m in ClassNext(g, live, root)(n)
    ensures m in order && Place(order, m) < Place(order, n)
  {
    hide ClassNext;
    PlaceIs(order, n);
    var i := Place(order, n);
    assert m in order[..i];
    PlaceIs(order, m);
  }

  /** A node's rank by the places of its class nodes: those it is dead at come before all others. */
  ghost function ClassRank(order: seq<ClassNode>, n: Node): nat {
    if ClassNode(n, true) in order then Place(order, ClassNode(n, true)) else |order| + Place(order, ClassNode(n, false))
  }

  lemma {:induction false} RankDrops(g: Graph, live: Liveness, root: string, order: seq<ClassNode>, a: Node, d: bool, b: Node)
    requires WellFormed(g) && PostOrder.Topological(ClassNext(g, live, root), order) && ClassNode(a, d) in order && IsEdge(g, root, a, b)
    ensures ClassRank(order, b) < ClassRank(order, a)
  {
    hide WellFormed, IsEdge, PostOrder.Topological, ClassNext, LiveEdge, Place;
    var n := ClassNode(a, ClassNode(a, true) in order);
    assert n in order by { if d { assert n == ClassNode(a, true); } else if !n.dead { assert n == ClassNode(a, false); } }
    var m := ClassStep(live, n, b);
    ClassNextMeans(g, live, root, n, m);
    StepsBack(g, live, root, order, n, m);
    PlaceIs(order, m);
    if ClassNode(b, true) in order { PlaceIs(order, ClassNode(b, true)); }
  }

  /** A walk that met no cycle ranks every node the root reaches. */
  lemma {:induction false} OrderTames(g: Graph, live: Liveness, r: Node, order: seq<ClassNode>)
    requires WellFormed(g) && PostOrder.Topological(ClassNext(g, live, r.comp), order) && ClassOf(live, [r]) in order
    ensures TameFrom(g, AllLive, r)
  {
    hide WellFormed, PostOrder.Topological, ClassNext, ClassRank, LivePath, LiveTail, LiveNext, IsEdge;
    var rank := (n: Node) => ClassRank(order, n);
    forall a, b | LiveReach(g, AllLive, r, a) && b in LiveNext(g, AllLive, r.comp, a) ensures rank(b) < rank(a) {
      var w :| IsWay(g, AllLive, r, w) && Last(w) == a;
      WayRooted(g, r, w);
      Listed(g, live, r, order, w);
      LiveNextMeans(g, AllLive, r.comp, a);
      RankDrops(g, live, r.comp, order, a, ClassOf(live, w).dead, b);
    }
    assert RanksFrom(g, AllLive, r, rank);
  }

  lemma WayRooted(g: Graph, r: Node, w: Path)
    requires IsWay(g, AllLive, r, w)
    ensures Rooted(g, r, w)
  {}

  /** What r reaches, dead and alive, in post-order; or that some way from it comes back to a node. */
  method ClassOrder(g: Graph, live: Liveness, r: Node) returns (cyclic: bool, order: seq<ClassNode>)
    requires WellFormed(g) && InGraph(g, r)
    ensures cyclic <==> !TameFrom(g, AllLive, r)
    ensures !cyclic ==>
      && NoDup(order) && PostOrder.Topological(ClassNext(g, live, r.comp), order)
      && ClassNode(r, !live.node(r.comp, r.state)) in order
  {
    hide WellFormed, InGraph, TameFrom, RankFrom, LiveReach, Nodes, ClassNext, LiveNext, PostOrder.Topological, IsEdge;
    ghost var reached := set n | n in Nodes(g) && LiveReach(g, AllLive, r, n);
    ghost var universe := (set n | n in reached :: ClassNode(n, true)) + (set n | n in reached :: ClassNode(n, false));
    forall n: ClassNode ensures n in universe <==> n.node in reached {
      if n.dead { assert n == ClassNode(n.node, true); } else { assert n == ClassNode(n.node, false); }
    }
    forall n, m | n in universe && m in ClassNext(g, live, r.comp)(n)
      ensures m in universe && (TameFrom(g, AllLive, r) ==> RankFrom(g, AllLive, r)(m.node) < RankFrom(g, AllLive, r)(n.node))
    {
      ClassNextMeans(g, live, r.comp, n, m);
      LiveNextMeans(g, AllLive, r.comp, n.node);
      ReachOn(g, AllLive, r, n.node, m.node);
      ReachInGraph(g, AllLive, r, m.node);
    }
    ReachSelf(g, AllLive, r);
    ReachInGraph(g, AllLive, r, r);
    var start := ClassNode(r, !live.node(r.comp, r.state));
    assert start.node in reached && start in universe;
    var w := new PostOrder.Walker(ClassNext(g, live, r.comp), universe, TameFrom(g, AllLive, r),
                                  (n: ClassNode) => RankFrom(g, AllLive, r)(n.node));
    w.Visit(start);
    cyclic, order := w.cyclic, w.order;
    if !cyclic {
      StartHolds(g, live, r, order);
      OrderTames(g, live, r, order);
    }
  }

  /** At a node's turn, its least path is a chain's when something is observed there. */
  lemma NodeRep(g: Graph, live: Liveness, r: Node, cp: ClassPath, a: set<Path>, n: ClassNode)
    requires WellFormed(g) && InGraph(g, r) && Entry(g, cp, a)
    requires forall w :: w in a <==> Rooted(g, r, w) && ClassOf(live, w) == n
    ensures cp.steps != []
    ensures RepEntry(g, r, Representative(Finished(Partial(r, cp.steps), Observes(g, n.node.comp)), cp.count), a)
  {
    var w := NodesOf(cp.steps);
    LastOfEntry(g, live, r, cp, a, n);
    assert w in a;
    forall v | v in a ensures v != [] && v[0] == r && CleanPath(v) { RootedClean(g, r, v); }
    assert Finished(Partial(r, cp.steps), Observes(g, n.node.comp)).chain == Render(g, w);
    RenderNodes(g, w);
  }

  /** The class table of one root, alive and dead together. */
  method CollectClasses(g: Graph, live: Liveness, r: Node, order: seq<ClassNode>)
    returns (reps: map<Class, Representative>)
    requires WellFormed(g) && InGraph(g, r)
    requires NoDup(order) && PostOrder.Topological(ClassNext(g, live, r.comp), order)
    requires ClassNode(r, !live.node(r.comp, r.state)) in order
    ensures exists col :: RepsHold(g, r, reps, col) && HoldsChains(g, live, r, col)
  {
    hide Arrived, Collected, HoldsChains, Entry, RepEntry, Rooted, StandsAlone;
    var start := ClassNode(r, !live.node(r.comp, r.state));
    var paths := map[start := ClassPath(1, [Step(r.comp, r.state, "", [])])];
    ghost var arr := map[start := {[r]}];
    ghost var col: map<Class, set<Path>> := map[];
    reps := map[];
    StartHolds(g, live, r, order);
    var i := |order|;
    while i > 0
      invariant 0 <= i <= |order|
      invariant PathsHold(g, paths, arr) && Arrived(g, live, r, arr, DoneFrom(order, i), start, [])
      invariant RepsHold(g, r, reps, col) && Collected(g, live, r, col, DoneFrom(order, i))
    {
      i := i - 1;
      reps, col := CollectNode(g, live, r, order, i, paths, arr, reps, col);
      paths, arr := RelaxNode(g, live, r, order, i, paths, arr);
    }
    CollectRoot(g, live, r, col, order);
    var alone := Counting.RootStandsAlone(g, r);
    if alone {
      var k := Class(r.comp, start.dead);
      RootRep(g, live, r, reps, col);
      reps := Added(reps, k, Scenario(RootRef(r.comp, r.state), [Step(r.comp, r.state, "", Observes(g, r.comp))]), 1);
      col := col[k := Got(col, k) + {[r]}];
    }
  }

  lemma RootRep(g: Graph, live: Liveness, r: Node, reps: map<Class, Representative>, col: map<Class, set<Path>>)
    requires WellFormed(g) && InGraph(g, r) && RepsHold(g, r, reps, col)
    requires Got(col, ClassKeyOf(live, [r])) !! {[r]}
    ensures var k, s := Class(r.comp, !live.node(r.comp, r.state)),
                        Scenario(RootRef(r.comp, r.state), [Step(r.comp, r.state, "", Observes(g, r.comp))]);
            k == ClassKeyOf(live, [r]) && RepsHold(g, r, Added(reps, k, s, 1), col[k := Got(col, k) + {[r]}])
  {
    hide Added, RepsHold, RepEntry, WellFormed, InGraph, Observes;
    var k := ClassKeyOf(live, [r]);
    var s := Scenario(RootRef(r.comp, r.state), [Step(r.comp, r.state, "", Observes(g, r.comp))]);
    RootEntry(g, r);
    AddHolds(g, r, reps, col, k, Representative(s, 1), {[r]});
  }

  lemma RootEntry(g: Graph, r: Node)
    requires WellFormed(g) && InGraph(g, r)
    ensures var s := Scenario(RootRef(r.comp, r.state), [Step(r.comp, r.state, "", Observes(g, r.comp))]);
            RepEntry(g, r, Representative(s, 1), {[r]})
  {
    var s := Scenario(RootRef(r.comp, r.state), [Step(r.comp, r.state, "", Observes(g, r.comp))]);
    assert s.chain == Render(g, [r]) && NodesOf(s.chain) == [r];
    CleanNodeInGraph(g, r);
    hide WellFormed, InGraph, Observes, Render, PathLess;
  }

  /** A node's turn: its paths are chains of their class when it observes and is not the root. */
  method CollectNode(g: Graph, live: Liveness, r: Node, order: seq<ClassNode>, i: nat,
                     paths: map<ClassNode, ClassPath>, ghost arr: map<ClassNode, set<Path>>,
                     reps0: map<Class, Representative>, ghost col0: map<Class, set<Path>>)
    returns (reps: map<Class, Representative>, ghost col: map<Class, set<Path>>)
    requires WellFormed(g) && InGraph(g, r) && i < |order|
    requires NoDup(order) && PostOrder.Topological(ClassNext(g, live, r.comp), order)
    requires ClassOf(live, [r]) in order && ClassOf(live, [r]) == ClassNode(r, !live.node(r.comp, r.state))
    requires PathsHold(g, paths, arr) && Arrived(g, live, r, arr, DoneFrom(order, i + 1), ClassOf(live, [r]), [])
    requires RepsHold(g, r, reps0, col0) && Collected(g, live, r, col0, DoneFrom(order, i + 1))
    ensures RepsHold(g, r, reps, col) && Collected(g, live, r, col, DoneFrom(order, i))
  {
    hide Arrived, Collected, Entry, RepEntry, PathsHold, RepsHold, IsPath, LivePath;
    var start := ClassNode(r, !live.node(r.comp, r.state));
    var n := order[i];
    reps, col := reps0, col0;
    DoneStep(order, i);
    Complete(g, live, r, order, i, arr, start);
    PathsHoldKeys(g, paths, arr, n);
    if n in paths && n != start && Observes(g, n.node.comp) != [] {
      var p := paths[n];
      NodeRep(g, live, r, p, arr[n], n);
      var cand, k := Finished(Partial(r, p.steps), Observes(g, n.node.comp)), Class(n.node.comp, n.dead);
      forall w | w in arr[n] ensures |w| >= 2 { assert |w| == 1 ==> w == [r]; }
      CollectOne(g, live, r, col, DoneFrom(order, i + 1), n, arr[n]);
      AddHolds(g, r, reps, col, k, Representative(cand, p.count), arr[n]);
      reps, col := Added(reps, k, cand, p.count), col[k := Got(col, k) + arr[n]];
    } else {
      forall w | Rooted(g, r, w) && |w| >= 2 ensures ClassOf(live, w) != start { NeverBack(g, live, r, order, w); }
      CollectNone(g, live, r, col, DoneFrom(order, i + 1), n);
    }
  }

  lemma PathsHoldKeys(g: Graph, paths: map<ClassNode, ClassPath>, arr: map<ClassNode, set<Path>>, n: ClassNode)
    requires PathsHold(g, paths, arr)
    ensures n in paths <==> n in arr
    ensures n in paths ==> Entry(g, paths[n], arr[n]) && arr[n] != {}
  {}

  /** No path of the walk returns to the class it started from. */
  lemma NeverBack(g: Graph, live: Liveness, r: Node, order: seq<ClassNode>, w: Path)
    requires WellFormed(g) && NoDup(order) && Rooted(g, r, w) && |w| >= 2
    requires PostOrder.Topological(ClassNext(g, live, r.comp), order) && ClassOf(live, [r]) in order
    ensures ClassOf(live, w) != ClassOf(live, [r])
  {
    var s :| 0 <= s < |order| && order[s] == ClassOf(live, [r]);
    BelowStart(g, live, r, order, s, w);
  }

  lemma {:induction false} BelowStart(g: Graph, live: Liveness, r: Node, order: seq<ClassNode>, s: nat, w: Path)
    requires WellFormed(g) && NoDup(order) && Rooted(g, r, w) && |w| >= 2
    requires PostOrder.Topological(ClassNext(g, live, r.comp), order) && s < |order| && order[s] == ClassOf(live, [r])
    ensures ClassOf(live, w) in order[..s]
  {
    hide IsPath, LivePath;
    ByLastStep(g, live, r, w);
    ClassNextMeans(g, live, r.comp, ClassOf(live, Front(w)), ClassOf(live, w));
    if |w| == 2 {
      assert Front(w) == [r];
    } else {
      BelowStart(g, live, r, order, s, Front(w));
      var j :| 0 <= j < s && order[j] == ClassOf(live, Front(w));
      assert ClassOf(live, w) in order[..j];
      assert order[..j] <= order[..s];
    }
  }

  /** A node's turn: its paths go on along its edges. */
  method RelaxNode(g: Graph, live: Liveness, r: Node, order: seq<ClassNode>, i: nat,
                   paths0: map<ClassNode, ClassPath>, ghost arr0: map<ClassNode, set<Path>>)
    returns (paths: map<ClassNode, ClassPath>, ghost arr: map<ClassNode, set<Path>>)
    requires WellFormed(g) && InGraph(g, r) && i < |order|
    requires NoDup(order) && PostOrder.Topological(ClassNext(g, live, r.comp), order)
    requires ClassOf(live, [r]) in order
    requires PathsHold(g, paths0, arr0) && Arrived(g, live, r, arr0, DoneFrom(order, i + 1), ClassOf(live, [r]), [])
    ensures PathsHold(g, paths, arr) && Arrived(g, live, r, arr, DoneFrom(order, i), ClassOf(live, [r]), [])
  {
    hide Arrived, PathsHold, Rooted, LivePath, Entry;
    ghost var start := ClassOf(live, [r]);
    var n := order[i];
    paths, arr := paths0, arr0;
    DoneStep(order, i);
    Complete(g, live, r, order, i, arr, start);
    PathsHoldKeys(g, paths, arr, n);
    if n in paths {
      assert n !in order[..i];
      ArrivedAny(g, live, r, arr, DoneFrom(order, i + 1), start, n);
      paths, arr := RelaxAll(g, live, r, n, paths, arr, DoneFrom(order, i + 1));
      NodeDone(g, live, r, arr, DoneFrom(order, i + 1), n, start);
    } else {
      NodeUnreached(g, live, r, arr, DoneFrom(order, i + 1), n, start);
    }
  }
}
