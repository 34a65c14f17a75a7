/** The live ways on from a node, listed: what the dynamic program counts without listing. */
module LiveChains {
  import opened Ordering
  import opened FailureGraph
  import opened Chains
  import opened Enumeration

  predicate LiveEdge(live: Liveness, a: Node, b: Node) {
    live.edge(a.comp, b.comp) && live.node(b.comp, b.state)
  }

  function LiveTargets(live: Liveness, n: Node, es: seq<Edge>): seq<Node> {
    if es == [] then []
    else LiveTargets(live, n, es[..|es| - 1]) + (if LiveEdge(live, n, es[|es| - 1].to) then [es[|es| - 1].to] else [])
  }

  function LiveNext(g: Graph, live: Liveness, root: string, n: Node): seq<Node> {
    LiveTargets(live, n, Edges(g, root, n))
  }

  function LiveNextOf(g: Graph, live: Liveness, root: string): Node -> seq<Node> {
    n => LiveNext(g, live, root, n)
  }

  lemma LiveTargetsOne(live: Liveness, n: Node, es: seq<Edge>, i: nat)
    requires i < |es|
    ensures LiveTargets(live, n, es[..i + 1]) ==
            if LiveEdge(live, n, es[i].to) then LiveTargets(live, n, es[..i]) + [es[i].to] else LiveTargets(live, n, es[..i])
  {
    assert es[..i + 1][..i] == es[..i];
  }

  lemma {:induction false} LiveTargetsMean(live: Liveness, n: Node, es: seq<Edge>)
    requires DistinctTargets(es)
    ensures forall b :: b in LiveTargets(live, n, es) <==> LiveEdge(live, n, b) && exists e :: e in es && e.to == b
    ensures NoDup(LiveTargets(live, n, es))
  {
    if es != [] {
      var init, last := es[..|es| - 1], es[|es| - 1];
      assert es == init + [last];
      LiveTargetsMean(live, n, init);
      forall e | e in init ensures e.to != last.to {
        var i :| 0 <= i < |init| && init[i] == e;
        assert es[i] == e;
      }
    }
  }

  lemma LiveNextMeans(g: Graph, live: Liveness, root: string, n: Node)
    requires WellFormed(g)
    ensures forall b :: b in LiveNext(g, live, root, n) <==> IsEdge(g, root, n, b) && LiveEdge(live, n, b)
    ensures NoDup(LiveNext(g, live, root, n))
  {
    EdgesListed(g, root, n);
    LiveTargetsMean(live, n, Edges(g, root, n));
    forall b | IsEdge(g, root, n, b) ensures exists e :: e in Edges(g, root, n) && e.to == b {
      assert Edge(b, LabelOf(g, n, b)) in Edges(g, root, n);
    }
  }

  // ---------------------------------------------------------------- where counting meets no cycle

  ghost predicate LiveTail(live: Liveness, w: Path) {
    forall i :: 0 <= i < |w| - 1 ==> LiveEdge(live, w[i], w[i + 1])
  }

  /** w leads from r along live edges. */
  ghost predicate IsWay(g: Graph, live: Liveness, r: Node, w: Path) {
    IsPath(g, r.comp, w) && w[0] == r && LiveTail(live, w)
  }

  ghost predicate LiveReach(g: Graph, live: Liveness, r: Node, n: Node) {
    exists w :: IsWay(g, live, r, w) && Last(w) == n
  }

  /** rank drops along every live edge r reaches. */
  ghost predicate RanksFrom(g: Graph, live: Liveness, r: Node, rank: Node -> nat) {
    forall a, b :: LiveReach(g, live, r, a) && b in LiveNext(g, live, r.comp, a) ==> rank(b) < rank(a)
  }

  /** No live way from r comes back to a node. Components may come back, in other states. */
  ghost predicate TameFrom(g: Graph, live: Liveness, r: Node) {
    exists rank :: RanksFrom(g, live, r, rank)
  }

  /** No live way from a live root comes back to a node: what counting needs. */
  ghost predicate Tame(g: Graph, live: Liveness) {
    forall r :: InGraph(g, r) && live.node(r.comp, r.state) ==> TameFrom(g, live, r)
  }

  ghost function RankFrom(g: Graph, live: Liveness, r: Node): (rank: Node -> nat)
    ensures TameFrom(g, live, r) ==> RanksFrom(g, live, r, rank)
  {
    if TameFrom(g, live, r) then (var rank :| RanksFrom(g, live, r, rank); rank) else (n: Node) => 0
  }

  lemma ReachSelf(g: Graph, live: Liveness, r: Node)
    ensures LiveReach(g, live, r, r)
  {
    assert IsWay(g, live, r, [r]) && Last([r]) == r;
  }

  lemma WayOn(g: Graph, live: Liveness, r: Node, w: Path, m: Node)
    requires WellFormed(g) && IsWay(g, live, r, w) && m in LiveNext(g, live, r.comp, Last(w))
    ensures IsWay(g, live, r, w + [m]) && Last(w + [m]) == m
  {
    LiveNextMeans(g, live, r.comp, Last(w));
    PathSnoc(g, r.comp, w, m);
    var v := w + [m];
    forall i | 0 <= i < |v| - 1 ensures LiveEdge(live, v[i], v[i + 1]) {
      if i < |w| - 1 { assert LiveEdge(live, w[i], w[i + 1]); }
    }
  }

  lemma ReachOn(g: Graph, live: Liveness, r: Node, n: Node, m: Node)
    requires WellFormed(g) && LiveReach(g, live, r, n) && m in LiveNext(g, live, r.comp, n)
    ensures LiveReach(g, live, r, m)
    ensures TameFrom(g, live, r) ==> RankFrom(g, live, r)(m) < RankFrom(g, live, r)(n)
  {
    hide RankFrom;
    var w :| IsWay(g, live, r, w) && Last(w) == n;
    WayOn(g, live, r, w, m);
  }

  lemma WayBack(g: Graph, live: Liveness, r: Node, w: Path)
    requires WellFormed(g) && IsWay(g, live, r, w) && |w| >= 2
    ensures IsWay(g, live, r, w[..|w| - 1]) && Last(w) in LiveNext(g, live, r.comp, Last(w[..|w| - 1]))
  {
    var v := w[..|w| - 1];
    PathTail(g, r.comp, w);
    LiveNextMeans(g, live, r.comp, Last(v));
    assert LiveEdge(live, w[|w| - 2], w[|w| - 2 + 1]);
    forall i | 0 <= i < |v| - 1 ensures LiveEdge(live, v[i], v[i + 1]) { assert LiveEdge(live, w[i], w[i + 1]); }
  }

  /** What r reaches by a step or more lies below it, and a way is no longer than r's rank allows. */
  lemma {:induction false} WayDescends(g: Graph, live: Liveness, r: Node, w: Path)
    requires WellFormed(g) && TameFrom(g, live, r) && IsWay(g, live, r, w)
    ensures RankFrom(g, live, r)(Last(w)) + |w| <= RankFrom(g, live, r)(r) + 1
    decreases |w|
  {
    if |w| >= 2 {
      WayBack(g, live, r, w);
      WayDescends(g, live, r, w[..|w| - 1]);
      ReachOn(g, live, r, Last(w[..|w| - 1]), Last(w));
    }
  }

  lemma BelowRoot(g: Graph, live: Liveness, r: Node, n: Node)
    requires WellFormed(g) && TameFrom(g, live, r) && LiveReach(g, live, r, n) && n != r
    ensures RankFrom(g, live, r)(n) < RankFrom(g, live, r)(r)
  {
    hide RankFrom;
    var w :| IsWay(g, live, r, w) && Last(w) == n;
    WayDescends(g, live, r, w);
  }

  lemma ReachInGraph(g: Graph, live: Liveness, r: Node, n: Node)
    requires WellFormed(g) && InGraph(g, r) && LiveReach(g, live, r, n)
    ensures InGraph(g, n) && n in Nodes(g)
  {
    var w :| IsWay(g, live, r, w) && Last(w) == n;
    PathClean(g, r.comp, w);
    var i :| 0 <= i < |g.components[n.comp].states| && g.components[n.comp].states[i].name == n.state;
    assert n == Node(n.comp, g.components[n.comp].states[i].name);
  }

  /** Without a cycle among components there is none among nodes, whatever is live. */
  lemma AcyclicTame(g: Graph, live: Liveness, r: Node)
    requires WellFormed(g) && Acyclic(g)
    ensures TameFrom(g, live, r)
  {
    var rank := (n: Node) => Height(g, n.comp);
    forall a, b | LiveReach(g, live, r, a) && b in LiveNext(g, live, r.comp, a) ensures rank(b) < rank(a) {
      LiveNextMeans(g, live, r.comp, a);
      EdgeDescends(g, r.comp, a, b);
    }
    assert RanksFrom(g, live, r, rank);
  }

  lemma AcyclicAllTame(g: Graph, live: Liveness)
    requires WellFormed(g) && Acyclic(g)
    ensures Tame(g, live)
  {
    forall r | InGraph(g, r) && live.node(r.comp, r.state) ensures TameFrom(g, live, r) { AcyclicTame(g, live, r); }
  }

  lemma ReachUnderAny(g: Graph, live: Liveness, r: Node, n: Node)
    requires LiveReach(g, live, r, n)
    ensures LiveReach(g, AllLive, r, n)
  {
    hide IsEdge;
    var w :| IsWay(g, live, r, w) && Last(w) == n;
    assert IsWay(g, AllLive, r, w);
  }

  /** Counting that meets no cycle when everything is live meets none when less is. */
  lemma {:induction false} TameUnderAny(g: Graph, live: Liveness)
    requires WellFormed(g) && Tame(g, AllLive)
    ensures Tame(g, live)
  {
    hide WellFormed, InGraph, LiveReach, LiveNext;
    forall r | InGraph(g, r) ensures TameFrom(g, live, r) {
      var rank := RankFrom(g, AllLive, r);
      forall a, b | LiveReach(g, live, r, a) && b in LiveNext(g, live, r.comp, a) ensures rank(b) < rank(a) {
        ReachUnderAny(g, live, r, a);
        LiveNextMeans(g, live, r.comp, a);
        LiveNextMeans(g, AllLive, r.comp, a);
      }
      assert RanksFrom(g, live, r, rank);
    }
  }

  // ---------------------------------------------------------------- live ways on

  /** Every live path from n to where something is observed, n's own liveness aside, among what r reaches. */
  ghost function Tails(g: Graph, live: Liveness, r: Node, n: Node): seq<Path>
    decreases RankFrom(g, live, r)(n), 1
  {
    (if Observing(g, n) then [[n]] else []) + FlatMap(TailsVia(g, live, r, n), LiveNext(g, live, r.comp, n))
  }

  ghost function TailsVia(g: Graph, live: Liveness, r: Node, n: Node): Node -> seq<Path>
    decreases RankFrom(g, live, r)(n), 0
  {
    (m: Node) => if RankFrom(g, live, r)(m) < RankFrom(g, live, r)(n) then Prepend(n, Tails(g, live, r, m)) else []
  }

  lemma ViaOne(g: Graph, live: Liveness, r: Node, n: Node, m: Node)
    requires RankFrom(g, live, r)(m) < RankFrom(g, live, r)(n)
    ensures TailsVia(g, live, r, n)(m) == Prepend(n, Tails(g, live, r, m))
  {}

  /** w is a live way from n to an observation. */
  ghost predicate IsTail(g: Graph, live: Liveness, root: string, n: Node, w: Path) {
    IsPath(g, root, w) && w[0] == n && Observing(g, Last(w)) && LiveTail(live, w)
  }

  lemma PrependMeans(n: Node, ps: seq<Path>, w: Path)
    ensures w in Prepend(n, ps) <==> |w| >= 1 && w[0] == n && w[1..] in ps
  {
    var pre := Prepend(n, ps);
    if w in pre {
      var i :| 0 <= i < |pre| && pre[i] == w;
      assert w[1..] == ps[i];
    }
    if |w| >= 1 && w[0] == n && w[1..] in ps {
      var i :| 0 <= i < |ps| && ps[i] == w[1..];
      assert pre[i] == [n] + w[1..] == w;
    }
  }

  lemma TailByFirstEdge(g: Graph, live: Liveness, root: string, n: Node, w: Path)
    ensures IsTail(g, live, root, n, w) && |w| >= 2 <==>
            |w| >= 2 && w[0] == n && IsEdge(g, root, n, w[1]) && LiveEdge(live, n, w[1]) &&
            IsTail(g, live, root, w[1], w[1..])
  {
    if |w| >= 2 {
      if IsTail(g, live, root, n, w) {
        PathTail(g, root, w);
        assert LiveEdge(live, w[0], w[0 + 1]);
        forall i | 0 <= i < |w[1..]| - 1 ensures LiveEdge(live, w[1..][i], w[1..][i + 1]) {
          assert LiveEdge(live, w[i + 1], w[i + 1 + 1]);
        }
      }
      if w[0] == n && IsEdge(g, root, n, w[1]) && LiveEdge(live, n, w[1]) && IsTail(g, live, root, w[1], w[1..]) {
        PathCons(g, root, n, w[1..]);
        assert [n] + w[1..] == w;
        forall i | 0 <= i < |w| - 1 ensures LiveEdge(live, w[i], w[i + 1]) {
          if i > 0 { assert LiveEdge(live, w[1..][i - 1], w[1..][i - 1 + 1]); }
        }
      }
    }
  }

  lemma {:induction false} TailsMean(g: Graph, live: Liveness, r: Node, n: Node, w: Path)
    requires WellFormed(g) && TameFrom(g, live, r) && LiveReach(g, live, r, n)
    ensures w in Tails(g, live, r, n) <==> IsTail(g, live, r.comp, n, w)
    decreases RankFrom(g, live, r)(n), 1
  {
    TailsViaMean(g, live, r, n, w);
    TailByFirstEdge(g, live, r.comp, n, w);
    assert IsPath(g, r.comp, [n]);
    assert w == [n] <==> |w| == 1 && w[0] == n;
  }

  lemma {:induction false} TailsViaMean(g: Graph, live: Liveness, r: Node, n: Node, w: Path)
    requires WellFormed(g) && TameFrom(g, live, r) && LiveReach(g, live, r, n)
    ensures w in FlatMap(TailsVia(g, live, r, n), LiveNext(g, live, r.comp, n)) <==>
            IsTail(g, live, r.comp, n, w) && |w| >= 2
    decreases RankFrom(g, live, r)(n), 0
  {
    hide WellFormed, LiveReach, LiveTail, IsEdge, TameFrom, RankFrom, LiveNext, TailsVia, Tails, FlatMap, Prepend, Observing;
    var f, ms := TailsVia(g, live, r, n), LiveNext(g, live, r.comp, n);
    FlatMapMeans(f, ms, w);
    LiveNextMeans(g, live, r.comp, n);
    TailByFirstEdge(g, live, r.comp, n, w);
    forall m | m in ms ensures w in f(m) <==> |w| >= 2 && w[0] == n && w[1] == m && IsTail(g, live, r.comp, m, w[1..]) {
      ReachOn(g, live, r, n, m);
      ViaOne(g, live, r, n, m);
      PrependMeans(n, Tails(g, live, r, m), w);
      if |w| >= 1 { TailsMean(g, live, r, m, w[1..]); }
    }
  }

  lemma {:induction false} TailsNoDup(g: Graph, live: Liveness, r: Node, n: Node)
    requires WellFormed(g) && TameFrom(g, live, r) && LiveReach(g, live, r, n)
    ensures NoDup(Tails(g, live, r, n)) && NoDup(FlatMap(TailsVia(g, live, r, n), LiveNext(g, live, r.comp, n)))
    decreases RankFrom(g, live, r)(n)
  {
    hide WellFormed, TameFrom, RankFrom, LiveReach, LiveNext, NoDup, FlatMap, IsEdge, IsPath, LiveTail;
    var f, ms := TailsVia(g, live, r, n), LiveNext(g, live, r.comp, n);
    LiveNextMeans(g, live, r.comp, n);
    forall m | m in ms ensures NoDup(f(m)) {
      ReachOn(g, live, r, n, m);
      TailsNoDup(g, live, r, m);
      PrependNoDup(n, Tails(g, live, r, m));
    }
    forall x, y, u | x in ms && y in ms && u in f(x) && u in f(y) ensures x == y {
      ReachOn(g, live, r, n, x);
      ReachOn(g, live, r, n, y);
      PrependMeans(n, Tails(g, live, r, x), u);
      PrependMeans(n, Tails(g, live, r, y), u);
      TailsMean(g, live, r, x, u[1..]);
      TailsMean(g, live, r, y, u[1..]);
    }
    FlatMapNoDup(f, ms);
    forall u | u in FlatMap(f, ms) ensures u != [n] {
      TailsViaMean(g, live, r, n, u);
    }
    NoDupConcat(if Observing(g, n) then [[n]] else [], FlatMap(f, ms));
  }

  lemma PrependNoDup(n: Node, ps: seq<Path>)
    requires NoDup(ps)
    ensures NoDup(Prepend(n, ps))
  {
    forall i, j | 0 <= i < j < |ps| ensures Prepend(n, ps)[i] != Prepend(n, ps)[j] {
      assert ([n] + ps[i])[1..] == ps[i] && ([n] + ps[j])[1..] == ps[j];
    }
  }

  // ---------------------------------------------------------------- the live chains, root by root

  /** r can only be a chain by itself: it is observed, and nothing observed follows from it whatever the facts. */
  ghost predicate StandsAlone(g: Graph, r: Node) {
    Observing(g, r) && !GoesOn(g, r)
  }

  ghost function RootTails(g: Graph, live: Liveness, r: Node): seq<Path> {
    if !live.node(r.comp, r.state) then []
    else
      var ps := FlatMap(TailsVia(g, live, r, r), LiveNext(g, live, r.comp, r));
      if ps == [] && StandsAlone(g, r) then [[r]] else ps
  }

  ghost function RootTailsOf(g: Graph, live: Liveness): Node -> seq<Path> {
    r => RootTails(g, live, r)
  }

  lemma LivePathByTail(live: Liveness, w: Path)
    requires w != []
    ensures LivePath(live, w) <==> live.node(w[0].comp, w[0].state) && LiveTail(live, w)
  {
    if live.node(w[0].comp, w[0].state) && LiveTail(live, w) {
      forall i | 0 <= i < |w| ensures live.node(w[i].comp, w[i].state) {
        if i > 0 { assert LiveEdge(live, w[i - 1], w[i - 1 + 1]); }
      }
      forall i | 0 <= i < |w| - 1 ensures live.edge(w[i].comp, w[i + 1].comp) {
        assert LiveEdge(live, w[i], w[i + 1]);
      }
    }
  }

  lemma RootTailsMean(g: Graph, live: Liveness, r: Node)
    requires WellFormed(g) && InGraph(g, r) && (live.node(r.comp, r.state) ==> TameFrom(g, live, r))
    ensures forall w :: w in RootTails(g, live, r) <==> IsChain(g, w) && w[0] == r && LivePath(live, w)
    ensures NoDup(RootTails(g, live, r))
  {
    if live.node(r.comp, r.state) {
      ReachSelf(g, live, r);
      TailsNoDup(g, live, r, r);
    }
    hide WellFormed, TameFrom, FlatMap, TailsVia, LiveNext, IsChain, LivePath;
    forall w ensures w in RootTails(g, live, r) <==> IsChain(g, w) && w[0] == r && LivePath(live, w) {
      if live.node(r.comp, r.state) {
        RootTailMeans(g, live, r, w);
      } else {
        DeadRoot(g, live, r, w);
      }
    }
  }

  lemma DeadRoot(g: Graph, live: Liveness, r: Node, w: Path)
    requires !live.node(r.comp, r.state)
    ensures !(IsChain(g, w) && w[0] == r && LivePath(live, w))
  {}

  lemma RootTailMeans(g: Graph, live: Liveness, r: Node, w: Path)
    requires WellFormed(g) && TameFrom(g, live, r) && InGraph(g, r) && live.node(r.comp, r.state)
    ensures w in RootTails(g, live, r) <==> IsChain(g, w) && w[0] == r && LivePath(live, w)
  {
    assert IsPath(g, r.comp, [r]) && LiveTail(live, [r]);
    hide WellFormed, TameFrom, FlatMap, TailsVia, LiveNext, LivePath, LiveTail, IsPath, InGraph, Observing, GoesOn;
    ReachSelf(g, live, r);
    TailsViaMean(g, live, r, r, w);
    WayOnGoesOn(g, live, r);
    if w == [r] {
      LivePathByTail(live, w);
    } else if |w| >= 2 {
      LivePathByTail(live, w);
    } else {
      assert w == [] || w[0] != r;
    }
  }

  lemma WayOnGoesOn(g: Graph, live: Liveness, r: Node)
    requires WellFormed(g) && TameFrom(g, live, r)
    ensures FlatMap(TailsVia(g, live, r, r), LiveNext(g, live, r.comp, r)) != [] ==> GoesOn(g, r)
  {
    hide WellFormed, TameFrom, FlatMap, TailsVia, LiveNext, LiveTail, IsPath, Observing;
    var ps := FlatMap(TailsVia(g, live, r, r), LiveNext(g, live, r.comp, r));
    if ps != [] {
      assert ps[0] in ps;
      ReachSelf(g, live, r);
      TailsViaMean(g, live, r, r, ps[0]);
    }
  }

  ghost function AllTails(g: Graph, live: Liveness): seq<Path> {
    FlatMap(RootTailsOf(g, live), Roots(g))
  }

  lemma AllTailsMean(g: Graph, live: Liveness)
    requires WellFormed(g) && Tame(g, live)
    ensures NoDup(AllTails(g, live))
    ensures forall w :: w in AllTails(g, live) <==> IsChain(g, w) && LivePath(live, w)
  {
    var f, roots := RootTailsOf(g, live), Roots(g);
    RootsMean(g);
    forall r | r in roots
      ensures NoDup(f(r)) && forall w :: w in f(r) <==> IsChain(g, w) && w[0] == r && LivePath(live, w)
    {
      RootTailsMean(g, live, r);
    }
    FlatMapNoDup(f, roots);
    forall w ensures w in AllTails(g, live) <==> IsChain(g, w) && LivePath(live, w) {
      FlatMapMeans(f, roots, w);
    }
  }

  // ---------------------------------------------------------------- the live chains, sorted

  /** The live chains of g in scenario order, components that come back included: what the fast forms work over. */
  ghost function ChainList(g: Graph, live: Liveness): seq<Scenario> {
    Sort(Less, ScenariosOf(g, AllTails(g, live)))
  }

  lemma ScenariosApart(g: Graph, live: Liveness)
    requires WellFormed(g) && Tame(g, live)
    ensures NoDup(ScenariosOf(g, AllTails(g, live)))
    ensures forall s :: s in ScenariosOf(g, AllTails(g, live)) <==> IsScenario(g, s) && ScenarioLive(live, s)
  {
    hide WellFormed, Tame, AllTails, IsChain, LivePath, ScenarioLive, Render;
    var ps := AllTails(g, live);
    var scs := ScenariosOf(g, ps);
    AllTailsMean(g, live);
    forall i, j | 0 <= i < j < |scs| ensures scs[i] != scs[j] {
      RenderNodes(g, ps[i]);
      RenderNodes(g, ps[j]);
    }
    forall s ensures s in scs <==> IsScenario(g, s) && ScenarioLive(live, s) {
      if s in scs {
        var i :| 0 <= i < |scs| && scs[i] == s;
        assert ps[i] in ps;
        ChainSome(g, ps[i]);
        RenderNodes(g, ps[i]);
        RenderLive(g, live, ps[i]);
      }
      if IsScenario(g, s) && ScenarioLive(live, s) {
        var w := NodesOf(s.chain);
        ChainSome(g, w);
        RenderLive(g, live, w);
        var i :| 0 <= i < |ps| && ps[i] == w;
        assert scs[i] == s;
      }
    }
  }

  lemma ChainSome(g: Graph, w: Path)
    requires IsChain(g, w)
    ensures w != []
  {}

  lemma ChainListMeans(g: Graph, live: Liveness)
    requires WellFormed(g) && Tame(g, live)
    ensures StrictlySorted(Less, ChainList(g, live)) && NoDup(ChainList(g, live))
    ensures forall s :: s in ChainList(g, live) <==> IsScenario(g, s) && ScenarioLive(live, s)
  {
    hide WellFormed, Tame, AllTails, ScenariosOf, IsScenario, ScenarioLive, Less;
    var scs := ScenariosOf(g, AllTails(g, live));
    ScenariosApart(g, live);
    LessWeak();
    forall x, y | x in scs && y in scs && x != y ensures Less(x, y) || Less(y, x) { ScenariosDoNotTie(g, x, y); }
    SortStrictly(Less, scs);
    StrictNoDup(Less, ChainList(g, live));
  }

  function IsLiveScenario(live: Liveness): Scenario -> bool {
    s => ScenarioLive(live, s)
  }

  /** The live part of the listing, in scenario order: what FilterLive keeps of it. */
  ghost function LiveListing(g: Graph, live: Liveness): seq<Scenario> {
    Filter(IsLiveScenario(live), Listing(g))
  }

  lemma LiveListingMeans(g: Graph, live: Liveness)
    requires WellFormed(g)
    ensures StrictlySorted(Less, LiveListing(g, live)) && NoDup(LiveListing(g, live))
    ensures forall s :: s in LiveListing(g, live) <==>
              IsListed(g, NodesOf(s.chain)) && s == ScenarioOf(g, NodesOf(s.chain)) && ScenarioLive(live, s)
  {
    ListingSorted(g);
    ListingMeansAny(g);
    LessWeak();
    FilterKeepsOrder(Less, IsLiveScenario(live), Listing(g));
    FilterMeans(IsLiveScenario(live), Listing(g));
    StrictNoDup(Less, LiveListing(g, live));
  }

  // ---------------------------------------------------------------- steps at a component

  /** How often w meets component c. */
  function Visits(c: string): Path -> nat {
    (w: Path) => CountIf((n: Node) => n.comp == c, w)
  }

  /** How many steps of s are at component c. */
  function StepsAt(c: string): Scenario -> nat {
    (s: Scenario) => CountIf((t: Step) => t.component == c, s.chain)
  }

  lemma {:induction false} VisitsPrepend(n: Node, w: Path, c: string)
    ensures Visits(c)([n] + w) == Visits(c)(w) + if n.comp == c then 1 else 0
  {
    var p := (m: Node) => m.comp == c;
    CountIfAppend(p, [n], w);
    assert [n][..0] == [];
  }

  lemma {:induction false} CountMapped(w: Path, chain: seq<Step>, c: string)
    requires |w| == |chain| && forall i :: 0 <= i < |w| ==> w[i].comp == chain[i].component
    ensures CountIf((n: Node) => n.comp == c, w) == CountIf((t: Step) => t.component == c, chain)
  {
    if w != [] { CountMapped(w[..|w| - 1], chain[..|chain| - 1], c); }
  }

  lemma VisitsAreSteps(g: Graph, w: Path, c: string)
    ensures StepsAt(c)(ScenarioOf(g, w)) == Visits(c)(w)
  {
    CountMapped(w, Render(g, w), c);
  }

  lemma {:induction false} SumOfSteps(g: Graph, ps: seq<Path>, c: string)
    ensures Sum(StepsAt(c), ScenariosOf(g, ps)) == Sum(Visits(c), ps)
  {
    if ps != [] {
      var init := ps[..|ps| - 1];
      SumOfSteps(g, init, c);
      assert ScenariosOf(g, ps)[..|ps| - 1] == ScenariosOf(g, init);
      VisitsAreSteps(g, ps[|ps| - 1], c);
    }
  }

  /** Counting the tails root by root counts the live chains, in all and step by step at each component. */
  lemma TailsCountChains(g: Graph, live: Liveness)
    requires WellFormed(g) && Tame(g, live)
    ensures |AllTails(g, live)| == |ChainList(g, live)|
    ensures forall c :: Sum(Visits(c), AllTails(g, live)) == Sum(StepsAt(c), ChainList(g, live))
  {
    hide AllTails, Sum, StepsAt, Visits, Sort, Less, WellFormed, Tame;
    var ps := AllTails(g, live);
    SortKeeps(Less, ScenariosOf(g, ps));
    forall c ensures Sum(Visits(c), ps) == Sum(StepsAt(c), ChainList(g, live)) {
      SumOfSteps(g, ps, c);
      SumPermutes(StepsAt(c), ScenariosOf(g, ps), ChainList(g, live));
    }
  }

  /** No component comes twice in s. */
  ghost predicate NoRepeat(s: Scenario) {
    forall i, j :: 0 <= i < j < |s.chain| ==> s.chain[i].component != s.chain[j].component
  }

  function ScenarioTouchesC(c: string): Scenario -> bool {
    s => TouchesComponent(s, c)
  }

  lemma {:induction false} StepsAtOnce(s: Scenario, c: string)
    requires NoRepeat(s)
    ensures StepsAt(c)(s) == if TouchesComponent(s, c) then 1 else 0
    decreases |s.chain|
  {
    if s.chain != [] {
      var n := |s.chain| - 1;
      var init := Scenario(s.root, s.chain[..n]);
      StepsAtOnce(init, c);
      if TouchesComponent(init, c) {
        var i :| 0 <= i < n && init.chain[i].component == c;
        assert s.chain[i].component == c && s.chain[n].component != c;
      }
      if s.chain[n].component == c { assert TouchesComponent(s, c); }
      if TouchesComponent(s, c) && s.chain[n].component != c {
        var i :| 0 <= i < |s.chain| && s.chain[i].component == c;
        assert init.chain[i].component == c;
      }
    }
  }

  lemma {:induction false} StepsAreChains(scs: seq<Scenario>, c: string)
    requires forall i :: 0 <= i < |scs| ==> NoRepeat(scs[i])
    ensures Sum(StepsAt(c), scs) == CountIf(ScenarioTouchesC(c), scs)
  {
    hide StepsAt, TouchesComponent, NoRepeat;
    forall i | 0 <= i < |scs| ensures StepsAt(c)(scs[i]) == if ScenarioTouchesC(c)(scs[i]) then 1 else 0 {
      StepsAtOnce(scs[i], c);
    }
    SumIsCount(StepsAt(c), ScenarioTouchesC(c), scs);
  }

  // ---------------------------------------------------------------- where the two forms part on component cycles

  /** A component of s, its last aside, comes twice: the listing's walk would not have gone on. */
  ghost function Repeats(): Scenario -> bool {
    (s: Scenario) => !Simple(NodesOf(s.chain))
  }

  /** A root the listing lets stand alone although something observed follows from it, by a way it cannot find. */
  ghost function Strays(g: Graph): Scenario -> bool {
    (s: Scenario) => |s.chain| == 1 && GoesOn(g, NodeOf(s.chain[0]))
  }

  ghost function Not<T>(p: T -> bool): T -> bool {
    (x: T) => !p(x)
  }

  lemma CommonPart(g: Graph, w: Path)
    ensures IsChain(g, w) && Simple(w) <==> IsListed(g, w) && !(|w| == 1 && GoesOn(g, w[0]))
  {
    hide InGraph, Observing, Unmarked;
    if w != [] { WalksOnGoesOn(g, w[0]); }
  }

  lemma WalksOnGoesOn(g: Graph, r: Node)
    ensures WalksOn(g, r) ==> GoesOn(g, r)
  {}

  lemma FilterParts<T(!new)>(p: T -> bool, s: seq<T>)
    ensures |s| == |Filter(p, s)| + |Filter(Not(p), s)|
  {
    if s != [] { FilterParts(p, s[..|s| - 1]); }
  }

  /** The live chains that repeat no component before their last step are the listing's, its strays aside. */
  lemma {:induction false} CommonChains(g: Graph, live: Liveness)
    requires WellFormed(g) && Tame(g, live)
    ensures Filter(Not(Repeats()), ChainList(g, live)) == Filter(Not(Strays(g)), LiveListing(g, live))
  {
    hide WellFormed, Tame, ChainList, LiveListing, Filter, IsListed, IsChain, Simple, GoesOn, ScenarioLive, Less, ScenarioOf;
    var a, b := ChainList(g, live), LiveListing(g, live);
    var x, y := Filter(Not(Repeats()), a), Filter(Not(Strays(g)), b);
    ChainListMeans(g, live);
    LiveListingMeans(g, live);
    LessWeak();
    FilterKeepsOrder(Less, Not(Repeats()), a);
    FilterKeepsOrder(Less, Not(Strays(g)), b);
    FilterMeans(Not(Repeats()), a);
    FilterMeans(Not(Strays(g)), b);
    forall s ensures s in x <==> s in y { CommonPart(g, NodesOf(s.chain)); }
    SortedUnique(Less, x, y);
  }

  /** How far apart the count and the listing are on any graph that can be counted: by the live chains that repeat a
      component before their last step, which are not listed, and by the listed roots that do not stand alone. */
  lemma {:induction false} CountAgainstListing(g: Graph, live: Liveness)
    requires WellFormed(g) && Tame(g, live)
    ensures |ChainList(g, live)| + |Filter(Strays(g), LiveListing(g, live))| ==
            |LiveListing(g, live)| + |Filter(Repeats(), ChainList(g, live))|
  {
    hide WellFormed, Tame, ChainList, LiveListing, Filter, Repeats, Strays;
    CommonChains(g, live);
    FilterParts(Repeats(), ChainList(g, live));
    FilterParts(Strays(g), LiveListing(g, live));
  }

  /** No live chain repeats a component before its last step, and no listed root strays. */
  ghost predicate Plain(g: Graph, live: Liveness) {
    && (forall s :: s in ChainList(g, live) ==> !Repeats()(s))
    && (forall s :: s in LiveListing(g, live) ==> !Strays(g)(s))
  }

  /** The live chains are the live listing exactly when there is neither. */
  lemma {:induction false} SameExactlyWhenPlain(g: Graph, live: Liveness)
    requires WellFormed(g) && Tame(g, live)
    ensures ChainList(g, live) == LiveListing(g, live) <==> Plain(g, live)
  {
    hide WellFormed, Tame, ChainList, LiveListing, IsListed, IsChain, Simple, GoesOn, ScenarioLive, Less, ScenarioOf;
    var a, b := ChainList(g, live), LiveListing(g, live);
    if Plain(g, live) {
      FilterEverything(Not(Repeats()), a);
      FilterEverything(Not(Strays(g)), b);
      CommonChains(g, live);
    }
    if a == b {
      ChainListMeans(g, live);
      LiveListingMeans(g, live);
      forall s | s in a ensures !Repeats()(s) && !Strays(g)(s) {
        assert s in b;
        ListedIsSimple(g, NodesOf(s.chain));
      }
    }
  }

  lemma ListedIsSimple(g: Graph, w: Path)
    ensures IsListed(g, w) ==> Simple(w)
    ensures IsChain(g, w) && |w| == 1 ==> !GoesOn(g, w[0])
  {}

  lemma {:induction false} FilterEverything<T(!new)>(p: T -> bool, s: seq<T>)
    requires forall x :: x in s ==> p(x)
    ensures Filter(p, s) == s
  {
    if s != [] {
      assert s[|s| - 1] in s;
      FilterEverything(p, s[..|s| - 1]);
      assert s == s[..|s| - 1] + [s[|s| - 1]];
    }
  }

  /** Without a cycle among components nothing repeats and nothing strays. */
  lemma {:induction false} AcyclicPlain(g: Graph, live: Liveness)
    requires WellFormed(g) && Acyclic(g)
    ensures Tame(g, live) && Plain(g, live) && ChainList(g, live) == LiveListing(g, live)
    ensures forall s :: s in ChainList(g, live) ==> NoRepeat(s)
  {
    AcyclicAllTame(g, live);
    hide WellFormed, Tame, ChainList, LiveListing, IsListed, Simple, GoesOn, ScenarioLive, Less, ScenarioOf, Acyclic;
    ChainListMeans(g, live);
    LiveListingMeans(g, live);
    forall s | s in ChainList(g, live) ensures !Repeats()(s) && NoRepeat(s) {
      AcyclicListed(g, NodesOf(s.chain));
      ListedIsSimple(g, NodesOf(s.chain));
      NoneComesBack(g, s);
    }
    forall s | s in LiveListing(g, live) ensures !Strays(g)(s) {
      AcyclicListed(g, NodesOf(s.chain));
      ListedIsSimple(g, NodesOf(s.chain));
    }
    SameExactlyWhenPlain(g, live);
  }

  lemma NoneComesBack(g: Graph, s: Scenario)
    requires Acyclic(g) && IsScenario(g, s)
    ensures NoRepeat(s)
  {
    var w := NodesOf(s.chain);
    forall i, j | 0 <= i < j < |s.chain| ensures s.chain[i].component != s.chain[j].component {
      PathDescends(g, w[0].comp, w, i, j);
    }
  }
}
