/** The live chains shortest first, layer by layer, until the caller has seen enough. */
module Layers {
  import opened Ordering
  import opened FailureGraph
  import opened Chains
  import opened Enumeration
  import opened LiveChains
  import Counting

  // ---------------------------------------------------------------- the layers of a sorted listing

  /** Scenarios named by content alone, as a layer names its own. */
  function ByContent(digest: string -> string, scs: seq<Scenario>): seq<Named> {
    seq(|scs|, i requires 0 <= i < |scs| => Named(IdOf(digest, scs[i]), scs[i]))
  }

  function Leading(l: seq<Named>, n: nat): (k: nat)
    ensures k <= |l|
  {
    if l == [] || |l[0].scenario.chain| != n then 0 else 1 + Leading(l[1..], n)
  }

  /** f over the runs of equally long chains of l, first to last, until it says stop. */
  ghost function FoldLayers<A>(f: (A, seq<Named>) -> (A, bool), acc: A, l: seq<Named>): A
    decreases |l|
  {
    if l == [] then acc
    else
      var k := Leading(l, |l[0].scenario.chain|);
      var (acc', more) := f(acc, l[..k]);
      if more then FoldLayers(f, acc', l[k..]) else acc'
  }

  function Exactly(k: nat): Scenario -> bool {
    (s: Scenario) => |s.chain| == k
  }

  function AtLeast(k: nat): Scenario -> bool {
    (s: Scenario) => |s.chain| >= k
  }

  lemma SplitLayer(l: seq<Scenario>, k: nat)
    requires StrictlySorted(Less, l)
    ensures Filter(AtLeast(k), l) == Filter(Exactly(k), l) + Filter(AtLeast(k + 1), l)
  {
    LessWeak();
    var a, b, c := Filter(AtLeast(k), l), Filter(Exactly(k), l), Filter(AtLeast(k + 1), l);
    FilterKeepsOrder(Less, AtLeast(k), l);
    FilterKeepsOrder(Less, Exactly(k), l);
    FilterKeepsOrder(Less, AtLeast(k + 1), l);
    FilterMeans(AtLeast(k), l);
    FilterMeans(Exactly(k), l);
    FilterMeans(AtLeast(k + 1), l);
    forall x, y | x in b && y in c ensures Less(x, y) {}
    ConcatSorted(Less, b, c);
    forall x ensures x in a <==> x in b + c {}
    SortedUnique(Less, a, b + c);
  }

  lemma {:induction false} LeadingRun(l: seq<Named>, n: nat, m: nat)
    requires m <= |l|
    requires forall i :: 0 <= i < m ==> |l[i].scenario.chain| == n
    requires m < |l| ==> |l[m].scenario.chain| != n
    ensures Leading(l, n) == m
  {
    if m > 0 { LeadingRun(l[1..], n, m - 1); }
  }

  /** One layer of the fold: what is k long comes first, and together. */
  lemma FoldOne<A>(f: (A, seq<Named>) -> (A, bool), acc: A, digest: string -> string, l: seq<Scenario>, k: nat)
    requires StrictlySorted(Less, l)
    ensures var layer := Filter(Exactly(k), l);
            FoldLayers(f, acc, ByContent(digest, Filter(AtLeast(k), l))) ==
            if layer == [] then FoldLayers(f, acc, ByContent(digest, Filter(AtLeast(k + 1), l)))
            else
              var (acc', more) := f(acc, ByContent(digest, layer));
              if more then FoldLayers(f, acc', ByContent(digest, Filter(AtLeast(k + 1), l))) else acc'
  {
    SplitLayer(l, k);
    FilterMeans(Exactly(k), l);
    FilterMeans(AtLeast(k + 1), l);
    var layer, rest := Filter(Exactly(k), l), Filter(AtLeast(k + 1), l);
    if layer == [] {
      assert layer + rest == rest;
    } else {
      var all := ByContent(digest, layer + rest);
      forall i | 0 <= i < |layer| ensures |all[i].scenario.chain| == k { assert layer[i] in layer; }
      if rest != [] { assert rest[0] in rest; }
      LeadingRun(all, k, |layer|);
      assert all[..|layer|] == ByContent(digest, layer);
      assert all[|layer|..] == ByContent(digest, rest);
    }
  }

  // ---------------------------------------------------------------- the frontier

  /** ws lists, once each, the live paths of k nodes from a failure state. */
  ghost predicate ListsLivePaths(g: Graph, live: Liveness, k: nat, ws: seq<Path>) {
    && NoDup(ws)
    && forall w :: w in ws <==> IsRootPath(g, live, w) && |w| == k
  }

  ghost predicate IsRootPath(g: Graph, live: Liveness, w: Path) {
    w != [] && InGraph(g, w[0]) && IsPath(g, w[0].comp, w) && LivePath(live, w)
  }

  function Extended(w: Path, ms: seq<Node>): seq<Path> {
    seq(|ms|, i requires 0 <= i < |ms| => w + [ms[i]])
  }

  function ExtendsLive(g: Graph, live: Liveness): Path -> seq<Path> {
    (w: Path) => if w == [] then [] else Extended(w, LiveNext(g, live, w[0].comp, Last(w)))
  }

  lemma ExtendedMeans(w: Path, ms: seq<Node>, v: Path)
    ensures v in Extended(w, ms) <==> v != [] && v[..|v| - 1] == w && Last(v) in ms
    ensures NoDup(ms) ==> NoDup(Extended(w, ms))
  {
    var es := Extended(w, ms);
    if v in es {
      var i :| 0 <= i < |es| && es[i] == v;
      assert v == w + [ms[i]];
    }
    if v != [] && v[..|v| - 1] == w && Last(v) in ms {
      var i :| 0 <= i < |ms| && ms[i] == Last(v);
      assert es[i] == w + [ms[i]] == v;
    }
    if NoDup(ms) {
      forall i, j | 0 <= i < j < |es| ensures es[i] != es[j] {
        assert es[i][|w|] == ms[i] && es[j][|w|] == ms[j];
      }
    }
  }

  lemma LiveByLast(live: Liveness, p: Path, m: Node)
    requires p != []
    ensures LivePath(live, p + [m]) <==> LivePath(live, p) && LiveEdge(live, Last(p), m)
  {
    var w := p + [m];
    if LivePath(live, w) {
      assert live.node(w[|p|].comp, w[|p|].state) && live.edge(w[|p| - 1].comp, w[|p| - 1 + 1].comp);
      forall i | 0 <= i < |p| ensures live.node(p[i].comp, p[i].state) { assert w[i] == p[i]; }
      forall i | 0 <= i < |p| - 1 ensures live.edge(p[i].comp, p[i + 1].comp) {
        assert live.edge(w[i].comp, w[i + 1].comp);
      }
    }
    if LivePath(live, p) && LiveEdge(live, Last(p), m) {
      forall i | 0 <= i < |w| - 1 ensures live.edge(w[i].comp, w[i + 1].comp) {
        if i < |p| - 1 { assert live.edge(p[i].comp, p[i + 1].comp); }
      }
    }
  }

  lemma PathByLast(g: Graph, root: string, v: Path)
    requires |v| >= 2
    ensures IsPath(g, root, v) <==> IsPath(g, root, v[..|v| - 1]) && IsEdge(g, root, Last(v[..|v| - 1]), Last(v))
  {
    hide IsEdge;
    var w := v[..|v| - 1];
    assert v == w + [Last(v)];
    if IsPath(g, root, v) { PathTail(g, root, v); }
    if IsPath(g, root, w) && IsEdge(g, root, Last(w), Last(v)) { PathSnoc(g, root, w, Last(v)); }
  }

  lemma RootPathByLast(g: Graph, live: Liveness, v: Path)
    requires WellFormed(g) && |v| >= 2
    ensures IsRootPath(g, live, v) <==>
            IsRootPath(g, live, v[..|v| - 1]) && Last(v) in LiveNext(g, live, v[0].comp, Last(v[..|v| - 1]))
  {
    hide WellFormed, IsPath, LivePath, LiveNext, IsEdge, LiveEdge, InGraph;
    var w, n := v[..|v| - 1], Last(v);
    assert w[0] == v[0] && v == w + [n];
    LiveNextMeans(g, live, v[0].comp, Last(w));
    PathByLast(g, v[0].comp, v);
    LiveByLast(live, w, n);
  }

  /** Extending every live path of k nodes by every live edge lists those of k + 1. */
  lemma FrontierGrows(g: Graph, live: Liveness, k: nat, ws: seq<Path>)
    requires WellFormed(g) && k > 0 && ListsLivePaths(g, live, k, ws)
    ensures ListsLivePaths(g, live, k + 1, FlatMap(ExtendsLive(g, live), ws))
  {
    var f := ExtendsLive(g, live);
    forall w: Path | w in ws
      ensures NoDup(f(w))
      ensures forall v :: v in f(w) <==> v != [] && v[..|v| - 1] == w && Last(v) in LiveNext(g, live, w[0].comp, Last(w))
    {
      LiveNextMeans(g, live, w[0].comp, Last(w));
      forall v ensures v in f(w) <==> v != [] && v[..|v| - 1] == w && Last(v) in LiveNext(g, live, w[0].comp, Last(w)) {
        ExtendedMeans(w, LiveNext(g, live, w[0].comp, Last(w)), v);
      }
      ExtendedMeans(w, LiveNext(g, live, w[0].comp, Last(w)), []);
    }
    FlatMapNoDup(f, ws);
    forall v ensures v in FlatMap(f, ws) <==> IsRootPath(g, live, v) && |v| == k + 1 {
      FlatMapMeans(f, ws, v);
      if |v| >= 2 {
        RootPathByLast(g, live, v);
        assert v[..|v| - 1][0] == v[0];
      }
    }
  }

  function EndsObserving(g: Graph): Path -> bool {
    w => w != [] && Observing(g, Last(w))
  }

  /** The live paths of k nodes from a failure state, on any graph. */
  ghost function PathsAt(g: Graph, live: Liveness, k: nat): seq<Path> {
    if k <= 1 then Singles(Filter(LiveRoot(live), Roots(g))) else FlatMap(ExtendsLive(g, live), PathsAt(g, live, k - 1))
  }

  /** Those of them that may end where they are. */
  ghost function EndsAt(g: Graph, live: Liveness, k: nat): seq<Path> {
    if k <= 1 then Singles(Filter(AloneRoot(g), Filter(LiveRoot(live), Roots(g)))) else Filter(EndsObserving(g), PathsAt(g, live, k))
  }

  /** The live chains of k steps in scenario order. */
  ghost function LayerAt(g: Graph, live: Liveness, k: nat): seq<Scenario> {
    Sort(Less, ScenariosOf(g, EndsAt(g, live, k)))
  }

  lemma {:induction false} PathsAtMean(g: Graph, live: Liveness, k: nat)
    requires WellFormed(g) && k > 0
    ensures ListsLivePaths(g, live, k, PathsAt(g, live, k))
  {
    hide WellFormed, ListsLivePaths, FlatMap, Roots, Filter;
    if k == 1 {
      FirstPaths(g, live);
    } else {
      PathsAtMean(g, live, k - 1);
      FrontierGrows(g, live, k - 1, PathsAt(g, live, k - 1));
    }
  }

  lemma {:induction false} EndsAtMean(g: Graph, live: Liveness, k: nat)
    requires WellFormed(g) && k > 0
    ensures NoDup(EndsAt(g, live, k)) && forall w :: w in EndsAt(g, live, k) <==> IsChain(g, w) && LivePath(live, w) && |w| == k
  {
    if k == 1 {
      FirstPaths(g, live);
    } else {
      hide WellFormed, Filter;
      PathsAtMean(g, live, k);
      FilterNoDup(EndsObserving(g), PathsAt(g, live, k));
      FilterMeans(EndsObserving(g), PathsAt(g, live, k));
    }
  }

  /** On any graph the layer at k holds exactly the live chains of k steps, once each and in order. */
  lemma {:induction false} LayerIs(g: Graph, live: Liveness, k: nat)
    requires WellFormed(g) && k > 0
    ensures StrictlySorted(Less, LayerAt(g, live, k))
    ensures forall s :: s in LayerAt(g, live, k) <==> IsScenario(g, s) && ScenarioLive(live, s) && |s.chain| == k
  {
    hide WellFormed, Less, Sort, EndsAt, IsChain, LivePath, WeakOrder, Render;
    var ps := EndsAt(g, live, k);
    var scs := ScenariosOf(g, ps);
    EndsAtMean(g, live, k);
    LessWeak();
    forall i, j | 0 <= i < j < |scs| ensures scs[i] != scs[j] {
      RenderNodes(g, ps[i]);
      RenderNodes(g, ps[j]);
    }
    forall s ensures s in scs <==> IsScenario(g, s) && ScenarioLive(live, s) && |s.chain| == k {
      if s in scs {
        var i :| 0 <= i < |scs| && scs[i] == s;
        assert ps[i] in ps;
        RenderNodes(g, ps[i]);
        RenderLive(g, live, ps[i]);
      }
      if IsScenario(g, s) && ScenarioLive(live, s) && |s.chain| == k {
        var w := NodesOf(s.chain);
        RenderLive(g, live, w);
        var i :| 0 <= i < |ps| && ps[i] == w;
        assert scs[i] == s;
      }
    }
    forall x, y | x in scs && y in scs && x != y ensures Less(x, y) || Less(y, x) { ScenariosDoNotTie(g, x, y); }
    SortStrictly(Less, scs);
  }

  /** Where the live chains can be listed, their run of that length. */
  lemma {:induction false} LayerOf(g: Graph, live: Liveness, k: nat)
    requires WellFormed(g) && Tame(g, live) && k > 0
    ensures LayerAt(g, live, k) == Filter(Exactly(k), ChainList(g, live))
  {
    hide WellFormed, Tame, ChainList, LayerAt, Less, Filter, IsScenario, ScenarioLive;
    LayerIs(g, live, k);
    ChainListMeans(g, live);
    FilterKeepsOrder(Less, Exactly(k), ChainList(g, live));
    FilterMeans(Exactly(k), ChainList(g, live));
    LessWeak();
    SortedUnique(Less, LayerAt(g, live, k), Filter(Exactly(k), ChainList(g, live)));
  }

  /** f over the layers from k up to n, empty ones passed over, and whether it still asks for more. */
  ghost function FoldUpTo<A>(f: (A, seq<Named>) -> (A, bool), acc: A, g: Graph, live: Liveness, digest: string -> string,
                             k: nat, n: nat): (A, bool)
    decreases n - k
  {
    if n <= k then (acc, true)
    else
      var layer := LayerAt(g, live, k);
      var (acc', more) := if layer == [] then (acc, true) else f(acc, ByContent(digest, layer));
      if more then FoldUpTo(f, acc', g, live, digest, k + 1, n) else (acc', false)
  }

  lemma NoneLeft(g: Graph, live: Liveness, k: nat, w: Path)
    requires k > 0 && ListsLivePaths(g, live, k, []) && IsRootPath(g, live, w)
    ensures |w| < k
  {
    if |w| >= k { PrefixIsPath(g, live, w, k); }
  }

  lemma ShorterThan(g: Graph, live: Liveness, k: nat, s: Scenario)
    requires k > 0 && ListsLivePaths(g, live, k, []) && IsScenario(g, s) && ScenarioLive(live, s)
    ensures |s.chain| < k
  {
    var w := NodesOf(s.chain);
    RenderLive(g, live, w);
    NoneLeft(g, live, k, w);
  }

  /** With no live path of k nodes left, no live chain is that long. */
  lemma NothingLonger(g: Graph, live: Liveness, k: nat)
    requires WellFormed(g) && Tame(g, live) && k > 0
    requires ListsLivePaths(g, live, k, [])
    ensures Filter(AtLeast(k), ChainList(g, live)) == []
  {
    hide WellFormed, Tame, ChainList, IsScenario, ScenarioLive, ListsLivePaths;
    ChainListMeans(g, live);
    forall s | s in ChainList(g, live) ensures !AtLeast(k)(s) { ShorterThan(g, live, k, s); }
    FilterNone(AtLeast(k), ChainList(g, live));
  }

  lemma {:induction false} FilterNone<T>(p: T -> bool, s: seq<T>)
    requires forall i :: 0 <= i < |s| ==> !p(s[i])
    ensures Filter(p, s) == []
  {
    if s != [] { FilterNone(p, s[..|s| - 1]); }
  }

  lemma PrefixIsPath(g: Graph, live: Liveness, w: Path, k: nat)
    requires IsRootPath(g, live, w) && 0 < k <= |w|
    ensures IsRootPath(g, live, w[..k])
  {
    var p := w[..k];
    forall i | 0 <= i < |p| - 1 ensures IsEdge(g, p[0].comp, p[i], p[i + 1]) && live.edge(p[i].comp, p[i + 1].comp) {
      assert IsEdge(g, w[0].comp, w[i], w[i + 1]) && live.edge(w[i].comp, w[i + 1].comp);
    }
  }

  // ---------------------------------------------------------------- the loop

  /** A chain under construction: its root and the steps so far, the last one still open. */
  datatype Partial = Partial(root: Node, steps: seq<Step>)

  function OpenSteps(g: Graph, w: Path): seq<Step> {
    seq(|w|, i requires 0 <= i < |w| =>
      if i == |w| - 1 then Step(w[i].comp, w[i].state, "", []) else StepAt(g, w, i))
  }

  function Open(g: Graph, w: Path): Partial
    requires w != []
  {
    Partial(w[0], OpenSteps(g, w))
  }

  /** frontier holds the open steps of the paths ws. */
  ghost predicate Holds(g: Graph, frontier: seq<Partial>, ws: seq<Path>) {
    |frontier| == |ws| && forall i :: 0 <= i < |ws| ==> ws[i] != [] && frontier[i] == Open(g, ws[i])
  }

  function LiveRoot(live: Liveness): Node -> bool {
    (r: Node) => live.node(r.comp, r.state)
  }

  ghost function AloneRoot(g: Graph): Node -> bool {
    r => StandsAlone(g, r)
  }

  function Singles(rs: seq<Node>): seq<Path> {
    seq(|rs|, i requires 0 <= i < |rs| => [rs[i]])
  }

  lemma SinglesMean(rs: seq<Node>)
    ensures forall w :: w in Singles(rs) <==> |w| == 1 && w[0] in rs
    ensures NoDup(rs) ==> NoDup(Singles(rs))
  {
    var ws := Singles(rs);
    forall w ensures w in ws <==> |w| == 1 && w[0] in rs {
      if |w| == 1 && w[0] in rs {
        var i :| 0 <= i < |rs| && rs[i] == w[0];
        assert ws[i] == w;
      }
    }
    if NoDup(rs) {
      forall i, j | 0 <= i < j < |ws| ensures ws[i] != ws[j] {
        assert ws[i][0] == rs[i] && ws[j][0] == rs[j];
      }
    }
  }

  lemma SinglePath(g: Graph, live: Liveness, r: Node)
    ensures IsRootPath(g, live, [r]) <==> InGraph(g, r) && live.node(r.comp, r.state)
    ensures IsChain(g, [r]) && LivePath(live, [r]) <==> InGraph(g, r) && live.node(r.comp, r.state) && StandsAlone(g, r)
  {
    assert IsPath(g, r.comp, [r]) && Last([r]) == r;
  }

  /** The live roots as paths of one node, and those among them that are chains. */
  lemma {:induction false} FirstPaths(g: Graph, live: Liveness)
    requires WellFormed(g)
    ensures ListsLivePaths(g, live, 1, PathsAt(g, live, 1))
    ensures NoDup(EndsAt(g, live, 1)) && forall w :: w in EndsAt(g, live, 1) <==> IsChain(g, w) && LivePath(live, w) && |w| == 1
  {
    RootsMean(g);
    var rs := Filter(LiveRoot(live), Roots(g));
    var alone := Filter(AloneRoot(g), rs);
    FilterMeans(LiveRoot(live), Roots(g));
    FilterMeans(AloneRoot(g), rs);
    FilterNoDup(LiveRoot(live), Roots(g));
    FilterNoDup(AloneRoot(g), rs);
    SinglesMean(rs);
    SinglesMean(alone);
    hide Roots, Filter;
    forall w | |w| == 1
      ensures w in Singles(rs) <==> IsRootPath(g, live, w)
      ensures w in Singles(alone) <==> IsChain(g, w) && LivePath(live, w)
    {
      assert w == [w[0]];
      SinglePath(g, live, w[0]);
    }
  }

  /** What a partial becomes along e. */
  function Grown(p: Partial, e: Edge): Partial
    requires p.steps != []
  {
    var n := |p.steps|;
    Partial(p.root, p.steps[n - 1 := p.steps[n - 1].(emitsOnEdge := e.via)] + [Step(e.to.comp, e.to.state, "", [])])
  }

  /** The chain a partial is when it stops at its last step, which then carries what is observed there. */
  function Finished(p: Partial, observes: seq<string>): Scenario
    requires p.steps != []
  {
    var n := |p.steps|;
    Scenario(RootRef(p.root.comp, p.root.state), p.steps[n - 1 := p.steps[n - 1].(observes := observes)])
  }

  /** next holds the paths ws, and layer the chains among them that may end where they are. */
  ghost predicate Built(g: Graph, next: seq<Partial>, layer: seq<Scenario>, ws: seq<Path>) {
    Holds(g, next, ws) && layer == ScenariosOf(g, Filter(EndsObserving(g), ws))
  }

  lemma OpenOne(g: Graph, r: Node)
    ensures Open(g, [r]) == Partial(r, [Step(r.comp, r.state, "", [])])
    ensures ScenarioOf(g, [r]) == Finished(Open(g, [r]), Observes(g, r.comp))
  {
    assert OpenSteps(g, [r]) == [Step(r.comp, r.state, "", [])];
    assert Render(g, [r]) == [Step(r.comp, r.state, "", Observes(g, r.comp))];
  }

  lemma RootOne(g: Graph, rs: seq<Node>, r: Node, frontier: seq<Partial>, layer: seq<Scenario>)
    requires Holds(g, frontier, Singles(rs)) && layer == ScenariosOf(g, Singles(Filter(AloneRoot(g), rs)))
    ensures Holds(g, frontier + [Open(g, [r])], Singles(rs + [r]))
    ensures layer + (if StandsAlone(g, r) then [ScenarioOf(g, [r])] else []) ==
            ScenariosOf(g, Singles(Filter(AloneRoot(g), rs + [r])))
  {
    FilterOne(AloneRoot(g), rs, r);
    var was := Filter(AloneRoot(g), rs);
    assert Singles(was + [r]) == Singles(was) + [[r]];
    ScenariosOfAppend(g, Singles(was), [[r]]);
    assert Singles(rs + [r]) == Singles(rs) + [[r]];
  }

  lemma NoRoots(g: Graph, live: Liveness, roots: seq<Node>)
    ensures Filter(LiveRoot(live), roots[..0]) == [] && Holds(g, [], Singles([]))
    ensures ScenariosOf(g, Singles(Filter(AloneRoot(g), []))) == []
  {}

  /** The live roots, and the chains of one among them. */
  method FirstFrontier(g: Graph, live: Liveness) returns (frontier: seq<Partial>, layer: seq<Scenario>, ghost rs: seq<Node>)
    requires WellFormed(g)
    ensures rs == Filter(LiveRoot(live), Roots(g)) && Holds(g, frontier, Singles(rs))
    ensures layer == ScenariosOf(g, Singles(Filter(AloneRoot(g), rs)))
    ensures frontier == [] ==> layer == []
  {
    hide Roots, StandsAlone, OpenSteps, ScenarioOf, Filter, Singles, ScenariosOf, Holds, WellFormed, InGraph;
    var roots := ListRoots(g);
    RootsMean(g);
    frontier, layer, rs := [], [], [];
    NoRoots(g, live, roots);
    for i := 0 to |roots|
      invariant rs == Filter(LiveRoot(live), roots[..i]) && Holds(g, frontier, Singles(rs))
      invariant layer == ScenariosOf(g, Singles(Filter(AloneRoot(g), rs)))
      invariant frontier == [] ==> layer == []
    {
      var r := roots[i];
      assert roots[..i + 1] == roots[..i] + [r] && r in roots;
      FilterOne(LiveRoot(live), roots[..i], r);
      if !live.node(r.comp, r.state) { continue; }
      OpenOne(g, r);
      RootOne(g, rs, r, frontier, layer);
      var p := Partial(r, [Step(r.comp, r.state, "", [])]);
      frontier, rs := frontier + [p], rs + [r];
      var alone := Counting.RootStandsAlone(g, r);
      if alone { layer := layer + [Finished(p, Observes(g, r.comp))]; }
    }
    assert roots[..|roots|] == roots;
  }

  lemma BuiltOne(g: Graph, next: seq<Partial>, layer: seq<Scenario>, ws: seq<Path>, w: Path, to: Node)
    requires Built(g, next, layer, ws) && w != []
    ensures var p := Grown(Open(g, w), Edge(to, LabelOf(g, Last(w), to)));
            Built(g, next + [p], if Observing(g, to) then layer + [Finished(p, Observes(g, to.comp))] else layer, ws + [w + [to]])
  {
    var v := w + [to];
    StepsExtend(g, w, to);
    FilterOne(EndsObserving(g), ws, v);
    ScenariosOfAppend(g, Filter(EndsObserving(g), ws), [v]);
  }

  lemma ExtendedOne(live: Liveness, w: Path, n: Node, es: seq<Edge>, i: nat)
    requires i < |es|
    ensures Extended(w, LiveTargets(live, n, es[..i + 1])) ==
            Extended(w, LiveTargets(live, n, es[..i])) + (if LiveEdge(live, n, es[i].to) then [w + [es[i].to]] else [])
  {
    LiveTargetsOne(live, n, es, i);
  }

  /** Every partial along every live edge, and the chains that may end there. */
  method NextFrontier(g: Graph, live: Liveness, frontier: seq<Partial>, ghost ws: seq<Path>)
    returns (next: seq<Partial>, layer: seq<Scenario>)
    requires WellFormed(g) && Holds(g, frontier, ws)
    ensures Built(g, next, layer, FlatMap(ExtendsLive(g, live), ws))
  {
    next, layer := [], [];
    for i := 0 to |frontier|
      invariant Built(g, next, layer, FlatMap(ExtendsLive(g, live), ws[..i]))
    {
      FlatMapUpTo(ExtendsLive(g, live), ws, i);
      next, layer := ExtendOne(g, live, frontier[i], ws[i], next, layer, FlatMap(ExtendsLive(g, live), ws[..i]));
    }
    assert ws[..|ws|] == ws;
  }

  method ExtendOne(g: Graph, live: Liveness, p: Partial, ghost w: Path, next0: seq<Partial>, layer0: seq<Scenario>, ghost vs0: seq<Path>)
    returns (next: seq<Partial>, layer: seq<Scenario>)
    requires WellFormed(g) && w != [] && p == Open(g, w) && Built(g, next0, layer0, vs0)
    ensures Built(g, next, layer, vs0 + ExtendsLive(g, live)(w))
  {
    hide Built, Edges;
    ghost var vs := vs0;
    next, layer := next0, layer0;
    var last := NodeOf(p.steps[|p.steps| - 1]);
    assert last == Last(w);
    var es := Next(g, p.root.comp, last);
    EdgesListed(g, p.root.comp, last);
    for i := 0 to |es|
      invariant vs == vs0 + Extended(w, LiveTargets(live, last, es[..i])) && Built(g, next, layer, vs)
    {
      assert es[i] in es;
      ExtendedOne(live, w, last, es, i);
      if !LiveEdge(live, last, es[i].to) { continue; }
      BuiltOne(g, next, layer, vs, w, es[i].to);
      var grown, obs := Grown(p, es[i]), Observes(g, es[i].to.comp);
      if obs != [] { layer := layer + [Finished(grown, obs)]; }
      next, vs := next + [grown], vs + [w + [es[i].to]];
    }
    assert es[..|es|] == es;
  }

  lemma FilterOne<T>(p: T -> bool, s: seq<T>, x: T)
    ensures Filter(p, s + [x]) == Filter(p, s) + (if p(x) then [x] else [])
  {
    assert (s + [x])[..|s + [x]| - 1] == s;
  }

  lemma StepsExtend(g: Graph, w: Path, to: Node)
    requires w != []
    ensures var p := Grown(Open(g, w), Edge(to, LabelOf(g, Last(w), to)));
            p == Open(g, w + [to]) && Finished(p, Observes(g, to.comp)) == ScenarioOf(g, w + [to])
  {
    var v := w + [to];
    var p := Grown(Open(g, w), Edge(to, LabelOf(g, Last(w), to)));
    forall i | 0 <= i < |w| ensures p.steps[i] == StepAt(g, v, i) {
      if i < |w| - 1 { assert v[i + 1] == w[i + 1]; }
    }
    assert p.steps == OpenSteps(g, v);
    assert Finished(p, Observes(g, to.comp)).chain == Render(g, v);
  }

  /** More than the rank of any live root, seen from itself. */
  ghost function Deepest(g: Graph, live: Liveness, rs: seq<Node>): nat {
    if rs == [] then 0
    else
      var d, r := Deepest(g, live, rs[..|rs| - 1]), rs[|rs| - 1];
      if RankFrom(g, live, r)(r) + 1 > d then RankFrom(g, live, r)(r) + 1 else d
  }

  lemma {:induction false} DeepestBounds(g: Graph, live: Liveness, rs: seq<Node>, r: Node)
    requires r in rs
    ensures RankFrom(g, live, r)(r) + 1 <= Deepest(g, live, rs)
  {
    var init, last := rs[..|rs| - 1], rs[|rs| - 1];
    assert rs == init + [last];
    if r in init { DeepestBounds(g, live, init, r); }
  }

  /** f stops within some layers. */
  ghost predicate Stops<A>(f: (A, seq<Named>) -> (A, bool), init: A, g: Graph, live: Liveness, digest: string -> string, n: nat) {
    !FoldUpTo(f, init, g, live, digest, 1, n).1
  }

  /** acc is what f makes of the layers: of all the live chains where they can be listed, and in any case of the layers up
      to where f stops. */
  ghost predicate Shown<A>(f: (A, seq<Named>) -> (A, bool), init: A, acc: A, g: Graph, live: Liveness, digest: string -> string) {
    && (Tame(g, live) ==> acc == FoldLayers(f, init, ByContent(digest, ChainList(g, live))))
    && forall n :: Stops(f, init, g, live, digest, n) ==> acc == FoldUpTo(f, init, g, live, digest, 1, n).0
  }

  /** LiveByLength: f is shown the live chains one length after another, each length sorted and named by content, and ends
      the loop by saying stop. Where some live way from a live root comes back to a node the frontier never runs out, and f has to stop it. */
  method LiveByLength<A>(g: Graph, live: Liveness, digest: string -> string,
                         f: (A, seq<Named>) -> (A, bool), init: A) returns (acc: A)
    requires WellFormed(g) && (Tame(g, live) || exists n :: Stops(f, init, g, live, digest, n))
    ensures Shown(f, init, acc, g, live, digest)
  {
    hide WellFormed, Tame, ChainList, Roots, PathsAt, EndsAt, LayerAt, FoldUpTo, FoldLayers, Stops, SoFar, Shown, Built, Holds, Filter, Sort, Deepest;
    acc := init;
    ghost var rs;
    var frontier, layer;
    frontier, layer, rs := FirstFrontier(g, live);
    ghost var k := 1;
    ghost var bound: nat;
    if Tame(g, live) {
      bound := Deepest(g, live, Roots(g)) + 1;
    } else {
      bound :| Stops(f, init, g, live, digest, bound);
    }
    FirstAtLayer(g, live, frontier, layer, rs);
    FoldStarts(f, init, g, live, digest);
    while |frontier| > 0 || |layer| > 0
      invariant k >= 1 && AtLayer(g, live, k, frontier, layer) && SoFar(f, init, acc, g, live, digest, k)
      decreases bound - k
    {
      InBound(f, init, acc, g, live, digest, k, frontier, layer, bound);
      SortKeeps(Less, layer);
      if |layer| > 0 {
        var named := NameLayer(digest, Sort(Less, layer));
        var (acc', more) := f(acc, named);
        FoldStep(f, init, acc, g, live, digest, k, acc', more);
        acc := acc';
        if !more { return; }
      } else {
        FoldStep(f, init, acc, g, live, digest, k, acc, true);
      }
      ghost var ws := PathsAt(g, live, k);
      frontier, layer := NextFrontier(g, live, frontier, ws);
      NextLayer(g, live, k, frontier, layer);
      k := k + 1;
    }
    FoldEnds(f, init, acc, g, live, digest, k, frontier, layer);
  }

  /** Where the loop stands before the chains of k steps are shown. */
  ghost predicate AtLayer(g: Graph, live: Liveness, k: nat, frontier: seq<Partial>, layer: seq<Scenario>) {
    && Holds(g, frontier, PathsAt(g, live, k))
    && Sort(Less, layer) == LayerAt(g, live, k)
    && (frontier == [] ==> layer == [])
  }

  /** What has been folded is what the layers before k amount to, and f has not said stop. */
  ghost predicate SoFar<A>(f: (A, seq<Named>) -> (A, bool), init: A, acc: A, g: Graph, live: Liveness, digest: string -> string, k: nat) {
    && (forall n: nat :: n >= k ==> FoldUpTo(f, acc, g, live, digest, k, n) == FoldUpTo(f, init, g, live, digest, 1, n))
    && (forall n: nat :: n <= k ==> !Stops(f, init, g, live, digest, n))
    && (Tame(g, live) ==>
          FoldLayers(f, acc, ByContent(digest, Filter(AtLeast(k), ChainList(g, live)))) ==
          FoldLayers(f, init, ByContent(digest, ChainList(g, live))))
  }

  lemma FirstAtLayer(g: Graph, live: Liveness, frontier: seq<Partial>, layer: seq<Scenario>, rs: seq<Node>)
    requires rs == Filter(LiveRoot(live), Roots(g)) && Holds(g, frontier, Singles(rs))
    requires layer == ScenariosOf(g, Singles(Filter(AloneRoot(g), rs))) && (frontier == [] ==> layer == [])
    ensures AtLayer(g, live, 1, frontier, layer)
  {
    hide Holds, Filter, Roots, Sort;
  }

  lemma {:induction false} FoldStarts<A>(f: (A, seq<Named>) -> (A, bool), init: A, g: Graph, live: Liveness, digest: string -> string)
    requires WellFormed(g)
    ensures SoFar(f, init, init, g, live, digest, 1)
  {
    hide WellFormed, Tame, ChainList, LayerAt, Filter, FoldLayers;
    if Tame(g, live) { AllAtLeastOne(g, live); }
  }

  /** After the layer at k, when f asks for more, the fold has come to k + 1; when it says stop that is the whole fold. */
  lemma {:induction false} FoldStep<A>(f: (A, seq<Named>) -> (A, bool), init: A, acc: A, g: Graph, live: Liveness,
                                       digest: string -> string, k: nat, acc': A, more: bool)
    requires WellFormed(g) && k >= 1 && SoFar(f, init, acc, g, live, digest, k)
    requires (acc', more) == if LayerAt(g, live, k) == [] then (acc, true) else f(acc, ByContent(digest, LayerAt(g, live, k)))
    ensures if more then SoFar(f, init, acc', g, live, digest, k + 1) else Shown(f, init, acc', g, live, digest)
  {
    hide WellFormed, Tame, ChainList, LayerAt, Filter, FoldLayers;
    if Tame(g, live) {
      LayerOf(g, live, k);
      ChainListMeans(g, live);
      FoldOne(f, acc, digest, ChainList(g, live), k);
    }
  }

  lemma {:induction false} NextLayer(g: Graph, live: Liveness, k: nat, frontier: seq<Partial>, layer: seq<Scenario>)
    requires k >= 1 && Built(g, frontier, layer, FlatMap(ExtendsLive(g, live), PathsAt(g, live, k)))
    ensures AtLayer(g, live, k + 1, frontier, layer)
  {
    hide FlatMap, Sort;
  }

  lemma {:induction false} InBound<A>(f: (A, seq<Named>) -> (A, bool), init: A, acc: A, g: Graph, live: Liveness, digest: string -> string,
                                      k: nat, frontier: seq<Partial>, layer: seq<Scenario>, bound: nat)
    requires WellFormed(g) && k >= 1 && AtLayer(g, live, k, frontier, layer) && frontier != []
    requires if Tame(g, live) then bound == Deepest(g, live, Roots(g)) + 1 else Stops(f, init, g, live, digest, bound)
    requires SoFar(f, init, acc, g, live, digest, k)
    ensures k < bound
  {
    hide WellFormed, Tame, AtLayer, ChainList, Filter, FoldLayers, FoldUpTo, Stops, Deepest, Roots;
    if Tame(g, live) { ShortEnough(g, live, k, frontier, layer); }
  }

  lemma ShortEnough(g: Graph, live: Liveness, k: nat, frontier: seq<Partial>, layer: seq<Scenario>)
    requires WellFormed(g) && Tame(g, live) && k >= 1 && AtLayer(g, live, k, frontier, layer) && frontier != []
    ensures k <= Deepest(g, live, Roots(g))
  {
    hide ChainList, Roots, RankFrom, Filter, Sort, IsPath, LiveTail, PathsAt, LayerAt;
    var ws := PathsAt(g, live, k);
    PathsAtMean(g, live, k);
    var w := ws[0];
    assert w in ws;
    LivePathByTail(live, w);
    RootsMean(g);
    WayDescends(g, live, w[0], w);
    DeepestBounds(g, live, Roots(g), w[0]);
  }

  /** With the frontier run out nothing is left to fold. */
  lemma {:induction false} FoldEnds<A>(f: (A, seq<Named>) -> (A, bool), init: A, acc: A, g: Graph, live: Liveness,
                                       digest: string -> string, k: nat, frontier: seq<Partial>, layer: seq<Scenario>)
    requires WellFormed(g) && k >= 1 && AtLayer(g, live, k, frontier, layer) && frontier == []
    requires SoFar(f, init, acc, g, live, digest, k)
    ensures Shown(f, init, acc, g, live, digest)
  {
    hide WellFormed, Tame, ChainList, LayerAt, PathsAt, Filter, Sort, FoldUpTo;
    PathsAtMean(g, live, k);
    assert PathsAt(g, live, k) == [];
    if Tame(g, live) { NothingLonger(g, live, k); }
    forall n | n >= k ensures !Stops(f, init, g, live, digest, n) { NothingFolded(f, acc, g, live, digest, k, n); }
  }

  lemma {:induction false} NothingFolded<A>(f: (A, seq<Named>) -> (A, bool), acc: A, g: Graph, live: Liveness,
                                            digest: string -> string, k: nat, n: nat)
    requires WellFormed(g) && 1 <= k <= n && PathsAt(g, live, k) == []
    ensures FoldUpTo(f, acc, g, live, digest, k, n) == (acc, true)
    decreases n - k
  {
    hide WellFormed, LayerAt, PathsAt, ListsLivePaths, IsScenario, ScenarioLive;
    if k < n {
      LayerIs(g, live, k);
      PathsAtMean(g, live, k);
      forall s ensures s !in LayerAt(g, live, k) {
        if IsScenario(g, s) && ScenarioLive(live, s) { ShorterThan(g, live, k, s); }
      }
      if LayerAt(g, live, k) != [] { HasFirst(LayerAt(g, live, k)); }
      NothingOn(g, live, k);
      NothingFolded(f, acc, g, live, digest, k + 1, n);
    }
  }

  lemma NothingOn(g: Graph, live: Liveness, k: nat)
    requires k >= 1 && PathsAt(g, live, k) == []
    ensures PathsAt(g, live, k + 1) == []
  {
    hide Roots, Filter;
  }

  lemma AllAtLeastOne(g: Graph, live: Liveness)
    requires WellFormed(g) && Tame(g, live)
    ensures Filter(AtLeast(1), ChainList(g, live)) == ChainList(g, live)
  {
    ChainListMeans(g, live);
    FilterEverything(AtLeast(1), ChainList(g, live));
  }

  method NameLayer(digest: string -> string, layer: seq<Scenario>) returns (named: seq<Named>)
    ensures named == ByContent(digest, layer)
  {
    named := [];
    for i := 0 to |layer|
      invariant |named| == i && forall j :: 0 <= j < i ==> named[j] == Named(IdOf(digest, layer[j]), layer[j])
    {
      named := named + [Named(IdOf(digest, layer[i]), layer[i])];
    }
  }

  // ---------------------------------------------------------------- how many chains there are

  lemma EverythingLive(g: Graph)
    ensures LiveListing(g, AllLive) == Listing(g)
  {
    hide Listing;
    FilterEverything(IsLiveScenario(AllLive), Listing(g));
  }

  /** CountChains: how many chains there are, those that come back to a component included; a graph with a way back to
      a node is counted by listing. Without a cycle among components that is as many as the listing has. */
  method CountChains(g: Graph, digest: string -> string) returns (n: nat)
    requires WellFormed(g)
    ensures n == if Tame(g, AllLive) then |ChainList(g, AllLive)| else |Listing(g)|
    ensures Acyclic(g) ==> n == |Listing(g)|
  {
    hide LiveListing, ChainList, Listing, WellFormed, Acyclic, Tame, NoRepeat;
    EverythingLive(g);
    var r := Counting.Count(g, AllLive);
    match r {
      case Counted(counts) => n := counts.live;
      case ErrCycle =>
        var all := Expand(g, digest);
        IdsDistinct(digest, Listing(g));
        n := |all|;
    }
  }
}
