/** Failure chains, stated without any enumeration: which paths of the graph are chains, and their order. */
module Chains {
  import opened Ordering
  import opened FailureGraph

  datatype Step = Step(component: string, state: string, emitsOnEdge: string, observes: seq<string>)

  datatype RootRef = RootRef(component: string, state: string)

  /** A chain under its root. Its content-addressed ID is kept beside it (see Named). */
  datatype Scenario = Scenario(root: RootRef, chain: seq<Step>)

  // ---------------------------------------------------------------- keys

  function NodeKey(n: Node): string {
    n.comp + ":" + n.state + ">"
  }

  function PathKey(w: seq<Node>): string {
    if w == [] then "" else NodeKey(w[0]) + PathKey(w[1..])
  }

  function NodeOf(s: Step): Node {
    Node(s.component, s.state)
  }

  function NodesOf(chain: seq<Step>): seq<Node> {
    seq(|chain|, i requires 0 <= i < |chain| => NodeOf(chain[i]))
  }

  function ChainKey(chain: seq<Step>): string {
    PathKey(NodesOf(chain))
  }

  predicate CleanNode(n: Node) {
    CleanName(n.comp) && CleanName(n.state)
  }

  ghost predicate CleanPath(w: seq<Node>) {
    forall i :: 0 <= i < |w| ==> CleanNode(w[i])
  }

  lemma {:induction false} SplitAtSeparator(c: char, a: string, b: string, x: string, y: string)
    requires c !in a && c !in b && a + [c] + x == b + [c] + y
    ensures a == b && x == y
  {
    assert (a + [c] + x)[0] == (b + [c] + y)[0];
    if a == [] && b == [] {
      assert x == (a + [c] + x)[1..] && y == (b + [c] + y)[1..];
    } else if a != [] && b != [] {
      assert (a + [c] + x)[1..] == a[1..] + [c] + x && (b + [c] + y)[1..] == b[1..] + [c] + y;
      SplitAtSeparator(c, a[1..], b[1..], x, y);
      assert a == [a[0]] + a[1..] && b == [b[0]] + b[1..];
    } else {
      assert false;
    }
  }

  lemma NodeKeyParses(a: Node, b: Node, x: string, y: string)
    requires CleanNode(a) && CleanNode(b) && NodeKey(a) + x == NodeKey(b) + y
    ensures a == b && x == y
  {
    assert NodeKey(a) + x == a.comp + [':'] + (a.state + ['>'] + x);
    assert NodeKey(b) + y == b.comp + [':'] + (b.state + ['>'] + y);
    SplitAtSeparator(':', a.comp, b.comp, a.state + ['>'] + x, b.state + ['>'] + y);
    SplitAtSeparator('>', a.state, b.state, x, y);
  }

  lemma {:induction false} PathKeyAppend(v: seq<Node>, w: seq<Node>)
    ensures PathKey(v + w) == PathKey(v) + PathKey(w)
  {
    if v == [] {
      assert v + w == w;
    } else {
      hide NodeKey;
      PathKeyAppend(v[1..], w);
      assert (v + w)[1..] == v[1..] + w && (v + w)[0] == v[0];
      assert NodeKey(v[0]) + (PathKey(v[1..]) + PathKey(w)) == NodeKey(v[0]) + PathKey(v[1..]) + PathKey(w);
    }
  }

  /** Keys parse: one key is a prefix of another only when its path is. */
  lemma {:induction false} PathKeyPrefix(v: seq<Node>, w: seq<Node>)
    requires CleanPath(v) && CleanPath(w) && PathKey(v) <= PathKey(w)
    ensures v <= w
  {
    if v != [] {
      assert w != [];
      var z := PathKey(w)[|PathKey(v)|..];
      assert PathKey(w) == PathKey(v) + z;
      assert PathKey(v) + z == NodeKey(v[0]) + (PathKey(v[1..]) + z);
      hide NodeKey;
      NodeKeyParses(v[0], w[0], PathKey(v[1..]) + z, PathKey(w[1..]));
      PathKeyPrefix(v[1..], w[1..]);
      assert v == [v[0]] + v[1..] && w == [w[0]] + w[1..];
    }
  }

  lemma PathKeyInjective(v: seq<Node>, w: seq<Node>)
    requires CleanPath(v) && CleanPath(w) && PathKey(v) == PathKey(w)
    ensures v == w
  {
    PathKeyPrefix(v, w);
    PathKeyPrefix(w, v);
  }

  /** Paths of one length keep their key order whatever they are extended by. */
  lemma PathKeyOrderExtends(v: seq<Node>, w: seq<Node>, x: seq<Node>, y: seq<Node>)
    requires CleanPath(v) && CleanPath(w) && |v| == |w| && v != w
    ensures StringLess(PathKey(v + x), PathKey(w + y)) == StringLess(PathKey(v), PathKey(w))
  {
    if PathKey(v) <= PathKey(w) { PathKeyPrefix(v, w); assert false; }
    if PathKey(w) <= PathKey(v) { PathKeyPrefix(w, v); assert false; }
    PathKeyAppend(v, x);
    PathKeyAppend(w, y);
    StringLessExtends(PathKey(v), PathKey(w), PathKey(x), PathKey(y));
  }

  // ---------------------------------------------------------------- scenario order

  /** Scenario order: shorter first, then root component, root state and the chain's key. */
  predicate Less(a: Scenario, b: Scenario) {
    if |a.chain| != |b.chain| then |a.chain| < |b.chain|
    else if a.root.component != b.root.component then StringLess(a.root.component, b.root.component)
    else if a.root.state != b.root.state then StringLess(a.root.state, b.root.state)
    else StringLess(ChainKey(a.chain), ChainKey(b.chain))
  }

  /** Shorter chains come first; of equally long ones the lesser root component, then the lesser root state, then the lesser
      key, byte by byte. */
  lemma LessMeans(a: Scenario, b: Scenario)
    ensures |a.chain| < |b.chain| ==> Less(a, b) && !Less(b, a)
    ensures |a.chain| == |b.chain| && Lesser(a.root.component, b.root.component) ==> Less(a, b)
    ensures |a.chain| == |b.chain| && a.root.component == b.root.component && Lesser(a.root.state, b.root.state) ==> Less(a, b)
    ensures |a.chain| == |b.chain| && a.root == b.root ==> (Less(a, b) <==> Lesser(ChainKey(a.chain), ChainKey(b.chain)))
  {
    hide StringLess, LessAt, ChainKey;
    StringLessMeans(a.root.component, b.root.component);
    StringLessMeans(a.root.state, b.root.state);
    StringLessMeans(ChainKey(a.chain), ChainKey(b.chain));
    if |a.chain| == |b.chain| {
      StringIrreflexive(a.root.component);
      StringIrreflexive(a.root.state);
    }
  }

  /** A chain's key spells out its steps: component, colon, state, arrow. */
  lemma KeySpelt(s: Step, rest: seq<Step>)
    ensures ChainKey([]) == ""
    ensures ChainKey([s] + rest) == s.component + ":" + s.state + ">" + ChainKey(rest)
  {
    assert NodesOf([s] + rest) == [NodeOf(s)] + NodesOf(rest);
  }

  lemma LessTransitive(x: Scenario, y: Scenario, z: Scenario)
    requires Less(x, y) && Less(y, z)
    ensures Less(x, z)
  {
    StringAlmost(x.root.component, y.root.component, z.root.component);
    StringAlmost(x.root.state, y.root.state, z.root.state);
    StringAlmost(ChainKey(x.chain), ChainKey(y.chain), ChainKey(z.chain));
  }

  /** Less is a strict order whose ties are chains of one length, root and key. */
  lemma LessWeak()
    ensures WeakOrder(Less)
  {
    forall x ensures !Less(x, x) { StringIrreflexive(ChainKey(x.chain)); }
    forall x, y, z | Less(x, y) && Less(y, z) ensures Less(x, z) { LessTransitive(x, y, z); }
    forall x, y, z | Less(x, z) ensures Less(x, y) || Less(y, z) {
      StringAlmost(x.root.component, y.root.component, z.root.component);
      StringAlmost(x.root.state, y.root.state, z.root.state);
      StringAlmost(ChainKey(x.chain), ChainKey(y.chain), ChainKey(z.chain));
      StringTotal(x.root.component, y.root.component);
      StringTotal(x.root.state, y.root.state);
      StringTotal(y.root.component, z.root.component);
      StringTotal(y.root.state, z.root.state);
    }
  }

  lemma LessTies(x: Scenario, y: Scenario)
    requires !Less(x, y) && !Less(y, x)
    ensures |x.chain| == |y.chain| && x.root == y.root && ChainKey(x.chain) == ChainKey(y.chain)
  {
    StringTotal(x.root.component, y.root.component);
    StringTotal(x.root.state, y.root.state);
    StringTotal(ChainKey(x.chain), ChainKey(y.chain));
  }

  // ---------------------------------------------------------------- paths

  /** Every step of w is an edge of the graph for failures of root. */
  ghost predicate IsPath(g: Graph, root: string, w: seq<Node>) {
    w != [] && forall i :: 0 <= i < |w| - 1 ==> IsEdge(g, root, w[i], w[i + 1])
  }

  function Last(w: seq<Node>): Node
    requires w != []
  {
    w[|w| - 1]
  }

  /** Something follows from r: a longer path ends where a fact can be observed. */
  ghost predicate GoesOn(g: Graph, r: Node) {
    exists w :: IsPath(g, r.comp, w) && |w| >= 2 && w[0] == r && Observing(g, Last(w))
  }

  /** w is a chain: from a failure state of a resolved component, along edges, to where facts are
      observed -- and the root alone only when nothing follows from it. */
  ghost predicate IsChain(g: Graph, w: seq<Node>) {
    && w != []
    && InGraph(g, w[0])
    && IsPath(g, w[0].comp, w)
    && Observing(g, Last(w))
    && (|w| == 1 ==> !GoesOn(g, w[0]))
  }

  /** No node and no passage of w is contradicted. */
  predicate LivePath(live: Liveness, w: seq<Node>) {
    && (forall i :: 0 <= i < |w| ==> live.node(w[i].comp, w[i].state))
    && (forall i :: 0 <= i < |w| - 1 ==> live.edge(w[i].comp, w[i + 1].comp))
  }

  predicate Touches(w: seq<Node>, c: string) {
    exists i :: 0 <= i < |w| && w[i].comp == c
  }

  lemma CleanNodeInGraph(g: Graph, n: Node)
    requires WellFormed(g) && InGraph(g, n)
    ensures CleanNode(n)
  {
    var c := g.components[n.comp];
    var i :| 0 <= i < |c.states| && c.states[i].name == n.state;
    assert WellFormedComponent(c);
  }

  lemma PathClean(g: Graph, root: string, w: seq<Node>)
    requires WellFormed(g) && IsPath(g, root, w) && InGraph(g, w[0])
    ensures CleanPath(w) && forall i :: 0 <= i < |w| ==> InGraph(g, w[i])
  {
    forall i | 0 <= i < |w| ensures InGraph(g, w[i]) && CleanNode(w[i]) {
      if i > 0 { assert IsEdge(g, root, w[i - 1], w[i - 1 + 1]); }
      CleanNodeInGraph(g, w[i]);
    }
  }

  lemma PathTail(g: Graph, root: string, w: seq<Node>)
    requires IsPath(g, root, w) && |w| >= 2
    ensures IsPath(g, root, w[1..]) && IsEdge(g, root, w[0], w[1]) && Last(w[1..]) == Last(w)
    ensures IsPath(g, root, w[..|w| - 1]) && IsEdge(g, root, w[|w| - 2], w[|w| - 1])
  {
    assert IsEdge(g, root, w[0], w[0 + 1]);
    assert IsEdge(g, root, w[|w| - 2], w[|w| - 2 + 1]);
    forall i | 0 <= i < |w[1..]| - 1 ensures IsEdge(g, root, w[1..][i], w[1..][i + 1]) {
      assert IsEdge(g, root, w[i + 1], w[i + 1 + 1]);
    }
    var p := w[..|w| - 1];
    forall i | 0 <= i < |p| - 1 ensures IsEdge(g, root, p[i], p[i + 1]) {
      assert IsEdge(g, root, w[i], w[i + 1]);
    }
  }

  lemma PathCons(g: Graph, root: string, n: Node, w: seq<Node>)
    requires IsPath(g, root, w) && IsEdge(g, root, n, w[0])
    ensures IsPath(g, root, [n] + w) && Last([n] + w) == Last(w)
  {
    var v := [n] + w;
    forall i | 0 <= i < |v| - 1 ensures IsEdge(g, root, v[i], v[i + 1]) {
      if i > 0 { assert IsEdge(g, root, w[i - 1], w[i - 1 + 1]); }
    }
  }

  lemma PathSnoc(g: Graph, root: string, w: seq<Node>, n: Node)
    requires IsPath(g, root, w) && IsEdge(g, root, Last(w), n)
    ensures IsPath(g, root, w + [n])
  {
    var v := w + [n];
    forall i | 0 <= i < |v| - 1 ensures IsEdge(g, root, v[i], v[i + 1]) {
      if i < |w| - 1 { assert IsEdge(g, root, w[i], w[i + 1]); }
    }
  }

  /** Along a path every component lies strictly below the ones before it. */
  lemma {:induction false} PathDescends(g: Graph, root: string, w: seq<Node>, i: nat, j: nat)
    requires Acyclic(g) && IsPath(g, root, w) && i < j < |w|
    ensures Height(g, w[j].comp) < Height(g, w[i].comp)
    decreases j - i
  {
    assert IsEdge(g, root, w[j - 1], w[j - 1 + 1]);
    EdgeDescends(g, root, w[j - 1], w[j]);
    if i < j - 1 { PathDescends(g, root, w, i, j - 1); }
  }

  // ---------------------------------------------------------------- paths as scenarios

  /** The steps of w: each but the last carries the label passed on, the last what is observed there. */
  function Render(g: Graph, w: seq<Node>): seq<Step> {
    seq(|w|, i requires 0 <= i < |w| => StepAt(g, w, i))
  }

  function StepAt(g: Graph, w: seq<Node>, i: nat): Step
    requires i < |w|
  {
    if i == |w| - 1 then Step(w[i].comp, w[i].state, "", Observes(g, w[i].comp))
    else Step(w[i].comp, w[i].state, LabelOf(g, w[i], w[i + 1]), [])
  }

  function ScenarioOf(g: Graph, w: seq<Node>): Scenario {
    Scenario(if w == [] then RootRef("", "") else RootRef(w[0].comp, w[0].state), Render(g, w))
  }

  lemma RenderNodes(g: Graph, w: seq<Node>)
    ensures NodesOf(Render(g, w)) == w
  {}

  /** s is a chain of g, written out as g's labels and observed facts have it. */
  ghost predicate IsScenario(g: Graph, s: Scenario) {
    var w := NodesOf(s.chain);
    IsChain(g, w) && s == ScenarioOf(g, w)
  }

  /** Step i of s leads to the next as g declares it, under the label it carries, and shows nothing. */
  ghost predicate StepPasses(g: Graph, s: Scenario, i: int)
    requires 0 <= i < |s.chain| - 1
  {
    && s.chain[i].observes == []
    && Declares(g, s.root.component, NodeOf(s.chain[i]), Edge(NodeOf(s.chain[i + 1]), s.chain[i].emitsOnEdge))
  }

  /** s starts at a failure state of a resolved component, goes from step to step as g declares it, and ends where facts
      are observed, which its last step shows; one step is a chain only when nothing observed follows from it. */
  ghost predicate WrittenIn(g: Graph, s: Scenario) {
    && s.chain != []
    && s.root == RootRef(s.chain[0].component, s.chain[0].state)
    && s.root.component in g.components && !g.components[s.root.component].unresolved
    && (exists k :: 0 <= k < |g.components[s.root.component].states| && g.components[s.root.component].states[k].name == s.root.state)
    && (forall i :: 0 <= i < |s.chain| - 1 ==> StepPasses(g, s, i))
    && (var last := s.chain[|s.chain| - 1];
        && last.emitsOnEdge == "" && last.component in g.components
        && last.observes == g.components[last.component].observes != [])
    && (|s.chain| == 1 ==> !GoesOn(g, NodeOf(s.chain[0])))
  }

  /** A scenario of the graph is one written in what the graph declares, labels and observed facts included. */
  lemma {:induction false} ScenarioWritten(g: Graph, s: Scenario)
    requires WellFormed(g)
    ensures IsScenario(g, s) <==> WrittenIn(g, s)
  {
    hide WellFormed, IsEdge, Declares, LabelOf, GoesOn;
    var w := NodesOf(s.chain);
    if IsScenario(g, s) {
      forall i | 0 <= i < |s.chain| - 1 ensures StepPasses(g, s, i) {
        assert IsEdge(g, w[0].comp, w[i], w[i + 1]);
        assert s.chain[i] == StepAt(g, w, i);
        EdgeDeclared(g, w[0].comp, w[i], Edge(w[i + 1], s.chain[i].emitsOnEdge));
      }
      assert s.chain[|w| - 1] == StepAt(g, w, |w| - 1);
    }
    if WrittenIn(g, s) {
      forall i | 0 <= i < |w| - 1 ensures IsEdge(g, w[0].comp, w[i], w[i + 1]) && s.chain[i].emitsOnEdge == LabelOf(g, w[i], w[i + 1]) {
        assert StepPasses(g, s, i);
        EdgeDeclared(g, w[0].comp, w[i], Edge(w[i + 1], s.chain[i].emitsOnEdge));
      }
      assert IsPath(g, w[0].comp, w);
      forall i | 0 <= i < |w| ensures s.chain[i] == StepAt(g, w, i) {
        if i < |w| - 1 { assert StepPasses(g, s, i); }
      }
      assert s.chain == Render(g, w);
    }
  }

  predicate TouchesComponent(s: Scenario, c: string) {
    exists i :: 0 <= i < |s.chain| && s.chain[i].component == c
  }

  /** No step of s and no passage between its steps is contradicted. */
  predicate ScenarioLive(live: Liveness, s: Scenario) {
    && (forall i :: 0 <= i < |s.chain| ==> live.node(s.chain[i].component, s.chain[i].state))
    && (forall i :: 0 <= i < |s.chain| - 1 ==> live.edge(s.chain[i].component, s.chain[i + 1].component))
  }

  lemma RenderLive(g: Graph, live: Liveness, w: seq<Node>)
    requires w != []
    ensures ScenarioLive(live, ScenarioOf(g, w)) <==> LivePath(live, w)
    ensures forall c :: TouchesComponent(ScenarioOf(g, w), c) <==> Touches(w, c)
  {
    var s := ScenarioOf(g, w);
    RenderNodes(g, w);
    assert forall i :: 0 <= i < |w| ==> w[i] == NodeOf(s.chain[i]);
    if LivePath(live, w) {
      forall i | 0 <= i < |s.chain| - 1 ensures live.edge(s.chain[i].component, s.chain[i + 1].component) {
        assert live.edge(w[i].comp, w[i + 1].comp);
      }
    }
    if ScenarioLive(live, s) {
      forall i | 0 <= i < |w| - 1 ensures live.edge(w[i].comp, w[i + 1].comp) {
        assert live.edge(s.chain[i].component, s.chain[i + 1].component);
      }
    }
    forall c ensures TouchesComponent(s, c) <==> Touches(w, c) {
      if Touches(w, c) {
        var i :| 0 <= i < |w| && w[i].comp == c;
        assert s.chain[i].component == c;
      }
    }
  }

  /** Two scenarios of a well-formed graph tie in scenario order only when they are one. */
  lemma ScenariosDoNotTie(g: Graph, x: Scenario, y: Scenario)
    requires WellFormed(g) && IsScenario(g, x) && IsScenario(g, y) && x != y
    ensures ChainKey(x.chain) != ChainKey(y.chain)
    ensures Less(x, y) || Less(y, x)
  {
    var v, w := NodesOf(x.chain), NodesOf(y.chain);
    PathClean(g, v[0].comp, v);
    PathClean(g, w[0].comp, w);
    if PathKey(v) == PathKey(w) {
      PathKeyInjective(v, w);
      assert false;
    }
    if !Less(x, y) && !Less(y, x) { LessTies(x, y); }
  }
}
