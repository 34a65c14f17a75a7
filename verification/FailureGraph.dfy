/** The failure graph: components, their failure states and the links a failure travels. */
module FailureGraph {

  datatype State = State(name: string, emits: seq<string>, triggeredBy: seq<string>)

  datatype Link = Link(to: string, group: bool, roots: seq<string>)

  datatype Component = Component(
    unresolved: bool,
    observes: seq<string>,
    states: seq<State>,
    dependents: seq<Link>)

  datatype Graph = Graph(components: map<string, Component>)

  /** A component in a state. */
  datatype Node = Node(comp: string, state: string)

  /** Where a failure goes next, and under which label. */
  datatype Edge = Edge(to: Node, via: string)

  /** Which nodes and which component-to-dependent passages the facts allow. */
  datatype Liveness = Liveness(node: (string, string) -> bool, edge: (string, string) -> bool)

  /** The liveness that allows everything. */
  const AllLive: Liveness := Liveness((c, s) => true, (a, b) => true)

  // ---------------------------------------------------------------- reading the graph

  function FirstAccepted(emits: seq<string>, triggeredBy: seq<string>): string {
    if emits == [] then ""
    else if emits[0] in triggeredBy then emits[0]
    else FirstAccepted(emits[1..], triggeredBy)
  }

  /** The first emitted label the downstream state accepts; an empty triggeredBy accepts any. "" is no match. */
  function MatchEdgeLabel(emits: seq<string>, triggeredBy: seq<string>): string {
    if triggeredBy == [] then (if emits == [] then "" else emits[0])
    else FirstAccepted(emits, triggeredBy)
  }

  function StateNamed(states: seq<State>, name: string): State {
    if states == [] then State("", [], [])
    else if states[0].name == name then states[0]
    else StateNamed(states[1..], name)
  }

  function StateAt(g: Graph, n: Node): State {
    if n.comp in g.components then StateNamed(g.components[n.comp].states, n.state) else State("", [], [])
  }

  /** The facts a chain ending at component c observes. */
  function Observes(g: Graph, c: string): seq<string> {
    if c in g.components then g.components[c].observes else []
  }

  predicate HasState(states: seq<State>, name: string) {
    exists i :: 0 <= i < |states| && states[i].name == name
  }

  /** n is a failure state of a component whose type resolved. */
  predicate InGraph(g: Graph, n: Node) {
    n.comp in g.components && !g.components[n.comp].unresolved && HasState(g.components[n.comp].states, n.state)
  }

  predicate Observing(g: Graph, n: Node) {
    Observes(g, n.comp) != []
  }

  predicate Carries(link: Link, root: string) {
    !link.group || root in link.roots
  }

  function CarriedTo(root: string, links: seq<Link>): seq<string> {
    if links == [] then []
    else CarriedTo(root, links[..|links| - 1]) +
         (if Carries(links[|links| - 1], root) then [links[|links| - 1].to] else [])
  }

  function EdgesInto(emits: seq<string>, d: string, states: seq<State>): seq<Edge> {
    if states == [] then []
    else
      var ds := states[|states| - 1];
      var via := MatchEdgeLabel(emits, ds.triggeredBy);
      EdgesInto(emits, d, states[..|states| - 1]) + (if via != "" then [Edge(Node(d, ds.name), via)] else [])
  }

  function EdgesAcross(g: Graph, emits: seq<string>, ds: seq<string>): seq<Edge> {
    if ds == [] then []
    else
      var d := ds[|ds| - 1];
      EdgesAcross(g, emits, ds[..|ds| - 1]) +
      (if d in g.components && !g.components[d].unresolved then EdgesInto(emits, d, g.components[d].states) else [])
  }

  lemma EdgesIntoOne(emits: seq<string>, d: string, states: seq<State>, j: nat)
    requires j < |states|
    ensures EdgesInto(emits, d, states[..j + 1]) ==
            var via := MatchEdgeLabel(emits, states[j].triggeredBy);
            if via != "" then EdgesInto(emits, d, states[..j]) + [Edge(Node(d, states[j].name), via)]
            else EdgesInto(emits, d, states[..j])
  {
    assert states[..j + 1][..j] == states[..j];
  }

  lemma EdgesAcrossOne(g: Graph, emits: seq<string>, ds: seq<string>, i: nat)
    requires i < |ds|
    ensures EdgesAcross(g, emits, ds[..i + 1]) ==
            if ds[i] in g.components && !g.components[ds[i]].unresolved
            then EdgesAcross(g, emits, ds[..i]) + EdgesInto(emits, ds[i], g.components[ds[i]].states)
            else EdgesAcross(g, emits, ds[..i])
  {
    assert ds[..i + 1][..i] == ds[..i];
  }

  /** Where a failure of root, having reached n, goes next, in the order it is walked. */
  function Edges(g: Graph, root: string, n: Node): seq<Edge> {
    if n.comp !in g.components then []
    else EdgesAcross(g, StateAt(g, n).emits, CarriedTo(root, g.components[n.comp].dependents))
  }

  /** `next` as the walk computes it: nested loops over the carried dependents and their states. */
  method Next(g: Graph, root: string, n: Node) returns (out: seq<Edge>)
    ensures out == Edges(g, root, n)
  {
    out := [];
    if n.comp !in g.components { return; }
    var emits := StateAt(g, n).emits;
    var links := g.components[n.comp].dependents;
    var ds: seq<string> := [];
    for i := 0 to |links|
      invariant ds == CarriedTo(root, links[..i])
    {
      assert links[..i + 1][..i] == links[..i];
      if Carries(links[i], root) { ds := ds + [links[i].to]; }
    }
    assert links[..|links|] == links;
    for i := 0 to |ds|
      invariant out == EdgesAcross(g, emits, ds[..i])
    {
      assert ds[..i + 1][..i] == ds[..i];
      if ds[i] !in g.components || g.components[ds[i]].unresolved { continue; }
      var states := g.components[ds[i]].states;
      for j := 0 to |states|
        invariant out == EdgesAcross(g, emits, ds[..i]) + EdgesInto(emits, ds[i], states[..j])
      {
        assert states[..j + 1][..j] == states[..j];
        var via := MatchEdgeLabel(emits, states[j].triggeredBy);
        if via != "" { out := out + [Edge(Node(ds[i], states[j].name), via)]; }
      }
      assert states[..|states|] == states;
    }
    assert ds[..|ds|] == ds;
  }

  // ---------------------------------------------------------------- well-formed graphs

  /** A name that cannot be confused with the separators of a chain's key. */
  predicate CleanName(s: string) {
    ':' !in s && '>' !in s
  }

  ghost predicate DistinctStates(states: seq<State>) {
    forall i, j :: 0 <= i < j < |states| ==> states[i].name != states[j].name
  }

  ghost predicate DistinctDependents(links: seq<Link>) {
    forall i, j :: 0 <= i < j < |links| ==> links[i].to != links[j].to
  }

  ghost predicate WellFormedComponent(c: Component) {
    && DistinctStates(c.states)
    && DistinctDependents(c.dependents)
    && forall i :: 0 <= i < |c.states| ==> CleanName(c.states[i].name)
  }

  /** What building a graph from a valid model gives: no repeated state or dependent, no separator in a name. */
  ghost predicate WellFormed(g: Graph) {
    forall c :: c in g.components ==> CleanName(c) && WellFormedComponent(g.components[c])
  }

  /** rank drops along every link to a component of the graph. */
  ghost predicate Ranks(g: Graph, rank: map<string, nat>) {
    && g.components.Keys <= rank.Keys
    && forall c, i :: c in g.components && 0 <= i < |g.components[c].dependents| ==>
         var d := g.components[c].dependents[i].to;
         d in g.components ==> rank[d] < rank[c]
  }

  /** No component's failure can come back to it: the components can be ranked. */
  ghost predicate Acyclic(g: Graph) {
    exists rank :: Ranks(g, rank)
  }

  ghost function Ranking(g: Graph): (rank: map<string, nat>)
    requires Acyclic(g)
    ensures Ranks(g, rank)
  {
    var rank :| Ranks(g, rank); rank
  }

  /** A bound on how many steps a failure at component c can still travel. */
  ghost function Height(g: Graph, c: string): nat {
    if Acyclic(g) && c in g.components then Ranking(g)[c] else 0
  }

  // ---------------------------------------------------------------- what an edge means

  function LabelOf(g: Graph, a: Node, b: Node): string {
    MatchEdgeLabel(StateAt(g, a).emits, StateAt(g, b).triggeredBy)
  }

  predicate LinkCarries(links: seq<Link>, to: string, root: string) {
    exists i :: 0 <= i < |links| && links[i].to == to && Carries(links[i], root)
  }

  /** A failure of root at a passes to b: b's component depends on a's by a link that carries root,
      and b's state answers to a label a's state emits. */
  predicate IsEdge(g: Graph, root: string, a: Node, b: Node) {
    && a.comp in g.components
    && InGraph(g, b)
    && LinkCarries(g.components[a.comp].dependents, b.comp, root)
    && LabelOf(g, a, b) != ""
  }

  lemma {:induction false} StateNamedAt(states: seq<State>, i: nat)
    requires DistinctStates(states) && i < |states|
    ensures StateNamed(states, states[i].name) == states[i]
  {
    if i > 0 { StateNamedAt(states[1..], i - 1); }
  }

  lemma {:induction false} CarriedToMeans(root: string, links: seq<Link>, d: string)
    ensures d in CarriedTo(root, links) <==> LinkCarries(links, d, root)
  {
    if links != [] {
      var init, last := links[..|links| - 1], links[|links| - 1];
      CarriedToMeans(root, init, d);
      if LinkCarries(init, d, root) {
        var i :| 0 <= i < |init| && init[i].to == d && Carries(init[i], root);
        assert links[i] == init[i];
      }
      if LinkCarries(links, d, root) {
        var i :| 0 <= i < |links| && links[i].to == d && Carries(links[i], root);
        assert i < |init| ==> init[i] == links[i];
      }
    }
  }

  lemma {:induction false} CarriedToDistinct(root: string, links: seq<Link>)
    requires DistinctDependents(links)
    ensures forall i, j :: 0 <= i < j < |CarriedTo(root, links)| ==> CarriedTo(root, links)[i] != CarriedTo(root, links)[j]
  {
    if links != [] {
      var init, last := links[..|links| - 1], links[|links| - 1];
      CarriedToDistinct(root, init);
      CarriedToMeans(root, init, last.to);
    }
  }

  lemma {:induction false} EdgesIntoMean(emits: seq<string>, d: string, states: seq<State>, e: Edge)
    ensures e in EdgesInto(emits, d, states) <==>
            e.to.comp == d && e.via != "" &&
            exists i :: 0 <= i < |states| && states[i].name == e.to.state && e.via == MatchEdgeLabel(emits, states[i].triggeredBy)
  {
    hide MatchEdgeLabel;
    if states != [] {
      var init, last := states[..|states| - 1], states[|states| - 1];
      EdgesIntoMean(emits, d, init, e);
      assert forall i :: 0 <= i < |init| ==> init[i] == states[i];
    }
  }

  ghost predicate DistinctTargets(es: seq<Edge>) {
    forall i, j :: 0 <= i < j < |es| ==> es[i].to != es[j].to
  }

  lemma {:induction false} EdgesIntoDistinct(emits: seq<string>, d: string, states: seq<State>)
    requires DistinctStates(states)
    ensures DistinctTargets(EdgesInto(emits, d, states))
  {
    if states != [] {
      var init, last := states[..|states| - 1], states[|states| - 1];
      EdgesIntoDistinct(emits, d, init);
      forall e | e in EdgesInto(emits, d, init) ensures e.to != Node(d, last.name) {
        EdgesIntoMean(emits, d, init, e);
      }
    }
  }

  lemma {:induction false} EdgesAcrossMean(g: Graph, emits: seq<string>, ds: seq<string>, e: Edge)
    ensures e in EdgesAcross(g, emits, ds) <==>
            e.to.comp in ds && e.to.comp in g.components && !g.components[e.to.comp].unresolved &&
            e in EdgesInto(emits, e.to.comp, g.components[e.to.comp].states)
  {
    if ds != [] {
      var init, d := ds[..|ds| - 1], ds[|ds| - 1];
      EdgesAcrossMean(g, emits, init, e);
      assert e.to.comp in ds <==> e.to.comp in init || e.to.comp == d;
      if d in g.components { EdgesIntoMean(emits, d, g.components[d].states, e); }
    }
  }

  lemma {:induction false} EdgesAcrossDistinct(g: Graph, emits: seq<string>, ds: seq<string>)
    requires WellFormed(g)
    requires forall i, j :: 0 <= i < j < |ds| ==> ds[i] != ds[j]
    ensures DistinctTargets(EdgesAcross(g, emits, ds))
  {
    if ds != [] {
      var init, d := ds[..|ds| - 1], ds[|ds| - 1];
      EdgesAcrossDistinct(g, emits, init);
      if d in g.components {
        EdgesIntoDistinct(emits, d, g.components[d].states);
        forall e, e' | e in EdgesAcross(g, emits, init) && e' in EdgesInto(emits, d, g.components[d].states)
          ensures e.to != e'.to
        {
          EdgesAcrossMean(g, emits, init, e);
          EdgesIntoMean(emits, d, g.components[d].states, e');
        }
      }
    }
  }

  /** The listed edges are exactly the passages the graph declares, each once, each under its label. */
  lemma EdgesListed(g: Graph, root: string, a: Node)
    requires WellFormed(g)
    ensures forall e :: e in Edges(g, root, a) <==> IsEdge(g, root, a, e.to) && e.via == LabelOf(g, a, e.to)
    ensures DistinctTargets(Edges(g, root, a))
  {
    if a.comp in g.components {
      var emits, links := StateAt(g, a).emits, g.components[a.comp].dependents;
      var ds := CarriedTo(root, links);
      CarriedToDistinct(root, links);
      EdgesAcrossDistinct(g, emits, ds);
      forall e ensures e in Edges(g, root, a) <==> IsEdge(g, root, a, e.to) && e.via == LabelOf(g, a, e.to) {
        EdgesAcrossMean(g, emits, ds, e);
        CarriedToMeans(root, links, e.to.comp);
        if e.to.comp in g.components {
          var states := g.components[e.to.comp].states;
          EdgesIntoMean(emits, e.to.comp, states, e);
          forall i | 0 <= i < |states| ensures StateNamed(states, states[i].name) == states[i] {
            StateNamedAt(states, i);
          }
        }
      }
    }
  }

  // ---------------------------------------------------------------- edges, as the graph declares them

  /** emits[i] is the first label emitted that triggeredBy answers to; with nothing listed it answers to any. */
  ghost predicate FirstAnswered(emits: seq<string>, triggeredBy: seq<string>, i: int) {
    && 0 <= i < |emits| && (triggeredBy == [] || emits[i] in triggeredBy)
    && forall j :: 0 <= j < i ==> triggeredBy != [] && emits[j] !in triggeredBy
  }

  lemma {:induction false} FirstAcceptedMeans(emits: seq<string>, triggeredBy: seq<string>)
    requires triggeredBy != []
    ensures if exists i :: 0 <= i < |emits| && emits[i] in triggeredBy
            then exists i :: FirstAnswered(emits, triggeredBy, i) && FirstAccepted(emits, triggeredBy) == emits[i]
            else FirstAccepted(emits, triggeredBy) == ""
  {
    if emits != [] {
      if emits[0] in triggeredBy {
        assert FirstAnswered(emits, triggeredBy, 0);
      } else {
        var rest := emits[1..];
        FirstAcceptedMeans(rest, triggeredBy);
        assert forall i :: 0 <= i < |rest| ==> rest[i] == emits[i + 1];
        if i :| FirstAnswered(rest, triggeredBy, i) && FirstAccepted(rest, triggeredBy) == rest[i] {
          assert forall j :: 0 < j < i + 1 ==> emits[j] == rest[j - 1];
          assert FirstAnswered(emits, triggeredBy, i + 1);
        }
      }
    }
  }

  /** The label a failure passes under is the first one emitted that the next state answers to, and "" when it answers to
      none: a state that lists no triggers answers to whatever is emitted, and passes on the first label. */
  lemma {:induction false} LabelMeans(emits: seq<string>, triggeredBy: seq<string>)
    ensures forall i :: FirstAnswered(emits, triggeredBy, i) ==> MatchEdgeLabel(emits, triggeredBy) == emits[i]
    ensures MatchEdgeLabel(emits, triggeredBy) != "" ==>
              exists i :: FirstAnswered(emits, triggeredBy, i) && MatchEdgeLabel(emits, triggeredBy) == emits[i]
    ensures "" !in emits ==>
              (MatchEdgeLabel(emits, triggeredBy) != "" <==>
               emits != [] && (triggeredBy == [] || exists i :: 0 <= i < |emits| && emits[i] in triggeredBy))
    ensures triggeredBy == [] && emits != [] ==> MatchEdgeLabel(emits, triggeredBy) == emits[0]
  {
    if triggeredBy == [] {
      if emits != [] { assert FirstAnswered(emits, triggeredBy, 0); }
    } else {
      FirstAcceptedMeans(emits, triggeredBy);
      forall i, j | FirstAnswered(emits, triggeredBy, i) && FirstAnswered(emits, triggeredBy, j) ensures i == j {}
    }
  }

  /** States p and q of two components: the failure passes from the one to the other under e's label. */
  ghost predicate Passes(from: seq<State>, to: seq<State>, state: string, e: Edge, p: int, q: int) {
    && 0 <= p < |from| && from[p].name == state && 0 <= q < |to| && to[q].name == e.to.state && e.via != ""
    && exists i :: FirstAnswered(from[p].emits, to[q].triggeredBy, i) && from[p].emits[i] == e.via
  }

  /** The graph declares e for failures of root that have come to a: e's component is a resolved one that depends on a's by
      a link for every root or for this one, and of their two states the second answers to the first under e's label. */
  ghost predicate Declares(g: Graph, root: string, a: Node, e: Edge) {
    && a.comp in g.components && e.to.comp in g.components && !g.components[e.to.comp].unresolved
    && (exists k :: 0 <= k < |g.components[a.comp].dependents| &&
          var link := g.components[a.comp].dependents[k];
          link.to == e.to.comp && (link.group ==> root in link.roots))
    && exists p, q :: Passes(g.components[a.comp].states, g.components[e.to.comp].states, a.state, e, p, q)
  }

  lemma {:induction false} StateNamedNone(states: seq<State>, name: string)
    requires !HasState(states, name)
    ensures StateNamed(states, name) == State("", [], [])
  {
    if states != [] {
      assert forall i :: 0 <= i < |states[1..]| ==> states[1..][i] == states[i + 1];
      assert states[0].name != name;
      StateNamedNone(states[1..], name);
    }
  }

  lemma {:induction false} EdgeDeclared(g: Graph, root: string, a: Node, e: Edge)
    requires WellFormed(g)
    ensures IsEdge(g, root, a, e.to) && e.via == LabelOf(g, a, e.to) <==> Declares(g, root, a, e)
  {
    hide MatchEdgeLabel, StateNamed, FirstAnswered;
    if a.comp in g.components && e.to.comp in g.components {
      var from, to := g.components[a.comp].states, g.components[e.to.comp].states;
      assert WellFormedComponent(g.components[a.comp]) && WellFormedComponent(g.components[e.to.comp]);
      LabelMeans(StateAt(g, a).emits, StateAt(g, e.to).triggeredBy);
      if Declares(g, root, a, e) {
        var p, q :| Passes(from, to, a.state, e, p, q);
        StateNamedAt(from, p);
        StateNamedAt(to, q);
      }
      if IsEdge(g, root, a, e.to) && e.via == LabelOf(g, a, e.to) {
        if !HasState(from, a.state) {
          StateNamedNone(from, a.state);
          LabelMeans([], StateAt(g, e.to).triggeredBy);
        }
        var p :| 0 <= p < |from| && from[p].name == a.state;
        var q :| 0 <= q < |to| && to[q].name == e.to.state;
        StateNamedAt(from, p);
        StateNamedAt(to, q);
        assert Passes(from, to, a.state, e, p, q);
      }
    }
  }

  /** The listed edges are exactly those the graph declares, each target once. */
  lemma {:induction false} EdgesMean(g: Graph, root: string, a: Node)
    requires WellFormed(g)
    ensures forall e :: e in Edges(g, root, a) <==> Declares(g, root, a, e)
    ensures DistinctTargets(Edges(g, root, a))
  {
    hide IsEdge, Declares, LabelOf, Edges;
    EdgesListed(g, root, a);
    forall e { EdgeDeclared(g, root, a, e); }
  }

  lemma EdgeDescends(g: Graph, root: string, a: Node, b: Node)
    requires Acyclic(g) && IsEdge(g, root, a, b)
    ensures Height(g, b.comp) < Height(g, a.comp)
  {
    var links := g.components[a.comp].dependents;
    var i :| 0 <= i < |links| && links[i].to == b.comp && Carries(links[i], root);
    assert links[i].to == b.comp;
  }

  /** Every node of the graph, which every edge leads to. */
  function Nodes(g: Graph): set<Node> {
    set c, i | c in g.components && 0 <= i < |g.components[c].states| :: Node(c, g.components[c].states[i].name)
  }
}
