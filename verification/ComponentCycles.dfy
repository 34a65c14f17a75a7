/** Graphs whose components can come back to one another: where counting still works, and how far it parts from listing. */
module ComponentCycles {
  import opened Ordering
  import opened FailureGraph
  import opened Chains
  import opened Enumeration
  import opened LiveChains
  import opened Counting
  import opened Layers

  /** The length of a concatenation is the sum of the lengths. */
  lemma {:induction false} LengthsAdd(f: Node -> seq<Path>, s: seq<Node>)
    ensures |FlatMap(f, s)| == Sum((n: Node) => |f(n)|, s)
  {
    if s != [] { LengthsAdd(f, s[..|s| - 1]); }
  }

  /** How many live chains each root has. */
  ghost function Sizes(g: Graph, live: Liveness): Node -> nat {
    r => |RootTails(g, live, r)|
  }

  /** The live chains number what the roots, in any order, add up to. */
  lemma {:induction false} ChainsByRoot(g: Graph, live: Liveness, rs: seq<Node>)
    requires WellFormed(g) && Tame(g, live)
    requires NoDup(rs) && forall r :: r in rs <==> InGraph(g, r)
    ensures |ChainList(g, live)| == Sum(Sizes(g, live), rs)
  {
    hide RootTails, Roots, Tame, WellFormed, InGraph;
    var f := RootTailsOf(g, live);
    TailsCountChains(g, live);
    LengthsAdd(f, Roots(g));
    RootsMean(g);
    SameElementsSameLength(Roots(g), rs);
    SumPermutes((n: Node) => |f(n)|, Roots(g), rs);
    SumSame((n: Node) => |f(n)|, Sizes(g, live), rs);
  }

  /** The chains of a root are as many as the ways on along its edges; one when nothing follows and it is observed. */
  lemma {:induction false} RootCount(g: Graph, r: Node)
    requires WellFormed(g) && TameFrom(g, AllLive, r) && InGraph(g, r)
    ensures |RootTails(g, AllLive, r)| ==
            if Edges(g, r.comp, r) == [] then (if Observing(g, r) then 1 else 0)
            else
              var n := Along(TailCount(g, AllLive, r), AllLive, r, Edges(g, r.comp, r));
              if n == 0 && StandsAlone(g, r) then 1 else n
  {
    hide WellFormed, TameFrom, FlatMap, TailsVia, Edges, TailCount, StandsAlone, InGraph;
    ReachSelf(g, AllLive, r);
    TailCountSolves(g, AllLive, r, r);
    RootTailsAre(g, AllLive, r);
    if Edges(g, r.comp, r) == [] { NothingFollows(g, r); }
  }

  lemma NothingFollows(g: Graph, r: Node)
    requires WellFormed(g) && Edges(g, r.comp, r) == []
    ensures StandsAlone(g, r) <==> Observing(g, r)
    ensures Along(TailCount(g, AllLive, r), AllLive, r, Edges(g, r.comp, r)) == 0
  {
    if GoesOn(g, r) { GoesByEdge(g, r); }
  }

  lemma GoesByEdge(g: Graph, r: Node)
    requires WellFormed(g) && GoesOn(g, r)
    ensures Edges(g, r.comp, r) != []
  {
    EdgesListed(g, r.comp, r);
    var w: Path :| IsPath(g, r.comp, w) && |w| >= 2 && w[0] == r && Observing(g, Last(w));
    PathTail(g, r.comp, w);
    assert Edge(w[1], LabelOf(g, r, w[1])) in Edges(g, r.comp, r);
  }

  lemma JustOne(es: seq<Edge>, e: Edge)
    requires DistinctTargets(es) && e in es && forall i :: 0 <= i < |es| ==> es[i] == e
    ensures es == [e]
  {
    if |es| > 1 { TwoTargets(es); }
  }

  lemma TwoTargets(es: seq<Edge>)
    requires DistinctTargets(es) && |es| > 1
    ensures es[0] != es[1]
  {}

  // ---------------------------------------------------------------- nodes with one edge or none

  /** Failures of root pass from n to t and nowhere else. */
  ghost predicate Leads(g: Graph, root: string, n: Node, t: Node) {
    forall b :: IsEdge(g, root, n, b) <==> b == t
  }

  ghost predicate Ends(g: Graph, root: string, n: Node) {
    forall b :: !IsEdge(g, root, n, b)
  }

  lemma {:induction false} OneEdge(g: Graph, root: string, n: Node, t: Node)
    requires WellFormed(g) && Leads(g, root, n, t)
    ensures Edges(g, root, n) == [Edge(t, LabelOf(g, n, t))]
  {
    hide IsEdge, LabelOf;
    var es, e := Edges(g, root, n), Edge(t, LabelOf(g, n, t));
    EdgesListed(g, root, n);
    hide Edges;
    assert IsEdge(g, root, n, t);
    assert e in es;
    forall i | 0 <= i < |es| ensures es[i] == e { assert es[i] in es; }
    JustOne(es, e);
  }

  lemma NoEdge(g: Graph, root: string, n: Node)
    requires WellFormed(g) && Ends(g, root, n)
    ensures Edges(g, root, n) == []
  {
    hide IsEdge, LabelOf;
    var es := Edges(g, root, n);
    EdgesListed(g, root, n);
    hide Edges;
    if es != [] { HasFirst(es); }
  }

  /** With one edge the ways on are those of its target. */
  lemma {:induction false} LeadsCount(g: Graph, r: Node, n: Node, t: Node)
    requires WellFormed(g) && TameFrom(g, AllLive, r) && LiveReach(g, AllLive, r, n) && Leads(g, r.comp, n, t)
    ensures LiveReach(g, AllLive, r, t)
    ensures TailCount(g, AllLive, r)(n) == TailCount(g, AllLive, r)(t) + if Observing(g, n) then 1 else 0
    ensures Along(TailCount(g, AllLive, r), AllLive, n, Edges(g, r.comp, n)) == TailCount(g, AllLive, r)(t)
  {
    hide TameFrom, LiveReach, TailCount, Leads, WellFormed, LabelOf, Edges;
    var e := Edge(t, LabelOf(g, n, t));
    OneEdge(g, r.comp, n, t);
    assert e in Edges(g, r.comp, n);
    TargetIsNext(g, AllLive, r.comp, n, e);
    ReachOn(g, AllLive, r, n, t);
    TailCountSolves(g, AllLive, r, n);
    assert [e][..0] == [];
  }

  lemma {:induction false} EndsCount(g: Graph, r: Node, n: Node)
    requires WellFormed(g) && TameFrom(g, AllLive, r) && LiveReach(g, AllLive, r, n) && Ends(g, r.comp, n)
    ensures TailCount(g, AllLive, r)(n) == if Observing(g, n) then 1 else 0
  {
    hide TameFrom, LiveReach, TailCount, Ends, WellFormed, Edges;
    NoEdge(g, r.comp, n);
    TailCountSolves(g, AllLive, r, n);
  }

  /** A root with one edge has the chains of its target, when there are any. */
  lemma {:induction false} LeadsRoot(g: Graph, r: Node, t: Node)
    requires WellFormed(g) && TameFrom(g, AllLive, r) && InGraph(g, r) && Leads(g, r.comp, r, t)
    ensures LiveReach(g, AllLive, r, t)
    ensures TailCount(g, AllLive, r)(t) > 0 ==> |RootTails(g, AllLive, r)| == TailCount(g, AllLive, r)(t)
  {
    hide TameFrom, LiveReach, TailCount, Leads, WellFormed, RootTails, InGraph, Edges, LabelOf;
    ReachSelf(g, AllLive, r);
    LeadsCount(g, r, r, t);
    OneEdge(g, r.comp, r, t);
    RootCount(g, r);
  }

  lemma {:induction false} EndsRoot(g: Graph, r: Node)
    requires WellFormed(g) && TameFrom(g, AllLive, r) && InGraph(g, r) && Ends(g, r.comp, r)
    ensures |RootTails(g, AllLive, r)| == if Observing(g, r) then 1 else 0
  {
    hide TameFrom, WellFormed, RootTails, InGraph, Edges;
    NoEdge(g, r.comp, r);
    RootCount(g, r);
  }

  lemma SumOfFour(f: Node -> nat, a: Node, b: Node, c: Node, d: Node)
    ensures Sum(f, [a, b, c, d]) == f(a) + f(b) + f(c) + f(d)
  {
    assert [a, b, c, d][..3] == [a, b, c] && [a, b, c][..2] == [a, b] && [a, b][..1] == [a] && [a][..0] == [];
    assert Sum(f, [a]) == f(a);
    assert Sum(f, [a, b]) == f(a) + f(b);
    assert Sum(f, [a, b, c]) == f(a) + f(b) + f(c);
  }

  // ---------------------------------------------------------------- two components that break each other in stages

  const STAGES := ["one", "two", "three", "four"]

  function Other(c: string): string {
    if c == "a" then "b" else "a"
  }

  function Stage(c: string, i: nat): Node
    requires i < 4
  {
    Node(c, STAGES[i])
  }

  function NextStage(c: string, i: nat): Node
    requires i < 3
  {
    Stage(Other(c), i + 1)
  }

  /** Two components, each with facts to observe, and every failure passes from a stage of one to the next of the other. */
  ghost predicate Staged(g: Graph) {
    && WellFormed(g)
    && (forall n :: InGraph(g, n) <==> (n.comp == "a" || n.comp == "b") && n.state in STAGES)
    && (forall n :: InGraph(g, n) ==> Observing(g, n))
    && (forall root, c, i: nat :: (c == "a" || c == "b") && i < 3 ==> Leads(g, root, Stage(c, i), NextStage(c, i)))
    && (forall root, c :: c == "a" || c == "b" ==> Ends(g, root, Stage(c, 3)))
  }

  function StageOf(n: Node): nat {
    if n.state == "one" then 0 else if n.state == "two" then 1 else if n.state == "three" then 2 else 3
  }

  lemma StageOfIs(n: Node)
    requires n.state in STAGES
    ensures StageOf(n) < 4 && n == Stage(n.comp, StageOf(n))
  {}

  lemma {:induction false} StagedTame(g: Graph, r: Node)
    requires Staged(g) && InGraph(g, r)
    ensures TameFrom(g, AllLive, r)
  {
    hide WellFormed, Observing, IsEdge;
    var down: Node -> nat := n => if StageOf(n) <= 3 then 3 - StageOf(n) else 0;
    forall a, b | LiveReach(g, AllLive, r, a) && b in LiveNext(g, AllLive, r.comp, a) ensures down(b) < down(a) {
      ReachInGraph(g, AllLive, r, a);
      StageOfIs(a);
      var i := StageOf(a);
      assert i < 3 ==> Leads(g, r.comp, Stage(a.comp, i), NextStage(a.comp, i));
      assert i == 3 ==> Ends(g, r.comp, Stage(a.comp, 3));
      LiveNextMeans(g, AllLive, r.comp, a);
    }
    assert RanksFrom(g, AllLive, r, down);
  }

  /** From the i-th stage the failure can stop at four less i places. */
  lemma {:induction false} StagedTails(g: Graph, r: Node, c: string, i: nat)
    requires Staged(g) && InGraph(g, r) && (c == "a" || c == "b") && i < 4 && LiveReach(g, AllLive, r, Stage(c, i))
    ensures TailCount(g, AllLive, r)(Stage(c, i)) == 4 - i
    decreases 4 - i
  {
    hide TailCount, LiveReach, TameFrom, WellFormed, Observing, Leads, Ends;
    StagedTame(g, r);
    assert InGraph(g, Stage(c, i));
    if i < 3 {
      LeadsCount(g, r, Stage(c, i), NextStage(c, i));
      StagedTails(g, r, Other(c), i + 1);
    } else {
      EndsCount(g, r, Stage(c, i));
    }
  }

  lemma {:induction false} StagedRoot(g: Graph, c: string, i: nat)
    requires Staged(g) && (c == "a" || c == "b") && i < 4
    ensures |RootTails(g, AllLive, Stage(c, i))| == if i == 3 then 1 else 3 - i
  {
    var r := Stage(c, i);
    hide TailCount, LiveReach, TameFrom, WellFormed, Observing, Leads, Ends, RootTails;
    assert InGraph(g, r);
    StagedTame(g, r);
    if i < 3 {
      LeadsRoot(g, r, NextStage(c, i));
      StagedTails(g, r, Other(c), i + 1);
    } else {
      EndsRoot(g, r);
    }
  }

  function Stages(c: string): seq<Node> {
    [Stage(c, 0), Stage(c, 1), Stage(c, 2), Stage(c, 3)]
  }

  lemma StagesHold(c: string, n: Node)
    ensures n in Stages(c) <==> n.comp == c && n.state in STAGES
  {}

  lemma StagesOnce(c: string)
    ensures NoDup(Stages(c))
  {}

  lemma {:induction false} StagedNodes(g: Graph)
    requires Staged(g)
    ensures NoDup(Stages("a") + Stages("b")) && forall r :: r in Stages("a") + Stages("b") <==> InGraph(g, r)
  {
    hide WellFormed, Observing, Leads, Ends, Stages, NoDup;
    StagesOnce("a");
    StagesOnce("b");
    forall n ensures n in Stages("a") <==> n.comp == "a" && n.state in STAGES { StagesHold("a", n); }
    forall n ensures n in Stages("b") <==> n.comp == "b" && n.state in STAGES { StagesHold("b", n); }
    NoDupConcat(Stages("a"), Stages("b"));
  }

  lemma {:induction false} StagedSum(g: Graph, c: string)
    requires Staged(g) && (c == "a" || c == "b")
    ensures Sum(Sizes(g, AllLive), Stages(c)) == 7
  {
    hide RootTails, Staged, Sum;
    SumOfFour(Sizes(g, AllLive), Stage(c, 0), Stage(c, 1), Stage(c, 2), Stage(c, 3));
    StagedRoot(g, c, 0);
    StagedRoot(g, c, 1);
    StagedRoot(g, c, 2);
    StagedRoot(g, c, 3);
  }

  lemma {:induction false} StagedCount(g: Graph)
    requires Staged(g)
    ensures Tame(g, AllLive) && |ChainList(g, AllLive)| == 14
  {
    forall r | InGraph(g, r) ensures TameFrom(g, AllLive, r) { StagedTame(g, r); }
    assert WellFormed(g);
    hide RootTails, TameFrom, WellFormed, InGraph, ChainList, Staged, Sum, Stages;
    StagedNodes(g);
    ChainsByRoot(g, AllLive, Stages("a") + Stages("b"));
    SumAppend(Sizes(g, AllLive), Stages("a"), Stages("b"));
    StagedSum(g, "a");
    StagedSum(g, "b");
  }

  lemma {:induction false} AllRepeats(w: Path)
    requires w == [Stage("a", 0), Stage("b", 1), Stage("a", 2), Stage("b", 3)]
    ensures !Simple(w)
  {
    assert w[0].comp == w[2].comp;
  }

  lemma {:induction false} StagedChain(g: Graph, w: Path)
    requires Staged(g) && w == [Stage("a", 0), Stage("b", 1), Stage("a", 2), Stage("b", 3)]
    ensures IsChain(g, w)
  {
    hide WellFormed, IsEdge, Observing, InGraph;
    forall i | 0 <= i < |w| - 1 ensures IsEdge(g, "a", w[i], w[i + 1]) {
      assert Leads(g, "a", Stage(w[i].comp, i), NextStage(w[i].comp, i));
    }
  }

  /** Where every component is observed, a root that something follows from is followed at once. */
  lemma {:induction false} NoStray(g: Graph, w: Path)
    requires Staged(g) && IsListed(g, w) && |w| == 1
    ensures !GoesOn(g, w[0])
  {
    hide WellFormed, Leads, Ends;
    var r := w[0];
    if GoesOn(g, r) {
      var v: Path :| IsPath(g, r.comp, v) && |v| >= 2 && v[0] == r && Observing(g, Last(v));
      PathTail(g, r.comp, v);
      var short := [r, v[1]];
      EdgeIntoGraph(g, r.comp, r, v[1]);
      TwoNodes(g, r, v[1]);
      assert false;
    }
  }

  lemma EdgeIntoGraph(g: Graph, root: string, a: Node, b: Node)
    requires IsEdge(g, root, a, b)
    ensures InGraph(g, b)
  {}

  lemma TwoNodes(g: Graph, r: Node, b: Node)
    requires IsEdge(g, r.comp, r, b) && Observing(g, b)
    ensures WalksOn(g, r)
  {
    var short := [r, b];
    assert IsPath(g, r.comp, short) && Last(short) == b && Simple(short);
  }

  /** No root strays here, and the chains of all four stages are not listed. */
  lemma {:induction false} StagedListsFewer(g: Graph)
    requires Staged(g) && Tame(g, AllLive)
    ensures |Listing(g)| < |ChainList(g, AllLive)|
  {
    var w := [Stage("a", 0), Stage("b", 1), Stage("a", 2), Stage("b", 3)];
    StagedChain(g, w);
    AllRepeats(w);
    forall v: Path | IsListed(g, v) && |v| == 1 ensures !GoesOn(g, v[0]) { NoStray(g, v); }
    assert WellFormed(g);
    hide Staged, Listing, ChainList, LiveListing, Tame, WellFormed, GoesOn, WalksOn, IsChain, Filter, Simple, IsListed;
    EverythingLive(g);
    CountAgainstListing(g, AllLive);
    ChainListMeans(g, AllLive);
    LiveListingMeans(g, AllLive);
    RenderNodes(g, w);
    RenderLive(g, AllLive, w);
    FilterMeans(Repeats(), ChainList(g, AllLive));
    assert ScenarioOf(g, w) in Filter(Repeats(), ChainList(g, AllLive));
    FilterMeans(Strays(g), LiveListing(g, AllLive));
    forall t | t in LiveListing(g, AllLive) ensures !Strays(g)(t) {
      assert NodesOf(t.chain) == NodesOf(t.chain);
    }
    if Filter(Strays(g), LiveListing(g, AllLive)) != [] { HasFirst(Filter(Strays(g), LiveListing(g, AllLive))); }
  }

  lemma SeesawStates(i: nat)
    requires i < 4
    ensures var g := Seesaw();
            && g.components["a"].states == g.components["b"].states && |g.components["a"].states| == 4
            && g.components["a"].states[i].name == STAGES[i]
            && g.components["a"].states[i].emits == (if i == 3 then [] else [LABELS[i + 1]])
            && g.components["a"].states[i].triggeredBy == [LABELS[i]]
  {}

  /** What triggers each stage; the one before emits it. */
  const LABELS := ["w", "x", "y", "z"]

  lemma SeesawNamed(c: string, i: nat)
    requires (c == "a" || c == "b") && i < 4
    ensures StateAt(Seesaw(), Stage(c, i)) == Seesaw().components["a"].states[i]
  {
    var states := Seesaw().components["a"].states;
    forall j: nat {:trigger STAGES[j]} | j < 4 ensures states[j].name == STAGES[j] { SeesawStates(j); }
    SeesawStates(i);
    assert DistinctStates(states);
    StateNamedAt(states, i);
  }

  lemma LabelMatch(a: string, b: string)
    ensures MatchEdgeLabel([a], [b]) == if a == b then a else ""
    ensures MatchEdgeLabel([], [b]) == ""
  {
    assert [a][1..] == [] && FirstAccepted([], [b]) == "";
    assert a in [b] <==> a == b;
  }

  lemma SeesawLabel(c: string, i: nat, d: string, j: nat)
    requires (c == "a" || c == "b") && (d == "a" || d == "b") && i < 4 && j < 4
    ensures LabelOf(Seesaw(), Stage(c, i), Stage(d, j)) != "" <==> j == i + 1
  {
    hide Seesaw, MatchEdgeLabel;
    SeesawNamed(c, i);
    SeesawNamed(d, j);
    SeesawStates(i);
    SeesawStates(j);
    LabelMatch(if i < 3 then LABELS[i + 1] else "", LABELS[j]);
  }

  lemma SeesawNode(n: Node)
    ensures InGraph(Seesaw(), n) <==> (n.comp == "a" || n.comp == "b") && n.state in STAGES
    ensures n.comp == "a" || n.comp == "b" ==> Observing(Seesaw(), n)
  {
    var g := Seesaw();
    if n.comp == "a" || n.comp == "b" {
      var states := g.components[n.comp].states;
      assert |states| == 4 && forall i :: 0 <= i < 4 ==> states[i].name == STAGES[i];
    }
  }

  lemma SeesawWellFormed()
    ensures WellFormed(Seesaw())
  {
    assert WellFormedComponent(Seesaw().components["a"]);
    assert WellFormedComponent(Seesaw().components["b"]);
  }

  lemma SeesawLinks(root: string, c: string, d: string)
    requires c == "a" || c == "b"
    ensures LinkCarries(Seesaw().components[c].dependents, d, root) <==> d == Other(c)
  {
    var links := Seesaw().components[c].dependents;
    assert links == [Link(Other(c), false, [])];
    assert links[0].to == Other(c) && Carries(links[0], root);
  }

  lemma SeesawEdge(root: string, c: string, i: nat, b: Node)
    requires (c == "a" || c == "b") && i < 4
    ensures IsEdge(Seesaw(), root, Stage(c, i), b) <==> i < 3 && b == NextStage(c, i)
  {
    hide Seesaw, LabelOf, LinkCarries, InGraph;
    SeesawLinks(root, c, b.comp);
    SeesawNode(b);
    SeesawNode(Stage(c, i));
    SeesawKeys(c);
    if InGraph(Seesaw(), b) {
      StageOfIs(b);
      SeesawLabel(c, i, b.comp, StageOf(b));
    }
  }

  lemma SeesawKeys(c: string)
    requires c == "a" || c == "b"
    ensures c in Seesaw().components
  {}

  lemma {:induction false} SeesawStaged()
    ensures Staged(Seesaw())
  {
    var g := Seesaw();
    hide Seesaw, IsEdge, InGraph, Observing, WellFormed;
    SeesawWellFormed();
    forall n { SeesawNode(n); }
    forall root, c, i: nat {:trigger Leads(g, root, Stage(c, i), NextStage(c, i))} | (c == "a" || c == "b") && i < 3
      ensures Leads(g, root, Stage(c, i), NextStage(c, i))
    {
      forall b { SeesawEdge(root, c, i, b); }
    }
    forall root, c | c == "a" || c == "b" ensures Ends(g, root, Stage(c, 3)) {
      forall b { SeesawEdge(root, c, 3, b); }
    }
  }

  /** Counting meets no cycle on the seesaw, and counts fourteen chains; the listing has fewer, having blocked those that
      come back to a component and go on. */
  lemma {:induction false} SeesawCounted()
    ensures WellFormed(Seesaw()) && Tame(Seesaw(), AllLive)
    ensures |ChainList(Seesaw(), AllLive)| == 14 && |Listing(Seesaw())| < 14
  {
    hide Seesaw, Listing, ChainList, Tame, WellFormed;
    SeesawWellFormed();
    SeesawStaged();
    StagedCount(Seesaw());
    StagedListsFewer(Seesaw());
  }

  // ---------------------------------------------------------------- equally many, and not the same

  /** A component that breaks itself in two stages before it breaks the first again; only the first's failure passes. */
  function Loop(): Graph {
    Graph(map["a" := Component(false, ["up"], [State("0", ["x"], ["w"]), State("9", [], ["z"])], [Link("b", true, ["a"])]),
              "b" := Component(false, [], [State("1", ["y"], ["x"]), State("2", ["z"], ["y"])],
                               [Link("b", true, ["a"]), Link("a", true, ["a"])])])
  }

  const A0 := Node("a", "0")
  const A9 := Node("a", "9")
  const B1 := Node("b", "1")
  const B2 := Node("b", "2")

  /** What the loop's edges are: one way through all four nodes, for failures of a, and nothing else. */
  ghost predicate Looped(g: Graph) {
    && WellFormed(g)
    && (forall n :: InGraph(g, n) <==> n in [A0, A9, B1, B2])
    && (forall n: Node :: n.comp == "a" ==> Observing(g, n))
    && (forall n: Node :: n.comp == "b" ==> !Observing(g, n))
    && Leads(g, "a", A0, B1) && Leads(g, "a", B1, B2) && Leads(g, "a", B2, A9) && Ends(g, "a", A9)
    && Ends(g, "b", B1) && Ends(g, "b", B2)
  }

  lemma LoopStates()
    ensures StateAt(Loop(), A0) == State("0", ["x"], ["w"]) && StateAt(Loop(), A9) == State("9", [], ["z"])
    ensures StateAt(Loop(), B1) == State("1", ["y"], ["x"]) && StateAt(Loop(), B2) == State("2", ["z"], ["y"])
  {}

  lemma LoopNode(n: Node)
    ensures InGraph(Loop(), n) <==> n in [A0, A9, B1, B2]
    ensures n.comp == "a" ==> Observing(Loop(), n)
    ensures n.comp == "b" ==> !Observing(Loop(), n)
  {
    var g := Loop();
    if n.comp == "a" { assert g.components["a"].states[0].name == "0" && g.components["a"].states[1].name == "9"; }
    if n.comp == "b" { assert g.components["b"].states[0].name == "1" && g.components["b"].states[1].name == "2"; }
  }

  lemma LoopLinks(root: string, d: string)
    ensures LinkCarries(Loop().components["a"].dependents, d, root) <==> root == "a" && d == "b"
    ensures LinkCarries(Loop().components["b"].dependents, d, root) <==> root == "a" && (d == "b" || d == "a")
  {
    var fromA, fromB := Loop().components["a"].dependents, Loop().components["b"].dependents;
    assert fromA == [Link("b", true, ["a"])] && fromB == [Link("b", true, ["a"]), Link("a", true, ["a"])];
    assert fromA[0].to == "b" && fromB[0].to == "b" && fromB[1].to == "a";
    assert Carries(fromA[0], root) <==> root == "a";
    assert Carries(fromB[0], root) <==> root == "a";
    assert Carries(fromB[1], root) <==> root == "a";
  }

  lemma LoopLabel(a: Node, b: Node)
    requires a in [A0, A9, B1, B2] && b in [A0, A9, B1, B2]
    ensures LabelOf(Loop(), a, b) != "" <==> (a, b) in [(A0, B1), (B1, B2), (B2, A9)]
  {
    hide Loop, MatchEdgeLabel;
    LoopStates();
    LabelMatch("x", StateAt(Loop(), b).triggeredBy[0]);
    LabelMatch("y", StateAt(Loop(), b).triggeredBy[0]);
    LabelMatch("z", StateAt(Loop(), b).triggeredBy[0]);
  }

  lemma LoopKeys()
    ensures "a" in Loop().components && "b" in Loop().components
  {}

  lemma LoopEdge(root: string, a: Node, b: Node)
    requires a in [A0, A9, B1, B2]
    ensures IsEdge(Loop(), root, a, b) <==> root == "a" && (a, b) in [(A0, B1), (B1, B2), (B2, A9)]
  {
    hide Loop, LabelOf, LinkCarries, InGraph;
    LoopKeys();
    LoopLinks(root, b.comp);
    LoopNode(b);
    if b in [A0, A9, B1, B2] { LoopLabel(a, b); }
  }

  lemma LoopWellFormed()
    ensures WellFormed(Loop())
  {
    assert WellFormedComponent(Loop().components["a"]);
    assert WellFormedComponent(Loop().components["b"]);
  }

  lemma {:induction false} LoopLooped()
    ensures Looped(Loop())
  {
    hide Loop, IsEdge, InGraph, Observing, WellFormed;
    LoopWellFormed();
    forall n { LoopNode(n); }
    forall root, a, b | a in [A0, A9, B1, B2]
      ensures IsEdge(Loop(), root, a, b) <==> root == "a" && (a, b) in [(A0, B1), (B1, B2), (B2, A9)]
    {
      LoopEdge(root, a, b);
    }
  }

  function LoopRank(n: Node): nat {
    if n == A0 then 3 else if n == B1 then 2 else if n == B2 then 1 else 0
  }

  lemma {:induction false} LoopTame(g: Graph, r: Node)
    requires Looped(g) && InGraph(g, r)
    ensures TameFrom(g, AllLive, r)
  {
    hide WellFormed, Observing, IsEdge;
    var rank: Node -> nat := n => LoopRank(n);
    forall a, b | LiveReach(g, AllLive, r, a) && b in LiveNext(g, AllLive, r.comp, a) ensures rank(b) < rank(a) {
      ReachInGraph(g, AllLive, r, a);
      assert a in [A0, A9, B1, B2] && r in [A0, A9, B1, B2];
      LoopReach(g, r, a);
      LiveNextMeans(g, AllLive, r.comp, a);
    }
    assert RanksFrom(g, AllLive, r, rank);
  }

  /** Nothing of a is reached from b. */
  lemma {:induction false} LoopReach(g: Graph, r: Node, n: Node)
    requires Looped(g) && InGraph(g, r) && LiveReach(g, AllLive, r, n)
    ensures r.comp == "b" ==> n == r
  {
    if r.comp == "b" {
      var w :| IsWay(g, AllLive, r, w) && Last(w) == n;
      assert r in [A0, A9, B1, B2];
      assert r == B1 || r == B2;
      if |w| >= 2 { FirstEdge(g, r, w); }
    }
  }

  lemma FirstEdge(g: Graph, r: Node, w: Path)
    requires IsWay(g, AllLive, r, w) && |w| >= 2
    ensures IsEdge(g, r.comp, r, w[1])
  {
    assert IsEdge(g, r.comp, w[0], w[0 + 1]);
  }

  lemma {:induction false} LoopSizes(g: Graph)
    requires Looped(g)
    ensures Tame(g, AllLive) && |ChainList(g, AllLive)| == 2
  {
    forall r | InGraph(g, r) ensures TameFrom(g, AllLive, r) { LoopTame(g, r); }
    var rs := [A0, A9, B1, B2];
    assert NoDup(rs) && InGraph(g, A0) && InGraph(g, A9) && InGraph(g, B1) && InGraph(g, B2);
    hide TameFrom, WellFormed, InGraph, Leads, Ends, Observing, RootTails, TailCount, LiveReach, ChainList, Sum;
    ChainsByRoot(g, AllLive, rs);
    SumOfFour(Sizes(g, AllLive), A0, A9, B1, B2);
    LeadsRoot(g, A0, B1);
    LeadsCount(g, A0, B1, B2);
    LeadsCount(g, A0, B2, A9);
    EndsCount(g, A0, A9);
    EndsRoot(g, A9);
    EndsRoot(g, B1);
    EndsRoot(g, B2);
  }

  lemma {:induction false} LoopChain(g: Graph)
    requires Looped(g)
    ensures var w := [A0, B1, B2, A9]; IsChain(g, w) && !Simple(w)
    ensures IsChain(g, [A9]) && Simple([A9])
  {
    hide WellFormed, Observing;
    var w := [A0, B1, B2, A9];
    assert IsEdge(g, "a", A0, B1) && IsEdge(g, "a", B1, B2) && IsEdge(g, "a", B2, A9);
    forall i | 0 <= i < |w| - 1 ensures IsEdge(g, "a", w[i], w[i + 1]) { assert i == 0 || i == 1 || i == 2; }
    assert w[1].comp == w[2].comp;
    assert InGraph(g, A9) && IsPath(g, "a", [A9]);
    if GoesOn(g, A9) {
      var v: Path :| IsPath(g, "a", v) && |v| >= 2 && v[0] == A9 && Observing(g, Last(v));
      PathTail(g, "a", v);
    }
  }

  /** The first root is listed alone: what follows from it is found by no simple way. */
  lemma {:induction false} LoopStray(g: Graph, r: Node)
    requires Looped(g) && InGraph(g, r) && Observing(g, r)
    ensures IsListed(g, [r]) && GoesOn(g, r) <==> r == A0
  {
    hide WellFormed;
    assert r in [A0, A9, B1, B2];
    LoopChain(g);
    assert IsPath(g, r.comp, [r]) && Simple([r]);
    if r == A0 {
      LoopWalks(g);
      var w := [A0, B1, B2, A9];
      assert IsPath(g, "a", w) && w[0] == A0 && Observing(g, Last(w));
    }
  }

  lemma {:induction false} LoopWalks(g: Graph)
    requires Looped(g)
    ensures !WalksOn(g, A0)
  {
    hide WellFormed, Leads, Ends, Observing, Simple;
    forall v: Path | IsPath(g, "a", v) && |v| >= 2 && v[0] == A0 ensures !(Observing(g, Last(v)) && Simple(v)) {
      LoopPath(g, v);
      LoopPrefix(g, v);
    }
  }

  lemma LoopPrefix(g: Graph, v: Path)
    requires Looped(g) && v <= [A0, B1, B2, A9] && |v| >= 2
    ensures !(Observing(g, Last(v)) && Simple(v))
  {
    if |v| == 4 { assert v[1].comp == v[2].comp; }
  }

  lemma EdgeAt(g: Graph, root: string, v: Path, i: nat)
    requires IsPath(g, root, v) && i + 1 < |v|
    ensures IsEdge(g, root, v[i], v[i + 1])
  {}

  /** A way from the first node goes through them all in order, as far as it goes. */
  lemma {:induction false} LoopPath(g: Graph, v: Path)
    requires Looped(g) && IsPath(g, "a", v) && v[0] == A0
    ensures v <= [A0, B1, B2, A9]
  {
    hide WellFormed, IsEdge, Observing;
    if |v| >= 2 { EdgeAt(g, "a", v, 0); }
    if |v| >= 3 { EdgeAt(g, "a", v, 1); }
    if |v| >= 4 { EdgeAt(g, "a", v, 2); }
    if |v| >= 5 { EdgeAt(g, "a", v, 3); }
  }

  lemma ObservedListed(g: Graph, w: Path)
    requires IsListed(g, w)
    ensures InGraph(g, w[0]) && Observing(g, Last(w))
  {}

  lemma {:induction false} LoopStrayIs(g: Graph, t: Scenario)
    requires Looped(g)
    ensures IsListed(g, NodesOf(t.chain)) && t == ScenarioOf(g, NodesOf(t.chain)) && Strays(g)(t) <==> t == ScenarioOf(g, [A0])
  {
    hide Looped, WellFormed, InGraph, Observing, GoesOn, IsListed, Render;
    var w := NodesOf(t.chain);
    RenderNodes(g, [A0]);
    LoopFirst(g);
    if IsListed(g, w) && t == ScenarioOf(g, w) && Strays(g)(t) {
      ObservedListed(g, w);
      assert w == [w[0]] && NodeOf(t.chain[0]) == w[0];
      LoopStray(g, w[0]);
    }
  }

  lemma {:induction false} LoopFirst(g: Graph)
    requires Looped(g)
    ensures IsListed(g, [A0]) && GoesOn(g, A0)
  {
    hide WellFormed, Leads, Ends, GoesOn, IsListed;
    assert InGraph(g, A0) && Observing(g, A0);
    LoopStray(g, A0);
  }

  /** The strays of the loop: the chain of its first node alone. */
  lemma {:induction false} LoopStrays(g: Graph)
    requires Looped(g)
    ensures |Filter(Strays(g), LiveListing(g, AllLive))| == 1
  {
    assert WellFormed(g);
    hide Looped, WellFormed, Strays, IsListed, LiveListing, Filter, ScenarioLive, ScenarioOf;
    var l, s := LiveListing(g, AllLive), ScenarioOf(g, [A0]);
    LiveListingMeans(g, AllLive);
    FilterMeans(Strays(g), l);
    FilterNoDup(Strays(g), l);
    EverythingIsLive([A0]);
    RenderLive(g, AllLive, [A0]);
    forall t ensures t in Filter(Strays(g), l) <==> t == s { LoopStrayIs(g, t); }
    SameElementsSameLength(Filter(Strays(g), l), [s]);
  }

  lemma EverythingIsLive(w: Path)
    ensures LivePath(AllLive, w)
  {}

  /** The repeats of the loop: the chain through all its nodes, one of two. */
  lemma {:induction false} LoopRepeats(g: Graph)
    requires Looped(g) && Tame(g, AllLive) && |ChainList(g, AllLive)| == 2
    ensures |Filter(Repeats(), ChainList(g, AllLive))| == 1
  {
    LoopChain(g);
    assert WellFormed(g);
    var w := [A0, B1, B2, A9];
    hide Looped, WellFormed, Tame, IsChain, Simple, ChainList, Filter, ScenarioLive;
    var l := ChainList(g, AllLive);
    ChainListMeans(g, AllLive);
    RenderNodes(g, w);
    RenderNodes(g, [A9]);
    RenderLive(g, AllLive, w);
    RenderLive(g, AllLive, [A9]);
    EverythingIsLive(w);
    EverythingIsLive([A9]);
    FilterMeans(Repeats(), l);
    FilterMeans(Not(Repeats()), l);
    FilterParts(Repeats(), l);
    assert ScenarioOf(g, w) in Filter(Repeats(), l);
    assert ScenarioOf(g, [A9]) in Filter(Not(Repeats()), l);
  }

  /** As many chains are counted as listed, and yet one that is counted comes back to a component and goes on: the listing
      has, in its place, the root it starts from. */
  lemma {:induction false} LoopBalances()
    ensures WellFormed(Loop()) && Tame(Loop(), AllLive)
    ensures |ChainList(Loop(), AllLive)| == |LiveListing(Loop(), AllLive)| == 2
    ensures (exists s :: s in ChainList(Loop(), AllLive) && Repeats()(s)) && ChainList(Loop(), AllLive) != LiveListing(Loop(), AllLive)
  {
    hide Loop, Looped, WellFormed, Tame, ChainList, LiveListing, Filter, Strays, Repeats, Plain;
    var g := Loop();
    LoopLooped();
    LoopWellFormed();
    LoopSizes(g);
    LoopStrays(g);
    LoopRepeats(g);
    CountAgainstListing(g, AllLive);
    FilterMeans(Repeats(), ChainList(g, AllLive));
    HasFirst(Filter(Repeats(), ChainList(g, AllLive)));
    SameExactlyWhenPlain(g, AllLive);
    var s :| s in ChainList(g, AllLive) && Repeats()(s);
    NotPlain(g, s);
  }

  lemma NotPlain(g: Graph, s: Scenario)
    requires s in ChainList(g, AllLive) && Repeats()(s)
    ensures !Plain(g, AllLive)
  {}
}
