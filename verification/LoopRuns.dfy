/** A graph on which deciding by counting and deciding by listing part company, and what a run makes of it. */
module LoopRuns {
  import opened Ordering
  import opened FailureGraph
  import opened Chains
  import opened Enumeration
  import opened LiveChains
  import opened Layers
  import opened ComponentCycles
  import opened Expr
  import opened Facts
  import opened Models
  import opened LiveSet
  import opened ProbeChoice
  import opened Occam
  import opened Diagnose

  // ---------------------------------------------------------------- every chain of the loop comes to one node

  lemma {:induction false} LoopEndsAt(g: Graph, w: Path)
    requires Looped(g) && (IsChain(g, w) || IsListed(g, w))
    ensures w != [] && (Last(w) == A9 || w == [A0])
    ensures IsChain(g, w) ==> Last(w) == A9
  {
    hide WellFormed, Simple;
    var n := Last(w);
    PathClean(g, w[0].comp, w);
    assert n in [A0, A9, B1, B2];
    if n == A0 {
      if |w| >= 2 { IntoFirst(g, w); }
      assert w == [A0];
      LoopFirst(g);
    }
  }

  /** Nothing leads back to the first node. */
  lemma {:induction false} IntoFirst(g: Graph, w: Path)
    requires Looped(g) && |w| >= 2 && IsPath(g, w[0].comp, w) && InGraph(g, w[0])
    ensures Last(w) != A0
  {
    hide WellFormed, Observing;
    var root, i := w[0].comp, |w| - 2;
    PathTail(g, root, w);
    PathClean(g, root, w[..|w| - 1]);
    EdgeAt(g, root, w, i);
    assert w[..|w| - 1][i] == w[i];
    assert InGraph(g, w[i]) && w[i] in [A0, A9, B1, B2] && (root == "a" || root == "b");
  }

  lemma {:induction false} LoopChainList(g: Graph, live: Liveness)
    requires Looped(g) && Tame(g, live) && !live.node("a", "9")
    ensures ChainList(g, live) == []
  {
    assert WellFormed(g);
    hide Looped, WellFormed, Tame, ChainList, IsChain;
    ChainListMeans(g, live);
    if ChainList(g, live) != [] {
      var s := ChainList(g, live)[0];
      assert s in ChainList(g, live);
      LoopEndsAt(g, NodesOf(s.chain));
      RenderLive(g, live, NodesOf(s.chain));
    }
  }

  lemma {:induction false} LoopListedLive(g: Graph, live: Liveness, t: Scenario)
    requires Looped(g) && !live.node("a", "9") && live.node("a", "0")
    ensures var w := NodesOf(t.chain);
            IsListed(g, w) && t == ScenarioOf(g, w) && ScenarioLive(live, t) <==> t == ScenarioOf(g, [A0])
  {
    hide Looped, IsListed, ScenarioLive, Render;
    var w, s := NodesOf(t.chain), ScenarioOf(g, [A0]);
    LoopFirst(g);
    RenderNodes(g, [A0]);
    RenderLive(g, live, [A0]);
    assert LivePath(live, [A0]);
    if IsListed(g, w) && t == ScenarioOf(g, w) && ScenarioLive(live, t) {
      LoopEndsAt(g, w);
      RenderLive(g, live, w);
    }
  }

  lemma {:induction false} LoopLiveListing(g: Graph, live: Liveness)
    requires Looped(g) && !live.node("a", "9") && live.node("a", "0")
    ensures LiveListing(g, live) == [ScenarioOf(g, [A0])]
  {
    assert WellFormed(g);
    hide Looped, WellFormed, LiveListing, IsListed, ScenarioLive, ScenarioOf;
    var l, s := LiveListing(g, live), ScenarioOf(g, [A0]);
    LiveListingMeans(g, live);
    forall t ensures t in l <==> t == s { LoopListedLive(g, live, t); }
    SameElementsSameLength(l, [s]);
    assert l[0] in l;
  }

  // ---------------------------------------------------------------- the model, and what is known

  /** The model behind the loop: "a" is in state "9" when it is not up, and "0" asks for nothing. */
  function LoopModel(num: Numerals): Model {
    Model(map["a" := Models.Component.Component(
                Some(Type("t", ["up"], [],
                          [StateDef("0", None, [], Unmarked), StateDef("9", Some(Cmp("", "up", Eq, VBool(false))), [], Unmarked)], "", map[])),
                "p", [], [], false),
              "b" := Models.Component.Component(None, "p", [], [], false)],
          ["a", "b"], (c, k) => Unset, num)
  }

  const UP := Fact("up", Some(VBool(true)), Normal)

  /** Its one fact has been read. */
  const KNOWN: Log := map["a" := [UP]]

  const WORLD: World := (c, k) => if c == "a" && k == "up" then Some(VBool(true)) else None

  /** The chain of the first node alone. */
  function Alone(): Scenario {
    ScenarioOf(Loop(), [A0])
  }

  lemma {:induction false} LoopKnown(num: Numerals)
    ensures forall c, k :: LatestOf(FactsFor(KNOWN, c), k) == if c == "a" && k == "up" then Some(UP) else None
    ensures KnowsLess(KNOWN, WORLD) && Uncollected(LoopModel(num), KNOWN) == {}
    ensures FactsFor(KNOWN, "a") == [UP] && !Absent(FactsFor(KNOWN, "a"))
  {
    assert [UP][..0] == [] && [UP][0] == UP;
    forall c, k ensures LatestOf(FactsFor(KNOWN, c), k) == if c == "a" && k == "up" then Some(UP) else None {
      if c == "a" { assert LatestOf([UP][..0], k) == None; }
    }
  }

  lemma {:induction false} LoopLive(num: Numerals)
    ensures var live := GraphLiveness(LoopModel(num), KNOWN); live.node("a", "0") && !live.node("a", "9")
  {
    var m := LoopModel(num);
    LoopKnown(num);
    var states := m.components["a"].resolved.value.states;
    assert states[0].name == "0" && states[1..] == [states[1]] && states[1].name == "9";
    assert MatchedConsistent(m, KNOWN, "a", states, "0");
    assert EvalPredicate(m, KNOWN, "a", states[1].when.value) == Decided(false);
    assert !MatchedConsistent(m, KNOWN, "a", states[1..], "9");
  }

  /** The chain of the first node alone happened: its state holds in the world, which is known in full. */
  lemma {:induction false} AloneHappened(num: Numerals)
    ensures TrueChain(LoopModel(num), WORLD, Alone()) && KnowsLess(KNOWN, WORLD)
  {
    LoopKnown(num);
    RenderNodes(Loop(), [A0]);
    var s := Alone();
    assert |s.chain| == 1 && NodeOf(s.chain[0]) == A0;
    var states := LoopModel(num).components["a"].resolved.value.states;
    assert states[0].name == "0" && states[0].when == None;
    assert TrueIn(LoopModel(num), WORLD, "a", states, "0");
    assert TrueStep(LoopModel(num), WORLD, s.chain[0].component, s.chain[0].state);
  }

  // ---------------------------------------------------------------- two decisions

  /** Whatever names the listing gives, what of it is live are its live scenarios. */
  lemma {:induction false} LiveNamed(live: Liveness, ns: seq<Named>, scs: seq<Scenario>)
    requires |ns| == |scs| && forall i :: 0 <= i < |ns| ==> ns[i].scenario == scs[i]
    ensures var a, b := Filter(NamedLive(live), ns), Filter(IsLiveScenario(live), scs);
            |a| == |b| && forall i :: 0 <= i < |a| ==> a[i].scenario == b[i]
  {
    hide ScenarioLive;
    if ns != [] { LiveNamed(live, ns[..|ns| - 1], scs[..|scs| - 1]); }
  }

  /** On the loop, with its one fact read: counting finds no live chain and every decision over the graph is that nothing
      fits; the listing has a live chain, of which the decision over it says that it is the one. */
  lemma {:induction false} LoopDecidedApart(num: Numerals, suspects: seq<Suspect>, digest: string -> string)
    ensures var g, m := Loop(), LoopModel(num);
            var sit, live := Situation(m, KNOWN, suspects), GraphLiveness(m, KNOWN);
            && WellFormed(g) && Tame(g, live) && ChainList(g, live) == [] && LiveListing(g, live) == [Alone()]
            && Taken(sit, [], Some(g), digest) == Stuck(NoneMatches)
            && (forall d :: Agrees(d, Taken(sit, [], Some(g), digest)) ==> d == Stuck(NoneMatches))
            && ListedDecision(sit, g, digest).Done? && ListedDecision(sit, g, digest).rootCause.scenario == Alone()
  {
    hide Loop, LoopModel, Looped, WellFormed, Tame, ChainList, Listing, GraphLiveness, ScenarioOf, NamedAll, PricedDecision, DecisionOver, StepCount;
    var g, m := Loop(), LoopModel(num);
    var sit, live := Situation(m, KNOWN, suspects), GraphLiveness(m, KNOWN);
    LoopLooped();
    LoopWellFormed();
    LoopSizes(g);
    TameUnderAny(g, live);
    LoopLive(num);
    LoopChainList(g, live);
    LoopLiveListing(g, live);
    PricedIsOpen(sit, StepCount(ChainList(g, live)), ByContent(digest, ChainList(g, live)));
    IdsDistinct(digest, Listing(g));
    LiveNamed(live, NamedAll(digest, Listing(g)), Listing(g));
    var left := Filter(NamedLive(live), NamedAll(digest, Listing(g)));
    assert left == [left[0]];
    DecisionIsOpen(sit, left);
  }

  /** The chain that happened is live, listed and never weighed. */
  lemma {:induction false} NeverWeighed(num: Numerals)
    ensures var m := LoopModel(num);
            && TrueChain(m, WORLD, Alone()) && KnowsLess(KNOWN, WORLD) && Alone() in LiveListing(Loop(), GraphLiveness(m, KNOWN))
            && !Weighed(m, KNOWN, [], Some(Loop()), Alone())
  {
    hide Loop, LoopModel, WellFormed, Tame, ChainList, LiveListing, Listing, GraphLiveness, ScenarioOf, Taken, ListedDecision,
      TrueChain, IsScenario, ScenarioLive;
    var live := GraphLiveness(LoopModel(num), KNOWN);
    LoopDecidedApart(num, [], k => k);
    AloneHappened(num);
    assert LiveListing(Loop(), live)[0] == Alone();
    LiveListingMeans(Loop(), live);
    ChainListMeans(Loop(), live);
  }

  /** A run over it reports that nothing fits, whatever the budget and the environment. */
  method LoopRunsOut(num: Numerals, suspects: seq<Suspect>, digest: string -> string, env: Environment, budget: nat)
    returns (report: Report)
    requires budget > 0
    ensures report == NothingFits(NoneMatches)
  {
    hide Loop, LoopModel, WellFormed, Taken, Tame, ChainList, LiveListing, Listing, GraphLiveness, ListedDecision, Uncollected, Weighed,
      TrueChain, ScenarioLive, PricedDecision, StepCount;
    var m := LoopModel(num);
    var store := new Store();
    store.Append("a", UP);
    assert [] + [UP] == [UP];
    assert store.log == KNOWN;
    LoopKnown(num);
    LoopDecidedApart(num, suspects, digest);
    var loop := new DiagnoseLoop(m, [], Some(Loop()), digest, suspects, env, store);
    report := loop.Run(budget);
    loop.StuckReports(KNOWN, NoneMatches, report);
  }
}
