/** The classes of every root are Representatives of the listing, live part and eliminated part. */
module ClassListing {
  import opened Ordering
  import opened FailureGraph
  import opened Chains
  import opened Enumeration
  import opened LiveChains
  import opened Layers
  import opened Representatives
  import opened ClassPaths
  import opened Classes

  function IsDeadScenario(live: Liveness): Scenario -> bool {
    s => !ScenarioLive(live, s)
  }

  /** The live chains of the graph in scenario order, or the eliminated ones; components that come back included. */
  ghost function Part(g: Graph, live: Liveness, dead: bool): seq<Scenario> {
    Filter(if dead then IsDeadScenario(live) else IsLiveScenario(live), ChainList(g, AllLive))
  }

  lemma EveryoneLives(s: Scenario)
    ensures ScenarioLive(AllLive, s)
  {}

  lemma PartMeans(g: Graph, live: Liveness, dead: bool)
    requires WellFormed(g) && Tame(g, AllLive)
    ensures StrictlySorted(Less, Part(g, live, dead)) && NoDup(Part(g, live, dead))
    ensures forall s :: s in Part(g, live, dead) <==> IsScenario(g, s) && dead == !ScenarioLive(live, s)
  {
    hide WellFormed, Tame, ChainList, IsScenario, ScenarioLive, Less;
    var p := if dead then IsDeadScenario(live) else IsLiveScenario(live);
    ChainListMeans(g, AllLive);
    forall s { EveryoneLives(s); }
    LessWeak();
    FilterKeepsOrder(Less, p, ChainList(g, AllLive));
    FilterMeans(p, ChainList(g, AllLive));
    StrictNoDup(Less, Part(g, live, dead));
  }

  /** On an acyclic graph the parts are those of the listing. */
  lemma PartOfListing(g: Graph, live: Liveness, dead: bool)
    requires WellFormed(g) && Acyclic(g)
    ensures Part(g, live, dead) == Filter(if dead then IsDeadScenario(live) else IsLiveScenario(live), Listing(g))
  {
    hide WellFormed, Acyclic, ChainList, Listing, LiveListing, Filter, Tame, Plain, NoRepeat;
    AcyclicPlain(g, AllLive);
    EverythingLive(g);
  }

  /** A set of paths has as many members as any duplicate-free listing of its scenarios. */
  lemma SetCountsListing(g: Graph, paths: set<Path>, l: seq<Scenario>)
    requires NoDup(l)
    requires forall s :: s in l ==> s == ScenarioOf(g, NodesOf(s.chain)) && NodesOf(s.chain) in paths
    requires forall w :: w in paths ==> ScenarioOf(g, w) in l
    ensures |paths| == |l|
  {
    var ps := seq(|l|, i requires 0 <= i < |l| => NodesOf(l[i].chain));
    forall i, j | 0 <= i < j < |l| ensures ps[i] != ps[j] {
      assert l[i] in l && l[j] in l;
    }
    SetOfNoDup(ps);
    forall w ensures w in paths <==> w in ps {
      if w in paths {
        RenderNodes(g, w);
        var i :| 0 <= i < |l| && l[i] == ScenarioOf(g, w);
        assert ps[i] == w;
      }
      if w in ps {
        var i :| 0 <= i < |ps| && ps[i] == w;
        assert l[i] in l;
      }
    }
    assert paths == set x | x in ps;
  }

  /** A scenario of the graph belongs to class k of root r exactly when its path does. */
  lemma ClassByPath(g: Graph, live: Liveness, r: Node, s: Scenario)
    requires WellFormed(g) && IsScenario(g, s)
    ensures var w := NodesOf(s.chain);
            && w != []
            && s.root == RootRef(w[0].comp, w[0].state)
            && (w[0] == r <==> s.root == RootRef(r.comp, r.state))
            && ClassKeyOf(live, w) == Class(Terminal(s), !ScenarioLive(live, s))
  {
    RenderLive(g, live, NodesOf(s.chain));
  }

  lemma ScenarioOfChain(g: Graph, w: Path)
    requires IsChain(g, w)
    ensures IsScenario(g, ScenarioOf(g, w)) && NodesOf(ScenarioOf(g, w).chain) == w
  {
    RenderNodes(g, w);
  }

  /** What a class entry holds is the representative of its class in its part of the listing. */
  lemma EntryRepresents(g: Graph, live: Liveness, r: Node, col: map<Class, set<Path>>, k: Class, rep: Representative)
    requires WellFormed(g) && Tame(g, AllLive) && HoldsChains(g, live, r, col) && k in col && RepEntry(g, r, rep, col[k])
    ensures IsRepresentative(Part(g, live, k.dead), rep)
    ensures rep.scenario.root == RootRef(r.comp, r.state) && Terminal(rep.scenario) == k.terminal
  {
    hide IsChain, Less, PathLess, Part, ScenarioOf, IsScenario, ScenarioLive, ClassKeyOf, Terminal;
    var w, l := NodesOf(rep.scenario.chain), Part(g, live, k.dead);
    PartMeans(g, live, k.dead);
    InClass(g, live, r, col, k, w);
    forall t | t in l && SameClass(rep.scenario, t) ensures t == rep.scenario || Less(rep.scenario, t) {
      InClassBack(g, live, r, col, k, t);
      var v := NodesOf(t.chain);
      if v != w { PathLessIsLess(g, w, v); }
    }
    EntryCounts(g, live, r, col, k, rep);
  }

  /** A path of class k is a scenario of the part and class. */
  lemma InClass(g: Graph, live: Liveness, r: Node, col: map<Class, set<Path>>, k: Class, w: Path)
    requires WellFormed(g) && Tame(g, AllLive) && HoldsChains(g, live, r, col) && k in col && w in col[k]
    ensures var s := ScenarioOf(g, w);
            && s in Part(g, live, k.dead) && s.root == RootRef(r.comp, r.state) && Terminal(s) == k.terminal
            && NodesOf(s.chain) == w
  {
    hide Part, Terminal, ScenarioLive;
    PartMeans(g, live, k.dead);
    ScenarioOfChain(g, w);
    ClassByPath(g, live, r, ScenarioOf(g, w));
  }

  /** ... and a scenario of the part and class has a path of class k. */
  lemma InClassBack(g: Graph, live: Liveness, r: Node, col: map<Class, set<Path>>, k: Class, t: Scenario)
    requires WellFormed(g) && Tame(g, AllLive) && HoldsChains(g, live, r, col)
    requires t in Part(g, live, k.dead) && t.root == RootRef(r.comp, r.state) && Terminal(t) == k.terminal
    ensures k in col && NodesOf(t.chain) in col[k] && NodesOf(t.chain) != [] && NodesOf(t.chain)[0] == r
    ensures t == ScenarioOf(g, NodesOf(t.chain))
  {
    hide Part, Terminal, ScenarioLive, WellFormed, Tame, IsChain, ClassKeyOf;
    PartMeans(g, live, k.dead);
    ClassByPath(g, live, r, t);
  }

  lemma EntryCounts(g: Graph, live: Liveness, r: Node, col: map<Class, set<Path>>, k: Class, rep: Representative)
    requires WellFormed(g) && Tame(g, AllLive) && HoldsChains(g, live, r, col) && k in col && RepEntry(g, r, rep, col[k])
    requires rep.scenario.root == RootRef(r.comp, r.state) && Terminal(rep.scenario) == k.terminal
    ensures rep.count == CountIf(InClassOf(rep.scenario), Part(g, live, k.dead))
  {
    hide HoldsChains, Part, Terminal, ScenarioOf, IsLeast;
    var l := Part(g, live, k.dead);
    var mine := Filter(InClassOf(rep.scenario), l);
    PartMeans(g, live, k.dead);
    FilterNoDup(InClassOf(rep.scenario), l);
    FilterMeans(InClassOf(rep.scenario), l);
    FilterCounts(InClassOf(rep.scenario), l);
    forall s | s in mine ensures s == ScenarioOf(g, NodesOf(s.chain)) && NodesOf(s.chain) in col[k] {
      InClassBack(g, live, r, col, k, s);
    }
    forall w | w in col[k] ensures ScenarioOf(g, w) in mine {
      InClass(g, live, r, col, k, w);
    }
    SetCountsListing(g, col[k], mine);
  }

  /** out has exactly one representative for every class of the part whose root p accepts. */
  ghost predicate Represents(l: seq<Scenario>, roots: seq<Node>, out: seq<Representative>) {
    && (forall i :: 0 <= i < |out| ==> IsRepresentative(l, out[i]) && RootIn(roots, out[i].scenario))
    && (forall i, j :: 0 <= i < j < |out| ==> !SameClass(out[i].scenario, out[j].scenario))
    && (forall s :: s in l && RootIn(roots, s) ==> exists i :: 0 <= i < |out| && SameClass(out[i].scenario, s))
  }

  predicate RootIn(roots: seq<Node>, s: Scenario) {
    Node(s.root.component, s.root.state) in roots
  }

  /** out lists the entries of the table, once each, that are of this part and no longer left. */
  ghost predicate Picked(reps: map<Class, Representative>, left: set<Class>, dead: bool, ks: seq<Class>, out: seq<Representative>) {
    && |ks| == |out| && NoDup(ks)
    && (forall i :: 0 <= i < |ks| ==> ks[i] in reps && out[i] == reps[ks[i]])
    && (forall k :: k in ks <==> k in reps && k !in left && k.dead == dead)
  }

  /** The entries of a table, split alive and dead, in whatever order it gives them. */
  method SplitTable(reps: map<Class, Representative>)
    returns (alive: seq<Representative>, dead: seq<Representative>, ghost aliveKeys: seq<Class>, ghost deadKeys: seq<Class>)
    ensures Picked(reps, {}, false, aliveKeys, alive) && Picked(reps, {}, true, deadKeys, dead)
  {
    alive, dead, aliveKeys, deadKeys := [], [], [], [];
    var left := reps.Keys;
    while left != {}
      invariant left <= reps.Keys
      invariant Picked(reps, left, false, aliveKeys, alive) && Picked(reps, left, true, deadKeys, dead)
      decreases left
    {
      var k :| k in left;
      assert k !in aliveKeys && k !in deadKeys;
      left := left - {k};
      if k.dead {
        dead, deadKeys := dead + [reps[k]], deadKeys + [k];
      } else {
        alive, aliveKeys := alive + [reps[k]], aliveKeys + [k];
      }
    }
  }

  /** Where the chains can be listed, alive and dead represent those of the roots so far. */
  ghost predicate Gathered(g: Graph, live: Liveness, roots: seq<Node>, alive: seq<Representative>, dead: seq<Representative>) {
    Tame(g, AllLive) ==> Represents(Part(g, live, false), roots, alive) && Represents(Part(g, live, true), roots, dead)
  }

  /** The classes of one root, or that some way from it comes back to a node. */
  method RootClasses(g: Graph, live: Liveness, r: Node) returns (res: RootResult)
    requires WellFormed(g) && InGraph(g, r)
    ensures res.RootCycle? <==> !TameFrom(g, AllLive, r)
    ensures res.RootClassesOf? ==> Gathered(g, live, [r], res.alive, res.dead)
  {
    hide WellFormed, InGraph, Tame, TameFrom, Represents, Part, Picked, RepsHold, HoldsChains;
    var cyclic, order := ClassOrder(g, live, r);
    if cyclic { return RootCycle; }
    var reps := CollectClasses(g, live, r, order);
    ghost var col :| RepsHold(g, r, reps, col) && HoldsChains(g, live, r, col);
    var alive, dead, aliveKeys, deadKeys := SplitTable(reps);
    if Tame(g, AllLive) {
      PickedRepresent(g, live, r, reps, col, false, aliveKeys, alive);
      PickedRepresent(g, live, r, reps, col, true, deadKeys, dead);
    }
    return RootClassesOf(alive, dead);
  }

  lemma PickedRepresent(g: Graph, live: Liveness, r: Node, reps: map<Class, Representative>, col: map<Class, set<Path>>,
                        dead: bool, ks: seq<Class>, out: seq<Representative>)
    requires WellFormed(g) && Tame(g, AllLive) && HoldsChains(g, live, r, col) && RepsHold(g, r, reps, col)
    requires Picked(reps, {}, dead, ks, out)
    ensures Represents(Part(g, live, dead), [r], out)
  {
    hide HoldsChains, RepEntry, IsRepresentative, Part, Terminal;
    var l := Part(g, live, dead);
    forall i | 0 <= i < |out|
      ensures IsRepresentative(l, out[i]) && out[i].scenario.root == RootRef(r.comp, r.state) && Terminal(out[i].scenario) == ks[i].terminal
    {
      assert ks[i] in ks;
      EntryRepresents(g, live, r, col, ks[i], out[i]);
    }
    forall i, j | 0 <= i < j < |out| ensures !SameClass(out[i].scenario, out[j].scenario) {
      assert ks[i] in ks && ks[j] in ks;
    }
    forall s | s in l && RootIn([r], s) ensures exists i :: 0 <= i < |out| && SameClass(out[i].scenario, s) {
      var k := Class(Terminal(s), dead);
      InClassBack(g, live, r, col, k, s);
      var i :| 0 <= i < |ks| && ks[i] == k;
      assert SameClass(out[i].scenario, s);
    }
  }

  /** A representative under its chain's ID. */
  datatype Titled = Titled(id: Id, representative: Representative)

  datatype ClassesResult = ClassesOf(alive: seq<Titled>, dead: seq<Titled>) | ErrCycle

  lemma RepresentsAppend(l: seq<Scenario>, roots: seq<Node>, r: Node, a: seq<Representative>, b: seq<Representative>)
    requires Represents(l, roots, a) && Represents(l, [r], b) && r !in roots
    ensures Represents(l, roots + [r], a + b)
  {
    hide IsRepresentative, Terminal;
    var out := a + b;
    forall i, j | 0 <= i < j < |out| ensures !SameClass(out[i].scenario, out[j].scenario) {
      if i < |a| <= j { assert RootIn(roots, a[i].scenario) && RootIn([r], b[j - |a|].scenario); }
    }
    forall s | s in l && RootIn(roots + [r], s) ensures exists i :: 0 <= i < |out| && SameClass(out[i].scenario, s) {
      if RootIn(roots, s) {
        var i :| 0 <= i < |a| && SameClass(a[i].scenario, s);
        assert out[i] == a[i];
      } else {
        var i :| 0 <= i < |b| && SameClass(b[i].scenario, s);
        assert out[|a| + i] == b[i];
      }
    }
  }

  /** Sorted, what represents every root is Representatives of the part. */
  lemma SortedRepresents(g: Graph, live: Liveness, dead: bool, out: seq<Representative>)
    requires WellFormed(g) && Tame(g, AllLive) && Represents(Part(g, live, dead), Roots(g), out)
    ensures Sort(RepLess, out) == RepresentativesOf(Part(g, live, dead))
  {
    hide Part, Less, IsScenario, SameClass, Roots, Represents;
    var l, sorted := Part(g, live, dead), Sort(RepLess, out);
    PartMeans(g, live, dead);
    RepLessWeak();
    RepresentsEach(g, l, out);
    SortStrictly(RepLess, out);
    forall i | 0 <= i < |sorted| ensures IsRepresentative(l, sorted[i]) {
      assert sorted[i] in sorted;
      assert sorted[i] in out;
    }
    forall s | s in l ensures exists i :: 0 <= i < |sorted| && SameClass(sorted[i].scenario, s) {
      RootListed(g, s);
      var rep := Covering(l, Roots(g), out, s);
      assert rep in sorted;
      var i :| 0 <= i < |sorted| && sorted[i] == rep;
    }
    RepresentativesUnique(l, sorted);
  }

  lemma RootListed(g: Graph, s: Scenario)
    requires WellFormed(g) && IsScenario(g, s)
    ensures RootIn(Roots(g), s)
  {
    RootsMean(g);
  }

  lemma Covering(l: seq<Scenario>, roots: seq<Node>, out: seq<Representative>, s: Scenario) returns (rep: Representative)
    requires Represents(l, roots, out) && s in l && RootIn(roots, s)
    ensures rep in out && SameClass(rep.scenario, s)
  {
    hide IsRepresentative, SameClass;
    var i :| 0 <= i < |out| && SameClass(out[i].scenario, s);
    rep := out[i];
  }

  lemma RepresentsEach(g: Graph, l: seq<Scenario>, out: seq<Representative>)
    requires WellFormed(g) && Represents(l, Roots(g), out) && forall s :: s in l ==> IsScenario(g, s)
    ensures NoDup(out) && NoTies(RepLess, out) && forall rep :: rep in out ==> IsRepresentative(l, rep)
  {
    hide Roots, Less, IsScenario, IsRepresentative, Terminal;
    forall rep | rep in out ensures IsRepresentative(l, rep) {
      var i :| 0 <= i < |out| && out[i] == rep;
    }
    forall i, j | 0 <= i < j < |out|
      ensures out[i].scenario != out[j].scenario
      ensures RepLess(out[i], out[j]) || RepLess(out[j], out[i])
    {
      MemberOf(l, out[i]);
      MemberOf(l, out[j]);
      assert !SameClass(out[i].scenario, out[j].scenario);
      ScenariosDoNotTie(g, out[i].scenario, out[j].scenario);
    }
    forall x, y | x in out && y in out && x != y ensures RepLess(x, y) || RepLess(y, x) {
      var i :| 0 <= i < |out| && out[i] == x;
      var j :| 0 <= j < |out| && out[j] == y;
      assert i < j || j < i;
    }
  }

  function TitledAll(digest: string -> string, rs: seq<Representative>): seq<Titled> {
    seq(|rs|, i requires 0 <= i < |rs| => Titled(IdOf(digest, rs[i].scenario), rs[i]))
  }

  /** Sorted, each under the ID its chain has by content. */
  method ByOrder(digest: string -> string, rs: seq<Representative>) returns (out: seq<Titled>)
    ensures out == TitledAll(digest, Sort(RepLess, rs))
  {
    var sorted := Sort(RepLess, rs);
    out := [];
    for i := 0 to |sorted|
      invariant |out| == i && forall j :: 0 <= j < i ==> out[j] == Titled(IdOf(digest, sorted[j].scenario), sorted[j])
    {
      out := out + [Titled(IdOf(digest, sorted[i].scenario), sorted[i])];
    }
  }

  lemma GatherOne(g: Graph, live: Liveness, roots: seq<Node>, r: Node, alive: seq<Representative>, dead: seq<Representative>,
                  moreAlive: seq<Representative>, moreDead: seq<Representative>)
    requires Gathered(g, live, roots, alive, dead) && Gathered(g, live, [r], moreAlive, moreDead) && r !in roots
    ensures Gathered(g, live, roots + [r], alive + moreAlive, dead + moreDead)
  {
    hide Represents, Part;
    if Tame(g, AllLive) {
      RepresentsAppend(Part(g, live, false), roots, r, alive, moreAlive);
      RepresentsAppend(Part(g, live, true), roots, r, dead, moreDead);
    }
  }

  lemma NothingGathered(g: Graph, live: Liveness)
    ensures Gathered(g, live, [], [], [])
  {
    hide Part;
  }

  /** Once every root is gathered, sorted they are the representatives of the two parts. */
  lemma GatheredAll(g: Graph, live: Liveness, alive: seq<Representative>, dead: seq<Representative>)
    requires WellFormed(g) && Tame(g, AllLive) && Gathered(g, live, Roots(g), alive, dead)
    ensures Sort(RepLess, alive) == RepresentativesOf(Part(g, live, false))
    ensures Sort(RepLess, dead) == RepresentativesOf(Part(g, live, true))
  {
    hide WellFormed, Tame, Roots, Represents, Part, Sort, RepresentativesOf;
    SortedRepresents(g, live, false, alive);
    SortedRepresents(g, live, true, dead);
  }

  /** Classes, on any graph: ErrCycle exactly when some way from a root comes back to a node, live or not. Otherwise the
      representatives of the live chains and of the eliminated ones, each named by its content; on acyclic graphs these
      are the representatives of the two parts of the listing. */
  method ClassesOfGraph(g: Graph, live: Liveness, digest: string -> string) returns (res: ClassesResult)
    requires WellFormed(g)
    ensures res.ErrCycle? <==> !Tame(g, AllLive)
    ensures res.ClassesOf? ==>
      && res.alive == TitledAll(digest, RepresentativesOf(Part(g, live, false)))
      && res.dead == TitledAll(digest, RepresentativesOf(Part(g, live, true)))
    ensures Acyclic(g) ==>
      && res.ClassesOf?
      && res.alive == TitledAll(digest, RepresentativesOf(Filter(IsLiveScenario(live), Listing(g))))
      && res.dead == TitledAll(digest, RepresentativesOf(Filter(IsDeadScenario(live), Listing(g))))
  {
    hide Part, Represents, WellFormed, Acyclic, TameFrom, ChainList, Listing, Filter, RepresentativesOf, InGraph, TitledAll,
      Gathered, Roots, Sort;
    var roots := ListRoots(g);
    RootsMean(g);
    var alive, dead: seq<Representative> := [], [];
    NothingGathered(g, live);
    if Acyclic(g) { AcyclicAllTame(g, AllLive); }
    for i := 0 to |roots|
      invariant forall j :: 0 <= j < i ==> TameFrom(g, AllLive, roots[j])
      invariant Gathered(g, live, roots[..i], alive, dead)
    {
      assert roots[i] in roots && roots[i] !in roots[..i];
      var r := RootClasses(g, live, roots[i]);
      if r.RootCycle? { return ErrCycle; }
      assert roots[..i + 1] == roots[..i] + [roots[i]];
      GatherOne(g, live, roots[..i], roots[i], alive, dead, r.alive, r.dead);
      alive, dead := alive + r.alive, dead + r.dead;
    }
    assert roots[..|roots|] == roots;
    assert Tame(g, AllLive) by {
      forall r | InGraph(g, r) ensures TameFrom(g, AllLive, r) { assert r in roots; }
    }
    GatheredAll(g, live, alive, dead);
    var aliveOut := ByOrder(digest, alive);
    var deadOut := ByOrder(digest, dead);
    if Acyclic(g) {
      PartOfListing(g, live, false);
      PartOfListing(g, live, true);
    }
    return ClassesOf(aliveOut, deadOut);
  }
}
