/** Listing every chain: the recursive walk with its visited marks, duplicates dropped, sorted, named. */
module Enumeration {
  import opened Ordering
  import opened FailureGraph
  import opened Chains

  type Path = seq<Node>

  // ---------------------------------------------------------------- names and roots

  /** Collects the names in whatever order the map gives them, then sorts. */
  method SortedComponentNames(keys: set<string>) returns (names: seq<string>)
    ensures names == SortedNames(keys)
  {
    var left := keys;
    names := [];
    while left != {}
      invariant left <= keys && NoDup(names) && forall x :: x in names <==> x in keys - left
      decreases left
    {
      var x :| x in left;
      assert x !in names;
      left, names := left - {x}, names + [x];
    }
    StringLessWeak();
    StringNoTies(names);
    SortStrictly(StringLess, names);
    names := Sort(StringLess, names);
    SortedUnique(StringLess, names, SortedNames(keys));
  }

  function RootsOf(name: string, states: seq<State>): seq<Node> {
    if states == [] then []
    else RootsOf(name, states[..|states| - 1]) + [Node(name, states[|states| - 1].name)]
  }

  function RootsAmong(g: Graph, names: seq<string>): seq<Node> {
    if names == [] then []
    else
      var n := names[|names| - 1];
      RootsAmong(g, names[..|names| - 1]) +
      (if n in g.components && !g.components[n].unresolved then RootsOf(n, g.components[n].states) else [])
  }

  /** The chain roots, component by component in name order, states in type order. */
  ghost function Roots(g: Graph): seq<Node> {
    RootsAmong(g, SortedNames(g.components.Keys))
  }

  lemma RootsAmongOne(g: Graph, names: seq<string>, i: nat)
    requires i < |names|
    ensures RootsAmong(g, names[..i + 1]) ==
            RootsAmong(g, names[..i]) +
            (if names[i] in g.components && !g.components[names[i]].unresolved then RootsOf(names[i], g.components[names[i]].states)
             else [])
  {
    assert names[..i + 1][..i] == names[..i];
  }

  method AddRoots(before: seq<Node>, name: string, states: seq<State>) returns (roots: seq<Node>)
    ensures roots == before + RootsOf(name, states)
  {
    roots := before;
    for j := 0 to |states|
      invariant roots == before + RootsOf(name, states[..j])
    {
      assert states[..j + 1][..j] == states[..j];
      roots := roots + [Node(name, states[j].name)];
    }
    assert states[..|states|] == states;
  }

  method ListRoots(g: Graph) returns (roots: seq<Node>)
    ensures roots == Roots(g)
  {
    var names := SortedComponentNames(g.components.Keys);
    roots := [];
    assert names[..0] == [];
    hide RootsOf, SortedNames;
    for i := 0 to |names|
      invariant roots == RootsAmong(g, names[..i])
    {
      hide RootsAmong;
      RootsAmongOne(g, names, i);
      assert names[i] in g.components;
      var gc := g.components[names[i]];
      if gc.unresolved { continue; }
      roots := AddRoots(roots, names[i], gc.states);
    }
    assert names[..|names|] == names;
  }

  lemma {:induction false} RootsOfMean(name: string, states: seq<State>)
    requires DistinctStates(states)
    ensures forall r :: r in RootsOf(name, states) <==> r.comp == name && HasState(states, r.state)
    ensures NoDup(RootsOf(name, states))
  {
    if states != [] {
      var init, last := states[..|states| - 1], states[|states| - 1];
      RootsOfMean(name, init);
      LastState(states);
      hide HasState;
      forall r ensures r in RootsOf(name, states) <==> r.comp == name && HasState(states, r.state) {
        assert r in [Node(name, last.name)] <==> r == Node(name, last.name);
      }
    }
  }

  lemma LastState(states: seq<State>)
    requires DistinctStates(states) && states != []
    ensures var init, last := states[..|states| - 1], states[|states| - 1];
            !HasState(init, last.name) && forall n :: HasState(states, n) <==> HasState(init, n) || n == last.name
  {
    var init, last := states[..|states| - 1], states[|states| - 1];
    forall n ensures HasState(states, n) <==> HasState(init, n) || n == last.name {
      if HasState(states, n) {
        var i :| 0 <= i < |states| && states[i].name == n;
        assert i < |init| ==> init[i] == states[i];
      }
      if HasState(init, n) {
        var i :| 0 <= i < |init| && init[i].name == n;
        assert states[i] == init[i];
      }
      assert states[|states| - 1].name == last.name;
    }
  }

  lemma {:induction false} RootsAmongMean(g: Graph, names: seq<string>)
    requires WellFormed(g) && NoDup(names)
    ensures forall r :: r in RootsAmong(g, names) <==> r.comp in names && InGraph(g, r)
    ensures NoDup(RootsAmong(g, names))
  {
    if names != [] {
      var init, n := names[..|names| - 1], names[|names| - 1];
      RootsAmongMean(g, init);
      assert names == init + [n];
      assert n !in init;
      if n in g.components {
        assert WellFormedComponent(g.components[n]);
        RootsOfMean(n, g.components[n].states);
      }
    }
  }

  /** The roots are the failure states of the resolved components, each once. */
  lemma RootsMean(g: Graph)
    requires WellFormed(g)
    ensures forall r :: r in Roots(g) <==> InGraph(g, r)
    ensures NoDup(Roots(g))
  {
    StringLessWeak();
    StrictNoDup(StringLess, SortedNames(g.components.Keys));
    RootsAmongMean(g, SortedNames(g.components.Keys));
  }

  // ---------------------------------------------------------------- the walk

  function Prepend(n: Node, ps: seq<Path>): seq<Path> {
    seq(|ps|, i requires 0 <= i < |ps| => [n] + ps[i])
  }

  /** Through one edge: every longer chain, then the chain that stops where the edge leads. */
  function ThroughEdge(g: Graph, n: Node, to: Node, longer: seq<Path>): seq<Path> {
    Prepend(n, longer) + (if Observing(g, to) then [[n, to]] else [])
  }

  function Through(g: Graph, n: Node, from: Node -> seq<Path>): Edge -> seq<Path> {
    (e: Edge) => ThroughEdge(g, n, e.to, from(e.to))
  }

  /** What the walk finds from n with the components in visited already on it. */
  function ExtendPaths(g: Graph, root: string, n: Node, visited: set<string>): seq<Path>
    decreases g.components.Keys - visited, 0
  {
    if n.comp in visited || n.comp !in g.components || g.components[n.comp].unresolved then []
    else if CarriedTo(root, g.components[n.comp].dependents) == [] then
      if g.components[n.comp].observes == [] then [] else [[n]]
    else
      FlatMap(Through(g, n, ExtendFrom(g, root, visited + {n.comp})), Edges(g, root, n))
  }

  function ExtendFrom(g: Graph, root: string, visited: set<string>): Node -> seq<Path>
    decreases g.components.Keys - visited, 1
  {
    m => ExtendPaths(g, root, m, visited)
  }

  function RenderAll(g: Graph, ps: seq<Path>): seq<seq<Step>> {
    seq(|ps|, i requires 0 <= i < |ps| => Render(g, ps[i]))
  }

  lemma RenderAllAppend(g: Graph, a: seq<Path>, b: seq<Path>)
    ensures RenderAll(g, a + b) == RenderAll(g, a) + RenderAll(g, b)
  {}

  /** Writing the head before every rendered suffix renders the paths through the edge. */
  lemma RendersThrough(g: Graph, n: Node, to: Node, longer: seq<Path>,
                       head: Step, suffixes: seq<seq<Step>>, through: seq<seq<Step>>)
    requires head == Step(n.comp, n.state, LabelOf(g, n, to), [])
    requires suffixes == RenderAll(g, longer)
    requires forall i :: 0 <= i < |longer| ==> longer[i] != [] && longer[i][0] == to
    requires |through| == |suffixes| + (if Observing(g, to) then 1 else 0)
    requires forall i :: 0 <= i < |suffixes| ==> through[i] == [head] + suffixes[i]
    requires Observing(g, to) ==> through[|suffixes|] == [head, Step(to.comp, to.state, "", Observes(g, to.comp))]
    ensures through == RenderAll(g, ThroughEdge(g, n, to, longer))
  {
    var all := ThroughEdge(g, n, to, longer);
    forall i | 0 <= i < |all| ensures through[i] == Render(g, all[i]) {
      if i < |longer| {
        RenderCons(g, n, longer[i]);
      } else {
        assert [n, to] == [n] + [to];
        RenderCons(g, n, [to]);
      }
    }
  }

  lemma RenderCons(g: Graph, n: Node, w: Path)
    requires w != []
    ensures Render(g, [n] + w) == [Step(n.comp, n.state, LabelOf(g, n, w[0]), [])] + Render(g, w)
  {
    var v := [n] + w;
    forall i | 0 < i < |v| ensures StepAt(g, v, i) == StepAt(g, w, i - 1) {}
  }

  lemma ThroughStarts(g: Graph, n: Node, from: Node -> seq<Path>, es: seq<Edge>, w: Path)
    requires w in FlatMap(Through(g, n, from), es)
    ensures |w| >= 1 && w[0] == n
  {
    FlatMapMeans(Through(g, n, from), es, w);
    var e :| e in es && w in Through(g, n, from)(e);
    assert w in ThroughEdge(g, n, e.to, from(e.to));
  }

  lemma ExtendStarts(g: Graph, root: string, n: Node, visited: set<string>)
    ensures forall i :: 0 <= i < |ExtendPaths(g, root, n, visited)| ==>
              ExtendPaths(g, root, n, visited)[i] != [] && ExtendPaths(g, root, n, visited)[i][0] == n
  {
    var ps := ExtendPaths(g, root, n, visited);
    var from := ExtendFrom(g, root, visited + {n.comp});
    forall i | 0 <= i < |ps| ensures ps[i] != [] && ps[i][0] == n {
      var w := ps[i];
      assert w in ps;
      if w in FlatMap(Through(g, n, from), Edges(g, root, n)) {
        ThroughStarts(g, n, from, Edges(g, root, n), w);
      }
    }
  }

  /** The walk from one root, marking the components on it in place. */
  class Walk {
    const g: Graph
    const root: string
    var visited: set<string>

    constructor (g: Graph, root: string)
      ensures this.g == g && this.root == root && visited == {}
    {
      this.g, this.root, visited := g, root, {};
    }

    method ExtendChain(n: Node) returns (out: seq<seq<Step>>)
      requires WellFormed(g)
      modifies this`visited
      ensures visited == old(visited)
      ensures out == RenderAll(g, ExtendPaths(g, root, n, visited))
      decreases g.components.Keys - visited, 0, 0
    {
      if n.comp in visited { return []; }
      ghost var before := visited;
      visited := visited + {n.comp};
      if n.comp !in g.components || g.components[n.comp].unresolved {
        visited := visited - {n.comp};
        return [];
      }
      var gc := g.components[n.comp];
      var downstreams := CarriedTo(root, gc.dependents);
      out := [];
      if downstreams == [] {
        if gc.observes != [] {
          out := [[Step(n.comp, n.state, "", gc.observes)]];
          assert Render(g, [n]) == [Step(n.comp, n.state, "", gc.observes)];
          assert out == RenderAll(g, [[n]]);
        }
      } else {
        var emits := StateAt(g, n).emits;
        ghost var f := Through(g, n, ExtendFrom(g, root, visited));
        for i := 0 to |downstreams|
          invariant visited == before + {n.comp}
          invariant out == RenderAll(g, FlatMap(f, EdgesAcross(g, emits, downstreams[..i])))
        {
          EdgesAcrossOne(g, emits, downstreams, i);
          var d := downstreams[i];
          if d !in g.components || g.components[d].unresolved { continue; }
          var more := ChainsThrough(n, d);
          ghost var sofar, through := EdgesAcross(g, emits, downstreams[..i]), EdgesInto(emits, d, g.components[d].states);
          FlatMapAppend(f, sofar, through);
          RenderAllAppend(g, FlatMap(f, sofar), FlatMap(f, through));
          out := out + more;
        }
        assert downstreams[..|downstreams|] == downstreams;
      }
      visited := visited - {n.comp};
    }

    method ChainsThrough(n: Node, d: string) returns (out: seq<seq<Step>>)
      requires WellFormed(g) && n.comp in g.components && n.comp in visited
      requires d in g.components && !g.components[d].unresolved
      modifies this`visited
      ensures visited == old(visited)
      ensures out == RenderAll(g, FlatMap(Through(g, n, ExtendFrom(g, root, visited)),
                                          EdgesInto(StateAt(g, n).emits, d, g.components[d].states)))
      decreases g.components.Keys - visited, 1, 0
    {
      out := [];
      var emits := StateAt(g, n).emits;
      var gd := g.components[d];
      ghost var f := Through(g, n, ExtendFrom(g, root, visited));
      for j := 0 to |gd.states|
        invariant visited == old(visited)
        invariant out == RenderAll(g, FlatMap(f, EdgesInto(emits, d, gd.states[..j])))
      {
        EdgesIntoOne(emits, d, gd.states, j);
        var to := Node(d, gd.states[j].name);
        var match' := MatchEdgeLabel(emits, gd.states[j].triggeredBy);
        if match' == "" { continue; }
        assert WellFormedComponent(gd);
        StateNamedAt(gd.states, j);
        assert match' == LabelOf(g, n, to);
        var head := Step(n.comp, n.state, match', []);
        var suffixes := ExtendChain(to);
        ExtendStarts(g, root, to, visited);
        var through := WithHead(n, to, head, gd.observes, suffixes, ExtendPaths(g, root, to, visited));
        ghost var before := EdgesInto(emits, d, gd.states[..j]);
        ghost var e := Edge(to, match');
        FlatMapOne(f, before, e);
        RenderAllAppend(g, FlatMap(f, before), f(e));
        assert f(e) == ThroughEdge(g, n, to, ExtendPaths(g, root, to, visited));
        out := out + through;
      }
      assert gd.states[..|gd.states|] == gd.states;
    }

    /** The head before each longer suffix, then the two-step chain that stops at to. */
    method WithHead(n: Node, to: Node, head: Step, observes: seq<string>, suffixes: seq<seq<Step>>, ghost longer: seq<Path>)
      returns (through: seq<seq<Step>>)
      requires head == Step(n.comp, n.state, LabelOf(g, n, to), []) && observes == Observes(g, to.comp)
      requires suffixes == RenderAll(g, longer)
      requires forall i :: 0 <= i < |longer| ==> longer[i] != [] && longer[i][0] == to
      ensures through == RenderAll(g, ThroughEdge(g, n, to, longer))
    {
      through := [];
      for k := 0 to |suffixes|
        invariant |through| == k && forall i :: 0 <= i < k ==> through[i] == [head] + suffixes[i]
      {
        through := through + [[head] + suffixes[k]];
      }
      if observes != [] {
        through := through + [[head, Step(to.comp, to.state, "", observes)]];
      }
      RendersThrough(g, n, to, longer, head, suffixes, through);
    }
  }

  // ---------------------------------------------------------------- the listing

  /** A root's chains; one nothing answers to is a chain of its own where it can be observed. */
  function RootPaths(g: Graph, r: Node): seq<Path> {
    var ps := ExtendPaths(g, r.comp, r, {});
    if ps == [] && Observing(g, r) then [[r]] else ps
  }

  function RootPathsOf(g: Graph): Node -> seq<Path> {
    r => RootPaths(g, r)
  }

  function ScenariosOf(g: Graph, ps: seq<Path>): seq<Scenario> {
    seq(|ps|, i requires 0 <= i < |ps| => ScenarioOf(g, ps[i]))
  }

  predicate HasKey(scs: seq<Scenario>, key: string) {
    exists i :: 0 <= i < |scs| && ChainKey(scs[i].chain) == key
  }

  /** The first of the scenarios with the same steps. */
  function DropDuplicates(scs: seq<Scenario>): seq<Scenario> {
    if scs == [] then []
    else
      var kept, last := DropDuplicates(scs[..|scs| - 1]), scs[|scs| - 1];
      if HasKey(kept, ChainKey(last.chain)) then kept else kept + [last]
  }

  /** Every chain of g in scenario order: the scenario set. */
  ghost function Listing(g: Graph): seq<Scenario> {
    Sort(Less, DropDuplicates(ScenariosOf(g, FlatMap(RootPathsOf(g), Roots(g)))))
  }

  method DropDuplicateChains(scs: seq<Scenario>) returns (out: seq<Scenario>)
    ensures out == DropDuplicates(scs)
  {
    var seen: set<string> := {};
    out := [];
    for i := 0 to |scs|
      invariant out == DropDuplicates(scs[..i])
      invariant forall k :: k in seen <==> HasKey(out, k)
    {
      assert scs[..i + 1][..i] == scs[..i];
      var k := ChainKey(scs[i].chain);
      if k in seen { continue; }
      ghost var was := out;
      seen, out := seen + {k}, out + [scs[i]];
      forall key ensures key in seen <==> HasKey(out, key) {
        if HasKey(was, key) {
          var j :| 0 <= j < |was| && ChainKey(was[j].chain) == key;
          assert out[j] == was[j];
        }
        assert out[|was|] == scs[i];
      }
    }
    assert scs[..|scs|] == scs;
  }

  // ---------------------------------------------------------------- content-addressed names

  /** A digest of the chain's key, and which holder of that digest this is: copy 1 bears no suffix. */
  datatype Id = Id(digest: string, copy: nat)

  datatype Named = Named(id: Id, scenario: Scenario)

  /** The ID a chain has by its content alone. */
  function IdOf(digest: string -> string, s: Scenario): Id {
    Id(digest(ChainKey(s.chain)), 1)
  }

  function SameDigest(digest: string -> string, d: string): Scenario -> bool {
    (s: Scenario) => digest(ChainKey(s.chain)) == d
  }

  function NamedAll(digest: string -> string, scs: seq<Scenario>): seq<Named> {
    if scs == [] then []
    else
      var init, last := scs[..|scs| - 1], scs[|scs| - 1];
      var d := digest(ChainKey(last.chain));
      NamedAll(digest, init) + [Named(Id(d, CountIf(SameDigest(digest, d), init) + 1), last)]
  }

  lemma NamedAllOne(digest: string -> string, scs: seq<Scenario>, i: nat)
    requires i < |scs|
    ensures var d := digest(ChainKey(scs[i].chain));
            && NamedAll(digest, scs[..i + 1]) ==
               NamedAll(digest, scs[..i]) + [Named(Id(d, CountIf(SameDigest(digest, d), scs[..i]) + 1), scs[i])]
            && forall e :: CountIf(SameDigest(digest, e), scs[..i + 1]) ==
                           CountIf(SameDigest(digest, e), scs[..i]) + if e == d then 1 else 0
  {
    assert scs[..i + 1][..i] == scs[..i];
  }

  method AssignIds(digest: string -> string, scs: seq<Scenario>) returns (out: seq<Named>)
    ensures out == NamedAll(digest, scs)
  {
    var seen: map<string, nat> := map[];
    out := [];
    for i := 0 to |scs|
      invariant out == NamedAll(digest, scs[..i])
      invariant forall d :: (if d in seen then seen[d] else 0) == CountIf(SameDigest(digest, d), scs[..i])
    {
      hide NamedAll, CountIf, ChainKey;
      var d := digest(ChainKey(scs[i].chain));
      var n := if d in seen then seen[d] else 0;
      NamedAllOne(digest, scs, i);
      if n > 0 {
        seen := seen[d := n + 1];
        out := out + [Named(Id(d, n + 1), scs[i])];
      } else {
        seen := seen[d := 1];
        out := out + [Named(Id(d, 1), scs[i])];
      }
    }
    assert scs[..|scs|] == scs;
  }

  /** IDs never repeat, collisions of the digest included; without one each ID is the content's own. */
  lemma {:induction false} IdsDistinct(digest: string -> string, scs: seq<Scenario>)
    ensures |NamedAll(digest, scs)| == |scs|
    ensures forall i :: 0 <= i < |scs| ==>
              NamedAll(digest, scs)[i].scenario == scs[i] &&
              NamedAll(digest, scs)[i].id.digest == digest(ChainKey(scs[i].chain)) &&
              NamedAll(digest, scs)[i].id.copy <= CountIf(SameDigest(digest, digest(ChainKey(scs[i].chain))), scs)
    ensures forall i, j :: 0 <= i < j < |scs| ==> NamedAll(digest, scs)[i].id != NamedAll(digest, scs)[j].id
  {
    if scs != [] { IdsDistinct(digest, scs[..|scs| - 1]); }
  }

  /** The i-th name is the digest of its chain's key, numbered by how many there have been with it. */
  lemma {:induction false} NameAt(digest: string -> string, scs: seq<Scenario>, i: nat)
    requires i < |scs|
    ensures |NamedAll(digest, scs)| == |scs|
    ensures var d := digest(ChainKey(scs[i].chain));
            var earlier := Places((s: Scenario) => digest(ChainKey(s.chain)) == d, scs[..i]);
            NamedAll(digest, scs)[i] == Named(Id(d, |earlier| + 1), scs[i])
  {
    hide ChainKey, Places;
    IdsDistinct(digest, scs);
    var init, d := scs[..|scs| - 1], digest(ChainKey(scs[i].chain));
    if i < |init| {
      NameAt(digest, init, i);
      assert init[..i] == scs[..i];
    } else {
      CountPlaces((s: Scenario) => digest(ChainKey(s.chain)) == d, init);
      CountIfSame(SameDigest(digest, d), (s: Scenario) => digest(ChainKey(s.chain)) == d, init);
    }
  }

  /** No two of the scenarios share a digest. */
  ghost predicate NoCollision(digest: string -> string, scs: seq<Scenario>) {
    forall i, j :: 0 <= i < j < |scs| ==> digest(ChainKey(scs[i].chain)) != digest(ChainKey(scs[j].chain))
  }

  lemma {:induction false} IdsByContent(digest: string -> string, scs: seq<Scenario>)
    requires NoCollision(digest, scs)
    ensures |NamedAll(digest, scs)| == |scs|
    ensures forall i :: 0 <= i < |scs| ==> NamedAll(digest, scs)[i] == Named(IdOf(digest, scs[i]), scs[i])
  {
    if scs != [] {
      var init, last := scs[..|scs| - 1], scs[|scs| - 1];
      IdsByContent(digest, init);
      forall i | 0 <= i < |init| ensures !SameDigest(digest, digest(ChainKey(last.chain)))(init[i]) {
        assert scs[i] == init[i];
      }
      CountIfNone(SameDigest(digest, digest(ChainKey(last.chain))), init);
    }
  }

  /** The scenarios of one root. */
  method RootScenarios(g: Graph, r: Node) returns (out: seq<Scenario>)
    requires WellFormed(g)
    ensures out == ScenariosOf(g, RootPaths(g, r))
  {
    var w := new Walk(g, r.comp);
    var chains := w.ExtendChain(r);
    ghost var ps := ExtendPaths(g, r.comp, r, {});
    ExtendStarts(g, r.comp, r, {});
    if |chains| == 0 && Observes(g, r.comp) != [] {
      chains := [[Step(r.comp, r.state, "", Observes(g, r.comp))]];
      assert Render(g, [r]) == chains[0];
      ps := [[r]];
    }
    assert ps == RootPaths(g, r) && chains == RenderAll(g, ps);
    out := [];
    for j := 0 to |chains|
      invariant |out| == j && forall k :: 0 <= k < j ==> out[k] == ScenarioOf(g, ps[k])
    {
      out := out + [Scenario(RootRef(r.comp, r.state), chains[j])];
    }
  }

  method AllScenarios(g: Graph) returns (scs: seq<Scenario>)
    requires WellFormed(g)
    ensures scs == ScenariosOf(g, FlatMap(RootPathsOf(g), Roots(g)))
  {
    var roots := ListRoots(g);
    scs := [];
    ghost var f := RootPathsOf(g);
    for i := 0 to |roots|
      invariant scs == ScenariosOf(g, FlatMap(f, roots[..i]))
    {
      var mine := RootScenarios(g, roots[i]);
      OneMoreRoot(g, roots, i);
      scs := scs + mine;
    }
    assert roots[..|roots|] == roots;
  }

  lemma OneMoreRoot(g: Graph, roots: seq<Node>, i: nat)
    requires i < |roots|
    ensures ScenariosOf(g, FlatMap(RootPathsOf(g), roots[..i + 1])) ==
            ScenariosOf(g, FlatMap(RootPathsOf(g), roots[..i])) + ScenariosOf(g, RootPaths(g, roots[i]))
  {
    var f := RootPathsOf(g);
    assert roots[..i + 1] == roots[..i] + [roots[i]];
    FlatMapOne(f, roots[..i], roots[i]);
    ScenariosOfAppend(g, FlatMap(f, roots[..i]), f(roots[i]));
  }

  /** Expand: the chains of every root, duplicates dropped, sorted and named. */
  method Expand(g: Graph, digest: string -> string) returns (out: seq<Named>)
    requires WellFormed(g)
    ensures out == NamedAll(digest, Listing(g))
  {
    var scs := AllScenarios(g);
    scs := DropDuplicateChains(scs);
    out := AssignIds(digest, Sort(Less, scs));
  }

  lemma ScenariosOfAppend(g: Graph, a: seq<Path>, b: seq<Path>)
    ensures ScenariosOf(g, a + b) == ScenariosOf(g, a) + ScenariosOf(g, b)
  {}

  // ---------------------------------------------------------------- what the listing holds

  /** The marks let a walk along w pass: no component but the last is marked or comes twice. The last may: the
      chain that stops at a dependent is emitted without asking whether the walk has been there. */
  ghost predicate Unmarked(w: Path, visited: set<string>) {
    && (forall i :: 0 <= i < |w| && (i == 0 || i < |w| - 1) ==> w[i].comp !in visited)
    && forall i, j :: 0 <= i < j < |w| - 1 ==> w[i].comp != w[j].comp
  }

  lemma UnmarkedTail(w: Path, visited: set<string>)
    requires |w| >= 2
    ensures Unmarked(w, visited) <==>
              w[0].comp !in visited && (|w| == 2 || Unmarked(w[1..], visited + {w[0].comp}))
  {
    var t := w[1..];
    assert forall i :: 0 <= i < |t| ==> t[i] == w[i + 1];
    if |w| > 2 && w[0].comp !in visited && Unmarked(t, visited + {w[0].comp}) {
      forall i | 0 <= i < |w| - 1 ensures w[i].comp !in visited { if i > 0 { assert w[i] == t[i - 1]; } }
      forall i, j | 0 <= i < j < |w| - 1 ensures w[i].comp != w[j].comp {
        assert w[j] == t[j - 1];
        if i > 0 { assert w[i] == t[i - 1]; }
      }
    }
  }

  /** An observed end of the walk from n: what ExtendPaths must find, but for the one-node path. */
  ghost predicate GoesThrough(g: Graph, root: string, n: Node, to: Node, w: Path) {
    |w| >= 2 && w[0] == n && w[1] == to && IsPath(g, root, w[1..]) && Observing(g, Last(w))
  }

  /** What the walk finds, on any graph: the observed paths its marks let pass. */
  lemma {:induction false} ExtendMeans(g: Graph, root: string, n: Node, visited: set<string>, w: Path)
    requires WellFormed(g) && InGraph(g, n)
    ensures w in ExtendPaths(g, root, n, visited) <==>
              IsPath(g, root, w) && w[0] == n && Observing(g, Last(w)) && Unmarked(w, visited) &&
              (|w| == 1 ==> CarriedTo(root, g.components[n.comp].dependents) == [])
    decreases g.components.Keys - visited, 2
  {
    if n.comp !in visited {
      PathByFirstEdge(g, root, n, w);
      if CarriedTo(root, g.components[n.comp].dependents) == [] {
        EdgesListed(g, root, n);
        assert Edges(g, root, n) == [];
        assert IsPath(g, root, [n]);
        assert w == [n] <==> |w| == 1 && w[0] == n;
      } else {
        ExtendFurther(g, root, n, visited, w);
      }
    }
  }

  lemma PathByFirstEdge(g: Graph, root: string, n: Node, w: Path)
    requires WellFormed(g) && InGraph(g, n)
    ensures IsPath(g, root, w) && |w| >= 2 && w[0] == n && Observing(g, Last(w)) <==>
            exists e :: e in Edges(g, root, n) && GoesThrough(g, root, n, e.to, w)
  {
    EdgesListed(g, root, n);
    if IsPath(g, root, w) && |w| >= 2 && w[0] == n && Observing(g, Last(w)) {
      PathTail(g, root, w);
      var e := Edge(w[1], LabelOf(g, n, w[1]));
      assert e in Edges(g, root, n) && GoesThrough(g, root, n, e.to, w);
    }
    if e :| e in Edges(g, root, n) && GoesThrough(g, root, n, e.to, w) {
      PathCons(g, root, n, w[1..]);
      assert [n] + w[1..] == w;
    }
  }

  lemma ExtendUnfolds(g: Graph, root: string, n: Node, visited: set<string>)
    requires InGraph(g, n) && n.comp !in visited && CarriedTo(root, g.components[n.comp].dependents) != []
    ensures ExtendPaths(g, root, n, visited) ==
            FlatMap(Through(g, n, ExtendFrom(g, root, visited + {n.comp})), Edges(g, root, n))
  {}

  lemma ExtendFromIs(g: Graph, root: string, visited: set<string>, m: Node)
    ensures ExtendFrom(g, root, visited)(m) == ExtendPaths(g, root, m, visited)
  {}

  lemma EdgeInGraph(g: Graph, root: string, n: Node, e: Edge)
    requires WellFormed(g) && InGraph(g, n) && e in Edges(g, root, n)
    ensures InGraph(g, e.to)
  {
    EdgesListed(g, root, n);
  }

  lemma OneNodePath(g: Graph, root: string, n: Node)
    ensures IsPath(g, root, [n])
  {}

  lemma {:induction false} ExtendFurther(g: Graph, root: string, n: Node, visited: set<string>, w: Path)
    requires WellFormed(g) && InGraph(g, n) && n.comp !in visited
    requires CarriedTo(root, g.components[n.comp].dependents) != []
    ensures w in ExtendPaths(g, root, n, visited) <==>
              Unmarked(w, visited) && exists e :: e in Edges(g, root, n) && GoesThrough(g, root, n, e.to, w)
    decreases g.components.Keys - visited, 1
  {
    hide WellFormed, Unmarked, ExtendPaths, ExtendFrom, ThroughEdge, GoesThrough, InGraph, Edges;
    var f := Through(g, n, ExtendFrom(g, root, visited + {n.comp}));
    ExtendUnfolds(g, root, n, visited);
    FlatMapMeans(f, Edges(g, root, n), w);
    forall e | e in Edges(g, root, n) ensures w in f(e) <==> GoesThrough(g, root, n, e.to, w) && Unmarked(w, visited) {
      ExtendAlong(g, root, n, visited, e, w);
    }
  }

  lemma {:induction false} ExtendAlong(g: Graph, root: string, n: Node, visited: set<string>, e: Edge, w: Path)
    requires WellFormed(g) && InGraph(g, n) && n.comp !in visited && e in Edges(g, root, n)
    ensures w in Through(g, n, ExtendFrom(g, root, visited + {n.comp}))(e) <==>
              GoesThrough(g, root, n, e.to, w) && Unmarked(w, visited)
    decreases g.components.Keys - visited, 0
  {
    var v' := visited + {n.comp};
    assert n.comp in g.components.Keys;
    hide WellFormed, Unmarked, ExtendPaths, ExtendFrom, ThroughEdge, IsPath, InGraph, Edges, CarriedTo;
    ThroughEdgeMeans(g, root, n, e.to, v', w);
    ExtendFromIs(g, root, v', e.to);
    EdgeInGraph(g, root, n, e);
    OneNodePath(g, root, e.to);
    if |w| >= 2 && w[0] == n {
      ExtendMeans(g, root, e.to, v', w[1..]);
      UnmarkedTail(w, visited);
    }
  }

  lemma ThroughEdgeMeans(g: Graph, root: string, n: Node, to: Node, visited: set<string>, w: Path)
    ensures w in ThroughEdge(g, n, to, ExtendPaths(g, root, to, visited)) <==>
            |w| >= 2 && w[0] == n && (w[1..] in ExtendPaths(g, root, to, visited) || (w[1..] == [to] && Observing(g, to)))
  {
    var longer := ExtendPaths(g, root, to, visited);
    ExtendStarts(g, root, to, visited);
    var pre := Prepend(n, longer);
    if w in pre {
      var i :| 0 <= i < |pre| && pre[i] == w;
      assert w == [n] + longer[i] && w[1..] == longer[i];
    }
    if |w| >= 2 && w[0] == n && w[1..] in longer {
      var i :| 0 <= i < |longer| && longer[i] == w[1..];
      assert pre[i] == [n] + w[1..] == w;
    }
    if |w| >= 2 && w[0] == n && w[1..] == [to] {
      assert w == [n] + w[1..] == [n, to];
    }
    assert [n, to][1..] == [to];
  }

  /** A path no component of which, the last aside, comes twice. */
  ghost predicate Simple(w: Path) {
    Unmarked(w, {})
  }

  /** Something the walk can find follows from r. */
  ghost predicate WalksOn(g: Graph, r: Node) {
    exists w :: IsPath(g, r.comp, w) && |w| >= 2 && w[0] == r && Observing(g, Last(w)) && Simple(w)
  }

  /** w is a chain the walk can find: as IsChain, of simple paths. */
  ghost predicate IsListed(g: Graph, w: Path) {
    && w != [] && InGraph(g, w[0]) && IsPath(g, w[0].comp, w) && Observing(g, Last(w)) && Simple(w)
    && (|w| == 1 ==> !WalksOn(g, w[0]))
  }

  lemma {:induction false} RootWalksOn(g: Graph, r: Node)
    requires WellFormed(g) && InGraph(g, r)
    ensures WalksOn(g, r) <==> exists v: Path :: v in ExtendPaths(g, r.comp, r, {}) && |v| >= 2
    ensures WalksOn(g, r) ==> CarriedTo(r.comp, g.components[r.comp].dependents) != []
  {
    if WalksOn(g, r) {
      var v: Path :| IsPath(g, r.comp, v) && |v| >= 2 && v[0] == r && Observing(g, Last(v)) && Simple(v);
      ExtendMeans(g, r.comp, r, {}, v);
      PathTail(g, r.comp, v);
      CarriedToMeans(r.comp, g.components[r.comp].dependents, v[1].comp);
    }
    if v: Path :| v in ExtendPaths(g, r.comp, r, {}) && |v| >= 2 {
      ExtendMeans(g, r.comp, r, {}, v);
    }
  }

  /** A root's chains are exactly the listed chains that start there. */
  lemma {:induction false} RootPathsMean(g: Graph, r: Node, w: Path)
    requires WellFormed(g) && InGraph(g, r)
    ensures w in RootPaths(g, r) <==> IsListed(g, w) && w[0] == r
  {
    assert Simple([r]);
    hide ExtendPaths, WellFormed, Unmarked, InGraph, IsPath, WalksOn;
    var ps := ExtendPaths(g, r.comp, r, {});
    RootWalksOn(g, r);
    ExtendMeans(g, r.comp, r, {}, w);
    OneNodePath(g, r.comp, r);
    if ps != [] {
      ExtendMeans(g, r.comp, r, {}, ps[0]);
      assert ps[0] in ps;
    } else if w == [r] {
      assert w[0] == r;
    } else {
      assert w == [] || w[0] != r || |w| >= 2;
    }
  }

  lemma {:induction false} AllPathsMean(g: Graph, w: Path)
    requires WellFormed(g)
    ensures w in FlatMap(RootPathsOf(g), Roots(g)) <==> IsListed(g, w)
  {
    RootsMean(g);
    FlatMapMeans(RootPathsOf(g), Roots(g), w);
    forall r | r in Roots(g) ensures w in RootPathsOf(g)(r) <==> IsListed(g, w) && w[0] == r {
      RootPathsMean(g, r, w);
    }
  }

  /** Without a cycle every path is simple, and the listed chains are all the chains. */
  lemma {:induction false} AcyclicListed(g: Graph, w: Path)
    requires Acyclic(g)
    ensures IsListed(g, w) <==> IsChain(g, w)
  {
    forall v: Path, root | IsPath(g, root, v) ensures Simple(v) {
      forall i, j | 0 <= i < j < |v| - 1 ensures v[i].comp != v[j].comp { PathDescends(g, root, v, i, j); }
    }
    if w != [] && GoesOn(g, w[0]) {
      var v: Path :| IsPath(g, w[0].comp, v) && |v| >= 2 && v[0] == w[0] && Observing(g, Last(v));
      assert Simple(v);
    }
  }

  lemma {:induction false} DropDuplicatesMeans(scs: seq<Scenario>)
    ensures forall i, j :: 0 <= i < j < |DropDuplicates(scs)| ==>
              ChainKey(DropDuplicates(scs)[i].chain) != ChainKey(DropDuplicates(scs)[j].chain)
    ensures forall s :: s in DropDuplicates(scs) ==> s in scs
    ensures forall s :: s in scs ==> HasKey(DropDuplicates(scs), ChainKey(s.chain))
  {
    hide ChainKey;
    if scs != [] {
      var init, last := scs[..|scs| - 1], scs[|scs| - 1];
      DropDuplicatesMeans(init);
      var kept, all := DropDuplicates(init), DropDuplicates(scs);
      assert scs == init + [last];
      forall s | s in scs ensures HasKey(all, ChainKey(s.chain)) {
        if s in init {
          var i :| 0 <= i < |kept| && ChainKey(kept[i].chain) == ChainKey(s.chain);
          assert all[i] == kept[i];
        } else if !HasKey(kept, ChainKey(last.chain)) {
          assert all[|kept|] == last;
        }
      }
    }
  }

  /** The listing is strictly increasing in scenario order, on every graph. */
  lemma ListingSorted(g: Graph)
    ensures StrictlySorted(Less, Listing(g))
  {
    var d := DropDuplicates(ScenariosOf(g, FlatMap(RootPathsOf(g), Roots(g))));
    DropDuplicatesMeans(ScenariosOf(g, FlatMap(RootPathsOf(g), Roots(g))));
    LessWeak();
    forall x, y | x in d && y in d && x != y ensures Less(x, y) || Less(y, x) {
      if !Less(x, y) && !Less(y, x) { LessTies(x, y); }
    }
    SortStrictly(Less, d);
  }

  /** The listing holds exactly the listed chains of the graph, cyclic or not, as its labels and facts have them. */
  lemma {:induction false} ListingMeansAny(g: Graph)
    requires WellFormed(g)
    ensures forall s :: s in Listing(g) <==> IsListed(g, NodesOf(s.chain)) && s == ScenarioOf(g, NodesOf(s.chain))
  {
    hide Roots, FlatMap, IsListed, DropDuplicates, WellFormed, Sort, Less, NodesOf;
    var ps := FlatMap(RootPathsOf(g), Roots(g));
    var scs := ScenariosOf(g, ps);
    var d := DropDuplicates(scs);
    DropDuplicatesMeans(scs);
    SortElements(Less, d);
    forall s ensures s in scs <==> IsListed(g, NodesOf(s.chain)) && s == ScenarioOf(g, NodesOf(s.chain)) {
      AllScenariosMean(g, s);
    }
    forall s | s in scs ensures s in d {
      var j :| 0 <= j < |d| && ChainKey(d[j].chain) == ChainKey(s.chain);
      SameKeySameScenario(g, d[j], s);
    }
  }

  lemma {:induction false} AllScenariosMean(g: Graph, s: Scenario)
    requires WellFormed(g)
    ensures s in ScenariosOf(g, FlatMap(RootPathsOf(g), Roots(g))) <==>
              IsListed(g, NodesOf(s.chain)) && s == ScenarioOf(g, NodesOf(s.chain))
  {
    hide Roots, FlatMap, IsListed, WellFormed, RootPaths;
    var ps := FlatMap(RootPathsOf(g), Roots(g));
    var scs := ScenariosOf(g, ps);
    if s in scs {
      var i :| 0 <= i < |scs| && scs[i] == s;
      assert ps[i] in ps;
      AllPathsMean(g, ps[i]);
      RenderNodes(g, ps[i]);
    }
    AllPathsMean(g, NodesOf(s.chain));
    if s == ScenarioOf(g, NodesOf(s.chain)) && NodesOf(s.chain) in ps {
      var i :| 0 <= i < |ps| && ps[i] == NodesOf(s.chain);
      assert scs[i] == s;
    }
  }

  lemma SameKeySameScenario(g: Graph, a: Scenario, b: Scenario)
    requires WellFormed(g) && IsListed(g, NodesOf(a.chain)) && IsListed(g, NodesOf(b.chain))
    requires a == ScenarioOf(g, NodesOf(a.chain)) && b == ScenarioOf(g, NodesOf(b.chain)) && ChainKey(a.chain) == ChainKey(b.chain)
    ensures a == b
  {
    hide WellFormed, ScenarioOf, Simple, WalksOn;
    var v, w := NodesOf(a.chain), NodesOf(b.chain);
    PathClean(g, v[0].comp, v);
    PathClean(g, w[0].comp, w);
    PathKeyInjective(v, w);
  }

  /** Without a cycle the listing holds exactly the chains of the graph. */
  lemma {:induction false} ListingMeans(g: Graph)
    requires WellFormed(g) && Acyclic(g)
    ensures forall s :: s in Listing(g) <==> IsScenario(g, s)
  {
    hide Listing, IsListed, IsChain, WellFormed;
    ListingMeansAny(g);
    forall s: Scenario ensures IsListed(g, NodesOf(s.chain)) <==> IsChain(g, NodesOf(s.chain)) {
      AcyclicListed(g, NodesOf(s.chain));
    }
  }

  /** Two components that break each other, each in two stages. */
  function Seesaw(): Graph {
    var c := (other: string) => Component(false, ["up"],
      [State("one", ["x"], ["w"]), State("two", ["y"], ["x"]), State("three", ["z"], ["y"]), State("four", [], ["z"])],
      [Link(other, false, [])]);
    Graph(map["a" := c("b"), "b" := c("a")])
  }

  /** On a cycle the listing is not all the chains: a failure that goes back and forth between two components, state
      after state, is a path of the graph from a failure state to where facts are observed, and is not listed. */
  lemma {:induction false} CyclesHideChains()
    ensures var g := Seesaw();
            var w := [Node("a", "one"), Node("b", "two"), Node("a", "three"), Node("b", "four")];
            WellFormed(g) && IsChain(g, w) && ScenarioOf(g, w) !in Listing(g)
  {
    var g := Seesaw();
    var w := [Node("a", "one"), Node("b", "two"), Node("a", "three"), Node("b", "four")];
    assert WellFormed(g);
    SeesawPath(g, w);
    RenderNodes(g, w);
    ListingMeansAny(g);
    assert w[0].comp == w[2].comp;
    assert !Simple(w);
  }

  lemma SeesawPath(g: Graph, w: Path)
    requires g == Seesaw() && w == [Node("a", "one"), Node("b", "two"), Node("a", "three"), Node("b", "four")]
    ensures IsChain(g, w)
  {
    var states := g.components["a"].states;
    assert states[0].name == "one" && states[1].name == "two" && states[2].name == "three" && states[3].name == "four";
    assert g.components["b"].states == states;
    assert g.components["a"].dependents[0] == Link("b", false, []) && g.components["b"].dependents[0] == Link("a", false, []);
    assert IsEdge(g, "a", w[0], w[1]);
    assert IsEdge(g, "a", w[1], w[2]);
    assert IsEdge(g, "a", w[2], w[3]);
    forall i | 0 <= i < |w| - 1 ensures IsEdge(g, "a", w[i], w[i + 1]) {
      assert i == 0 || i == 1 || i == 2;
    }
  }
}
