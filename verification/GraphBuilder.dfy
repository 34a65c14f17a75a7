/** From a model to its failure graph, and what redundancy groups let through it. */
module GraphBuilder {
  import opened Ordering
  import opened FailureGraph
  import opened Enumeration
  import opened Expr
  import opened Facts
  import opened Models
  import opened Walks
  import opened DepGraph

  // ---------------------------------------------------------------- what depends on what

  /** The components that name c among their dependencies. */
  function Parents(m: Model, c: string): set<string> {
    set p | p in m.components && c in DependenciesOf(m, p)
  }

  /** For each component someone depends on, who does, sorted. */
  method InverseDeps(m: Model) returns (out: map<string, seq<string>>)
    ensures forall c :: c in out <==> Parents(m, c) != {}
    ensures forall c :: c in out ==> out[c] == SortedNames(Parents(m, c))
  {
    var rev: map<string, set<string>> := map[];
    var left := m.components.Keys;
    ghost var seen: set<string> := {};
    while left != {}
      invariant left !! seen && left + seen == m.components.Keys
      invariant forall c :: Dependents(rev, c) == Parents(m, c) * seen
      invariant forall c :: c in rev ==> rev[c] != {}
      decreases left
    {
      var p :| p in left;
      rev := AddParent(rev, m, p);
      left, seen := left - {p}, seen + {p};
    }
    assert seen == m.components.Keys;
    forall c ensures Dependents(rev, c) == Parents(m, c) { assert Parents(m, c) * seen == Parents(m, c); }
    out := map[];
    var todo := rev.Keys;
    while todo != {}
      invariant out.Keys == rev.Keys - todo && todo <= rev.Keys
      invariant forall c :: c in out ==> out[c] == SortedNames(rev[c])
      decreases todo
    {
      var c :| c in todo;
      var names := SortedComponentNames(rev[c]);
      out, todo := out[c := names], todo - {c};
    }
    forall c | c in out ensures rev[c] == Parents(m, c) { assert Dependents(rev, c) == rev[c]; }
    forall c ensures c in out <==> Parents(m, c) != {} { assert Dependents(rev, c) == Parents(m, c); }
  }

  function Dependents(rev: map<string, set<string>>, c: string): set<string> {
    if c in rev then rev[c] else {}
  }

  method AddParent(rev0: map<string, set<string>>, m: Model, p: string) returns (rev: map<string, set<string>>)
    requires p in m.components && forall c :: c in rev0 ==> rev0[c] != {}
    ensures forall c :: Dependents(rev, c) == Dependents(rev0, c) + (if c in DependenciesOf(m, p) then {p} else {})
    ensures forall c :: c in rev ==> rev[c] != {}
  {
    rev := rev0;
    var deps := m.components[p].depends;
    for i := 0 to |deps|
      invariant forall c :: Dependents(rev, c) == Dependents(rev0, c) + (if c in FlatMap(OnOf(), deps[..i]) then {p} else {})
      invariant forall c :: c in rev ==> rev[c] != {}
    {
      assert deps[..i + 1] == deps[..i] + [deps[i]];
      FlatMapOne(OnOf(), deps[..i], deps[i]);
      var on := deps[i].on;
      ghost var before := FlatMap(OnOf(), deps[..i]);
      for j := 0 to |on|
        invariant forall c :: Dependents(rev, c) == Dependents(rev0, c) + (if c in before + on[..j] then {p} else {})
        invariant forall c :: c in rev ==> rev[c] != {}
      {
        assert on[..j + 1] == on[..j] + [on[j]];
        rev := rev[on[j] := Dependents(rev, on[j]) + {p}];
      }
      assert on[..|on|] == on;
    }
    assert deps[..|deps|] == deps;
  }

  /** Everything that ts and their dependencies lead to. */
  ghost function Spread(m: Model, ts: seq<string>): set<string> {
    set x | x in Names(m) && exists t :: t in ts && Reaches(DependencyEdges(m), t, x)
  }

  /** All that a walk of one dependency or more leads to from c. */
  ghost function DependsOnAll(m: Model, c: string): set<string> {
    Spread(m, DependenciesOf(m, c))
  }

  lemma ReachesByFirst(next: Succ, a: string, b: string)
    ensures Reaches(next, a, b) <==> a == b || exists t :: t in next(a) && Reaches(next, t, b)
  {
    if w :| WalkFromTo(next, w, a, b) {
      if |w| > 1 {
        assert w[0 + 1] in next(w[0]);
        forall i | 0 <= i < |w[1..]| - 1 ensures w[1..][i + 1] in next(w[1..][i]) { assert w[i + 1 + 1] in next(w[i + 1]); }
        assert WalkFromTo(next, w[1..], w[1], b);
      }
    }
    if a == b { ReachesSelf(next, a); }
    if t :| t in next(a) && Reaches(next, t, b) {
      var w :| WalkFromTo(next, w, t, b);
      var v := [a] + w;
      forall i | 0 <= i < |v| - 1 ensures v[i + 1] in next(v[i]) {
        if i > 0 { assert w[i - 1 + 1] in next(w[i - 1]); }
      }
      assert WalkFromTo(next, v, a, b);
    }
  }

  lemma SpreadOne(m: Model, ts: seq<string>, t: string)
    requires t in Names(m)
    ensures Spread(m, ts + [t]) == Spread(m, ts) + {t} + DependsOnAll(m, t)
  {
    var next := DependencyEdges(m);
    EdgesAt(m, t);
    forall x ensures x in Spread(m, ts + [t]) <==> x in Spread(m, ts) + {t} + DependsOnAll(m, t) {
      ReachesByFirst(next, t, x);
      assert t in ts + [t] && forall u :: u in ts + [t] <==> u in ts || u == t;
    }
  }

  /** The memoised walk that collects everything each component depends on. An entry is stored before it is
      complete, and grows in place. */
  class Closure {
    const m: Model
    ghost const acyclic: bool
    ghost const rank: string -> nat
    var out: map<string, set<string>>

    constructor (m: Model, ghost acyclic: bool, ghost rank: string -> nat)
      requires acyclic ==> Descends(DependencyEdges(m), rank)
      ensures this.m == m && this.acyclic == acyclic && this.rank == rank && out == map[] && Valid({})
    {
      this.m, this.acyclic, this.rank, out := m, acyclic, rank, map[];
    }

    ghost predicate Valid(busy: set<string>)
      reads this
    {
      && out.Keys <= Names(m) && busy <= out.Keys
      && (acyclic ==> Descends(DependencyEdges(m), rank))
      && (acyclic ==> forall c :: c in out && c !in busy ==> out[c] == DependsOnAll(m, c))
    }

    ghost predicate BelowBusy(busy: set<string>, name: string) {
      acyclic ==> forall b :: b in busy ==> rank(name) < rank(b)
    }

    method Visit(name: string, ghost busy: set<string>) returns (r: set<string>)
      requires Valid(busy) && name in Names(m) && BelowBusy(busy, name)
      modifies this`out
      ensures Valid(busy) && name in out && r == out[name]
      ensures acyclic ==> r == DependsOnAll(m, name)
      ensures old(out.Keys) <= out.Keys && forall c :: c in old(out) ==> out[c] == old(out)[c]
      decreases Names(m) - out.Keys, 0
    {
      if name in out {
        return out[name];
      }
      out := out[name := {}];
      if name in m.components {
        var deps := m.components[name].depends;
        for i := 0 to |deps|
          invariant Valid(busy + {name}) && name in out && old(out.Keys) <= out.Keys
          invariant forall c :: c in old(out) ==> out[c] == old(out)[c]
          invariant acyclic ==> out[name] == Spread(m, FlatMap(OnOf(), deps[..i]))
        {
          assert deps[..i + 1] == deps[..i] + [deps[i]];
          FlatMapOne(OnOf(), deps[..i], deps[i]);
          Member(name, i);
          AddAll(name, deps[i].on, busy + {name}, FlatMap(OnOf(), deps[..i]));
        }
        assert deps[..|deps|] == deps;
      }
      return out[name];
    }

    lemma Member(name: string, i: nat)
      requires name in m.components && i < |m.components[name].depends|
      ensures forall t :: t in m.components[name].depends[i].on ==> t in Names(m) && t in DependenciesOf(m, name)
    {
      var deps := m.components[name].depends;
      forall t | t in deps[i].on ensures t in DependenciesOf(m, name) {
        assert t in OnOf()(deps[i]);
        FlatMapMeans(OnOf(), deps, t);
      }
    }

    method AddAll(name: string, on: seq<string>, ghost busy: set<string>, ghost before: seq<string>)
      requires Valid(busy) && name in busy && forall b :: b in busy && b != name && acyclic ==> rank(name) < rank(b)
      requires forall t :: t in on ==> t in Names(m) && t in DependenciesOf(m, name)
      requires acyclic ==> out[name] == Spread(m, before)
      modifies this`out
      ensures Valid(busy) && old(out.Keys) <= out.Keys
      ensures forall c :: c in old(out) && c != name ==> out[c] == old(out)[c]
      ensures acyclic ==> out[name] == Spread(m, before + on)
      decreases Names(m) - out.Keys, 1
    {
      hide DependencyEdges, DependenciesOf, Spread, DependsOnAll, Names;
      EdgesAt(m, name);
      assert before + on[..0] == before;
      for j := 0 to |on|
        invariant Valid(busy) && old(out.Keys) <= out.Keys
        invariant forall c :: c in old(out) && c != name ==> out[c] == old(out)[c]
        invariant acyclic ==> out[name] == Spread(m, before + on[..j])
      {
        var t := on[j];
        assert t in on;
        out := out[name := out[name] + {t}];
        var got := Visit(t, busy);
        out := out[name := out[name] + got];
        assert before + on[..j + 1] == before + on[..j] + [t];
        SpreadOne(m, before + on[..j], t);
      }
      assert on[..|on|] == on;
    }
  }

  type Reach = map<string, set<string>>

  /** reach has, for each component and whatever else it lists, all that such walks lead to. */
  ghost predicate ExactReach(m: Model, reach: Reach) {
    m.components.Keys <= reach.Keys && forall c :: c in reach ==> reach[c] == DependsOnAll(m, c)
  }

  /** dependencyClosure is exact on every acyclic model. */
  method DependencyClosure(m: Model) returns (reach: Reach)
    ensures AcyclicModel(m) ==> forall c :: c in reach ==> reach[c] == DependsOnAll(m, c)
    ensures m.components.Keys <= reach.Keys
  {
    ghost var rank: string -> nat := (c: string) => 0;
    if AcyclicModel(m) { rank :| Descends(DependencyEdges(m), rank); }
    var closure := new Closure(m, AcyclicModel(m), rank);
    var left := m.components.Keys;
    while left != {}
      invariant fresh(closure) && closure.m == m && closure.acyclic == AcyclicModel(m) && closure.rank == rank
      invariant closure.Valid({}) && left <= m.components.Keys <= closure.out.Keys + left
      decreases left
    {
      var c :| c in left;
      var got := closure.Visit(c, {});
      left := left - {c};
    }
    reach := closure.out;
  }

  // ---------------------------------------------------------------- redundancy groups

  function Hits(reach: Reach, root: string, members: seq<string>): nat {
    if members == [] then 0
    else Hits(reach, root, members[..|members| - 1]) + (if Hit(reach, root, members[|members| - 1]) then 1 else 0)
  }

  /** root is the member or something the member depends on. */
  predicate Hit(reach: Reach, root: string, member: string) {
    member == root || (member in reach && root in reach[member])
  }

  /** A plain dependency lets every failure through; a group one that takes more members than it can spare. */
  predicate ClauseLetsThrough(reach: Reach, root: string, dep: Dependency) {
    dep.need <= 0 || Hits(reach, root, dep.on) > |dep.on| - dep.need
  }

  predicate Propagates(m: Model, reach: Reach, root: string, parent: string, child: string) {
    parent in m.components ==>
      exists i :: 0 <= i < |m.components[parent].depends| && child in m.components[parent].depends[i].on &&
                  ClauseLetsThrough(reach, root, m.components[parent].depends[i])
  }

  method FailurePropagates(m: Model, reach: Reach, root: string, parent: string, child: string) returns (b: bool)
    ensures b == Propagates(m, reach, root, parent, child)
  {
    if parent !in m.components { return true; }
    var deps := m.components[parent].depends;
    for i := 0 to |deps|
      invariant forall j :: 0 <= j < i ==> !(child in deps[j].on && ClauseLetsThrough(reach, root, deps[j]))
    {
      var dep := deps[i];
      if child !in dep.on { continue; }
      if dep.need <= 0 { return true; }
      var hit := 0;
      for j := 0 to |dep.on|
        invariant hit == Hits(reach, root, dep.on[..j])
      {
        assert dep.on[..j + 1][..j] == dep.on[..j];
        if dep.on[j] == root || (dep.on[j] in reach && root in reach[dep.on[j]]) { hit := hit + 1; }
      }
      assert dep.on[..|dep.on|] == dep.on;
      if hit > |dep.on| - dep.need { return true; }
    }
    return false;
  }

  // ---------------------------------------------------------------- the graph

  /** The edge child to parent: plain when it carries every root's failure, else with the roots it carries, sorted. */
  ghost predicate IsLink(m: Model, reach: Reach, parent: string, child: string, link: Link) {
    && link.to == parent
    && (link.group <==> exists r :: r in m.components && !Propagates(m, reach, r, parent, child))
    && (!link.group ==> link.roots == [])
    && (link.group ==> StrictlySorted(StringLess, link.roots))
    && (link.group ==> forall r :: r in link.roots <==> r in m.components && Propagates(m, reach, r, parent, child))
  }

  method BuildLink(m: Model, reach: Reach, roots: seq<string>, parent: string, child: string) returns (link: Link)
    requires roots == SortedNames(m.components.Keys)
    ensures IsLink(m, reach, parent, child, link)
  {
    hide Propagates, SortedNames;
    var all := true;
    var carried: seq<string> := [];
    for i := 0 to |roots|
      invariant all <==> forall j :: 0 <= j < i ==> Propagates(m, reach, roots[j], parent, child)
      invariant StrictlySorted(StringLess, carried)
      invariant forall r :: r in carried <==> r in roots[..i] && Propagates(m, reach, r, parent, child)
    {
      assert roots[..i + 1] == roots[..i] + [roots[i]];
      var p := FailurePropagates(m, reach, roots[i], parent, child);
      if p {
        forall k | 0 <= k < |carried| ensures StringLess(carried[k], roots[i]) { assert carried[k] in carried; }
        carried := carried + [roots[i]];
      } else {
        all := false;
      }
    }
    assert roots[..|roots|] == roots;
    link := Link(parent, false, []);
    if !all { link := link.(group := true, roots := carried); }
  }

  /** A failure state is neither the type's default nor one whose verdict is healthy. */
  predicate IsFailure(t: Type, st: StateDef) {
    st.name != t.defaultState && !st.mark.MarkHealthy?
  }

  function Emits(t: Type, state: string): seq<string> {
    if state in t.failureModes then t.failureModes[state] else []
  }

  function FailureStates(t: Type, states: seq<StateDef>): seq<State> {
    if states == [] then []
    else
      var st := states[|states| - 1];
      FailureStates(t, states[..|states| - 1]) +
      (if IsFailure(t, st) then [State(st.name, Emits(t, st.name), st.triggeredBy)] else [])
  }

  ghost predicate IsComponentOf(m: Model, reach: Reach, name: string, gc: FailureGraph.Component) {
    var comp := m.components;
    && name in comp
    && (gc.unresolved <==> comp[name].resolved.None?)
    && gc.observes == (if comp[name].resolved.Some? then comp[name].resolved.value.facts else [])
    && gc.states == (if comp[name].resolved.Some? then FailureStates(comp[name].resolved.value, comp[name].resolved.value.states) else [])
    && |gc.dependents| == |SortedNames(Parents(m, name))|
    && forall i :: 0 <= i < |gc.dependents| ==> IsLink(m, reach, SortedNames(Parents(m, name))[i], name, gc.dependents[i])
  }

  /** g is what m's components, types and dependencies make. */
  ghost predicate IsGraphOf(m: Model, reach: Reach, g: FailureGraph.Graph) {
    && g.components.Keys == m.components.Keys
    && forall c :: c in g.components ==> IsComponentOf(m, reach, c, g.components[c])
  }

  method BuildComponent(m: Model, inverse: map<string, seq<string>>, reach: Reach, roots: seq<string>, name: string)
    returns (gc: FailureGraph.Component)
    requires roots == SortedNames(m.components.Keys) && name in m.components
    requires (name in inverse <==> Parents(m, name) != {}) && (name in inverse ==> inverse[name] == SortedNames(Parents(m, name)))
    ensures IsComponentOf(m, reach, name, gc)
  {
    hide IsLink, IsFailure, SortedNames;
    var resolved := m.components[name].resolved;
    gc := FailureGraph.Component(false, [], [], []);
    if resolved.None? {
      gc := gc.(unresolved := true);
    } else {
      var t := resolved.value;
      var states: seq<State> := [];
      for i := 0 to |t.states|
        invariant states == FailureStates(t, t.states[..i])
      {
        assert t.states[..i + 1][..i] == t.states[..i];
        if !IsFailure(t, t.states[i]) { continue; }
        states := states + [State(t.states[i].name, Emits(t, t.states[i].name), t.states[i].triggeredBy)];
      }
      assert t.states[..|t.states|] == t.states;
      gc := gc.(observes := t.facts, states := states);
    }
    ghost var parents := SortedNames(Parents(m, name));
    if name in inverse {
      var links: seq<Link> := [];
      for i := 0 to |inverse[name]|
        invariant |links| == i && forall j :: 0 <= j < i ==> IsLink(m, reach, parents[j], name, links[j])
      {
        var link := BuildLink(m, reach, roots, inverse[name][i], name);
        links := links + [link];
      }
      gc := gc.(dependents := links);
    } else {
      StringLessWeak();
      SortedUnique(StringLess, parents, []);
    }
  }

  method BuildGraph(m: Model) returns (g: FailureGraph.Graph)
    ensures exists reach :: IsGraphOf(m, reach, g) && (AcyclicModel(m) ==> ExactReach(m, reach))
  {
    hide IsComponentOf, Parents, DependsOnAll, AcyclicModel, SortedNames;
    var inverse := InverseDeps(m);
    var closed := DependencyClosure(m);
    var roots := SortedComponentNames(m.components.Keys);
    var built: map<string, FailureGraph.Component> := map[];
    for i := 0 to |roots|
      invariant forall c :: c in built <==> c in roots[..i]
      invariant forall c :: c in built ==> IsComponentOf(m, closed, c, built[c])
    {
      assert roots[..i + 1] == roots[..i] + [roots[i]];
      assert roots[i] in roots;
      var gc := BuildComponent(m, inverse, closed, roots, roots[i]);
      built := built[roots[i] := gc];
    }
    assert roots[..|roots|] == roots;
    g := FailureGraph.Graph(built);
    assert forall c :: c in built.Keys <==> c in m.components.Keys;
    assert IsGraphOf(m, closed, g);
  }

  // ---------------------------------------------------------------- what the graph is good for

  /** Dependencies without a cycle give a failure graph without one: nothing that counts over it, whatever the
      facts leave live, can come back to where it was. */
  lemma {:induction false} AcyclicGraph(m: Model, reach: Reach, g: FailureGraph.Graph)
    requires AcyclicModel(m) && IsGraphOf(m, reach, g)
    ensures Acyclic(g)
  {
    hide IsLink, IsComponentOf, SortedNames, Parents, DependsOnAll;
    var rank :| Descends(DependencyEdges(m), rank);
    if m.components != map[] {
      var c0 :| c0 in m.components;
      var top := HighestOf(rank, m.components.Keys);
      var down := map c | c in m.components :: rank(top) - rank(c);
      forall c, i | c in g.components && 0 <= i < |g.components[c].dependents|
        ensures g.components[c].dependents[i].to in g.components ==> down[g.components[c].dependents[i].to] < down[c]
      {
        LinkIsDependency(m, reach, g, c, i);
        var p := g.components[c].dependents[i].to;
        EdgesAt(m, p);
        assert c in DependencyEdges(m)(p);
      }
      assert Ranks(g, down);
    } else {
      assert Ranks(g, map[]);
    }
  }

  lemma LinkIsDependency(m: Model, reach: Reach, g: FailureGraph.Graph, c: string, i: nat)
    requires IsGraphOf(m, reach, g) && c in g.components && i < |g.components[c].dependents|
    ensures var p := g.components[c].dependents[i].to;
            p == SortedNames(Parents(m, c))[i] && p in m.components && c in DependenciesOf(m, p) &&
            IsLink(m, reach, p, c, g.components[c].dependents[i])
  {
    assert IsComponentOf(m, reach, c, g.components[c]);
    assert SortedNames(Parents(m, c))[i] in SortedNames(Parents(m, c));
    assert IsLink(m, reach, SortedNames(Parents(m, c))[i], c, g.components[c].dependents[i]);
  }

  /** Names fit for a chain's key, and no state twice in a type. */
  ghost predicate FitNames(m: Model) {
    forall c :: c in m.components ==>
      CleanName(c) && (m.components[c].resolved.Some? ==> FitStates(m.components[c].resolved.value.states))
  }

  ghost predicate FitStates(states: seq<StateDef>) {
    && (forall i :: 0 <= i < |states| ==> CleanName(states[i].name))
    && forall i, j :: 0 <= i < j < |states| ==> states[i].name != states[j].name
  }

  lemma {:induction false} FailureStatesMean(t: Type, states: seq<StateDef>)
    ensures forall s :: s in FailureStates(t, states) ==> exists j :: Gives(t, states, s, j)
    ensures FitStates(states) ==> DistinctStates(FailureStates(t, states))
  {
    if states != [] {
      var init, last := states[..|states| - 1], states[|states| - 1];
      FailureStatesMean(t, init);
      var fs, fi := FailureStates(t, states), FailureStates(t, init);
      forall s | s in fs ensures exists j :: Gives(t, states, s, j) {
        if s in fi {
          var j :| Gives(t, init, s, j);
          assert Gives(t, states, s, j);
        } else {
          assert Gives(t, states, s, |states| - 1);
        }
      }
      if FitStates(states) {
        forall i | 0 <= i < |init| ensures init[i] == states[i] {}
        forall i | 0 <= i < |fi| ensures fi[i].name != last.name {
          assert fi[i] in fi;
          var j :| Gives(t, init, fi[i], j);
          assert states[j].name != states[|states| - 1].name;
        }
      }
    }
  }

  /** s is the failure state that states[j] describes. */
  ghost predicate Gives(t: Type, states: seq<StateDef>, s: State, j: int) {
    && 0 <= j < |states| && IsFailure(t, states[j])
    && s == State(states[j].name, Emits(t, states[j].name), states[j].triggeredBy)
  }

  /** A model with fit names gives a well-formed graph. */
  lemma {:induction false} WellFormedGraph(m: Model, reach: Reach, g: FailureGraph.Graph)
    requires FitNames(m) && IsGraphOf(m, reach, g)
    ensures WellFormed(g)
  {
    hide IsLink, SortedNames;
    forall c | c in g.components ensures CleanName(c) && WellFormedComponent(g.components[c]) {
      var gc := g.components[c];
      assert IsComponentOf(m, reach, c, gc);
      if m.components[c].resolved.Some? {
        var t := m.components[c].resolved.value;
        FailureStatesMean(t, t.states);
        forall i | 0 <= i < |gc.states| ensures CleanName(gc.states[i].name) {
          assert gc.states[i] in gc.states;
          var j :| Gives(t, t.states, gc.states[i], j);
        }
      }
      forall i, j | 0 <= i < j < |gc.dependents| ensures gc.dependents[i].to != gc.dependents[j].to {
        LinkIsDependency(m, reach, g, c, i);
        LinkIsDependency(m, reach, g, c, j);
        StringIrreflexive(gc.dependents[i].to);
      }
    }
  }

  /** Every node of the graph is a failure state of its component's type, never its default. */
  lemma {:induction false} NodesAreFailures(m: Model, reach: Reach, g: FailureGraph.Graph, n: FailureGraph.Node)
    requires IsGraphOf(m, reach, g) && InGraph(g, n)
    ensures n.comp in m.components && m.components[n.comp].resolved.Some?
    ensures var t := m.components[n.comp].resolved.value;
            n.state != t.defaultState && exists j :: 0 <= j < |t.states| && t.states[j].name == n.state && IsFailure(t, t.states[j])
  {
    assert IsComponentOf(m, reach, n.comp, g.components[n.comp]);
    var t := m.components[n.comp].resolved.value;
    var i :| 0 <= i < |g.components[n.comp].states| && g.components[n.comp].states[i].name == n.state;
    FailureStatesMean(t, t.states);
    assert g.components[n.comp].states[i] in g.components[n.comp].states;
    var j :| Gives(t, t.states, g.components[n.comp].states[i], j);
  }

  /** A link of the graph carries exactly the roots whose failure gets through the dependency. */
  lemma {:induction false} LinkCarriesPropagated(m: Model, reach: Reach, g: FailureGraph.Graph, c: string, i: nat, root: string)
    requires IsGraphOf(m, reach, g) && c in g.components && i < |g.components[c].dependents| && root in m.components
    ensures var link := g.components[c].dependents[i];
            Carries(link, root) <==> Propagates(m, reach, root, link.to, c)
  {
    hide Propagates;
    LinkIsDependency(m, reach, g, c, i);
  }

  // ---------------------------------------------------------------- the graph, in the model's own terms

  /** t.states[j] is a state of that name, neither the type's default nor marked healthy. */
  ghost predicate FailureAt(t: Type, name: string, j: int) {
    0 <= j < |t.states| && t.states[j].name == name && name != t.defaultState && t.states[j].mark != MarkHealthy
  }

  lemma {:induction false} FailureStatesHold(t: Type, states: seq<StateDef>, j: nat)
    requires j < |states| && states[j].name != t.defaultState && states[j].mark != MarkHealthy
    ensures HasState(FailureStates(t, states), states[j].name)
  {
    var n := |states| - 1;
    var before, all := FailureStates(t, states[..n]), FailureStates(t, states);
    if j < n {
      FailureStatesHold(t, states[..n], j);
      var k :| 0 <= k < |before| && before[k].name == states[j].name;
      assert all[k] == before[k];
    } else {
      assert all[|before|].name == states[j].name;
    }
  }

  /** A component's node is in the graph exactly when its type has a state of that name that is neither its default nor
      marked healthy; whatever else the state is marked. */
  lemma {:induction false} NodesMean(m: Model, reach: Reach, g: FailureGraph.Graph, c: string, name: string)
    requires IsGraphOf(m, reach, g) && c in m.components
    ensures InGraph(g, FailureGraph.Node(c, name)) <==>
              m.components[c].resolved.Some? && exists j :: FailureAt(m.components[c].resolved.value, name, j)
  {
    hide FailureStates;
    assert IsComponentOf(m, reach, c, g.components[c]);
    if m.components[c].resolved.Some? {
      var t := m.components[c].resolved.value;
      FailureStatesMean(t, t.states);
      var gs := g.components[c].states;
      if j :| FailureAt(t, name, j) { FailureStatesHold(t, t.states, j); }
      if i :| 0 <= i < |gs| && gs[i].name == name {
        assert gs[i] in gs;
        var j :| Gives(t, t.states, gs[i], j);
        assert FailureAt(t, name, j);
      }
    }
  }

  /** With fit names it emits what the type's failure modes list under its name, nothing where they do not, and is triggered
      by what its state declares; its component observes all the type's facts. */
  lemma {:induction false} NodesEmit(m: Model, reach: Reach, g: FailureGraph.Graph, c: string, name: string, j: nat)
    requires FitNames(m) && IsGraphOf(m, reach, g) && c in m.components && m.components[c].resolved.Some?
    requires FailureAt(m.components[c].resolved.value, name, j)
    ensures var t, st := m.components[c].resolved.value, StateAt(g, FailureGraph.Node(c, name));
            && st.name == name && st.triggeredBy == t.states[j].triggeredBy
            && st.emits == (if name in t.failureModes then t.failureModes[name] else [])
            && g.components[c].observes == t.facts
  {
    hide FailureStates;
    var t := m.components[c].resolved.value;
    assert IsComponentOf(m, reach, c, g.components[c]);
    FailureStatesMean(t, t.states);
    FailureStatesHold(t, t.states, j);
    var gs := g.components[c].states;
    var i :| 0 <= i < |gs| && gs[i].name == name;
    StateNamedAt(gs, i);
    assert gs[i] in gs;
    var k :| Gives(t, t.states, gs[i], k);
    assert k == j by { assert FitStates(t.states) && t.states[k].name == t.states[j].name; }
  }

  /** The links of a component lead to exactly those that name it in a clause, in order, each once. */
  lemma {:induction false} LinksMean(m: Model, reach: Reach, g: FailureGraph.Graph, c: string)
    requires IsGraphOf(m, reach, g) && c in m.components
    ensures forall p :: (exists k :: 0 <= k < |g.components[c].dependents| && g.components[c].dependents[k].to == p) <==>
                        p in m.components && NamedIn(m.components[p], c)
    ensures forall k, l :: 0 <= k < l < |g.components[c].dependents| ==>
              StringLess(g.components[c].dependents[k].to, g.components[c].dependents[l].to)
  {
    hide IsLink, SortedNames, StringLess;
    var links, names := g.components[c].dependents, SortedNames(Parents(m, c));
    assert IsComponentOf(m, reach, c, g.components[c]);
    forall k | 0 <= k < |links| ensures links[k].to == names[k] { LinkIsDependency(m, reach, g, c, k); }
    forall p ensures p in Parents(m, c) <==> p in m.components && NamedIn(m.components[p], c) {
      if p in m.components { DependenciesNamed(m, p, c); }
    }
    forall p | p in m.components && NamedIn(m.components[p], c) ensures exists k :: 0 <= k < |links| && links[k].to == p {
      assert p in names;
      var k :| 0 <= k < |names| && names[k] == p;
      assert links[k].to == p;
    }
  }

  lemma DependenciesNamed(m: Model, p: string, c: string)
    requires p in m.components
    ensures c in DependenciesOf(m, p) <==> NamedIn(m.components[p], c)
  {
    var deps := m.components[p].depends;
    FlatMapMeans(OnOf(), deps, c);
    if i, j :| 0 <= i < |deps| && 0 <= j < |deps[i].on| && deps[i].on[j] == c { assert deps[i] in deps && c in OnOf()(deps[i]); }
    if dep :| dep in deps && c in OnOf()(dep) {
      var i :| 0 <= i < |deps| && deps[i] == dep;
      var j :| 0 <= j < |dep.on| && dep.on[j] == c;
    }
  }

  /** w leads from x to root in one dependency or more. */
  ghost predicate Depends(m: Model, x: string, root: string, w: seq<string>) {
    && |w| >= 2 && w[0] == x && w[|w| - 1] == root
    && forall i :: 0 <= i < |w| - 1 ==> w[i] in m.components && NamedIn(m.components[w[i]], w[i + 1])
  }

  lemma {:induction false} DependsOnAllMeans(m: Model, x: string)
    ensures forall root :: root in DependsOnAll(m, x) <==> exists w :: Depends(m, x, root, w)
  {
    hide NamedIn;
    var next := DependencyEdges(m);
    forall a, b ensures b in next(a) <==> a in m.components && NamedIn(m.components[a], b) {
      EdgesAt(m, a);
      if a in m.components { DependenciesNamed(m, a, b); }
    }
    forall root ensures root in DependsOnAll(m, x) <==> exists w :: Depends(m, x, root, w) {
      if root in DependsOnAll(m, x) {
        var t :| t in DependenciesOf(m, x) && Reaches(next, t, root);
        EdgesAt(m, x);
        var w :| WalkFromTo(next, w, t, root);
        var v := [x] + w;
        forall i | 0 <= i < |v| - 1 ensures v[i] in m.components && NamedIn(m.components[v[i]], v[i + 1]) {
          if i > 0 { assert w[i - 1 + 1] in next(w[i - 1]); }
        }
        assert Depends(m, x, root, v);
      }
      if w :| Depends(m, x, root, w) {
        DependsWalk(m, x, root, w);
      }
    }
  }

  lemma {:induction false} DependsWalk(m: Model, x: string, root: string, w: seq<string>)
    requires Depends(m, x, root, w)
    ensures root in DependsOnAll(m, x)
  {
    hide NamedIn;
    var next, v := DependencyEdges(m), w[1..];
    forall i | 0 <= i < |w| - 1 ensures w[i + 1] in next(w[i]) {
      EdgesAt(m, w[i]);
      DependenciesNamed(m, w[i], w[i + 1]);
    }
    forall i | 0 <= i < |v| - 1 ensures v[i + 1] in next(v[i]) { assert w[i + 1 + 1] in next(w[i + 1]); }
    assert WalkFromTo(next, v, w[1], root);
    EdgesAt(m, x);
    var k := |w| - 2;
    DependenciesNamed(m, w[k], w[k + 1]);
    NamesDependedOn(m, w[k], root);
  }

  lemma NamesDependedOn(m: Model, c: string, t: string)
    requires t in DependenciesOf(m, c)
    ensures t in Names(m)
  {
    NamesClosed(m);
    FlatMapMeans(OnOf(), if c in m.components then m.components[c].depends else [], t);
  }

  /** Whether a failure of root has come to x: x is root, or depends on it. */
  ghost function Struck(m: Model, root: string): string -> bool {
    (x: string) => x == root || exists w :: Depends(m, x, root, w)
  }

  lemma {:induction false} HitsCounted(m: Model, reach: Reach, root: string, members: seq<string>)
    requires ExactReach(m, reach)
    ensures Hits(reach, root, members) == CountIf(Struck(m, root), members)
  {
    if members != [] {
      hide Depends, DependsOnAll;
      var n := |members| - 1;
      var x := members[n];
      HitsCounted(m, reach, root, members[..n]);
      DependsOnAllMeans(m, x);
      if x !in reach {
        forall w ensures !Depends(m, x, root, w) { NotDependent(m, x, root, w); }
      }
    }
  }

  lemma NotDependent(m: Model, x: string, root: string, w: seq<string>)
    requires x !in m.components
    ensures !Depends(m, x, root, w)
  {}

  /** In a model whose closure is exact, a failure of root that has come to child breaks parent when some clause of parent's
      naming child is plain, or loses more members -- root itself and whatever depends on it -- than it can spare. */
  lemma {:induction false} PropagatesMean(m: Model, reach: Reach, root: string, parent: string, child: string)
    requires ExactReach(m, reach) && parent in m.components
    ensures Propagates(m, reach, root, parent, child) <==>
              exists i :: 0 <= i < |m.components[parent].depends| && LetsThrough(m, root, m.components[parent].depends[i], child)
  {
    hide Depends, Hits, Places, Struck;
    forall i | 0 <= i < |m.components[parent].depends|
      ensures child in m.components[parent].depends[i].on && ClauseLetsThrough(reach, root, m.components[parent].depends[i]) <==>
              LetsThrough(m, root, m.components[parent].depends[i], child)
    {
      var on := m.components[parent].depends[i].on;
      HitsCounted(m, reach, root, on);
      CountPlaces(Struck(m, root), on);
    }
  }

  ghost predicate LetsThrough(m: Model, root: string, dep: Dependency, child: string) {
    child in dep.on && (dep.need <= 0 || |dep.on| - |Places(Struck(m, root), dep.on)| < dep.need)
  }

  // ---------------------------------------------------------------- the static rule and the runtime rule

  /** The facts show healthy exactly the components a failure of root has not reached. */
  ghost predicate ShowsDamage(m: Model, log: Log, reach: Reach, root: string) {
    forall c :: c in m.components ==> (VerdictOf(m, log, c).Healthy? <==> !Hit(reach, root, c))
  }

  predicate Declared(m: Model, names: seq<string>) {
    forall n :: n in names ==> n in m.components
  }

  lemma {:induction false} HealthyAreSpared(m: Model, log: Log, reach: Reach, root: string, members: seq<string>)
    requires ShowsDamage(m, log, reach, root) && Declared(m, members)
    ensures HealthyMembers(m, log, members) + Hits(reach, root, members) == |members|
  {
    if members != [] { HealthyAreSpared(m, log, reach, root, members[..|members| - 1]); }
  }

  predicate NamesChild(m: Model, parent: string, child: string, i: int)
    requires parent in m.components
  {
    0 <= i < |m.components[parent].depends| && child in m.components[parent].depends[i].on
  }

  /** When the facts show the damage root's failure does, the group rule read off the facts says the failure stops
      exactly where the graph was built to stop it -- if and only if the clauses of parent naming child, and there
      are some, agree: all of them let it through or none does. One clause always agrees with itself. */
  lemma {:induction false} StaticMatchesRuntime(m: Model, log: Log, reach: Reach, root: string, parent: string, child: string)
    requires parent in m.components && ShowsDamage(m, log, reach, root)
    requires forall i :: NamesChild(m, parent, child, i) ==> Declared(m, m.components[parent].depends[i].on)
    ensures (GroupSatisfied(m, log, parent, child) <==> !Propagates(m, reach, root, parent, child)) <==>
            && (exists i :: NamesChild(m, parent, child, i))
            && forall i, j :: NamesChild(m, parent, child, i) && NamesChild(m, parent, child, j) ==>
                 ClauseLetsThrough(reach, root, m.components[parent].depends[i]) ==
                 ClauseLetsThrough(reach, root, m.components[parent].depends[j])
  {
    hide VerdictOf, ClauseLetsThrough, ShowsDamage;
    var deps := m.components[parent].depends;
    forall i | NamesChild(m, parent, child, i) ensures Holds(m, log, deps[i], child) <==> !ClauseLetsThrough(reach, root, deps[i]) {
      ClauseAgrees(m, log, reach, root, deps[i], child);
    }
    assert GroupSatisfied(m, log, parent, child) <==>
      exists i :: NamesChild(m, parent, child, i) && !ClauseLetsThrough(reach, root, deps[i]);
    assert Propagates(m, reach, root, parent, child) <==>
      exists i :: NamesChild(m, parent, child, i) && ClauseLetsThrough(reach, root, deps[i]);
  }

  lemma ClauseAgrees(m: Model, log: Log, reach: Reach, root: string, dep: Dependency, child: string)
    requires ShowsDamage(m, log, reach, root) && child in dep.on && Declared(m, dep.on)
    ensures Holds(m, log, dep, child) <==> !ClauseLetsThrough(reach, root, dep)
  {
    hide VerdictOf;
    HealthyAreSpared(m, log, reach, root, dep.on);
  }
}
