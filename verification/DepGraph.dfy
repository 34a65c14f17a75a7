/** The dependency graph of a model: its entry point, and the coloured search that finds a cycle or shows there is none. */
module DepGraph {
  import opened Ordering
  import opened Models
  import opened Walks

  function OnOf(): Dependency -> seq<string> {
    (dep: Dependency) => dep.on
  }

  /** What c depends on, clause by clause. */
  function DependenciesOf(m: Model, c: string): seq<string> {
    if c in m.components then FlatMap(OnOf(), m.components[c].depends) else []
  }

  function DependencyEdges(m: Model): Succ {
    (c: string) => DependenciesOf(m, c)
  }

  /** No component depends on itself, directly or through others: dependencies can be ranked. */
  ghost predicate AcyclicModel(m: Model) {
    exists rank :: Descends(DependencyEdges(m), rank)
  }

  ghost predicate IsCycle(next: Succ, c: seq<string>) {
    IsWalk(next, c) && |c| >= 2 && c[0] == c[|c| - 1]
  }

  lemma CycleExcludesRank(next: Succ, c: seq<string>, rank: string -> nat)
    requires IsCycle(next, c)
    ensures !Descends(next, rank)
  {
    if Descends(next, rank) {
      WalkDescends(next, rank, c, 0, |c| - 1);
      assert false;
    }
  }

  /** Every name the model declares or mentions. */
  ghost function Names(m: Model): set<string> {
    m.components.Keys + (set x | x in m.order) +
    set c, i, t | c in m.components && 0 <= i < |m.components[c].depends| && t in m.components[c].depends[i].on :: t
  }

  lemma NamesClosed(m: Model)
    ensures ClosedUnder(DependencyEdges(m), Names(m))
  {
    forall c, t | c in Names(m) && t in DependenciesOf(m, c) ensures t in Names(m) {
      FlatMapMeans(OnOf(), m.components[c].depends, t);
      var dep :| dep in m.components[c].depends && t in OnOf()(dep);
      var i :| 0 <= i < |m.components[c].depends| && m.components[c].depends[i] == dep;
    }
  }

  // ---------------------------------------------------------------- building it

  predicate DependedOn(m: Model, name: string) {
    exists c :: c in m.components && name in DependenciesOf(m, c)
  }

  function Is(name: string): string -> bool {
    (x: string) => x == name
  }

  /** How often c names each of its dependencies. */
  function Mentions(m: Model, name: string): string -> nat {
    (c: string) => CountIf(Is(name), DependenciesOf(m, c))
  }

  /** How often the components name a dependency, all together. */
  ghost function InDegree(m: Model, name: string): nat {
    Sum(Mentions(m, name), SortedNames(m.components.Keys))
  }

  lemma {:induction false} SumPositive(f: string -> nat, s: seq<string>)
    ensures Sum(f, s) > 0 <==> exists x :: x in s && f(x) > 0
  {
    if s != [] {
      var init, last := s[..|s| - 1], s[|s| - 1];
      SumPositive(f, init);
      assert s == init + [last];
    }
  }

  lemma {:induction false} CountPositive(name: string, s: seq<string>)
    ensures CountIf(Is(name), s) > 0 <==> name in s
  {
    if s != [] {
      CountPositive(name, s[..|s| - 1]);
      assert s == s[..|s| - 1] + [s[|s| - 1]];
    }
  }

  lemma MentionsGrow(m: Model, seen: seq<string>, c: string)
    ensures forall t :: Sum(Mentions(m, t), seen + [c]) == Sum(Mentions(m, t), seen) + CountIf(Is(t), DependenciesOf(m, c))
  {
    hide Sum, CountIf, DependenciesOf;
    forall t ensures Sum(Mentions(m, t), seen + [c]) == Sum(Mentions(m, t), seen) + CountIf(Is(t), DependenciesOf(m, c)) {
      SumOne(Mentions(m, t), seen, c);
    }
  }

  /** Of the names in keys all but those left have been seen, each once. */
  ghost predicate Partway(keys: set<string>, left: set<string>, seen: seq<string>) {
    left <= keys && NoDup(seen) && forall c :: c in seen <==> c in keys && c !in left
  }

  lemma PartwayOn(keys: set<string>, left: set<string>, seen: seq<string>, c: string)
    requires Partway(keys, left, seen) && c in left
    ensures c in keys && c !in seen && Partway(keys, left - {c}, seen + [c])
  {}

  /** Something depends on a name exactly when its in-degree is positive. */
  lemma {:induction false} DegreeMeans(m: Model, name: string)
    ensures InDegree(m, name) > 0 <==> DependedOn(m, name)
  {
    hide CountIf, Sum, DependenciesOf;
    SumPositive(Mentions(m, name), SortedNames(m.components.Keys));
    forall c { CountPositive(name, DependenciesOf(m, c)); }
    forall c ensures Mentions(m, name)(c) > 0 <==> name in DependenciesOf(m, c) { CountPositive(name, DependenciesOf(m, c)); }
  }

  /** The first of names that nothing depends on; "" when there is none. */
  function FirstFree(m: Model, names: seq<string>): string {
    if names == [] then "" else if !DependedOn(m, names[0]) then names[0] else FirstFree(m, names[1..])
  }

  class Graph {
    const m: Model
    var adj: map<string, seq<string>>
    var inDeg: map<string, nat>

    ghost predicate Valid()
      reads this
    {
      Adjacent() && forall t :: Degree(t) == InDegree(m, t)
    }

    ghost predicate Adjacent()
      reads this`adj
    {
      adj.Keys == m.components.Keys && forall c :: c in adj ==> adj[c] == DependenciesOf(m, c)
    }

    function Degree(t: string): nat
      reads this
    {
      if t in inDeg then inDeg[t] else 0
    }

    /** The edges and mentions of the components in seen, and of no others. */
    ghost predicate Entered(seen: seq<string>)
      reads this
    {
      && adj.Keys == m.components.Keys
      && (forall c :: c in adj ==> adj[c] == if c in seen then DependenciesOf(m, c) else [])
      && forall t :: Degree(t) == Sum(Mentions(m, t), seen)
    }

    /** Edges and in-degrees, component by component, in no particular order. */
    constructor (m: Model)
      ensures this.m == m && Valid()
    {
      this.m := m;
      adj := map c | c in m.components :: [];
      inDeg := map c | c in m.components :: 0;
      new;
      var left := m.components.Keys;
      ghost var seen: seq<string> := [];
      while left != {}
        invariant Partway(m.components.Keys, left, seen) && Entered(seen)
        decreases left
      {
        hide Entered, Partway;
        var c :| c in left;
        PartwayOn(m.components.Keys, left, seen, c);
        Enter(c, seen);
        left, seen := left - {c}, seen + [c];
      }
      AllEntered(seen);
    }

    lemma AllEntered(seen: seq<string>)
      requires Partway(m.components.Keys, {}, seen) && Entered(seen)
      ensures Valid()
    {
      hide Sum, Mentions, DependenciesOf;
      forall t ensures Sum(Mentions(m, t), seen) == InDegree(m, t) { SumInOrder(Mentions(m, t), seen, m.components.Keys); }
    }

    method Enter(c: string, ghost seen: seq<string>)
      requires Entered(seen) && c in m.components && c !in seen
      modifies this`adj, this`inDeg
      ensures Entered(seen + [c])
    {
      hide Sum, CountIf, Mentions, DependenciesOf, Is;
      AddComponent(c);
      MentionsGrow(m, seen, c);
    }

    method AddComponent(c: string)
      requires c in m.components && c in adj && adj[c] == []
      modifies this`adj, this`inDeg
      ensures adj == old(adj)[c := DependenciesOf(m, c)]
      ensures forall t :: Degree(t) == old(Degree(t)) + CountIf(Is(t), DependenciesOf(m, c))
    {
      var deps := m.components[c].depends;
      for i := 0 to |deps|
        invariant adj == old(adj)[c := FlatMap(OnOf(), deps[..i])]
        invariant forall t :: Degree(t) == old(Degree(t)) + CountIf(Is(t), FlatMap(OnOf(), deps[..i]))
      {
        hide FlatMap, CountIf;
        assert deps[..i + 1] == deps[..i] + [deps[i]];
        FlatMapOne(OnOf(), deps[..i], deps[i]);
        AddEdges(c, deps[i].on);
        forall t ensures CountIf(Is(t), FlatMap(OnOf(), deps[..i + 1])) ==
                         CountIf(Is(t), FlatMap(OnOf(), deps[..i])) + CountIf(Is(t), deps[i].on)
        {
          CountIfAppend(Is(t), FlatMap(OnOf(), deps[..i]), deps[i].on);
        }
      }
      assert deps[..|deps|] == deps;
    }

    method AddEdges(c: string, on: seq<string>)
      requires c in adj
      modifies this`adj, this`inDeg
      ensures adj == old(adj)[c := old(adj)[c] + on]
      ensures forall t :: Degree(t) == old(Degree(t)) + CountIf(Is(t), on)
    {
      for j := 0 to |on|
        invariant adj.Keys == old(adj).Keys && adj[c] == old(adj)[c] + on[..j]
        invariant forall d :: d in adj && d != c ==> adj[d] == old(adj)[d]
        invariant forall t :: Degree(t) == old(Degree(t)) + CountIf(Is(t), on[..j])
      {
        assert on[..j + 1] == on[..j] + [on[j]] && on[..j + 1][..j] == on[..j];
        adj := adj[c := adj[c] + [on[j]]];
        inDeg := inDeg[on[j] := (if on[j] in inDeg then inDeg[on[j]] else 0) + 1];
      }
      assert on[..|on|] == on;
    }

    method EntryPoint() returns (name: string)
      requires Valid()
      ensures name == FirstFree(m, m.order)
    {
      hide DependedOn;
      assert m.order[0..] == m.order;
      for i := 0 to |m.order|
        invariant FirstFree(m, m.order) == FirstFree(m, m.order[i..])
      {
        assert m.order[i..][1..] == m.order[i + 1..];
        if m.order[i] !in inDeg || inDeg[m.order[i]] == 0 {
          DegreeMeans(m, m.order[i]);
          return m.order[i];
        }
        DegreeMeans(m, m.order[i]);
      }
      return "";
    }
  }

  lemma {:induction false} SumInOrder(f: string -> nat, s: seq<string>, keys: set<string>)
    requires NoDup(s) && forall x :: x in s <==> x in keys
    ensures Sum(f, s) == Sum(f, SortedNames(keys))
  {
    StringLessWeak();
    StrictNoDup(StringLess, SortedNames(keys));
    SameElementsSameLength(s, SortedNames(keys));
    SumPermutes(f, s, SortedNames(keys));
  }

  lemma {:induction false} FirstFreeMeans(m: Model, names: seq<string>)
    ensures (exists x :: x in names && !DependedOn(m, x)) ==>
              FirstFree(m, names) in names && !DependedOn(m, FirstFree(m, names)) &&
              forall j :: 0 <= j < IndexIn(names, FirstFree(m, names)) ==> DependedOn(m, names[j])
    ensures (forall x :: x in names ==> DependedOn(m, x)) ==> FirstFree(m, names) == ""
  {
    hide DependedOn;
    if names != [] && DependedOn(m, names[0]) {
      FirstFreeMeans(m, names[1..]);
      assert names == [names[0]] + names[1..];
    }
  }

  /** An acyclic model with a component in it has an entry point: a declared component nothing depends on,
      everything declared before it being something's dependency. */
  lemma {:induction false} AcyclicHasEntry(m: Model)
    requires AcyclicModel(m) && m.components != map[] && forall c :: c in m.components ==> c in m.order
    ensures var e := FirstFree(m, m.order);
            e in m.order && !DependedOn(m, e) && forall j :: 0 <= j < IndexIn(m.order, e) ==> DependedOn(m, m.order[j])
  {
    var rank :| Descends(DependencyEdges(m), rank);
    var c0 :| c0 in m.components;
    var top := HighestOf(rank, m.components.Keys);
    forall c | c in m.components ensures top !in DependenciesOf(m, c) {
      assert DependencyEdges(m)(c) == DependenciesOf(m, c);
    }
    FirstFreeMeans(m, m.order);
  }

  lemma {:induction false} HighestOf(rank: string -> nat, s: set<string>) returns (x: string)
    requires s != {}
    ensures x in s && forall y :: y in s ==> rank(y) <= rank(x)
    decreases |s|
  {
    x :| x in s;
    if s != {x} {
      var y := HighestOf(rank, s - {x});
      if rank(y) > rank(x) { x := y; }
    }
  }

  // ---------------------------------------------------------------- the search for a cycle

  /** Each name in done comes after everything it leads to. */
  ghost predicate PostOrdered(next: Succ, done: seq<string>) {
    forall i, t :: 0 <= i < |done| && t in next(done[i]) ==> t in done[..i]
  }

  lemma {:induction false} IndexInPrefix(s: seq<string>, x: string, k: nat)
    requires k <= |s| && x in s[..k]
    ensures IndexIn(s, x) < k
  {
    if s[0] != x {
      assert s[..k][1..] == s[1..][..k - 1];
      IndexInPrefix(s[1..], x, k - 1);
    }
  }

  lemma PostOrderRanks(next: Succ, done: seq<string>)
    requires PostOrdered(next, done) && forall x :: x !in done ==> next(x) == []
    ensures exists rank :: Descends(next, rank)
  {
    var rank: string -> nat := (x: string) => IndexIn(done, x);
    forall x, y | y in next(x) ensures rank(y) < rank(x) {
      var i := IndexIn(done, x);
      assert y in done[..i];
      IndexInPrefix(done, y, i);
    }
    assert Descends(next, rank);
  }

  datatype Color = Gray | Black

  predicate EnteredFrom(parent: map<string, string>, a: string, b: string) {
    b in parent && parent[b] == a
  }

  /** Each name on the stack was entered from the one below it. */
  ghost predicate Climbs(next: Succ, parent: map<string, string>, stack: seq<string>) {
    NoDup(stack) &&
    forall i, j :: 0 <= i < j < |stack| && j == i + 1 ==> stack[j] in next(stack[i]) && EnteredFrom(parent, stack[i], stack[j])
  }

  /** The grey names are the stack, the black ones are done; white names have no colour. */
  ghost predicate Coherent(next: Succ, color: map<string, Color>, parent: map<string, string>, done: seq<string>, stack: seq<string>) {
    && (forall x :: x in color && color[x] == Gray <==> x in stack)
    && (forall x :: x in color && color[x] == Black <==> x in done)
    && PostOrdered(next, done) && Climbs(next, parent, stack)
  }

  ghost predicate Attached(next: Succ, parent: map<string, string>, stack: seq<string>, node: string) {
    stack != [] ==> node in next(stack[|stack| - 1]) && EnteredFrom(parent, stack[|stack| - 1], node)
  }

  lemma Enter(next: Succ, color: map<string, Color>, parent: map<string, string>, done: seq<string>, stack: seq<string>, node: string)
    requires Coherent(next, color, parent, done, stack) && node !in color && Attached(next, parent, stack, node)
    ensures Coherent(next, color[node := Gray], parent, done, stack + [node])
  {
    var path := stack + [node];
    forall i, j | 0 <= i < j < |path| && j == i + 1 ensures path[j] in next(path[i]) && EnteredFrom(parent, path[i], path[j]) {
      if j < |stack| { assert stack[j] in next(stack[i]); }
    }
  }

  lemma Branch(next: Succ, color: map<string, Color>, parent: map<string, string>, done: seq<string>, path: seq<string>, n: string)
    requires Coherent(next, color, parent, done, path) && path != [] && n !in color && n in next(path[|path| - 1])
    ensures var parent' := parent[n := path[|path| - 1]];
            Coherent(next, color, parent', done, path) && Attached(next, parent', path, n)
  {
    var parent' := parent[n := path[|path| - 1]];
    forall i, j | 0 <= i < j < |path| && j == i + 1 ensures path[j] in next(path[i]) && EnteredFrom(parent', path[i], path[j]) {
      assert path[j] in color;
    }
  }

  lemma Leave(next: Succ, color: map<string, Color>, parent: map<string, string>, done: seq<string>, stack: seq<string>, node: string)
    requires Coherent(next, color, parent, done, stack + [node]) && AllIn(next(node), done)
    ensures Coherent(next, color[node := Black], parent, done + [node], stack)
  {
    var path := stack + [node];
    assert forall i :: 0 <= i < |stack| ==> path[i] == stack[i];
    forall i, j | 0 <= i < j < |stack| && j == i + 1 ensures stack[j] in next(stack[i]) && EnteredFrom(parent, stack[i], stack[j]) {
      assert path[j] in next(path[i]) && EnteredFrom(parent, path[i], path[j]);
    }
    assert path[|stack|] == node && node !in stack;
    var done' := done + [node];
    forall i, t | 0 <= i < |done'| && t in next(done'[i]) ensures t in done'[..i] {
      if i < |done| { assert done'[..i] == done[..i]; } else { assert done'[..i] == done; }
    }
  }

  /** Back along the parents from `from` to the start of the cycle, then turned round in place. */
  method ReconstructCycle(parent: map<string, string>, from: string, start: string,
                          ghost next: Succ, ghost stack: seq<string>, ghost k: nat)
    returns (path: seq<string>)
    requires k < |stack| && Climbs(next, parent, stack) && stack[k] == start && stack[|stack| - 1] == from
    ensures path == stack[k..] + [start]
  {
    path := [start];
    var cur := from;
    ghost var at := |stack| - 1;
    while cur != start
      invariant k <= at < |stack| && stack[at] == cur
      invariant |path| == |stack| - at && path[0] == start
      invariant forall i :: 1 <= i < |path| ==> path[i] == stack[|stack| - i]
      decreases at - k
    {
      path := path + [cur];
      assert EnteredFrom(parent, stack[at - 1], stack[at]);
      if cur !in parent { break; }
      cur := parent[cur];
      at := at - 1;
    }
    path := path + [start];
    ghost var was := path;
    var i, j := 0, |path| - 1;
    while i < j
      invariant 0 <= i <= j + 1 && i + j == |path| - 1 && |path| == |was|
      invariant forall a :: 0 <= a < i || j < a < |path| ==> path[a] == was[|path| - 1 - a]
      invariant forall a :: i <= a <= j ==> path[a] == was[a]
    {
      path := path[i := path[j]][j := path[i]];
      i, j := i + 1, j - 1;
    }
  }

  lemma ClosesCycle(next: Succ, parent: map<string, string>, path: seq<string>, k: nat)
    requires k < |path| && Climbs(next, parent, path) && path[k] in next(path[|path| - 1])
    ensures IsCycle(next, path[k..] + [path[k]])
  {
    var c := path[k..] + [path[k]];
    forall i | 0 <= i < |c| - 1 ensures c[i + 1] in next(c[i]) {
      if i < |c| - 2 { assert path[k + i + 1] in next(path[k + i]); }
    }
  }

  lemma EdgesAt(m: Model, c: string)
    ensures DependencyEdges(m)(c) == DependenciesOf(m, c)
    ensures c !in m.components ==> DependenciesOf(m, c) == []
  {}

  lemma BlackIsDone(next: Succ, color: map<string, Color>, parent: map<string, string>, done: seq<string>, path: seq<string>,
                    n: string)
    requires Coherent(next, color, parent, done, path) && n in color && color[n] == Black
    ensures n in done
  {}

  ghost predicate AllIn(a: seq<string>, b: seq<string>) {
    forall x :: x in a ==> x in b
  }

  lemma AllInTrans(a: seq<string>, b: seq<string>, c: seq<string>)
    requires AllIn(a, b) && (AllIn(b, c) || b <= c)
    ensures AllIn(a, c)
  {}

  lemma AllInNone(b: seq<string>)
    ensures AllIn([], b) && AllIn(b, b)
  {}

  lemma AllInOne(ns: seq<string>, i: nat, done: seq<string>)
    requires i < |ns| && AllIn(ns[..i], done) && ns[i] in done
    ensures AllIn(ns[..i + 1], done)
  {
    assert ns[..i + 1] == ns[..i] + [ns[i]];
  }

  lemma GreyOnStack(next: Succ, color: map<string, Color>, parent: map<string, string>, done: seq<string>, path: seq<string>, n: string)
    returns (k: nat)
    requires Coherent(next, color, parent, done, path) && n in color && color[n] == Gray
    ensures k < |path| && path[k] == n && Climbs(next, parent, path)
  {
    k :| 0 <= k < |path| && path[k] == n;
  }

  class Search {
    const g: Graph
    var color: map<string, Color>
    var parent: map<string, string>
    var cycle: seq<string>
    ghost var done: seq<string>

    constructor (g: Graph)
      ensures this.g == g && color == map[] && parent == map[] && cycle == [] && done == []
    {
      this.g, color, parent, cycle, done := g, map[], map[], [], [];
    }

    /** Visits everything node leads to, or finds a cycle and says which. */
    method Dfs(node: string, ghost stack: seq<string>) returns (found: bool)
      requires g.Adjacent() && Coherent(DependencyEdges(g.m), color, parent, done, stack)
      requires node !in color && node in Names(g.m) && color.Keys <= Names(g.m)
      requires Attached(DependencyEdges(g.m), parent, stack, node)
      modifies this
      ensures color.Keys <= Names(g.m) && old(color.Keys) <= color.Keys
      ensures found ==> IsCycle(DependencyEdges(g.m), cycle)
      ensures !found ==> Coherent(DependencyEdges(g.m), color, parent, done, stack) && node in done
      ensures !found ==> AllIn(old(done), done)
      decreases Names(g.m) - color.Keys
    {
      hide Coherent, DependencyEdges, DependenciesOf, DependedOn, PostOrdered, IsCycle, Names, Attached, Climbs, AllIn, ClosedUnder;
      ghost var next := DependencyEdges(g.m);
      NamesClosed(g.m);
      Enter(next, color, parent, done, stack, node);
      color := color[node := Gray];
      ghost var path := stack + [node];
      assert AllIn(done, done) && AllIn([], done) by { AllInNone(done); }
      var neighbours := if node in g.adj then g.adj[node] else [];
      EdgesAt(g.m, node);
      for i := 0 to |neighbours|
        invariant Coherent(next, color, parent, done, path)
        invariant color.Keys <= Names(g.m) && old(color.Keys) + {node} <= color.Keys
        invariant AllIn(neighbours[..i], done) && AllIn(old(done), done)
      {
        var n := neighbours[i];
        if n in color && color[n] == Gray {
          ghost var k := GreyOnStack(next, color, parent, done, path, n);
          cycle := ReconstructCycle(parent, node, n, next, path, k);
          ClosesCycle(next, parent, path, k);
          return true;
        }
        if n !in color {
          Branch(next, color, parent, done, path, n);
          parent := parent[n := node];
          ghost var before := done;
          var hit := Dfs(n, path);
          if hit { return true; }
          AllInTrans(neighbours[..i], before, done);
          AllInTrans(old(done), before, done);
        } else {
          BlackIsDone(next, color, parent, done, path, n);
        }
        AllInOne(neighbours, i, done);
      }
      assert neighbours[..|neighbours|] == neighbours;
      Leave(next, color, parent, done, stack, node);
      AllInTrans(old(done), done, done + [node]);
      color := color[node := Black];
      done := done + [node];
      return false;
    }
  }

  /** DetectCycle: empty exactly when dependencies are acyclic, otherwise a closed walk of real dependencies. */
  method DetectCycle(m: Model) returns (cycle: seq<string>)
    requires forall c :: c in m.components ==> c in m.order
    ensures cycle == [] <==> AcyclicModel(m)
    ensures cycle != [] ==> IsCycle(DependencyEdges(m), cycle)
  {
    hide IsCycle, DependencyEdges, PostOrdered, Climbs, IsWalk;
    var g := new Graph(m);
    var s := new Search(g);
    ghost var next := DependencyEdges(m);
    StartsCoherent(next);
    for i := 0 to |m.order|
      invariant fresh(s) && s.g == g && g.Valid() && g.m == m
      invariant Coherent(next, s.color, s.parent, s.done, []) && s.color.Keys <= Names(m)
      invariant forall j :: 0 <= j < i ==> m.order[j] in s.done
    {
      var name := m.order[i];
      if name !in s.color {
        var found := s.Dfs(name, []);
        if found {
          CycleMeansCyclic(m, s.cycle);
          return s.cycle;
        }
      }
    }
    forall x | x !in s.done ensures next(x) == [] { EdgesAt(m, x); }
    PostOrderRanks(next, s.done);
    return [];
  }

  lemma CycleMeansCyclic(m: Model, c: seq<string>)
    requires IsCycle(DependencyEdges(m), c)
    ensures c != [] && !AcyclicModel(m)
  {
    forall rank ensures !Descends(DependencyEdges(m), rank) { CycleExcludesRank(DependencyEdges(m), c, rank); }
  }

  lemma StartsCoherent(next: Succ)
    ensures Coherent(next, map[], map[], [], [])
  {}
}
