/** What breaks if a component fails: everything its failure reaches, and the groups that stop it. */
module Impacts {
  import opened Ordering
  import opened FailureGraph
  import opened Chains
  import opened Enumeration

  /** One entry of the report: a component, the failure states found for it, the components passed on the way, and whether
      nothing depends on it. */
  datatype Affected = Affected(component: string, states: seq<string>, path: seq<string>, symptom: bool)

  /** A dependent whose group can spare member. */
  datatype Blocked = Blocked(dependent: string, member: string)

  datatype Impact = Impact(component: string, states: seq<string>, affected: seq<Affected>, blocked: seq<Blocked>)

  datatype Answer =
    | NoSuchComponent
    | NoFailureStates
    | NotAFailureState(state: string)
    | Reported(impact: Impact)

  // ---------------------------------------------------------------- what a failure reaches

  /** A failure of root passes from a to b, and not back to root. */
  ghost predicate Hop(g: Graph, root: string, a: Node, b: Node) {
    IsEdge(g, root, a, b) && b.comp != root
  }

  /** w leads from root in one of the states assumed, hop by hop. */
  ghost predicate Route(g: Graph, root: string, starts: seq<string>, w: Path) {
    && w != [] && w[0].comp == root && w[0].state in starts
    && forall i :: 0 <= i < |w| - 1 ==> Hop(g, root, w[i], w[i + 1])
  }

  ghost predicate RouteTo(g: Graph, root: string, starts: seq<string>, w: Path, c: string) {
    Route(g, root, starts, w) && Last(w).comp == c
  }

  ghost predicate Reached(g: Graph, root: string, starts: seq<string>, n: Node) {
    exists w :: Route(g, root, starts, w) && Last(w) == n
  }

  function Comps(w: Path): seq<string> {
    seq(|w|, i requires 0 <= i < |w| => w[i].comp)
  }

  /** A group between member and dependent holds against a failure of root. */
  predicate GroupHolds(g: Graph, root: string, member: string, dependent: string) {
    member in g.components &&
    exists i :: 0 <= i < |g.components[member].dependents| &&
                g.components[member].dependents[i].to == dependent && !Carries(g.components[member].dependents[i], root)
  }

  ghost predicate StoppedAt(g: Graph, root: string, starts: seq<string>, b: Blocked) {
    GroupHolds(g, root, b.member, b.dependent) && exists n :: Reached(g, root, starts, n) && n.comp == b.member
  }

  predicate AffectedLess(a: Affected, b: Affected) {
    if |a.path| != |b.path| then |a.path| < |b.path| else StringLess(a.component, b.component)
  }

  predicate BlockedLess(a: Blocked, b: Blocked) {
    if a.dependent != b.dependent then StringLess(a.dependent, b.dependent) else StringLess(a.member, b.member)
  }

  ghost predicate Affects(imp: Impact, c: string) {
    exists a :: a in imp.affected && a.component == c
  }

  /** One entry says all there is about its component, along a way no other is shorter than. */
  ghost predicate Describes(g: Graph, root: string, starts: seq<string>, a: Affected) {
    && a.component in g.components
    && a.symptom == (g.components[a.component].dependents == [])
    && StrictlySorted(StringLess, a.states)
    && (forall s :: s in a.states <==> Reached(g, root, starts, Node(a.component, s)))
    && (exists w :: RouteTo(g, root, starts, w, a.component) && Comps(w) == a.path)
    && forall v :: RouteTo(g, root, starts, v, a.component) ==> |a.path| <= |v|
  }

  /** The report holds every component the failure reaches and every group that keeps it from one it does not. */
  ghost predicate IsImpact(g: Graph, imp: Impact) {
    var root, starts := imp.component, imp.states;
    && (forall c :: Affects(imp, c) <==> c != root && exists n :: Reached(g, root, starts, n) && n.comp == c)
    && (forall a :: a in imp.affected ==> Describes(g, root, starts, a))
    && StrictlySorted(AffectedLess, imp.affected)
    && (forall a, b :: a in imp.affected && b in imp.affected && a.component == b.component ==> a == b)
    && (forall b :: b in imp.blocked <==> StoppedAt(g, root, starts, b) && !Affects(imp, b.dependent))
    && StrictlySorted(BlockedLess, imp.blocked)
  }

  /** A failure hops where the graph declares that it passes, and never back to where it began. */
  lemma HopDeclared(g: Graph, root: string, a: Node, b: Node)
    requires WellFormed(g)
    ensures Hop(g, root, a, b) <==> b.comp != root && exists via :: Declares(g, root, a, Edge(b, via))
  {
    hide IsEdge, Declares, LabelOf, WellFormed;
    forall via { EdgeDeclared(g, root, a, Edge(b, via)); }
    if IsEdge(g, root, a, b) { assert Declares(g, root, a, Edge(b, LabelOf(g, a, b))); }
  }

  /** The report in order and in the graph's terms: the components by the length of their paths, then by name; and as blocked
      each dependent the failure does not reach, beside each member it does that the dependent has in a group which does
      not give way to this component, by dependent, then by member. */
  lemma {:induction false} ReportMeans(g: Graph, imp: Impact)
    requires IsImpact(g, imp)
    ensures forall i, j :: 0 <= i < j < |imp.affected| ==>
              var a, b := imp.affected[i], imp.affected[j];
              |a.path| < |b.path| || (|a.path| == |b.path| && Lesser(a.component, b.component))
    ensures forall i, j :: 0 <= i < j < |imp.blocked| ==>
              var a, b := imp.blocked[i], imp.blocked[j];
              Lesser(a.dependent, b.dependent) || (a.dependent == b.dependent && Lesser(a.member, b.member))
    ensures forall b: Blocked :: b in imp.blocked <==>
              && !Affects(imp, b.dependent) && (exists n :: Reached(g, imp.component, imp.states, n) && n.comp == b.member)
              && b.member in g.components
              && exists k :: 0 <= k < |g.components[b.member].dependents| &&
                   var link := g.components[b.member].dependents[k];
                   link.to == b.dependent && link.group && imp.component !in link.roots
  {
    hide Reached, Affects, Describes, StringLess, Lesser;
    forall a, b { StringLessMeans(a, b); }
  }

  // ---------------------------------------------------------------- the search, on values

  type Routes = map<Node, Path>

  /** Every node found has a route, the one its parent has and one hop more. */
  ghost predicate Tree(g: Graph, root: string, starts: seq<string>, parent: map<Node, Node>, path: Routes) {
    && parent.Keys == path.Keys
    && forall n :: n in path ==> Route(g, root, starts, path[n]) && Last(path[n]) == n && FromParent(parent, path, n)
  }

  ghost predicate FromParent(parent: map<Node, Node>, path: Routes, n: Node) {
    && n in parent && n in path
    && if |path[n]| == 1 then parent[n] == n
       else parent[n] != n && parent[n] in path && path[n] == path[parent[n]] + [n]
  }

  /** Found in order of length, the i-th to be looked at next: none is more than a hop longer than it. */
  ghost predicate Levels(order: seq<Node>, i: nat, path: Routes) {
    && i <= |order|
    && (forall n :: n in order <==> n in path)
    && (forall k, l :: 0 <= k <= l < |order| ==> |path[order[k]]| <= |path[order[l]]|)
    && (i < |order| ==> forall k :: 0 <= k < |order| ==> |path[order[k]]| <= |path[order[i]]| + 1)
  }

  ghost predicate Hopped(g: Graph, root: string, n: Node, path: Routes) {
    forall t :: Hop(g, root, n, t) ==> t in path
  }

  /** Every hop from a node looked at has been taken, by a route no longer. */
  ghost predicate Taken(g: Graph, root: string, order: seq<Node>, i: nat, path: Routes) {
    i <= |order| && forall k, t :: 0 <= k < i && Hop(g, root, order[k], t) ==>
      order[k] in path && t in path && |path[t]| <= |path[order[k]]| + 1
  }

  ghost predicate Started(root: string, starts: seq<string>, path: Routes) {
    forall s :: s in starts ==> Node(root, s) in path
  }

  /** What has been noted about a component: the states it was found in, and the first route to it. */
  ghost predicate NotedOf(g: Graph, c: string, a: Affected, path: Routes) {
    && a.component == c && c in g.components
    && a.symptom == (g.components[c].dependents == [])
    && NoDup(a.states)
    && (forall s :: s in a.states <==> Node(c, s) in path)
    && exists n :: n in path && n.comp == c && Comps(path[n]) == a.path && forall m :: m in path && m.comp == c ==> |path[n]| <= |path[m]|
  }

  ghost predicate Noted(g: Graph, root: string, reached: map<string, Affected>, path: Routes) {
    && (forall c :: c in reached <==> c != root && exists n :: n in path && n.comp == c)
    && forall c :: c in reached ==> NotedOf(g, c, reached[c], path)
  }

  ghost predicate Stops(g: Graph, root: string, order: seq<Node>, i: nat, blocked: set<Blocked>) {
    i <= |order| && forall b :: b in blocked <==>
      GroupHolds(g, root, b.member, b.dependent) && exists k :: 0 <= k < i && order[k].comp == b.member
  }

  lemma {:induction false} RouteOn(g: Graph, root: string, starts: seq<string>, w: Path, n: Node)
    requires Route(g, root, starts, w) && Hop(g, root, Last(w), n)
    ensures Route(g, root, starts, w + [n]) && Last(w + [n]) == n
  {
    hide Hop;
    var v := w + [n];
    forall i | 0 <= i < |v| - 1 ensures Hop(g, root, v[i], v[i + 1]) {
      if i < |w| - 1 { assert Hop(g, root, w[i], w[i + 1]); }
    }
  }

  lemma RouteBack(g: Graph, root: string, starts: seq<string>, w: Path)
    requires Route(g, root, starts, w) && |w| >= 2
    ensures Route(g, root, starts, w[..|w| - 1]) && Hop(g, root, Last(w[..|w| - 1]), Last(w))
  {
    hide Hop;
    var v := w[..|w| - 1];
    forall i | 0 <= i < |v| - 1 ensures Hop(g, root, v[i], v[i + 1]) { assert Hop(g, root, w[i], w[i + 1]); }
    assert Hop(g, root, w[|w| - 2], w[|w| - 2 + 1]);
  }

  /** Once every node found has been looked at, every route's end has been found, by a route no longer. */
  lemma {:induction false} NoneShorter(g: Graph, root: string, starts: seq<string>, order: seq<Node>, parent: map<Node, Node>,
                                       path: Routes, w: Path)
    requires Tree(g, root, starts, parent, path) && Started(root, starts, path)
    requires Levels(order, |order|, path) && Taken(g, root, order, |order|, path)
    requires Route(g, root, starts, w)
    ensures Last(w) in path && |path[Last(w)]| <= |w|
    decreases |w|
  {
    hide Levels;
    if |w| == 1 {
      var v := path[Last(w)];
      assert w[0] == Node(root, w[0].state);
      if |v| >= 2 { RouteBack(g, root, starts, v); }
    } else {
      RouteBack(g, root, starts, w);
      var v := w[..|w| - 1];
      NoneShorter(g, root, starts, order, parent, path, v);
      var k := IndexOf(order, path, Last(v));
      assert Hop(g, root, order[k], Last(w));
    }
  }

  lemma IndexOf(order: seq<Node>, path: Routes, n: Node) returns (k: nat)
    requires Levels(order, |order|, path) && n in path
    ensures k < |order| && order[k] == n
  {
    k :| 0 <= k < |order| && order[k] == n;
  }

  // ---------------------------------------------------------------- one more node

  lemma {:induction false} TreeGrows(g: Graph, root: string, starts: seq<string>, parent: map<Node, Node>, path: Routes,
                                     cur: Node, next: Node)
    requires Tree(g, root, starts, parent, path) && cur in path && next !in path && Hop(g, root, cur, next)
    ensures Tree(g, root, starts, parent[next := cur], path[next := path[cur] + [next]])
  {
    RouteOn(g, root, starts, path[cur], next);
    hide Route, Hop;
    var parent', path' := parent[next := cur], path[next := path[cur] + [next]];
    forall n | n in path' ensures Route(g, root, starts, path'[n]) && Last(path'[n]) == n && FromParent(parent', path', n) {
      hide FromParent;
      if n in path { FromParentKept(parent, path, n, cur, next); } else { FromParentNew(parent, path, cur, next); }
    }
  }

  lemma FromParentKept(parent: map<Node, Node>, path: Routes, n: Node, cur: Node, next: Node)
    requires FromParent(parent, path, n) && next !in path && cur in path
    ensures FromParent(parent[next := cur], path[next := path[cur] + [next]], n)
  {}

  lemma FromParentNew(parent: map<Node, Node>, path: Routes, cur: Node, next: Node)
    requires next !in path && cur in path && path[cur] != []
    ensures FromParent(parent[next := cur], path[next := path[cur] + [next]], next)
  {}

  lemma {:induction false} LevelsGrow(order: seq<Node>, i: nat, path: Routes, next: Node)
    requires Levels(order, i, path) && i < |order| && next !in path
    ensures Levels(order + [next], i, path[next := path[order[i]] + [next]])
  {
    var path' := path[next := path[order[i]] + [next]];
    forall k | 0 <= k < |order| ensures path'[order[k]] == path[order[k]] { assert order[k] in order; }
  }

  lemma {:induction false} TakenGrows(g: Graph, root: string, order: seq<Node>, i: nat, path: Routes, next: Node, w: Path)
    requires Taken(g, root, order, i, path) && next !in path
    ensures Taken(g, root, order + [next], i, path[next := w])
  {
    hide Hop;
  }

  /** A node found later is no nearer, so the first route noted for its component stays the shortest. */
  lemma {:induction false} NoteGrows(g: Graph, c: string, a: Affected, path: Routes, next: Node, w: Path)
    requires NotedOf(g, c, a, path) && next !in path && forall m :: m in path ==> |path[m]| <= |w|
    ensures NotedOf(g, c, if next.comp == c then a.(states := a.states + [next.state]) else a, path[next := w])
  {
    var path' := path[next := w];
    var n :| n in path && n.comp == c && Comps(path[n]) == a.path && forall m :: m in path && m.comp == c ==> |path[n]| <= |path[m]|;
    assert path'[n] == path[n];
    hide Comps;
    var a' := if next.comp == c then a.(states := a.states + [next.state]) else a;
    forall s ensures s in a'.states <==> Node(c, s) in path' {
      if next.comp == c { assert next == Node(c, next.state); }
    }
    assert forall m :: m in path' && m.comp == c ==> |path'[n]| <= |path'[m]|;
    assert n in path' && Comps(path'[n]) == a'.path;
    assert NoDup(a'.states) by { if next.comp == c { assert next == Node(c, next.state); assert next.state !in a.states; } }
  }

  /** The entry of a component found for the first time. */
  lemma {:induction false} NoteFirst(g: Graph, path: Routes, next: Node, w: Path, a: Affected)
    requires next !in path && next.comp in g.components && forall m :: m in path ==> m.comp != next.comp
    requires a == Affected(next.comp, [next.state], Comps(w), g.components[next.comp].dependents == [])
    ensures NotedOf(g, next.comp, a, path[next := w])
  {
    hide Comps;
    var path' := path[next := w];
    assert path'[next] == w;
    forall s ensures s in a.states <==> Node(next.comp, s) in path' {
      if Node(next.comp, s) in path' { assert Node(next.comp, s) == next; }
      if s in a.states { assert Node(next.comp, s) == next; }
    }
  }

  lemma {:induction false} NotedGrows(g: Graph, root: string, reached: map<string, Affected>, path: Routes,
                                      next: Node, w: Path, a: Affected)
    requires Noted(g, root, reached, path) && next !in path && next.comp != root && next.comp in g.components
    requires forall m :: m in path ==> |path[m]| <= |w|
    requires a == if next.comp in reached then reached[next.comp].(states := reached[next.comp].states + [next.state])
                  else Affected(next.comp, [next.state], Comps(w), g.components[next.comp].dependents == [])
    ensures Noted(g, root, reached[next.comp := a], path[next := w])
  {
    hide NotedOf, Comps;
    var reached', path' := reached[next.comp := a], path[next := w];
    forall c | c in reached' ensures NotedOf(g, c, reached'[c], path') {
      if c in reached {
        NoteGrows(g, c, reached[c], path, next, w);
      } else {
        NoteFirst(g, path, next, w, a);
      }
    }
    forall c ensures c in reached' <==> c != root && exists n :: n in path' && n.comp == c {
      if c in reached {
        var n :| n in path && n.comp == c;
        assert n in path';
      }
      if c == next.comp { assert next in path'; }
    }
  }

  // ---------------------------------------------------------------- the search, in place

  /** The links of cur looked at so far have been followed into every state they lead to. */
  ghost predicate Followed(g: Graph, root: string, emits: seq<string>, links: seq<Link>, path: Routes) {
    forall j :: 0 <= j < |links| ==> FollowedOne(g, root, emits, links[j], path)
  }

  ghost predicate FollowedOne(g: Graph, root: string, emits: seq<string>, link: Link, path: Routes) {
    Carries(link, root) && link.to in g.components && !g.components[link.to].unresolved && link.to != root ==>
      Entered(emits, link.to, g.components[link.to].states, path)
  }

  ghost predicate Entered(emits: seq<string>, d: string, states: seq<State>, path: Routes) {
    forall k :: 0 <= k < |states| && MatchEdgeLabel(emits, states[k].triggeredBy) != "" ==> Node(d, states[k].name) in path
  }

  lemma FollowedMeans(g: Graph, root: string, cur: Node, path: Routes)
    requires WellFormed(g) && cur.comp in g.components
    requires Followed(g, root, StateAt(g, cur).emits, g.components[cur.comp].dependents, path)
    ensures Hopped(g, root, cur, path)
  {
    hide MatchEdgeLabel;
    var emits, links := StateAt(g, cur).emits, g.components[cur.comp].dependents;
    forall t | Hop(g, root, cur, t) ensures t in path {
      var j :| 0 <= j < |links| && links[j].to == t.comp && Carries(links[j], root);
      assert FollowedOne(g, root, emits, links[j], path);
      var states := g.components[t.comp].states;
      var k :| 0 <= k < |states| && states[k].name == t.state;
      assert WellFormedComponent(g.components[t.comp]);
      StateNamedAt(states, k);
    }
  }

  lemma EnteredIsHop(g: Graph, root: string, cur: Node, j: nat, k: nat)
    requires WellFormed(g) && cur.comp in g.components && j < |g.components[cur.comp].dependents|
    requires var link := g.components[cur.comp].dependents[j];
             && Carries(link, root) && link.to in g.components && !g.components[link.to].unresolved && link.to != root
             && k < |g.components[link.to].states|
             && MatchEdgeLabel(StateAt(g, cur).emits, g.components[link.to].states[k].triggeredBy) != ""
    ensures var d := g.components[cur.comp].dependents[j].to;
            Hop(g, root, cur, Node(d, g.components[d].states[k].name))
  {
    var d := g.components[cur.comp].dependents[j].to;
    assert WellFormedComponent(g.components[d]);
    StateNamedAt(g.components[d].states, k);
    hide MatchEdgeLabel;
    assert g.components[cur.comp].dependents[j].to == d;
    assert g.components[d].states[k].name == g.components[d].states[k].name;
  }

  /** Everything the second map holds it holds as the first does. */
  ghost predicate Within(path: Routes, path': Routes) {
    forall n :: n in path ==> n in path' && path'[n] == path[n]
  }

  lemma FollowedWithin(g: Graph, root: string, emits: seq<string>, links: seq<Link>, path: Routes, path': Routes)
    requires Followed(g, root, emits, links, path) && Within(path, path')
    ensures Followed(g, root, emits, links, path')
  {
    hide MatchEdgeLabel, Carries;
    forall j | 0 <= j < |links| ensures FollowedOne(g, root, emits, links[j], path') {
      assert FollowedOne(g, root, emits, links[j], path);
    }
  }

  /** The breadth-first search from the states assumed, its maps and its queue changed as it goes. */
  class Spread {
    const g: Graph
    const root: string
    const starts: seq<string>
    var parent: map<Node, Node>
    var queue: seq<Node>
    var reached: map<string, Affected>
    var blocked: set<Blocked>
    ghost var path: Routes
    ghost var order: seq<Node>

    constructor (g: Graph, root: string, starts: seq<string>)
      ensures this.g == g && this.root == root && this.starts == starts && Seeding(0)
    {
      this.g, this.root, this.starts := g, root, starts;
      parent, queue, reached, blocked, path, order := map[], [], map[], {}, map[], [];
    }

    /** Nothing but starting points so far. */
    ghost predicate Seeding(k: nat)
      reads this
    {
      && k <= |starts| && queue == order && reached == map[] && blocked == {}
      && Tree(g, root, starts, parent, path)
      && (forall n :: n in order <==> n in path)
      && (forall n :: n in path ==> path[n] == [n] && n.comp == root)
      && forall j :: 0 <= j < k ==> Node(root, starts[j]) in path
    }

    method Seed(ghost k: nat, s: string)
      requires Seeding(k) && k < |starts| && s == starts[k]
      modifies this
      ensures Seeding(k + 1)
    {
      var n := Node(root, s);
      parent := parent[n := n];
      queue := queue + [n];
      path := path[n := [n]];
      order := order + [n];
      SeedTree(g, root, starts, old(parent), old(path), s);
    }

    /** The search stands at cur, the i-th node found. */
    ghost predicate At(i: nat, cur: Node)
      reads `parent, `queue, `reached, `path, `order
    {
      && WellFormed(g) && i < |order| && order[i] == cur && queue == order[i + 1..]
      && Tree(g, root, starts, parent, path) && Levels(order, i, path)
      && Taken(g, root, order, i, path) && Noted(g, root, reached, path)
    }

    /** More has been found since, and nothing forgotten. */
    twostate predicate Grown()
      reads this
    {
      && Within(old(path), path) && old(order) <= order
      && (parent.Keys == old(parent.Keys) ==> order == old(order))
      && old(parent.Keys) <= parent.Keys
    }

    method PathTo(n: Node) returns (out: seq<string>)
      requires Tree(g, root, starts, parent, path) && n in path
      ensures out == Comps(path[n])
    {
      hide Tree;
      ghost var w := path[n];
      var rev: seq<string> := [];
      var cur := n;
      OneUp(g, root, starts, parent, path, cur, w);
      while true
        invariant cur in path && path[cur] <= w && |rev| == |w| - |path[cur]|
        invariant forall j :: 0 <= j < |rev| ==> rev[j] == w[|w| - 1 - j].comp
        decreases |path[cur]|
      {
        OneUp(g, root, starts, parent, path, cur, w);
        rev := rev + [cur.comp];
        var p := parent[cur];
        if p == cur { break; }
        cur := p;
      }
      out := Turned(rev);
    }

    method Turned(rev: seq<string>) returns (out: seq<string>)
      ensures |out| == |rev| && forall j :: 0 <= j < |rev| ==> out[j] == rev[|rev| - 1 - j]
    {
      var turned := new string[|rev|];
      for i := 0 to |rev|
        invariant forall j :: 0 <= j < i ==> turned[|rev| - 1 - j] == rev[j]
      {
        turned[|rev| - 1 - i] := rev[i];
      }
      out := turned[..];
      forall j | 0 <= j < |rev| ensures out[j] == rev[|rev| - 1 - j] {
        assert turned[|rev| - 1 - (|rev| - 1 - j)] == rev[|rev| - 1 - j];
      }
    }

    /** The failure passes from cur to next: noted when it had not got there. */
    method Reach(ghost i: nat, cur: Node, next: Node)
      requires At(i, cur) && Hop(g, root, cur, next)
      modifies this`parent, this`queue, this`reached, this`path, this`order
      ensures At(i, cur) && next in path && Grown()
    {
      hide Hop, Noted, Levels, Taken, Tree, Comps;
      assert parent.Keys == path.Keys by { TreeKeys(g, root, starts, parent, path); }
      if next in parent { return; }
      AtEnds(i, cur, next);
      ghost var w := path[cur] + [next];
      TreeGrows(g, root, starts, parent, path, cur, next);
      LevelsGrow(order, i, path, next);
      TakenGrows(g, root, order, i, path, next, w);
      HopLeads(g, root, cur, next);
      parent := parent[next := cur];
      queue := queue + [next];
      path := path[next := w];
      order := order + [next];
      var a: Affected;
      if next.comp in reached {
        a := reached[next.comp];
      } else {
        var p := PathTo(next);
        a := Affected(next.comp, [], p, g.components[next.comp].dependents == []);
      }
      a := a.(states := a.states + [next.state]);
      NotedGrows(g, root, reached, old(path), next, w, a);
      reached := reached[next.comp := a];
    }

    /** One link that carries the failure: every state of its target that answers is reached. */
    method Enter(ghost i: nat, cur: Node, ghost j: nat, link: Link)
      requires At(i, cur) && cur.comp in g.components
      requires j < |g.components[cur.comp].dependents| && link == g.components[cur.comp].dependents[j]
      requires Carries(link, root) && link.to in g.components && !g.components[link.to].unresolved && link.to != root
      modifies this`parent, this`queue, this`reached, this`path, this`order
      ensures At(i, cur) && Grown() && Entered(StateAt(g, cur).emits, link.to, g.components[link.to].states, path)
    {
      hide MatchEdgeLabel, Hop, At;
      var emits, states := StateAt(g, cur).emits, g.components[link.to].states;
      ghost var path0, order0, parent0 := path, order, parent;
      for k := 0 to |states|
        invariant At(i, cur) && GrownSince(path0, order0, parent0)
        invariant Entered(emits, link.to, states[..k], path)
      {
        if MatchEdgeLabel(emits, states[k].triggeredBy) == "" { continue; }
        WellFormedAt(i, cur);
        EnteredIsHop(g, root, cur, j, k);
        Reach(i, cur, Node(link.to, states[k].name));
      }
      assert states[..|states|] == states;
    }

    lemma WellFormedAt(i: nat, cur: Node)
      requires At(i, cur)
      ensures WellFormed(g)
    {}

    ghost predicate GrownSince(path0: Routes, order0: seq<Node>, parent0: map<Node, Node>)
      reads this
    {
      && Within(path0, path) && order0 <= order
      && (parent.Keys == parent0.Keys ==> order == order0)
      && parent0.Keys <= parent.Keys
    }

    /** Everything that follows from cur: what it reaches, and the groups that stop it there. */
    method Follow(ghost i: nat, cur: Node)
      requires At(i, cur) && cur.comp in g.components
      modifies this
      ensures At(i, cur) && Grown() && Hopped(g, root, cur, path)
      ensures blocked == old(blocked) + Blocking(root, cur.comp, g.components[cur.comp].dependents)
    {
      hide At, Carries, Followed, FollowedOne, Hop, Entered, Blocking, Hopped;
      var links := g.components[cur.comp].dependents;
      ghost var emits := StateAt(g, cur).emits;
      ghost var path0, order0, parent0 := path, order, parent;
      NoneFollowed(g, root, emits, links, cur.comp, path);
      for j := 0 to |links|
        invariant At(i, cur) && GrownSince(path0, order0, parent0)
        invariant Followed(g, root, emits, links[..j], path)
        invariant blocked == old(blocked) + Blocking(root, cur.comp, links[..j])
      {
        ghost var path1 := path;
        BlockingOne(root, cur.comp, links, j);
        if !Carries(links[j], root) {
          blocked := blocked + {Blocked(links[j].to, cur.comp)};
          NotEntered(g, root, emits, links[j], path);
          FollowedOneMore(g, root, emits, links, j, path);
          continue;
        }
        var d := links[j].to;
        if d !in g.components || g.components[d].unresolved || d == root {
          NotEntered(g, root, emits, links[j], path);
          FollowedOneMore(g, root, emits, links, j, path);
          continue;
        }
        Enter(i, cur, j, links[j]);
        FollowedWithin(g, root, emits, links[..j], path1, path);
        EnteredFollows(g, root, emits, links[j], path);
        FollowedOneMore(g, root, emits, links, j, path);
      }
      assert links[..|links|] == links;
      WellFormedAt(i, cur);
      FollowedMeans(g, root, cur, path);
    }

    /** The first i nodes found have been looked at. */
    ghost predicate Standing(i: nat)
      reads this
    {
      && WellFormed(g) && i <= |order| && queue == order[i..]
      && Tree(g, root, starts, parent, path) && Levels(order, i, path)
      && Taken(g, root, order, i, path) && Noted(g, root, reached, path)
      && Started(root, starts, path) && Stops(g, root, order, i, blocked)
    }

    /** The states assumed are failure states of root. */
    ghost predicate Assumed() {
      root in g.components && !g.components[root].unresolved && forall s :: s in starts ==> HasState(g.components[root].states, s)
    }

    lemma Seeded()
      requires Seeding(|starts|) && WellFormed(g)
      ensures Standing(0)
    {
      hide Tree, WellFormed;
      forall s | s in starts ensures Node(root, s) in path {
        var j :| 0 <= j < |starts| && starts[j] == s;
      }
    }

    method Run()
      requires Seeding(|starts|) && WellFormed(g) && Assumed()
      modifies this
      ensures Standing(|order|)
    {
      Seeded();
      ghost var i := 0;
      while |queue| > 0
        invariant Standing(i)
        decreases Nodes(g) - parent.Keys, |queue|
      {
        i := One(i);
      }
    }

    /** One node taken off the queue and looked at. */
    method One(ghost i: nat) returns (ghost i': nat)
      requires Standing(i) && |queue| > 0 && Assumed()
      modifies this
      ensures Standing(i') && i' == i + 1
      ensures Nodes(g) - parent.Keys < Nodes(g) - old(parent.Keys) ||
              (parent.Keys == old(parent.Keys) && |queue| < |old(queue)|)
    {
      hide Tree, Levels, Taken, Noted, Stops, WellFormed, Hopped, Route, Blocking;
      var cur := queue[0];
      queue := queue[1..];
      ghost var order0, path0 := order, path;
      CurFound(i, cur);
      Follow(i, cur);
      StopsMore(g, root, order0, order, i, old(blocked));
      StopsNext(g, root, order, i, old(blocked));
      TakenNext(g, root, order, i, path);
      LevelsNext(order, i, path);
      i' := i + 1;
      TreeKeys(g, root, starts, parent, path);
      forall n | n in parent.Keys ensures n in Nodes(g) { FoundInGraph(g, root, starts, parent, path, n); }
    }

    lemma CurFound(i: nat, cur: Node)
      requires At(i, cur) && Assumed()
      ensures cur.comp in g.components
    {
      hide Tree, Noted, Taken;
      assert order[i] in order;
      FoundInGraph(g, root, starts, parent, path, cur);
    }

    lemma AtEnds(i: nat, cur: Node, next: Node)
      requires At(i, cur)
      ensures cur in path && forall m :: m in path ==> |path[m]| <= |path[cur] + [next]|
    {
      forall m | m in path ensures |path[m]| <= |path[cur]| + 1 {
        var k :| 0 <= k < |order| && order[k] == m;
      }
      assert order[i] in order;
    }
  }

  /** One step up the tree is one step back along the route. */
  lemma OneUp(g: Graph, root: string, starts: seq<string>, parent: map<Node, Node>, path: Routes, cur: Node, w: Path)
    requires Tree(g, root, starts, parent, path) && cur in path && path[cur] <= w
    ensures cur in parent && |path[cur]| >= 1 && w[|path[cur]| - 1] == cur
    ensures if parent[cur] == cur then |path[cur]| == 1
            else parent[cur] in path && path[parent[cur]] <= w && |path[parent[cur]]| == |path[cur]| - 1
  {
    hide Route;
    assert Route(g, root, starts, path[cur]) && Last(path[cur]) == cur && FromParent(parent, path, cur);
    assert path[cur] != [] by { RouteSome(g, root, starts, path[cur]); }
    assert path[cur][|path[cur]| - 1] == w[|path[cur]| - 1];
  }

  lemma RouteSome(g: Graph, root: string, starts: seq<string>, w: Path)
    requires Route(g, root, starts, w)
    ensures w != []
  {}

  lemma TreeKeys(g: Graph, root: string, starts: seq<string>, parent: map<Node, Node>, path: Routes)
    requires Tree(g, root, starts, parent, path)
    ensures parent.Keys == path.Keys
  {}

  lemma HopLeads(g: Graph, root: string, a: Node, b: Node)
    requires Hop(g, root, a, b)
    ensures a.comp in g.components && b.comp in g.components && b.comp != root
  {}

  lemma SeedTree(g: Graph, root: string, starts: seq<string>, parent: map<Node, Node>, path: Routes, s: string)
    requires Tree(g, root, starts, parent, path) && s in starts && forall n :: n in path ==> path[n] == [n]
    ensures var n := Node(root, s); Tree(g, root, starts, parent[n := n], path[n := [n]])
  {
    hide Route;
    var n := Node(root, s);
    assert Route(g, root, starts, [n]) by { StartRoute(g, root, starts, s); }
    forall m | m in path ensures m == n || FromParent(parent[n := n], path[n := [n]], m) {
      assert FromParent(parent, path, m);
    }
  }

  lemma StartRoute(g: Graph, root: string, starts: seq<string>, s: string)
    requires s in starts
    ensures Route(g, root, starts, [Node(root, s)])
  {}

  /** The groups among links that hold against root. */
  ghost function Blocking(root: string, member: string, links: seq<Link>): set<Blocked> {
    set j | 0 <= j < |links| && !Carries(links[j], root) :: Blocked(links[j].to, member)
  }

  lemma BlockingOne(root: string, member: string, links: seq<Link>, j: nat)
    requires j < |links|
    ensures Blocking(root, member, links[..j + 1]) ==
            Blocking(root, member, links[..j]) + if Carries(links[j], root) then {} else {Blocked(links[j].to, member)}
  {
    hide Carries;
    var before, after := links[..j], links[..j + 1];
    assert forall k :: 0 <= k < j ==> before[k] == after[k];
    assert after[j] == links[j];
    forall b | b in Blocking(root, member, before) ensures b in Blocking(root, member, after) {
      var k :| 0 <= k < |before| && !Carries(before[k], root) && b == Blocked(before[k].to, member);
      assert !Carries(after[k], root);
    }
  }

  lemma NotEntered(g: Graph, root: string, emits: seq<string>, link: Link, path: Routes)
    requires !(Carries(link, root) && link.to in g.components && !g.components[link.to].unresolved && link.to != root)
    ensures FollowedOne(g, root, emits, link, path)
  {}

  lemma NoneFollowed(g: Graph, root: string, emits: seq<string>, links: seq<Link>, member: string, path: Routes)
    ensures Followed(g, root, emits, links[..0], path) && Blocking(root, member, links[..0]) == {}
  {}

  lemma FollowedOneMore(g: Graph, root: string, emits: seq<string>, links: seq<Link>, j: nat, path: Routes)
    requires j < |links| && Followed(g, root, emits, links[..j], path) && FollowedOne(g, root, emits, links[j], path)
    ensures Followed(g, root, emits, links[..j + 1], path)
  {
    hide FollowedOne;
    forall k | 0 <= k < j ensures FollowedOne(g, root, emits, links[k], path) { assert links[..j][k] == links[k]; }
  }

  lemma EnteredFollows(g: Graph, root: string, emits: seq<string>, link: Link, path: Routes)
    requires link.to in g.components && Entered(emits, link.to, g.components[link.to].states, path)
    ensures FollowedOne(g, root, emits, link, path)
  {}

  lemma StopsMore(g: Graph, root: string, order: seq<Node>, order': seq<Node>, i: nat, blocked: set<Blocked>)
    requires Stops(g, root, order, i, blocked) && order <= order'
    ensures Stops(g, root, order', i, blocked)
  {
    hide GroupHolds;
    assert forall k :: 0 <= k < i ==> order'[k] == order[k];
  }

  lemma StopsNext(g: Graph, root: string, order: seq<Node>, i: nat, blocked: set<Blocked>)
    requires Stops(g, root, order, i, blocked) && i < |order| && order[i].comp in g.components
    ensures Stops(g, root, order, i + 1, blocked + Blocking(root, order[i].comp, g.components[order[i].comp].dependents))
  {
    var member := order[i].comp;
    var more := Blocking(root, member, g.components[member].dependents);
    forall b: Blocked ensures b in more <==> b.member == member && GroupHolds(g, root, b.member, b.dependent) {
      if b in more {
        var j :| 0 <= j < |g.components[member].dependents| && !Carries(g.components[member].dependents[j], root) &&
                 b == Blocked(g.components[member].dependents[j].to, member);
      }
      if b.member == member && GroupHolds(g, root, b.member, b.dependent) {
        var j :| 0 <= j < |g.components[member].dependents| && g.components[member].dependents[j].to == b.dependent &&
                 !Carries(g.components[member].dependents[j], root);
        assert b == Blocked(g.components[member].dependents[j].to, member);
      }
    }
    hide GroupHolds, Blocking;
    forall b: Blocked ensures b in blocked + more <==>
        GroupHolds(g, root, b.member, b.dependent) && exists k :: 0 <= k < i + 1 && order[k].comp == b.member {
      if b in blocked {
        var k :| 0 <= k < i && order[k].comp == b.member;
        assert order[k].comp == b.member && k < i + 1;
      }
      if b in more { assert order[i].comp == b.member; }
    }
  }

  lemma {:induction false} LevelsNext(order: seq<Node>, i: nat, path: Routes)
    requires Levels(order, i, path) && i < |order|
    ensures Levels(order, i + 1, path)
  {}

  lemma {:induction false} TakenNext(g: Graph, root: string, order: seq<Node>, i: nat, path: Routes)
    requires Taken(g, root, order, i, path) && Levels(order, i, path) && i < |order| && Hopped(g, root, order[i], path)
    ensures Taken(g, root, order, i + 1, path)
  {
    hide Hop;
    forall t | Hop(g, root, order[i], t) ensures order[i] in path && t in path && |path[t]| <= |path[order[i]]| + 1 {
      assert order[i] in order;
      var k :| 0 <= k < |order| && order[k] == t;
    }
  }

  /** Every node found is a node of the graph. */
  lemma FoundInGraph(g: Graph, root: string, starts: seq<string>, parent: map<Node, Node>, path: Routes, n: Node)
    requires Tree(g, root, starts, parent, path) && n in path
    requires root in g.components && !g.components[root].unresolved && forall s :: s in starts ==> HasState(g.components[root].states, s)
    ensures n.comp in g.components && n in Nodes(g)
  {
    assert Route(g, root, starts, path[n]) && Last(path[n]) == n;
    RouteInGraph(g, root, starts, path[n]);
  }

  lemma RouteInGraph(g: Graph, root: string, starts: seq<string>, w: Path)
    requires Route(g, root, starts, w)
    requires root in g.components && !g.components[root].unresolved && forall s :: s in starts ==> HasState(g.components[root].states, s)
    ensures InGraph(g, Last(w)) && Last(w) in Nodes(g)
  {
    if |w| >= 2 { RouteBack(g, root, starts, w); }
    InNodes(g, Last(w));
  }

  lemma InNodes(g: Graph, n: Node)
    requires InGraph(g, n)
    ensures n in Nodes(g)
  {
    var k :| 0 <= k < |g.components[n.comp].states| && g.components[n.comp].states[k].name == n.state;
    assert n == Node(n.comp, g.components[n.comp].states[k].name);
  }

  // ---------------------------------------------------------------- the report

  function Tidied(a: Affected): Affected {
    a.(states := Sort(StringLess, a.states))
  }

  /** out lists the entries noted for the components of keys, each once. */
  ghost predicate Lists(out: seq<Affected>, reached: map<string, Affected>, keys: set<string>) {
    NoDup(out) && forall a :: a in out <==> a.component in keys && a.component in reached && a == Tidied(reached[a.component])
  }

  ghost predicate KeysAreNames(reached: map<string, Affected>) {
    forall c :: c in reached ==> reached[c].component == c
  }

  method CollectAffected(reached: map<string, Affected>) returns (out: seq<Affected>)
    requires KeysAreNames(reached)
    ensures Lists(out, reached, reached.Keys)
  {
    var left := reached.Keys;
    out := [];
    while left != {}
      invariant left <= reached.Keys && Lists(out, reached, reached.Keys - left)
      decreases left
    {
      hide Sort;
      var c :| c in left;
      left := left - {c};
      out := out + [reached[c].(states := Sort(StringLess, reached[c].states))];
    }
  }

  /** The groups among blocked whose dependent is not reached after all. */
  method CollectBlocked(blocked: set<Blocked>, reached: map<string, Affected>) returns (out: seq<Blocked>)
    ensures NoDup(out) && forall b :: b in out <==> b in blocked && b.dependent !in reached
  {
    var left := blocked;
    out := [];
    while left != {}
      invariant left <= blocked && NoDup(out) && forall b :: b in out <==> b in blocked - left && b.dependent !in reached
      decreases left
    {
      var b :| b in left;
      left := left - {b};
      if b.dependent !in reached { out := out + [b]; }
    }
  }

  lemma AffectedLessWeak()
    ensures WeakOrder(AffectedLess)
  {
    forall x ensures !AffectedLess(x, x) { StringIrreflexive(x.component); }
    forall x, y, z | AffectedLess(x, y) && AffectedLess(y, z) ensures AffectedLess(x, z) {
      StringAlmost(x.component, y.component, z.component);
    }
    forall x, y, z | AffectedLess(x, z) ensures AffectedLess(x, y) || AffectedLess(y, z) {
      StringAlmost(x.component, y.component, z.component);
    }
  }

  lemma BlockedLessWeak()
    ensures WeakOrder(BlockedLess)
  {
    forall x ensures !BlockedLess(x, x) { StringIrreflexive(x.member); }
    forall x, y, z | BlockedLess(x, y) && BlockedLess(y, z) ensures BlockedLess(x, z) {
      StringAlmost(x.dependent, y.dependent, z.dependent);
      StringAlmost(x.member, y.member, z.member);
    }
    forall x, y, z | BlockedLess(x, z) ensures BlockedLess(x, y) || BlockedLess(y, z) {
      StringAlmost(x.dependent, y.dependent, z.dependent);
      StringAlmost(x.member, y.member, z.member);
      StringTotal(x.dependent, y.dependent);
      StringTotal(y.dependent, z.dependent);
    }
  }

  lemma SortedAffected(out: seq<Affected>, reached: map<string, Affected>)
    requires Lists(out, reached, reached.Keys)
    ensures StrictlySorted(AffectedLess, Sort(AffectedLess, out)) && SameElements(Sort(AffectedLess, out), out)
  {
    hide Sort, Tidied, StringLess;
    AffectedLessWeak();
    forall x, y | x in out && y in out && x != y ensures AffectedLess(x, y) || AffectedLess(y, x) {
      StringTotal(x.component, y.component);
    }
    SortStrictly(AffectedLess, out);
  }

  lemma SortedBlocked(out: seq<Blocked>)
    requires NoDup(out)
    ensures StrictlySorted(BlockedLess, Sort(BlockedLess, out)) && SameElements(Sort(BlockedLess, out), out)
  {
    hide Sort, StringLess;
    BlockedLessWeak();
    forall x, y | x in out && y in out && x != y ensures BlockedLess(x, y) || BlockedLess(y, x) {
      StringTotal(x.dependent, y.dependent);
      StringTotal(x.member, y.member);
    }
    SortStrictly(BlockedLess, out);
  }

  /** All that has been found is all that is reached, by routes no others are shorter than. */
  ghost predicate Complete(g: Graph, root: string, starts: seq<string>, path: Routes) {
    && (forall n :: n in path <==> Reached(g, root, starts, n))
    && (forall n :: n in path ==> Route(g, root, starts, path[n]) && Last(path[n]) == n)
    && forall w :: Route(g, root, starts, w) ==> Last(w) in path && |path[Last(w)]| <= |w|
  }

  lemma {:induction false} SearchComplete(g: Graph, root: string, starts: seq<string>, order: seq<Node>,
                                          parent: map<Node, Node>, path: Routes)
    requires Tree(g, root, starts, parent, path) && Started(root, starts, path)
    requires Levels(order, |order|, path) && Taken(g, root, order, |order|, path)
    ensures Complete(g, root, starts, path)
  {
    hide Hop, Levels, Taken, Started, Tree;
    TreeRoutes(g, root, starts, parent, path);
    forall w | Route(g, root, starts, w) ensures Last(w) in path && |path[Last(w)]| <= |w| {
      RouteSome(g, root, starts, w);
      NoneShorter(g, root, starts, order, parent, path, w);
    }
    forall n | Reached(g, root, starts, n) ensures n in path {
      var w :| Route(g, root, starts, w) && Last(w) == n;
    }
    forall n | n in path ensures Reached(g, root, starts, n) {
      assert Route(g, root, starts, path[n]) && Last(path[n]) == n;
    }
  }

  lemma TreeRoutes(g: Graph, root: string, starts: seq<string>, parent: map<Node, Node>, path: Routes)
    requires Tree(g, root, starts, parent, path)
    ensures forall n :: n in path ==> Route(g, root, starts, path[n]) && Last(path[n]) == n
  {}

  lemma {:induction false} EntryDescribes(g: Graph, root: string, starts: seq<string>, path: Routes, c: string, a: Affected)
    requires Complete(g, root, starts, path) && NotedOf(g, c, a, path)
    ensures Describes(g, root, starts, Tidied(a))
  {
    hide Sort, Route, Reached, StringLess;
    var n :| n in path && n.comp == c && Comps(path[n]) == a.path && forall m :: m in path && m.comp == c ==> |path[n]| <= |path[m]|;
    assert RouteTo(g, root, starts, path[n], c);
    StringLessWeak();
    StringNoTies(a.states);
    SortStrictly(StringLess, a.states);
    forall v | RouteTo(g, root, starts, v, c) ensures |a.path| <= |v| {
      assert |Comps(path[n])| == |path[n]|;
    }
  }

  lemma {:induction false} BlockedAreStopped(g: Graph, root: string, starts: seq<string>, order: seq<Node>, path: Routes,
                                             blocked: set<Blocked>)
    requires Complete(g, root, starts, path) && Levels(order, |order|, path) && Stops(g, root, order, |order|, blocked)
    ensures forall b :: b in blocked <==> StoppedAt(g, root, starts, b)
  {
    hide GroupHolds, Route, Reached;
    forall b ensures b in blocked <==> StoppedAt(g, root, starts, b) {
      if b in blocked {
        var k :| 0 <= k < |order| && order[k].comp == b.member;
        assert order[k] in order;
      }
      if StoppedAt(g, root, starts, b) {
        var n :| Reached(g, root, starts, n) && n.comp == b.member;
        var k := IndexOf(order, path, n);
      }
    }
  }

  lemma {:induction false} ReportIs(g: Graph, root: string, starts: seq<string>, path: Routes, reached: map<string, Affected>, imp: Impact,
                                    affected: seq<Affected>, blocked: seq<Blocked>)
    requires Complete(g, root, starts, path) && Noted(g, root, reached, path) && Lists(affected, reached, reached.Keys)
    requires NoDup(blocked) && forall b :: b in blocked <==> StoppedAt(g, root, starts, b) && b.dependent !in reached
    requires imp == Impact(root, starts, Sort(AffectedLess, affected), Sort(BlockedLess, blocked))
    ensures IsImpact(g, imp)
  {
    hide Sort, Tidied, StoppedAt, NotedOf, Reached, Describes, AffectedLess, BlockedLess, Route;
    SortedAffected(affected, reached);
    SortedBlocked(blocked);
    forall a | a in affected ensures Describes(g, root, starts, a) {
      EntryDescribes(g, root, starts, path, a.component, reached[a.component]);
    }
    forall c ensures Affects(imp, c) <==> c in reached {
      if c in reached {
        TidiedName(g, c, reached[c], path);
        assert Tidied(reached[c]) in affected;
      }
    }
  }

  lemma TidiedName(g: Graph, c: string, a: Affected, path: Routes)
    requires NotedOf(g, c, a, path)
    ensures Tidied(a).component == c
  {}

  function StateNames(states: seq<State>): seq<string> {
    seq(|states|, i requires 0 <= i < |states| => states[i].name)
  }

  /** ImpactOf: what a failure of component breaks, when it can fail in the states assumed: those named, or, where none is,
      all its failure states in the order they are declared. */
  method ImpactOf(g: Graph, component: string, states: seq<string>) returns (r: Answer)
    requires WellFormed(g)
    ensures r.NoSuchComponent? <==> component !in g.components
    ensures r.NoFailureStates? <==> component in g.components && g.components[component].unresolved
    ensures r.NotAFailureState? ==> component in g.components && r.state in states && !HasState(g.components[component].states, r.state)
    ensures r.Reported? ==>
              && component in g.components
              && (forall s :: s in states ==> HasState(g.components[component].states, s))
              && r.impact.component == component && (states != [] ==> r.impact.states == states)
              && (states == [] ==>
                    && |r.impact.states| == |g.components[component].states|
                    && forall i :: 0 <= i < |r.impact.states| ==> r.impact.states[i] == g.components[component].states[i].name)
              && IsImpact(g, r.impact)
  {
    hide HasState, WellFormed, IsImpact, Tree;
    if component !in g.components { return NoSuchComponent; }
    var gc := g.components[component];
    if gc.unresolved { return NoFailureStates; }
    var all: seq<string> := [];
    for i := 0 to |gc.states|
      invariant all == StateNames(gc.states[..i])
    {
      all := all + [gc.states[i].name];
    }
    assert gc.states[..|gc.states|] == gc.states;
    var assumed := if |states| == 0 then all else states;
    OwnStates(gc.states);
    var spread := new Spread(g, component, assumed);
    for k := 0 to |assumed|
      invariant spread.Seeding(k)
      invariant forall j :: 0 <= j < k ==> HasState(gc.states, assumed[j])
    {
      if !HasState(gc.states, assumed[k]) { return NotAFailureState(assumed[k]); }
      spread.Seed(k, assumed[k]);
    }
    spread.Run();
    var affected := CollectAffected(spread.reached);
    var blocked := CollectBlocked(spread.blocked, spread.reached);
    var imp := Impact(component, assumed, Sort(AffectedLess, affected), Sort(BlockedLess, blocked));
    SearchComplete(g, component, assumed, spread.order, spread.parent, spread.path);
    BlockedAreStopped(g, component, assumed, spread.order, spread.path, spread.blocked);
    ReportIs(g, component, assumed, spread.path, spread.reached, imp, affected, blocked);
    return Reported(imp);
  }

  lemma OwnStates(states: seq<State>)
    ensures forall s :: s in StateNames(states) ==> HasState(states, s)
  {}

  // ---------------------------------------------------------------- the report and the listing

  /** s is a chain from component, in one of the states assumed, to c. */
  predicate ChainTo(s: Scenario, component: string, starts: seq<string>, c: string) {
    s.root.component == component && s.root.state in starts && s.chain != [] && s.chain[|s.chain| - 1].component == c
  }

  lemma {:induction false} RouteIsChain(g: Graph, root: string, starts: seq<string>, w: Path, c: string)
    requires WellFormed(g) && Acyclic(g) && root in g.components && !g.components[root].unresolved
    requires forall s :: s in starts ==> HasState(g.components[root].states, s)
    requires RouteTo(g, root, starts, w, c) && c != root && Observes(g, c) != []
    ensures ScenarioOf(g, w) in Listing(g) && ChainTo(ScenarioOf(g, w), root, starts, c) && |ScenarioOf(g, w).chain| == |w|
  {
    hide HasState, WellFormed, Acyclic, Listing;
    forall i | 0 <= i < |w| - 1 ensures IsEdge(g, root, w[i], w[i + 1]) { assert Hop(g, root, w[i], w[i + 1]); }
    assert |w| >= 2;
    assert IsChain(g, w);
    RenderNodes(g, w);
    ListingMeans(g);
  }

  lemma {:induction false} ChainIsRoute(g: Graph, root: string, starts: seq<string>, s: Scenario, c: string)
    requires WellFormed(g) && Acyclic(g) && s in Listing(g) && ChainTo(s, root, starts, c)
    ensures RouteTo(g, root, starts, NodesOf(s.chain), c)
  {
    hide WellFormed, Acyclic, Listing, IsEdge, Height;
    ListingMeans(g);
    var w := NodesOf(s.chain);
    forall i | 0 <= i < |w| - 1 ensures Hop(g, root, w[i], w[i + 1]) {
      assert IsEdge(g, root, w[i], w[i + 1]);
      PathDescends(g, root, w, 0, i + 1);
    }
  }

  /** In an acyclic graph a component with facts to observe is reported exactly when a listed chain leads to it from
      the failure, and its path is as long as the shortest of them and the components of one. */
  lemma {:induction false} ImpactMeetsChains(g: Graph, imp: Impact, c: string)
    requires WellFormed(g) && Acyclic(g) && IsImpact(g, imp)
    requires imp.component in g.components && !g.components[imp.component].unresolved
    requires forall s :: s in imp.states ==> HasState(g.components[imp.component].states, s)
    requires c != imp.component && Observes(g, c) != []
    ensures Affects(imp, c) <==> exists s :: s in Listing(g) && ChainTo(s, imp.component, imp.states, c)
    ensures forall a :: a in imp.affected && a.component == c ==>
              && (forall s :: s in Listing(g) && ChainTo(s, imp.component, imp.states, c) ==> |a.path| <= |s.chain|)
              && exists s :: s in Listing(g) && ChainTo(s, imp.component, imp.states, c) && Comps(NodesOf(s.chain)) == a.path
  {
    hide HasState, WellFormed, Acyclic, Listing, ChainTo, Observes, Comps, Route, ScenarioOf;
    var root, starts := imp.component, imp.states;
    forall s | s in Listing(g) && ChainTo(s, root, starts, c) ensures RouteTo(g, root, starts, NodesOf(s.chain), c) {
      ChainIsRoute(g, root, starts, s, c);
    }
    if s :| s in Listing(g) && ChainTo(s, root, starts, c) {
      assert RouteTo(g, root, starts, NodesOf(s.chain), c);
      RouteReaches(g, root, starts, NodesOf(s.chain), c);
    }
    forall a | a in imp.affected && a.component == c
      ensures forall s :: s in Listing(g) && ChainTo(s, root, starts, c) ==> |a.path| <= |s.chain|
      ensures exists s :: s in Listing(g) && ChainTo(s, root, starts, c) && Comps(NodesOf(s.chain)) == a.path
    {
      assert Describes(g, root, starts, a);
      var w :| RouteTo(g, root, starts, w, c) && Comps(w) == a.path;
      RouteIsChain(g, root, starts, w, c);
      NodesBack(g, w);
      assert NodesOf(ScenarioOf(g, w).chain) == w;
    }
  }

  lemma NodesBack(g: Graph, w: Path)
    ensures NodesOf(ScenarioOf(g, w).chain) == w
  {
    RenderNodes(g, w);
  }

  lemma RouteReaches(g: Graph, root: string, starts: seq<string>, w: Path, c: string)
    requires RouteTo(g, root, starts, w, c)
    ensures exists n :: Reached(g, root, starts, n) && n.comp == c
  {
    assert Reached(g, root, starts, Last(w));
  }
}
