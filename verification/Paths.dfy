/** The paths a simulation considers: one shortest walk from the entry to everything it reaches. */
module Paths {
  import opened Ordering
  import opened Models
  import opened Facts
  import opened Walks
  import opened RootCauses

  type Walk = seq<string>

  function Tip(p: Walk): string {
    if p == [] then "" else p[|p| - 1]
  }

  function Tips(ps: seq<Walk>): seq<string> {
    seq(|ps|, i requires 0 <= i < |ps| => Tip(ps[i]))
  }

  /** p is a walk from entry, and none to where it ends is shorter. */
  ghost predicate Shortest(next: Succ, entry: string, p: Walk) {
    p != [] && WalkFromTo(next, p, entry, Tip(p)) && forall w :: WalkFromTo(next, w, entry, Tip(p)) ==> |p| <= |w|
  }

  /** items are walks from entry, found in breadth-first order, the first i of them looked at: no longer as they go,
      none more than a step longer than the next to look at, and every step from what was looked at is taken. */
  ghost predicate Levelled(next: Succ, entry: string, items: seq<Walk>, i: nat) {
    i <= |items| && items != [] && items[0] == [entry] && AreWalks(next, entry, items) && Rising(items, i) && Taken(next, items, i)
  }

  ghost predicate AreWalks(next: Succ, entry: string, items: seq<Walk>) {
    forall k :: 0 <= k < |items| ==> items[k] != [] && WalkFromTo(next, items[k], entry, Tip(items[k]))
  }

  ghost predicate Rising(items: seq<Walk>, i: nat) {
    && (forall k, l :: 0 <= k <= l < |items| ==> |items[k]| <= |items[l]|)
    && (i < |items| ==> forall k :: 0 <= k < |items| ==> |items[k]| <= |items[i]| + 1)
  }

  ghost predicate Taken(next: Succ, items: seq<Walk>, i: nat) {
    i <= |items| && forall k, t :: 0 <= k < i && t in next(Tip(items[k])) ==> Reached(items, t, |items[k]| + 1)
  }

  /** Some item ends at t, no longer than n. */
  ghost predicate Reached(items: seq<Walk>, t: string, n: nat) {
    exists k :: 0 <= k < |items| && Tip(items[k]) == t && |items[k]| <= n
  }

  /** A walk's length bounds that of some item to where it ends, once everything has been looked at. */
  lemma {:induction false} NoShorter(next: Succ, entry: string, items: seq<Walk>, w: Walk)
    requires Levelled(next, entry, items, |items|) && WalkFromTo(next, w, entry, Tip(w))
    ensures Reached(items, Tip(w), |w|)
  {
    if |w| == 1 {
      assert Tip(items[0]) == Tip(w) && |items[0]| <= |w|;
    } else {
      var v := w[..|w| - 1];
      forall i | 0 <= i < |v| - 1 ensures v[i + 1] in next(v[i]) { assert w[i + 1] in next(w[i]); }
      NoShorter(next, entry, items, v);
      var k :| 0 <= k < |items| && Tip(items[k]) == Tip(v) && |items[k]| <= |v|;
      assert w[|w| - 2 + 1] in next(w[|w| - 2]);
      var l :| 0 <= l < |items| && Tip(items[l]) == Tip(w) && |items[l]| <= |items[k]| + 1;
    }
  }

  /** When everything has been looked at, the items are shortest, one for each name reached. */
  lemma {:induction false} AllShortest(next: Succ, entry: string, items: seq<Walk>)
    requires Levelled(next, entry, items, |items|) && NoDup(Tips(items))
    ensures forall p :: p in items ==> Shortest(next, entry, p)
    ensures forall t :: t in Tips(items) <==> Reaches(next, entry, t)
  {
    forall p | p in items ensures Shortest(next, entry, p) {
      var i :| 0 <= i < |items| && items[i] == p;
      forall w | WalkFromTo(next, w, entry, Tip(p)) ensures |p| <= |w| {
        NoShorter(next, entry, items, w);
        var k :| 0 <= k < |items| && Tip(items[k]) == Tip(w) && |items[k]| <= |w|;
        assert Tips(items)[k] == Tips(items)[i];
      }
    }
    forall t ensures t in Tips(items) <==> Reaches(next, entry, t) {
      if t in Tips(items) {
        var i :| 0 <= i < |items| && Tips(items)[i] == t;
        assert WalkFromTo(next, items[i], entry, t);
      }
      if Reaches(next, entry, t) {
        var w :| WalkFromTo(next, w, entry, t);
        NoShorter(next, entry, items, w);
        var k :| 0 <= k < |items| && Tip(items[k]) == t && |items[k]| <= |w|;
        assert Tips(items)[k] == t;
      }
    }
  }

  // ---------------------------------------------------------------- the search

  /** curr with one step on to each of ts. */
  function Steps(curr: Walk, ts: seq<string>): seq<Walk> {
    seq(|ts|, i requires 0 <= i < |ts| => curr + [ts[i]])
  }

  /** What ts adds to what had been found. */
  function Added(found: seq<string>, ts: seq<string>): seq<string> {
    DiscoverKeeps(found, ts);
    Discover(found, ts)[|found|..]
  }

  lemma AddedAppend(found: seq<string>, a: seq<string>, b: seq<string>)
    ensures Added(found, a + b) == Added(found, a) + Added(Discover(found, a), b)
  {
    hide Discover;
    DiscoverAppend(found, a, b);
    DiscoverKeeps(found, a);
    DiscoverKeeps(Discover(found, a), b);
    DropParts(found, Discover(found, a), Discover(Discover(found, a), b));
  }

  lemma DropParts(x: seq<string>, y: seq<string>, z: seq<string>)
    requires x <= y <= z
    ensures z[|x|..] == y[|x|..] + z[|y|..]
  {}

  lemma StepsAppend(curr: Walk, a: seq<string>, b: seq<string>)
    ensures Steps(curr, a + b) == Steps(curr, a) + Steps(curr, b)
  {}

  ghost predicate Same(visited: set<string>, found: seq<string>) {
    forall x :: x in visited <==> x in found
  }

  /** The targets of one clause not visited yet, each with the walk that leads there. */
  method StepOn(curr: Walk, on: seq<string>, visited0: set<string>, ghost found: seq<string>)
    returns (added: seq<Walk>, visited: set<string>)
    requires Same(visited0, found)
    ensures added == Steps(curr, Added(found, on)) && Same(visited, Discover(found, on)) && visited0 <= visited
  {
    added, visited := [], visited0;
    for j := 0 to |on|
      invariant added == Steps(curr, Added(found, on[..j])) && Same(visited, Discover(found, on[..j])) && visited0 <= visited
    {
      hide Discover, Added;
      StepOnOne(curr, on, j, found);
      if on[j] in visited { continue; }
      visited := visited + {on[j]};
      added := added + [curr + [on[j]]];
    }
    assert on[..|on|] == on;
  }

  lemma StepOnOne(curr: Walk, on: seq<string>, j: nat, found: seq<string>)
    requires j < |on|
    ensures var before := Discover(found, on[..j]);
            if on[j] in before then
              Discover(found, on[..j + 1]) == before && Steps(curr, Added(found, on[..j + 1])) == Steps(curr, Added(found, on[..j]))
            else
              Discover(found, on[..j + 1]) == before + [on[j]] &&
              Steps(curr, Added(found, on[..j + 1])) == Steps(curr, Added(found, on[..j])) + [curr + [on[j]]]
  {
    assert on[..j + 1] == on[..j] + [on[j]];
    DiscoverAppend(found, on[..j], [on[j]]);
    DiscoverOne(Discover(found, on[..j]), on[j]);
    DiscoverKeeps(found, on[..j]);
    DiscoverKeeps(found, on[..j + 1]);
    hide Discover;
  }

  lemma NothingAdded(curr: Walk, found: seq<string>)
    ensures Steps(curr, Added(found, [])) == [] && Discover(found, []) == found
  {}

  /** All the active clauses of the component curr ends at. */
  method StepAll(m: Model, store: Store, states: map<string, string>, curr: Walk, visited0: set<string>, ghost found: seq<string>)
    returns (added: seq<Walk>, visited: set<string>)
    requires Same(visited0, found)
    ensures var ts := ActiveTargets(m, store.log, states, Tip(curr));
            added == Steps(curr, Added(found, ts)) && Same(visited, Discover(found, ts)) && visited0 <= visited
  {
    hide Discover, Added, Steps, GuardActive, Same, Tip;
    added, visited := [], visited0;
    NothingAdded(curr, found);
    var c := Tip(curr);
    if c !in m.components { return; }
    var deps := m.components[c].depends;
    ghost var f := TargetsOf(m, store.log, c, states);
    assert deps[..|deps|] == deps && FlatMap(f, deps[..0]) == [];
    for i := 0 to |deps|
      invariant added == Steps(curr, Added(found, FlatMap(f, deps[..i])))
      invariant Same(visited, Discover(found, FlatMap(f, deps[..i]))) && visited0 <= visited
    {
      hide FlatMap;
      ghost var ts := FlatMap(f, deps[..i]);
      FlatMapUpTo(f, deps, i);
      AddedAppend(found, ts, f(deps[i]));
      DiscoverAppend(found, ts, f(deps[i]));
      StepsAppend(curr, Added(found, ts), Added(Discover(found, ts), f(deps[i])));
      if !GuardActive(m, store.log, c, states, deps[i]) {
        assert ts + [] == ts;
        continue;
      }
      var more, next := StepOn(curr, deps[i].on, visited, Discover(found, ts));
      added, visited := added + more, next;
    }
  }

  lemma {:induction false} LevelNext(next: Succ, entry: string, items: seq<Walk>, i: nat)
    requires Levelled(next, entry, items, i) && i < |items| && NoDup(Tips(items))
    ensures var ts := next(Tip(items[i]));
            var items' := items + Steps(items[i], Added(Tips(items), ts));
            Levelled(next, entry, items', i + 1) && Tips(items') == Discover(Tips(items), ts)
  {
    hide Discover, Added, AreWalks, Rising, Taken;
    var more := Added(Tips(items), next(Tip(items[i])));
    TipsGrow(items, items[i], next(Tip(items[i])));
    NextWalks(next, entry, items, items[i], more);
    NextRising(items, i, more);
    NextTaken(next, items, i, more);
  }

  lemma TipsGrow(items: seq<Walk>, curr: Walk, ts: seq<string>)
    ensures Tips(items + Steps(curr, Added(Tips(items), ts))) == Discover(Tips(items), ts)
  {
    DiscoverKeeps(Tips(items), ts);
    hide Discover;
    var more := Added(Tips(items), ts);
    assert Tips(items + Steps(curr, more)) == Tips(items) + more;
  }

  lemma {:induction false} NextWalks(next: Succ, entry: string, items: seq<Walk>, curr: Walk, more: seq<string>)
    requires AreWalks(next, entry, items) && curr in items && NoDup(Tips(items))
    requires more == Added(Tips(items), next(Tip(curr)))
    ensures AreWalks(next, entry, items + Steps(curr, more))
  {
    hide Added, WalkFromTo, NoDup;
    var items' := items + Steps(curr, more);
    forall k | |items| <= k < |items'| ensures items'[k] != [] && WalkFromTo(next, items'[k], entry, Tip(items'[k])) {
      AddedAreTargets(Tips(items), next(Tip(curr)), k - |items|);
      WalkOn(next, curr, entry, Tip(curr), more[k - |items|]);
    }
  }

  lemma NextRising(items: seq<Walk>, i: nat, more: seq<string>)
    requires Rising(items, i) && i < |items|
    ensures Rising(items + Steps(items[i], more), i + 1)
  {}

  lemma {:induction false} NextTaken(next: Succ, items: seq<Walk>, i: nat, more: seq<string>)
    requires Taken(next, items, i) && i < |items| && Rising(items, i)
    requires Tips(items + Steps(items[i], more)) == Discover(Tips(items), next(Tip(items[i])))
    ensures Taken(next, items + Steps(items[i], more), i + 1)
  {
    hide Rising;
    var items' := items + Steps(items[i], more);
    DiscoverKeeps(Tips(items), next(Tip(items[i])));
    hide Discover;
    forall k, t | 0 <= k < i + 1 && t in next(Tip(items'[k])) ensures Reached(items', t, |items'[k]| + 1) {
      if k < i {
        assert Reached(items, t, |items[k]| + 1);
        var l :| 0 <= l < |items| && Tip(items[l]) == t && |items[l]| <= |items[k]| + 1;
        assert items'[l] == items[l];
      } else {
        assert t in Tips(items');
        var l :| 0 <= l < |items'| && Tips(items')[l] == t;
        NoneLonger(items, i, more, l);
      }
    }
  }

  lemma NoneLonger(items: seq<Walk>, i: nat, more: seq<string>, l: nat)
    requires Rising(items, i) && i < |items| && l < |items + Steps(items[i], more)|
    ensures |(items + Steps(items[i], more))[l]| <= |items[i]| + 1
  {}

  lemma {:induction false} AddedAreTargets(found: seq<string>, ts: seq<string>, k: nat)
    requires k < |Added(found, ts)| && NoDup(found)
    ensures Added(found, ts)[k] in ts
  {
    DiscoverKeeps(found, ts);
    var all := Discover(found, ts);
    assert all[|found| + k] in all;
    assert forall j :: 0 <= j < |found| ==> all[j] == found[j];
  }

  /** bfsEnumerate: a shortest walk for each component other than the entry that it reaches over active edges, one
      each, in the order the other breadth-first walk visits them. */
  method BfsEnumerate(m: Model, store: Store, entry: string) returns (paths: seq<Walk>)
    ensures var next := ActiveEdges(m, store.log, DerivedStates(m, store.log, m.order));
            && (forall p :: p in paths ==> Shortest(next, entry, p) && Tip(p) != entry)
            && NoDup(Tips(paths))
            && (forall t :: t in Tips(paths) <==> t != entry && Reaches(next, entry, t))
            && BreadthFirst(next, entry, [entry] + Tips(paths))
  {
    hide Shortest, Levelled, ActiveTargets, DerivedStates, Discover, Added, Steps, Reaches, Mentioned, BreadthFirst, FoundAfter, Same;
    var states := Derive(m, store);
    ghost var next := ActiveEdges(m, store.log, states);
    ghost var universe := Mentioned(m) + {entry};
    var visited := {entry};
    var queue := [[entry]];
    paths := [];
    ghost var items, i := [[entry]], 0;
    Starts(next, entry);
    while |queue| > 0
      invariant items == [[entry]] + paths && i + |queue| == |items| && queue == items[i..]
      invariant Levelled(next, entry, items, i) && Tips(items) == FoundAfter(next, entry, i)
      invariant Same(visited, Tips(items)) && visited <= universe
      decreases universe - visited, |queue|
    {
      var curr := queue[0];
      queue := queue[1..];
      ghost var before := visited;
      FoundOnce(next, entry, i);
      LevelNext(next, entry, items, i);
      FoundNext(next, entry, i, items);
      var added;
      added, visited := StepAll(m, store, states, curr, visited, Tips(items));
      StaysKnown(m, store.log, states, curr, Tips(items), before, visited, universe);
      MoreMeansNew(curr, Tips(items), next(Tip(curr)), before, visited);
      paths, queue := paths + added, queue + added;
      items, i := items + added, i + 1;
    }
    Ends(next, entry, items, paths);
  }

  lemma Starts(next: Succ, entry: string)
    ensures Levelled(next, entry, [[entry]], 0) && Tips([[entry]]) == FoundAfter(next, entry, 0) && Same({entry}, Tips([[entry]]))
  {
    assert WalkFromTo(next, [entry], entry, entry);
    assert Tips([[entry]]) == [entry];
  }

  lemma FoundNext(next: Succ, entry: string, i: nat, items: seq<Walk>)
    requires i < |items| && Tips(items) == FoundAfter(next, entry, i)
    ensures FoundAfter(next, entry, i + 1) == Discover(Tips(items), next(Tip(items[i])))
  {
    hide Discover;
    assert Tips(items)[i] == Tip(items[i]);
  }

  lemma StaysKnown(m: Model, log: Log, states: map<string, string>, curr: Walk, found: seq<string>, before: set<string>,
                   visited: set<string>, universe: set<string>)
    requires Same(before, found) && before <= universe && Mentioned(m) <= universe
    requires Same(visited, Discover(found, ActiveTargets(m, log, states, Tip(curr))))
    ensures visited <= universe
  {
    hide Mentioned, Discover;
    TargetsMentioned(m, log, states, Tip(curr));
    DiscoverKeeps(found, ActiveTargets(m, log, states, Tip(curr)));
  }

  lemma MoreMeansNew(curr: Walk, found: seq<string>, ts: seq<string>, before: set<string>, visited: set<string>)
    requires Same(before, found) && Same(visited, Discover(found, ts)) && NoDup(found)
    ensures Steps(curr, Added(found, ts)) != [] ==> visited != before
  {
    hide Discover;
    DiscoverKeeps(found, ts);
    var all := Discover(found, ts);
    if |all| > |found| {
      assert all[|found|] in all;
      assert forall j :: 0 <= j < |found| ==> all[j] == found[j];
    }
  }

  lemma Ends(next: Succ, entry: string, items: seq<Walk>, paths: seq<Walk>)
    requires items == [[entry]] + paths && Levelled(next, entry, items, |items|) && Tips(items) == FoundAfter(next, entry, |items|)
    ensures forall p :: p in paths ==> Shortest(next, entry, p) && Tip(p) != entry
    ensures NoDup(Tips(paths)) && BreadthFirst(next, entry, [entry] + Tips(paths))
    ensures forall t :: t in Tips(paths) <==> t != entry && Reaches(next, entry, t)
  {
    hide Levelled, FoundAfter, Shortest, Reaches, Tips;
    FoundOnce(next, entry, |items|);
    AllShortest(next, entry, items);
    TipsRest(entry, items, paths);
    forall p | p in paths ensures Tip(p) != entry && p in items { TipOf(paths, p); }
  }

  lemma TipOf(ps: seq<Walk>, p: Walk)
    requires p in ps
    ensures Tip(p) in Tips(ps)
  {
    var i :| 0 <= i < |ps| && ps[i] == p;
    assert Tips(ps)[i] == Tip(p);
  }

  /** Without the entry's own walk the ends are those of the paths, and the entry is not among them. */
  lemma TipsRest(entry: string, items: seq<Walk>, paths: seq<Walk>)
    requires items == [[entry]] + paths && NoDup(Tips(items))
    ensures Tips(items) == [entry] + Tips(paths) && |Tips(items)| == |items| && NoDup(Tips(paths)) && entry !in Tips(paths)
    ensures forall t :: t in Tips(paths) <==> t in Tips(items) && t != entry
  {
    var all, rest := Tips(items), Tips(paths);
    assert all == [entry] + rest;
    forall j, k | 0 <= j < k < |rest| ensures rest[j] != rest[k] { assert all[j + 1] != all[k + 1]; }
    forall j | 0 <= j < |rest| ensures rest[j] != entry { assert all[0] != all[j + 1]; }
  }

  /** The two breadth-first walks, one marking when it queues and one when it takes off the queue, visit the same
      components in the same order. */
  lemma {:induction false} WalksAgree(next: Succ, entry: string, out: seq<string>, paths: seq<Walk>)
    requires ListsReached(next, entry, out) && BreadthFirst(next, entry, [entry] + Tips(paths))
    ensures out == [entry] + Tips(paths)
  {
    OneBreadthFirst(next, entry, out, [entry] + Tips(paths));
  }
}
