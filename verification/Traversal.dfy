/** The strategy without scenarios: read every fact of every component in play, then name the root cause there is. */
module Traversal {
  import opened Ordering
  import opened Expr
  import opened Facts
  import opened Models
  import opened ProbeChoice
  import opened RootCauses
  import opened Walks
  import DepGraph

  datatype WalkDecision = NoEntry | AskNext(probe: Probe) | Standalone(component: string, state: string) | Exhausted

  /** Nothing of c's type is unread; a component whose type is not known has nothing to read. */
  predicate AllRead(m: Model, log: Log, c: string) {
    c in m.components && m.components[c].resolved.Some? ==>
      forall k :: k in m.components[c].resolved.value.facts ==> !Unread(log, c, k)
  }

  /** p asks for the first unread fact of c, in the order of the type's names. */
  ghost predicate AsksFirst(m: Model, log: Log, c: string, p: Probe) {
    && c in m.components && m.components[c].resolved.Some?
    && p.component == c && p.provider == m.components[c].provider && p.typeName == m.components[c].resolved.value.name
    && var facts := m.components[c].resolved.value.facts;
       exists j :: 0 <= j < |facts| && facts[j] == p.fact && Unread(log, c, p.fact) && forall l :: 0 <= l < j ==> !Unread(log, c, facts[l])
  }

  /** ... and c is the first of walk that has one. */
  ghost predicate AsksAlong(m: Model, log: Log, walk: seq<string>, p: Probe) {
    exists i :: 0 <= i < |walk| && AsksFirst(m, log, walk[i], p) && forall l :: 0 <= l < i ==> AllRead(m, log, walk[l])
  }

  ghost function Edges(m: Model, log: Log): Succ {
    ActiveEdges(m, log, DerivedStates(m, log, m.order))
  }

  method FirstUncollectedFact(m: Model, store: Store, c: string) returns (p: Option<Probe>)
    requires c in m.components && m.components[c].resolved.Some?
    ensures p.Some? ==> AsksFirst(m, store.log, c, p.value)
    ensures p.None? ==> AllRead(m, store.log, c)
  {
    var comp := m.components[c];
    var t := comp.resolved.value;
    for j := 0 to |t.facts|
      invariant forall l :: 0 <= l < j ==> !Unread(store.log, c, t.facts[l])
    {
      var latest := store.Latest(c, t.facts[j]);
      if latest.Some? { continue; }
      return Some(Probe(c, t.facts[j], comp.provider, t.name));
    }
    return None;
  }

  method FirstUncollectedProbe(m: Model, store: Store, walk: seq<string>) returns (p: Option<Probe>)
    ensures p.Some? ==> AsksAlong(m, store.log, walk, p.value)
    ensures p.None? ==> forall c :: c in walk ==> AllRead(m, store.log, c)
  {
    hide AsksFirst;
    for i := 0 to |walk|
      invariant forall l :: 0 <= l < i ==> AllRead(m, store.log, walk[l])
    {
      hide AllRead;
      var c := walk[i];
      if c !in m.components || m.components[c].resolved.None? {
        Untyped(m, store.log, c);
        continue;
      }
      var q := FirstUncollectedFact(m, store, c);
      if q.Some? { return q; }
    }
    return None;
  }

  lemma Untyped(m: Model, log: Log, c: string)
    requires c !in m.components || m.components[c].resolved.None?
    ensures AllRead(m, log, c)
  {}

  /** The first state other than the default one that holds; "unhealthy" when none does. */
  function FirstFailed(m: Model, log: Log, c: string, defaultState: string, states: seq<StateDef>): string {
    if states == [] then "unhealthy"
    else if states[0].name != defaultState && states[0].when.Some? &&
            EvalPredicate(m, log, c, states[0].when.value) == Decided(true) then states[0].name
    else FirstFailed(m, log, c, defaultState, states[1..])
  }

  function FailedStateOf(m: Model, log: Log, c: string): string {
    if c !in m.components || m.components[c].resolved.None? then "unhealthy"
    else FirstFailed(m, log, c, m.components[c].resolved.value.defaultState, m.components[c].resolved.value.states)
  }

  /** The state reported is the first other than the default whose predicate holds, and "unhealthy" when there is none. */
  ghost predicate IsFailedState(m: Model, log: Log, c: string, t: Type, i: int) {
    && 0 <= i < |t.states| && t.states[i].name != t.defaultState && t.states[i].when.Some?
    && Eval(t.states[i].when.value, CtxOf(m, log, c)) == Decided(true)
  }

  lemma {:induction false} FailedStateMeans(m: Model, log: Log, c: string)
    ensures c !in m.components || m.components[c].resolved.None? ==> FailedStateOf(m, log, c) == "unhealthy"
    ensures c in m.components && m.components[c].resolved.Some? ==>
              var t := m.components[c].resolved.value;
              && (forall i :: IsFailedState(m, log, c, t, i) && (forall j :: 0 <= j < i ==> !IsFailedState(m, log, c, t, j)) ==>
                    FailedStateOf(m, log, c) == t.states[i].name)
              && ((forall i :: !IsFailedState(m, log, c, t, i)) ==> FailedStateOf(m, log, c) == "unhealthy")
  {
    if c in m.components && m.components[c].resolved.Some? {
      FirstFailedMeans(m, log, c, m.components[c].resolved.value, 0);
      assert m.components[c].resolved.value.states[0..] == m.components[c].resolved.value.states;
    }
  }

  lemma {:induction false} FirstFailedMeans(m: Model, log: Log, c: string, t: Type, k: nat)
    requires k <= |t.states|
    ensures forall i :: k <= i && IsFailedState(m, log, c, t, i) && (forall j :: k <= j < i ==> !IsFailedState(m, log, c, t, j)) ==>
              FirstFailed(m, log, c, t.defaultState, t.states[k..]) == t.states[i].name
    ensures (forall i :: k <= i ==> !IsFailedState(m, log, c, t, i)) ==>
              FirstFailed(m, log, c, t.defaultState, t.states[k..]) == "unhealthy"
    decreases |t.states| - k
  {
    hide IsFailedState, FirstFailed;
    FailedStep(m, log, c, t, k);
    if k < |t.states| {
      FirstFailedMeans(m, log, c, t, k + 1);
      if IsFailedState(m, log, c, t, k) {
        forall i | k <= i && IsFailedState(m, log, c, t, i) && (forall j :: k <= j < i ==> !IsFailedState(m, log, c, t, j)) ensures i == k {}
      }
    }
  }

  lemma FailedStep(m: Model, log: Log, c: string, t: Type, k: nat)
    requires k <= |t.states|
    ensures FirstFailed(m, log, c, t.defaultState, t.states[k..]) ==
            if k == |t.states| then "unhealthy"
            else if IsFailedState(m, log, c, t, k) then t.states[k].name
            else FirstFailed(m, log, c, t.defaultState, t.states[k + 1..])
    ensures forall i :: IsFailedState(m, log, c, t, i) ==> i < |t.states|
  {
    hide Eval;
    if k < |t.states| { assert t.states[k..][0] == t.states[k] && t.states[k..][1..] == t.states[k + 1..]; }
  }

  method FailedStateFor(m: Model, store: Store, c: string) returns (state: string)
    ensures state == FailedStateOf(m, store.log, c)
  {
    hide EvalPredicate;
    if c !in m.components || m.components[c].resolved.None? { return "unhealthy"; }
    var t := m.components[c].resolved.value;
    assert t.states[0..] == t.states;
    for i := 0 to |t.states|
      invariant FirstFailed(m, store.log, c, t.defaultState, t.states[i..]) == FailedStateOf(m, store.log, c)
    {
      assert t.states[i..][1..] == t.states[i + 1..];
      if t.states[i].name == t.defaultState || t.states[i].when.None? { continue; }
      if EvalPredicate(m, store.log, c, t.states[i].when.value) == Decided(true) { return t.states[i].name; }
    }
    return "unhealthy";
  }

  /** Nothing in play is left to read. */
  ghost predicate NothingUnread(m: Model, log: Log, entry: string) {
    forall c :: Reaches(Edges(m, log), entry, c) ==> AllRead(m, log, c)
  }

  /** What the root-cause rule names: a candidate no other explains whenever there is one, cycles or not, and the one
      furthest upstream where passages descend. */
  ghost predicate Chosen(m: Model, log: Log, entry: string, r: string) {
    && r in Candidates(m, log, entry)
    && ((exists x :: Causes(m, log, entry)(x)) ==> Causes(m, log, entry)(r))
    && ((exists rank :: Descends(Passages(m, log, entry), rank)) ==>
          exists i :: MostUpstream(m.order, Passages(m, log, entry), entry, Causes(m, log, entry), r, i))
  }

  /** A fact is asked for as long as one in play is unread, nearest to the entry first; then the root cause is named,
      and there is none exactly when nothing in play is seen broken. */
  ghost predicate WalkDecides(m: Model, log: Log, d: WalkDecision) {
    var entry := DepGraph.FirstFree(m, m.order);
    match d
    case NoEntry => entry == ""
    case AskNext(p) => entry != "" && exists walk :: ListsReached(Edges(m, log), entry, walk) && AsksAlong(m, log, walk, p)
    case Standalone(c, state) =>
      entry != "" && NothingUnread(m, log, entry) && Chosen(m, log, entry, c) && state == FailedStateOf(m, log, c)
    case Exhausted => entry != "" && NothingUnread(m, log, entry) && Candidates(m, log, entry) == {}
  }

  method SuggestByWalk(m: Model, store: Store) returns (d: WalkDecision)
    requires OrderLists(m)
    ensures WalkDecides(m, store.log, d)
  {
    hide ActiveEdges, DerivedStates, DepGraph.FirstFree, DepGraph.DependedOn, AsksAlong, AllRead, Candidates, Passages,
      Causes, MostUpstream, Descends, FailedStateOf;
    var graph := new DepGraph.Graph(m);
    var entry := graph.EntryPoint();
    if entry == "" { return NoEntry; }
    var walk := BfsWalk(m, store, entry);
    var p := FirstUncollectedProbe(m, store, walk);
    if p.Some? { return AskNext(p.value); }
    assert NothingUnread(m, store.log, entry);
    var r := RootCause(m, store, entry);
    if r == "" { return Exhausted; }
    var state := FailedStateFor(m, store, r);
    return Standalone(r, state);
  }

  /** What the walk asks for is a fact its type has and nothing has recorded. */
  lemma AsksAlongAsks(m: Model, log: Log, walk: seq<string>, p: Probe)
    requires AsksAlong(m, log, walk, p)
    ensures Asks(m, log, p) && p.component in walk
  {}

  /** The walk asks exactly as long as something in play is unread. */
  lemma {:induction false} AsksWhileUnread(m: Model, log: Log, d: WalkDecision)
    requires WalkDecides(m, log, d) && !d.NoEntry?
    ensures d.AskNext? <==> !NothingUnread(m, log, DepGraph.FirstFree(m, m.order))
    ensures d.AskNext? ==> Asks(m, log, d.probe) && Reaches(Edges(m, log), DepGraph.FirstFree(m, m.order), d.probe.component)
  {
    hide Reaches, ActiveEdges, BreadthFirst, DepGraph.FirstFree;
    if d.AskNext? {
      var walk :| ListsReached(Edges(m, log), DepGraph.FirstFree(m, m.order), walk) && AsksAlong(m, log, walk, d.probe);
      AsksAlongAsks(m, log, walk, d.probe);
      assert !AllRead(m, log, d.probe.component);
    }
  }
}
