/** Which chains the facts leave live: scenario by scenario, and node by node and edge by edge. */
module LiveSet {
  import opened Ordering
  import opened FailureGraph
  import opened Chains
  import opened Enumeration
  import opened Expr
  import opened Facts
  import opened Models

  // ---------------------------------------------------------------- one step

  /** The first state of that name decides; what its predicate cannot say yet does not contradict the step,
      a comparison that makes no sense does. */
  predicate MatchedConsistent(m: Model, log: Log, c: string, states: seq<StateDef>, state: string) {
    if states == [] then true
    else if states[0].name != state then MatchedConsistent(m, log, c, states[1..], state)
    else if states[0].when.None? then true
    else
      match EvalPredicate(m, log, c, states[0].when.value)
      case Decided(b) => b
      case Unresolved => true
      case Hard => false
  }

  /** The facts do not contradict component c being in state. */
  predicate StepConsistent(m: Model, log: Log, c: string, state: string) {
    if FactsFor(log, c) == [] then true
    else if c !in m.components || m.components[c].resolved.None? then true
    else
      var t := m.components[c].resolved.value;
      if Absent(FactsFor(log, c)) then t.defaultState == "" || state != t.defaultState
      else MatchedConsistent(m, log, c, t.states, state)
  }

  // ---------------------------------------------------------------- the two forms

  /** The liveness of the facts, as predicates on nodes and passages. */
  function GraphLiveness(m: Model, log: Log): Liveness {
    Liveness((c: string, s: string) => StepConsistent(m, log, c, s),
             (a: string, b: string) => !GroupSatisfied(m, log, b, a))
  }

  /** One pass over the chain, each step with the passage to the one after it. */
  method IsLive(m: Model, store: Store, s: Scenario) returns (live: bool)
    ensures live == ScenarioLive(GraphLiveness(m, store.log), s)
  {
    var graph := GraphLiveness(m, store.log);
    for i := 0 to |s.chain|
      invariant forall j :: 0 <= j < i ==> graph.node(s.chain[j].component, s.chain[j].state)
      invariant forall j :: 0 <= j < i && j < |s.chain| - 1 ==> graph.edge(s.chain[j].component, s.chain[j + 1].component)
    {
      if !StepConsistent(m, store.log, s.chain[i].component, s.chain[i].state) { return false; }
      if i + 1 < |s.chain| {
        var held := SatisfiedGroup(m, store, s.chain[i + 1].component, s.chain[i].component);
        if held {
          assert !graph.edge(s.chain[i].component, s.chain[i + 1].component);
          return false;
        }
      }
    }
    return true;
  }

  function NamedLive(live: Liveness): Named -> bool {
    (n: Named) => ScenarioLive(live, n.scenario)
  }

  method FilterLive(m: Model, store: Store, scs: seq<Named>) returns (live: seq<Named>)
    ensures live == Filter(NamedLive(GraphLiveness(m, store.log)), scs)
  {
    live := [];
    for i := 0 to |scs|
      invariant live == Filter(NamedLive(GraphLiveness(m, store.log)), scs[..i])
    {
      assert scs[..i + 1][..i] == scs[..i];
      var ok := IsLive(m, store, scs[i].scenario);
      if ok { live := live + [scs[i]]; }
    }
    assert scs[..|scs|] == scs;
  }

  // ---------------------------------------------------------------- what is ruled out

  lemma {:induction false} MatchedMeans(m: Model, log: Log, c: string, states: seq<StateDef>, state: string)
    ensures !MatchedConsistent(m, log, c, states, state) <==>
              exists i :: FirstOfName(states, state, i) && states[i].when.Some? &&
                (Eval(states[i].when.value, CtxOf(m, log, c)) == Decided(false) || Eval(states[i].when.value, CtxOf(m, log, c)) == Hard)
  {
    hide Eval;
    if states != [] {
      var rest := states[1..];
      MatchedMeans(m, log, c, rest, state);
      assert forall i :: 0 <= i < |rest| ==> rest[i] == states[i + 1];
      if states[0].name == state {
        assert FirstOfName(states, state, 0);
      } else {
        forall i | FirstOfName(rest, state, i) ensures FirstOfName(states, state, i + 1) {
          forall j | 0 <= j < i + 1 ensures states[j].name != state { if j > 0 { assert rest[j - 1] == states[j]; } }
        }
        forall i | FirstOfName(states, state, i) ensures FirstOfName(rest, state, i - 1) {
          forall j | 0 <= j < i - 1 ensures rest[j].name != state { assert rest[j] == states[j + 1]; }
        }
      }
    }
  }

  /** What is known rules a state of c out: c is of a known type and something has been recorded for it; and either it was
      probed and is not there, and the state is its type's default, or it was not found missing, and the predicate of the
      first state of that name is false or makes no sense. A predicate that cannot be told yet rules nothing out. */
  ghost predicate RuledOut(m: Model, log: Log, c: string, state: string) {
    && c in log && log[c] != [] && c in m.components && m.components[c].resolved.Some?
    && var t := m.components[c].resolved.value;
       if SeenAbsent(log, c) then t.defaultState != "" && state == t.defaultState
       else exists i :: FirstOfName(t.states, state, i) && t.states[i].when.Some? &&
              (Eval(t.states[i].when.value, CtxOf(m, log, c)) == Decided(false) || Eval(t.states[i].when.value, CtxOf(m, log, c)) == Hard)
  }

  lemma {:induction false} StepMeans(m: Model, log: Log, c: string, state: string)
    ensures !GraphLiveness(m, log).node(c, state) <==> RuledOut(m, log, c, state)
  {
    hide Eval, MatchedConsistent;
    if c in m.components && m.components[c].resolved.Some? {
      MatchedMeans(m, log, c, m.components[c].resolved.value.states, state);
    }
  }

  /** It stops a failure between a and b: one of b's groups holds it up against a. */
  ghost predicate StoppedBetween(m: Model, log: Log, a: string, b: string) {
    b in m.components && exists i :: 0 <= i < |m.components[b].depends| && HoldsUp(m, log, m.components[b].depends[i], a)
  }

  lemma PassageMeans(m: Model, log: Log, a: string, b: string)
    ensures !GraphLiveness(m, log).edge(a, b) <==> StoppedBetween(m, log, a, b)
  {
    GroupMeans(m, log, b, a);
  }

  /** A chain is eliminated exactly when what is known rules one of its steps out, or stops the failure between two of them. */
  lemma {:induction false} EliminatedMeans(m: Model, log: Log, s: Scenario)
    ensures !ScenarioLive(GraphLiveness(m, log), s) <==>
              || (exists i :: 0 <= i < |s.chain| && RuledOut(m, log, s.chain[i].component, s.chain[i].state))
              || (exists i :: 0 < i < |s.chain| && StoppedBetween(m, log, s.chain[i - 1].component, s.chain[i].component))
  {
    hide GraphLiveness, RuledOut, StoppedBetween;
    var live := GraphLiveness(m, log);
    forall i | 0 <= i < |s.chain| { StepMeans(m, log, s.chain[i].component, s.chain[i].state); }
    forall i | 0 < i < |s.chain| { PassageMeans(m, log, s.chain[i - 1].component, s.chain[i].component); }
    if i :| 0 <= i < |s.chain| - 1 && !live.edge(s.chain[i].component, s.chain[i + 1].component) {
      assert StoppedBetween(m, log, s.chain[i + 1 - 1].component, s.chain[i + 1].component);
    }
    if i :| 0 < i < |s.chain| && StoppedBetween(m, log, s.chain[i - 1].component, s.chain[i].component) {
      assert !live.edge(s.chain[i - 1].component, s.chain[i - 1 + 1].component);
    }
  }

  /** The graph's liveness with every answer remembered: each is worked out once per decision. */
  class Remembered {
    const m: Model
    const store: Store
    ghost const log: Log
    var nodes: map<(string, string), bool>
    var edges: map<(string, string), bool>

    constructor (m: Model, store: Store)
      ensures Valid() && this.m == m && this.store == store && log == store.log
    {
      this.m := m;
      this.store := store;
      log := store.log;
      nodes := map[];
      edges := map[];
    }

    /** Every remembered answer is the one GraphLiveness gives. */
    ghost predicate Valid()
      reads this
    {
      && (forall k :: k in nodes ==> nodes[k] == GraphLiveness(m, log).node(k.0, k.1))
      && (forall k :: k in edges ==> edges[k] == GraphLiveness(m, log).edge(k.0, k.1))
    }

    method Node(c: string, s: string) returns (v: bool)
      requires Valid() && store.log == log
      modifies this`nodes
      ensures Valid() && v == GraphLiveness(m, log).node(c, s)
      ensures nodes == old(nodes)[(c, s) := v]
    {
      if (c, s) in nodes {
        v := nodes[(c, s)];
      } else {
        v := StepConsistent(m, store.log, c, s);
        nodes := nodes[(c, s) := v];
      }
      assert nodes == old(nodes)[(c, s) := v];
    }

    method Edge(a: string, b: string) returns (v: bool)
      requires Valid() && store.log == log
      modifies this`edges
      ensures Valid() && v == GraphLiveness(m, log).edge(a, b)
      ensures edges == old(edges)[(a, b) := v]
    {
      if (a, b) in edges {
        v := edges[(a, b)];
      } else {
        var held := SatisfiedGroup(m, store, b, a);
        v := !held;
        edges := edges[(a, b) := v];
      }
      assert edges == old(edges)[(a, b) := v];
    }
  }

  // ---------------------------------------------------------------- the true chain stays live

  /** Everything there is to read: the value of each fact of each component, where it has one. */
  type World = (string, string) -> Option<Value>

  ghost predicate TrueIn(m: Model, full: World, c: string, states: seq<StateDef>, state: string) {
    if states == [] then true
    else if states[0].name != state then TrueIn(m, full, c, states[1..], state)
    else
      states[0].when.Some? ==>
        var when, ctx := states[0].when.value, FullCtx(m, full, c);
        Eval(when, ctx) == Decided(true) && NoClash(when, ctx) && !CanFailHard(when, ctx)
  }

  /** c really is in that state, and the state is one of failure: its predicate holds in the world, no part of the
      facts makes it fail hard, and it is not the type's default. */
  ghost predicate TrueStep(m: Model, full: World, c: string, state: string) {
    c in m.components && m.components[c].resolved.Some? ==>
      var t := m.components[c].resolved.value;
      TrueIn(m, full, c, t.states, state) && (t.defaultState == "" || state != t.defaultState)
  }

  function WellMembers(m: Model, full: World, members: seq<string>): nat {
    if members == [] then 0
    else WellMembers(m, full, members[..|members| - 1]) + (if WellIn(m, full, members[|members| - 1]) then 1 else 0)
  }

  /** No group of parent over child has enough members well in the world to stop the failure. */
  ghost predicate Passes(m: Model, full: World, child: string, parent: string) {
    parent in m.components ==>
      forall i :: 0 <= i < |m.components[parent].depends| ==>
        var dep := m.components[parent].depends[i];
        dep.need > 0 && child in dep.on ==>
          WellMembers(m, full, dep.on) < dep.need && forall c :: c in dep.on ==> Steady(m, full, c)
  }

  /** s is what happened: every step is in its state and every failure got through. */
  ghost predicate TrueChain(m: Model, full: World, s: Scenario) {
    && (forall i :: 0 <= i < |s.chain| ==> TrueStep(m, full, s.chain[i].component, s.chain[i].state))
    && (forall i :: 0 <= i < |s.chain| - 1 ==> Passes(m, full, s.chain[i].component, s.chain[i + 1].component))
  }

  lemma {:induction false} TrueStateMatches(m: Model, log: Log, full: World, c: string, states: seq<StateDef>, state: string)
    requires KnowsLess(log, full) && TrueIn(m, full, c, states, state)
    ensures MatchedConsistent(m, log, c, states, state)
  {
    if states != [] {
      if states[0].name != state {
        TrueStateMatches(m, log, full, c, states[1..], state);
      } else if states[0].when.Some? {
        BelowFull(m, log, full, c);
        EvalMonotone(states[0].when.value, CtxOf(m, log, c), FullCtx(m, full, c));
        EvalNeverHard(states[0].when.value, CtxOf(m, log, c), FullCtx(m, full, c));
      }
    }
  }

  /** A member proven healthy by some of the facts counts as well in the world. */
  lemma {:induction false} HealthyPass(m: Model, log: Log, full: World, members: seq<string>)
    requires KnowsLess(log, full) && forall c :: c in members ==> Steady(m, full, c)
    ensures HealthyMembers(m, log, members) <= WellMembers(m, full, members)
  {
    if members != [] {
      HealthyPass(m, log, full, members[..|members| - 1]);
      var c := members[|members| - 1];
      if VerdictOf(m, log, c).Healthy? { HealthyOnAllFacts(m, log, full, c); }
    }
  }

  /** Whatever part of the facts has been read, the chain that happened is not eliminated. */
  lemma TrueChainStaysLive(m: Model, log: Log, full: World, s: Scenario)
    requires KnowsLess(log, full) && TrueChain(m, full, s)
    ensures ScenarioLive(GraphLiveness(m, log), s)
  {
    forall i | 0 <= i < |s.chain| ensures StepConsistent(m, log, s.chain[i].component, s.chain[i].state) {
      var c := s.chain[i].component;
      assert TrueStep(m, full, c, s.chain[i].state);
      if c in m.components && m.components[c].resolved.Some? {
        TrueStateMatches(m, log, full, c, m.components[c].resolved.value.states, s.chain[i].state);
      }
    }
    forall i | 0 <= i < |s.chain| - 1 ensures !GroupSatisfied(m, log, s.chain[i + 1].component, s.chain[i].component) {
      var child, parent := s.chain[i].component, s.chain[i + 1].component;
      assert Passes(m, full, child, parent);
      if GroupSatisfied(m, log, parent, child) {
        var j :| 0 <= j < |m.components[parent].depends| && Models.Holds(m, log, m.components[parent].depends[j], child);
        HealthyPass(m, log, full, m.components[parent].depends[j].on);
        assert false;
      }
    }
  }

  // ---------------------------------------------------------------- where a true state is dropped

  /** n speaks of c alone. */
  predicate OwnWords(n: Expr.Node, c: string) {
    match n
    case And(l, r) => OwnWords(l, c) && OwnWords(r, c)
    case Or(l, r) => OwnWords(l, c) && OwnWords(r, c)
    case Cmp(d, _, _, _) => d == "" || d == c
  }

  lemma {:induction false} ReadsOwn(n: Expr.Node, ctx: Ctx)
    requires OwnWords(n, ctx.current)
    ensures forall p :: p in Reads(n, ctx) ==> p.0 == ctx.current && ctx.facts(p.0, p.1).Some?
  {
    match n
    case And(l, r) => ReadsOwn(l, ctx); ReadsOwn(r, ctx);
    case Or(l, r) => ReadsOwn(l, ctx); ReadsOwn(r, ctx);
    case Cmp(_, _, _, _) =>
  }

  /** One record for each key, with the world's value. */
  function RecordsOf(full: World, c: string, keys: seq<string>): seq<Fact> {
    seq(|keys|, i requires 0 <= i < |keys| => Fact(keys[i], full(c, keys[i]), Normal))
  }

  lemma {:induction false} RecordedValue(full: World, c: string, keys: seq<string>, k: string)
    ensures LatestOf(RecordsOf(full, c, keys), k) == if k in keys then Some(Fact(k, full(c, k), Normal)) else None
  {
    if keys != [] {
      var init := keys[..|keys| - 1];
      RecordedValue(full, c, init, k);
      assert RecordsOf(full, c, keys)[..|keys| - 1] == RecordsOf(full, c, init);
      assert keys == init + [keys[|keys| - 1]];
    }
  }

  /** A log in which exactly these facts of c have been read. */
  function LogWith(full: World, c: string, keys: set<string>): Log {
    map[c := RecordsOf(full, c, SortedNames(keys))]
  }

  lemma {:induction false} LogReads(m: Model, full: World, c: string, known: set<(string, string)>)
    requires known != {} && forall p :: p in known ==> p.0 == c && full(p.0, p.1).Some?
    ensures var log := LogWith(full, c, set p | p in known :: p.1);
            && KnowsLess(log, full) && FactsFor(log, c) != [] && !Absent(FactsFor(log, c))
            && forall n :: Eval(n, CtxOf(m, log, c)) == Eval(n, Only(FullCtx(m, full, c), known))
  {
    var keys := set p | p in known :: p.1;
    var log, names := LogWith(full, c, keys), SortedNames(keys);
    var p :| p in known;
    assert p.1 in keys && p.1 in names;
    forall d, k ensures ValueOf(log, d, k) == if (d, k) in known then full(d, k) else None {
      RecordedValue(full, c, names, k);
      if d == c && k in keys {
        var q :| q in known && q.1 == k;
        assert q == (d, k);
      }
    }
    assert forall i :: 0 <= i < |names| ==> names[i] in names;
    assert FactsFor(log, c)[0].value.Some? by {
      var q :| q in known && q.1 == names[0];
    }
    forall n { SameFacts(n, CtxOf(m, log, c), Only(FullCtx(m, full, c), known)); }
  }

  lemma {:induction false} SameFacts(n: Expr.Node, a: Ctx, b: Ctx)
    requires a.current == b.current && a.vars == b.vars && a.num == b.num && a.states == b.states
    requires forall c, k :: a.facts(c, k) == b.facts(c, k)
    ensures Eval(n, a) == Eval(n, b)
  {
    match n
    case And(l, r) => SameFacts(l, a, b); SameFacts(r, a, b);
    case Or(l, r) => SameFacts(l, a, b); SameFacts(r, a, b);
    case Cmp(_, _, _, _) =>
  }

  /** The predicate of the first state of that name. */
  function WhenOf(states: seq<StateDef>, state: string): Option<Expr.Node> {
    if states == [] then None else if states[0].name == state then states[0].when else WhenOf(states[1..], state)
  }

  lemma {:induction false} MatchedByWhen(m: Model, log: Log, c: string, states: seq<StateDef>, state: string)
    requires WhenOf(states, state).Some?
    ensures MatchedConsistent(m, log, c, states, state) <==>
            match EvalPredicate(m, log, c, WhenOf(states, state).value) case Decided(b) => b case Unresolved => true case Hard => false
  {
    if states[0].name != state { MatchedByWhen(m, log, c, states[1..], state); }
  }

  /** A state that holds in the world, of which it is not the default: some part of the facts drops it exactly when a
      part of them makes its predicate fail hard. (The predicate speaks of its own component and looks no fact up twice.) */
  lemma {:induction false} DroppedExactlyWhen(m: Model, full: World, c: string, state: string)
    requires c in m.components && m.components[c].resolved.Some?
    requires var t := m.components[c].resolved.value;
             (t.defaultState == "" || state != t.defaultState) && WhenOf(t.states, state).Some?
    requires var when, ctx := WhenOf(m.components[c].resolved.value.states, state).value, FullCtx(m, full, c);
             OwnWords(when, c) && ReadOnce(when, ctx) && NoClash(when, ctx) && Eval(when, ctx) == Decided(true)
    ensures (exists log :: KnowsLess(log, full) && !StepConsistent(m, log, c, state)) <==>
              CanFailHard(WhenOf(m.components[c].resolved.value.states, state).value, FullCtx(m, full, c))
  {
    hide Eval, CanFailHard, ReadOnce, NoClash, Only, KnowsLess, Absent, LogWith, MatchedConsistent, SortedNames;
    var states := m.components[c].resolved.value.states;
    var when, ctx := WhenOf(states, state).value, FullCtx(m, full, c);
    if CanFailHard(when, ctx) {
      var known := FailsHardOn(when, ctx);
      if known == {} { OnlyNone(when, ctx, known); }
      ReadsOwn(when, ctx);
      LogReads(m, full, c, known);
      var log := LogWith(full, c, set p | p in known :: p.1);
      MatchedByWhen(m, log, c, states, state);
      assert !StepConsistent(m, log, c, state);
    } else {
      forall log | KnowsLess(log, full) ensures StepConsistent(m, log, c, state) {
        MatchedByWhen(m, log, c, states, state);
        BelowFull(m, log, full, c);
        EvalMonotone(when, CtxOf(m, log, c), ctx);
        EvalNeverHard(when, CtxOf(m, log, c), ctx);
      }
    }
  }

  /** A chain that happened, dropped: its one state holds in the world, no group is in the way, and what has been read
      is true; but the part of its predicate read so far makes no sense, and stands to the left. The other way round
      it stays. */
  lemma {:induction false} TrueChainDropped(num: Numerals)
    ensures var senseless, late := Cmp("", "up", Lt, VBool(true)), Cmp("", "down", Eq, VBool(true));
            var full: World := (c, k) => if c == "c" && (k == "up" || k == "down") then Some(VBool(true)) else None;
            var log: Log := map["c" := [Fact("up", Some(VBool(true)), Normal)]];
            var s := Scenario(RootRef("c", "out"), [Step("c", "out", "", ["up", "down"])]);
            var wrong, right := OneState(Or(senseless, late), num), OneState(Or(late, senseless), num);
            && KnowsLess(log, full)
            && Eval(Or(senseless, late), FullCtx(wrong, full, "c")) == Decided(true)
            && !ScenarioLive(GraphLiveness(wrong, log), s)
            && TrueChain(right, full, s) && ScenarioLive(GraphLiveness(right, log), s)
  {
    var senseless, late := Cmp("", "up", Lt, VBool(true)), Cmp("", "down", Eq, VBool(true));
    var full: World := (c, k) => if c == "c" && (k == "up" || k == "down") then Some(VBool(true)) else None;
    var log: Log := map["c" := [Fact("up", Some(VBool(true)), Normal)]];
    var s := Scenario(RootRef("c", "out"), [Step("c", "out", "", ["up", "down"])]);
    var wrong, right := OneState(Or(senseless, late), num), OneState(Or(late, senseless), num);
    var list := FactsFor(log, "c");
    assert list[..0] == [] && list[0].value.Some?;
    assert ValueOf(log, "c", "up") == Some(VBool(true)) && ValueOf(log, "c", "down") == None;
    forall k ensures ValueOf(log, "c", k).Some? ==> k == "up" {
      assert LatestOf(list, k) == if k == "up" then Some(list[0]) else LatestOf(list[..0], k);
    }
    assert KnowsLess(log, full);
    assert Eval(Or(senseless, late), CtxOf(wrong, log, "c")) == Hard;
    assert !StepConsistent(wrong, log, "c", "out");
    assert !GraphLiveness(wrong, log).node(s.chain[0].component, s.chain[0].state);
    var when, ctx := Or(late, senseless), FullCtx(right, full, "c");
    assert Eval(late, ctx) == Decided(true) && !CanFailHard(late, ctx) && NoClash(late, ctx) && NoClash(senseless, ctx);
    assert Eval(when, ctx) == Decided(true) && !CanFailHard(when, ctx) && NoClash(when, ctx);
    assert TrueIn(right, full, "c", [StateDef("out", Some(when), [], Unmarked)], "out");
    assert TrueStep(right, full, "c", "out");
    TrueChainStaysLive(right, log, full, s);
  }

  /** A model of one component, in the state "out" when the predicate says so. */
  function OneState(when: Expr.Node, num: Numerals): Model {
    Model(map["c" := Models.Component.Component(Some(Type("t", ["up", "down"], [], [StateDef("out", Some(when), [], Unmarked)], "", map[])),
                               "p", [], [], false)],
          ["c"], (c, k) => Unset, num)
  }
}
