/** Models with their resolved types, and the health verdict shared by every strategy. */
module Models {
  import opened Ordering
  import opened Expr
  import opened Facts

  datatype Mark = Unmarked | MarkHealthy | MarkBroken

  datatype StateDef = StateDef(name: string, when: Option<Node>, triggeredBy: seq<string>, mark: Mark)

  /** A component's effective type. facts are the type's fact names, sorted. */
  datatype Type = Type(
    name: string,
    facts: seq<string>,
    healthy: seq<Node>,
    states: seq<StateDef>,
    defaultState: string,
    failureModes: map<string, seq<string>>)

  datatype Dependency = Dependency(on: seq<string>, need: int, guard: Option<Node>)

  /** add keeps the type's rules beside the component's own; otherwise its own replace them. */
  datatype Component = Component(
    resolved: Option<Type>,
    provider: string,
    depends: seq<Dependency>,
    healthy: seq<Node>,
    adds: bool)

  datatype Model = Model(
    components: map<string, Component>,
    order: seq<string>,
    vars: (string, string) -> VarValue,
    num: Numerals)

  /** c's effective healthy rules. */
  function HealthyRules(c: Component): seq<Node> {
    var typ := if c.resolved.Some? then c.resolved.value.healthy else [];
    if c.healthy == [] then typ
    else if c.adds then typ + c.healthy
    else c.healthy
  }

  function Lookup(log: Log): (string, string) -> Option<Value> {
    (c, k) => ValueOf(log, c, k)
  }

  /** The context predicates of component c are evaluated in: its facts, no derived states. */
  function CtxOf(m: Model, log: Log, c: string): Ctx {
    Ctx(c, Lookup(log), m.vars, map[], m.num)
  }

  function EvalPredicate(m: Model, log: Log, c: string, n: Node): Outcome {
    Eval(n, CtxOf(m, log, c))
  }

  datatype Verdict = Unknown | Healthy | Unhealthy

  /** The mark of the first state whose predicate holds in ctx. */
  function MarkIn(ctx: Ctx, states: seq<StateDef>): Mark {
    if states == [] then Unmarked
    else if states[0].when.Some? && Eval(states[0].when.value, ctx) == Decided(true) then states[0].mark
    else MarkIn(ctx, states[1..])
  }

  /** The same, in the context of what is known of c. */
  function StateMark(m: Model, log: Log, c: string, states: seq<StateDef>): Mark {
    MarkIn(CtxOf(m, log, c), states)
  }

  function TypeStates(c: Component): seq<StateDef> {
    if c.resolved.Some? then c.resolved.value.states else []
  }

  /** One rule decided false is enough for Unhealthy; Healthy takes every rule decided true. */
  function RulesVerdict(m: Model, log: Log, c: string, rules: seq<Node>): Verdict {
    if exists i :: 0 <= i < |rules| && EvalPredicate(m, log, c, rules[i]) == Decided(false) then Unhealthy
    else if forall i :: 0 <= i < |rules| ==> EvalPredicate(m, log, c, rules[i]) == Decided(true) then Healthy
    else Unknown
  }

  /** Unhealthy where nothing was found at all; else the deciding state's mark, else the rules', of which one false
      outweighs any number unread. */
  function VerdictOf(m: Model, log: Log, c: string): Verdict {
    if c !in m.components then Unknown
    else if Absent(FactsFor(log, c)) then Unhealthy
    else
      match StateMark(m, log, c, TypeStates(m.components[c]))
      case MarkBroken => Unhealthy
      case MarkHealthy => Healthy
      case Unmarked =>
        var rules := HealthyRules(m.components[c]);
        if rules == [] then (if Observed(FactsFor(log, c)) then Healthy else Unknown)
        else RulesVerdict(m, log, c, rules)
  }

  method ComponentVerdict(m: Model, store: Store, name: string) returns (v: Verdict)
    ensures v == VerdictOf(m, store.log, name)
  {
    if name !in m.components { return Unknown; }
    var comp := m.components[name];
    var absent := store.IsAbsent(name);
    if absent { return Unhealthy; }
    var mark := StateMark(m, store.log, name, TypeStates(comp));
    if !mark.Unmarked? { return if mark.MarkBroken? then Unhealthy else Healthy; }
    var rules := HealthyRules(comp);
    if |rules| == 0 {
      return if Observed(FactsFor(store.log, name)) then Healthy else Unknown;
    }
    v := Healthy;
    for i := 0 to |rules|
      invariant forall j :: 0 <= j < i ==> EvalPredicate(m, store.log, name, rules[j]) != Decided(false)
      invariant v == if forall j :: 0 <= j < i ==> EvalPredicate(m, store.log, name, rules[j]).Decided? then Healthy else Unknown
    {
      match EvalPredicate(m, store.log, name, rules[i]) {
        case Decided(b) => if !b { return Unhealthy; }
        case _ => v := Unknown;
      }
    }
  }

  // ---------------------------------------------------------------- redundancy groups

  function HealthyMembers(m: Model, log: Log, members: seq<string>): nat {
    if members == [] then 0
    else HealthyMembers(m, log, members[..|members| - 1]) +
         (if VerdictOf(m, log, members[|members| - 1]).Healthy? then 1 else 0)
  }

  /** dep is a redundancy group over child that still has enough members proven healthy. */
  predicate Holds(m: Model, log: Log, dep: Dependency, child: string) {
    dep.need > 0 && child in dep.on && HealthyMembers(m, log, dep.on) >= dep.need
  }

  predicate GroupSatisfied(m: Model, log: Log, parent: string, child: string) {
    parent in m.components &&
    exists i :: 0 <= i < |m.components[parent].depends| && Holds(m, log, m.components[parent].depends[i], child)
  }

  method SatisfiedGroup(m: Model, store: Store, parent: string, child: string) returns (held: bool)
    ensures held == GroupSatisfied(m, store.log, parent, child)
  {
    if parent !in m.components { return false; }
    var deps := m.components[parent].depends;
    for i := 0 to |deps|
      invariant forall j :: 0 <= j < i ==> !Holds(m, store.log, deps[j], child)
    {
      var dep := deps[i];
      if dep.need <= 0 || child !in dep.on { continue; }
      var healthy := 0;
      for j := 0 to |dep.on|
        invariant healthy == HealthyMembers(m, store.log, dep.on[..j])
      {
        assert dep.on[..j + 1][..j] == dep.on[..j];
        var v := ComponentVerdict(m, store, dep.on[j]);
        if v == Healthy { healthy := healthy + 1; }
      }
      assert dep.on[..|dep.on|] == dep.on;
      if healthy >= dep.need { return true; }
    }
    return false;
  }

  predicate DependsOn(c: Component, name: string) {
    exists i :: 0 <= i < |c.depends| && name in c.depends[i].on
  }

  /** Something depends on name, and whatever does is held up by one of its groups. */
  predicate Covered(m: Model, log: Log, name: string) {
    && (exists p :: p in m.order && p in m.components && DependsOn(m.components[p], name))
    && (forall p :: p in m.order && p in m.components && DependsOn(m.components[p], name) ==> GroupSatisfied(m, log, p, name))
  }

  method RedundancyCovered(m: Model, store: Store, name: string) returns (b: bool)
    ensures b == Covered(m, store.log, name)
  {
    var dependents := 0;
    for i := 0 to |m.order|
      invariant dependents >= 0
      invariant dependents > 0 <==> exists p :: p in m.order[..i] && p in m.components && DependsOn(m.components[p], name)
      invariant forall p :: p in m.order[..i] && p in m.components && DependsOn(m.components[p], name) ==>
                  GroupSatisfied(m, store.log, p, name)
    {
      var parent := m.order[i];
      assert m.order[..i + 1] == m.order[..i] + [parent];
      if parent !in m.components || !DependsOn(m.components[parent], name) { continue; }
      dependents := dependents + 1;
      var held := SatisfiedGroup(m, store, parent, name);
      if !held { return false; }
    }
    assert m.order[..|m.order|] == m.order;
    return dependents > 0;
  }

  /** Some clause of c names x. */
  ghost predicate NamedIn(c: Component, x: string) {
    exists i, j :: 0 <= i < |c.depends| && 0 <= j < |c.depends[i].on| && c.depends[i].on[j] == x
  }

  // ---------------------------------------------------------------- what a verdict says

  /** A component's predicates read the values of latest records, its model's vars and no derived state. */
  lemma CtxReads(m: Model, log: Log, c: string)
    ensures var ctx := CtxOf(m, log, c);
            && ctx.current == c && ctx.vars == m.vars && ctx.num == m.num && ctx.states == map[]
            && forall d, k, v :: ctx.facts(d, k) == Some(v) <==>
                 d in log && exists f :: IsLatest(log[d], k, f) && f.value == Some(v)
  {
    hide IsLatest;
    forall d, k, v ensures CtxOf(m, log, c).facts(d, k) == Some(v) <==>
                           d in log && exists f :: IsLatest(log[d], k, f) && f.value == Some(v)
    {
      LatestMeans(FactsFor(log, d), k);
      if d !in log { assert LatestOf([], k) == None; }
    }
  }

  /** Probed and not there: some record says not found, and no record holds a value. */
  ghost predicate SeenAbsent(log: Log, c: string) {
    c in log && (exists i :: 0 <= i < |log[c]| && log[c][i].status == NotFound) &&
    forall i :: 0 <= i < |log[c]| ==> log[c][i].value == None
  }

  /** states[i] is the first whose predicate holds. */
  ghost predicate FirstState(states: seq<StateDef>, ctx: Ctx, i: int) {
    && 0 <= i < |states| && states[i].when.Some? && Eval(states[i].when.value, ctx) == Decided(true)
    && forall j :: 0 <= j < i && states[j].when.Some? ==> Eval(states[j].when.value, ctx) != Decided(true)
  }

  /** r is a rule of c: its own rules hold for it, and its type's where it has none of its own or adds to them. */
  ghost predicate Effective(c: Component, r: Node) {
    r in c.healthy || (c.resolved.Some? && r in c.resolved.value.healthy && (c.healthy == [] || c.adds))
  }

  /** states[i] is the first of that name. */
  ghost predicate FirstOfName(states: seq<StateDef>, name: string, i: int) {
    0 <= i < |states| && states[i].name == name && forall j :: 0 <= j < i ==> states[j].name != name
  }

  /** Where the first state does not hold, the first that does is the first of the rest. */
  lemma FirstOfRest(states: seq<StateDef>, ctx: Ctx)
    requires states != [] && !(states[0].when.Some? && Eval(states[0].when.value, ctx) == Decided(true))
    ensures forall i :: FirstState(states, ctx, i) ==> i > 0 && FirstState(states[1..], ctx, i - 1)
    ensures forall i :: FirstState(states[1..], ctx, i) ==> FirstState(states, ctx, i + 1)
  {
    hide Eval;
    var rest := states[1..];
    assert forall i :: 0 <= i < |rest| ==> rest[i] == states[i + 1];
    forall i | FirstState(states, ctx, i) ensures i > 0 && FirstState(rest, ctx, i - 1) {
      forall j | 0 <= j < i - 1 && rest[j].when.Some? ensures Eval(rest[j].when.value, ctx) != Decided(true) {
        assert rest[j] == states[j + 1];
      }
    }
    forall i | FirstState(rest, ctx, i) ensures FirstState(states, ctx, i + 1) {
      forall j | 0 <= j < i + 1 && states[j].when.Some? ensures Eval(states[j].when.value, ctx) != Decided(true) {
        if j > 0 { assert rest[j - 1] == states[j]; }
      }
    }
  }

  lemma {:induction false} MarkMeans(ctx: Ctx, states: seq<StateDef>)
    ensures forall i :: FirstState(states, ctx, i) ==> MarkIn(ctx, states) == states[i].mark
    ensures (forall i :: !FirstState(states, ctx, i)) ==> MarkIn(ctx, states) == Unmarked
  {
    hide Eval;
    if states != [] {
      if states[0].when.Some? && Eval(states[0].when.value, ctx) == Decided(true) {
        assert FirstState(states, ctx, 0);
      } else {
        MarkMeans(ctx, states[1..]);
        FirstOfRest(states, ctx);
      }
    }
  }

  lemma RulesMean(c: Component)
    ensures forall r :: r in HealthyRules(c) <==> Effective(c, r)
  {}

  /** The first state that holds carries mark, or none holds and mark is no mark. */
  ghost predicate Marked(m: Model, log: Log, c: string, mark: Mark)
    requires c in m.components
  {
    var states, ctx := TypeStates(m.components[c]), CtxOf(m, log, c);
    if exists i :: FirstState(states, ctx, i) then exists i :: FirstState(states, ctx, i) && states[i].mark == mark else mark == Unmarked
  }

  /** A component is unhealthy when it was probed and is not there, when the first state that holds is marked broken, or
      when that state is unmarked, or none holds, and some rule of its is false, whatever the others are. It is healthy
      when it is not so absent and that state is marked healthy, or is unmarked and every rule is true -- and, where
      there is no rule, some value has been read. It is unknown otherwise. */
  lemma {:induction false} VerdictMeans(m: Model, log: Log, c: string)
    ensures VerdictOf(m, log, c) == Unhealthy <==>
              c in m.components &&
              (SeenAbsent(log, c) || Marked(m, log, c, MarkBroken) ||
               (Marked(m, log, c, Unmarked) && exists r :: Effective(m.components[c], r) && Eval(r, CtxOf(m, log, c)) == Decided(false)))
    ensures VerdictOf(m, log, c) == Healthy <==>
              c in m.components && !SeenAbsent(log, c) &&
              (Marked(m, log, c, MarkHealthy) ||
               (Marked(m, log, c, Unmarked) &&
                if exists r :: Effective(m.components[c], r)
                then forall r :: Effective(m.components[c], r) ==> Eval(r, CtxOf(m, log, c)) == Decided(true)
                else c in log && exists i :: 0 <= i < |log[c]| && log[c][i].value.Some?))
  {
    hide Eval, FirstState, Effective, HealthyRules;
    if c in m.components {
      var comp, ctx := m.components[c], CtxOf(m, log, c);
      var rules := HealthyRules(comp);
      MarkMeans(ctx, TypeStates(comp));
      RulesMean(comp);
      assert rules != [] ==> rules[0] in rules;
      forall i | 0 <= i < |rules| ensures Effective(comp, rules[i]) { assert rules[i] in rules; }
      if r :| Effective(comp, r) && Eval(r, ctx) == Decided(false) {
        var i :| 0 <= i < |rules| && rules[i] == r;
      }
    }
  }

  function ProvenHealthy(m: Model, log: Log): string -> bool {
    (c: string) => VerdictOf(m, log, c) == Healthy
  }

  lemma {:induction false} HealthyCounted(m: Model, log: Log, members: seq<string>)
    ensures HealthyMembers(m, log, members) == |Places(ProvenHealthy(m, log), members)|
  {
    hide VerdictOf, Places;
    CountPlaces(ProvenHealthy(m, log), members);
    HealthyCount(m, log, members);
  }

  lemma {:induction false} HealthyCount(m: Model, log: Log, members: seq<string>)
    ensures HealthyMembers(m, log, members) == CountIf(ProvenHealthy(m, log), members)
  {
    hide VerdictOf;
    if members != [] { HealthyCount(m, log, members[..|members| - 1]); }
  }

  /** dep is a redundancy group over child that asks for no more members than it has places taken by healthy ones. */
  ghost predicate HoldsUp(m: Model, log: Log, dep: Dependency, child: string) {
    dep.need > 0 && child in dep.on && |Places(ProvenHealthy(m, log), dep.on)| >= dep.need
  }

  /** parent is held up against child when some clause of its does so. */
  lemma {:induction false} GroupMeans(m: Model, log: Log, parent: string, child: string)
    ensures GroupSatisfied(m, log, parent, child) <==>
              parent in m.components &&
              exists i :: 0 <= i < |m.components[parent].depends| && HoldsUp(m, log, m.components[parent].depends[i], child)
  {
    hide VerdictOf, Places;
    if parent in m.components {
      forall i | 0 <= i < |m.components[parent].depends| { HealthyCounted(m, log, m.components[parent].depends[i].on); }
    }
  }

  /** A component is covered when some component of the order names it, and each that does holds up against it by a group. */
  lemma {:induction false} CoveredMeans(m: Model, log: Log, name: string)
    ensures Covered(m, log, name) <==>
              && (exists p :: p in m.order && p in m.components && NamedIn(m.components[p], name))
              && (forall p :: p in m.order && p in m.components && NamedIn(m.components[p], name) ==>
                    exists i :: 0 <= i < |m.components[p].depends| && HoldsUp(m, log, m.components[p].depends[i], name))
  {
    hide GroupSatisfied, HoldsUp;
    forall p { GroupMeans(m, log, p, name); }
    forall p | p in m.components ensures DependsOn(m.components[p], name) <==> NamedIn(m.components[p], name) {
      var c := m.components[p];
      if i :| 0 <= i < |c.depends| && name in c.depends[i].on {
        var j :| 0 <= j < |c.depends[i].on| && c.depends[i].on[j] == name;
      }
    }
  }

  // ---------------------------------------------------------------- what more or less knowledge does to a verdict

  /** log knows no value that full does not know the same way. */
  ghost predicate KnowsLess(log: Log, full: (string, string) -> Option<Value>) {
    forall c, k :: ValueOf(log, c, k).Some? ==> full(c, k) == ValueOf(log, c, k)
  }

  /** The context of c when everything in full is known. */
  function FullCtx(m: Model, full: (string, string) -> Option<Value>, c: string): Ctx {
    Ctx(c, full, m.vars, map[], m.num)
  }

  /** Marks that less knowledge cannot mislead: none says broken, and no unmarked state is read before one that
      says healthy. */
  predicate SafeMarks(marks: seq<Mark>) {
    && (forall i :: 0 <= i < |marks| ==> !marks[i].MarkBroken?)
    && (forall i, j :: 0 <= i < j < |marks| && marks[j].MarkHealthy? ==> marks[i].MarkHealthy?)
  }

  function MarksOf(states: seq<StateDef>): seq<Mark> {
    seq(|states|, i requires 0 <= i < |states| => states[i].mark)
  }

  /** No right-hand word of c's rules or states is both a var and a fact. */
  predicate ClearWords(m: Model, full: (string, string) -> Option<Value>, c: string) {
    c in m.components ==>
      var ctx := FullCtx(m, full, c);
      && (forall i :: 0 <= i < |HealthyRules(m.components[c])| ==> NoClash(HealthyRules(m.components[c])[i], ctx))
      && ClearStates(TypeStates(m.components[c]), ctx)
  }

  predicate ClearStates(states: seq<StateDef>, ctx: Ctx) {
    forall i :: 0 <= i < |states| && states[i].when.Some? ==> NoClash(states[i].when.value, ctx)
  }

  /** c's rules and states can only be read one way as more is learnt. */
  predicate Steady(m: Model, full: (string, string) -> Option<Value>, c: string) {
    ClearWords(m, full, c) && (c in m.components ==> SafeMarks(MarksOf(TypeStates(m.components[c]))))
  }

  /** The world's own verdict on c: a state marked healthy, or no marked state and every rule true. */
  predicate WellIn(m: Model, full: (string, string) -> Option<Value>, c: string) {
    c in m.components &&
    match MarkIn(FullCtx(m, full, c), TypeStates(m.components[c]))
    case MarkBroken => false
    case MarkHealthy => true
    case Unmarked => RulesHold(HealthyRules(m.components[c]), FullCtx(m, full, c))
  }

  predicate RulesHold(rules: seq<Node>, ctx: Ctx) {
    forall i :: 0 <= i < |rules| ==> Eval(rules[i], ctx) == Decided(true)
  }

  lemma {:induction false} NeverBroken(ctx: Ctx, states: seq<StateDef>)
    requires SafeMarks(MarksOf(states))
    ensures !MarkIn(ctx, states).MarkBroken?
  {
    if states != [] {
      SafeRest(states);
      NeverBroken(ctx, states[1..]);
      assert MarksOf(states)[0] == states[0].mark;
    }
  }

  lemma SafeRest(states: seq<StateDef>)
    requires states != [] && SafeMarks(MarksOf(states))
    ensures SafeMarks(MarksOf(states[1..]))
    ensures !states[0].mark.MarkHealthy? ==> forall i :: 0 <= i < |states| ==> states[i].mark.Unmarked?
  {
    var marks, rest := MarksOf(states), MarksOf(states[1..]);
    assert forall i :: 0 <= i < |rest| ==> rest[i] == marks[i + 1];
    assert marks[0] == states[0].mark;
    forall i | 0 <= i < |states| ensures !states[0].mark.MarkHealthy? ==> states[i].mark.Unmarked? {
      assert marks[i] == states[i].mark;
    }
  }

  lemma {:induction false} NoMarks(ctx: Ctx, states: seq<StateDef>)
    requires forall i :: 0 <= i < |states| ==> states[i].mark.Unmarked?
    ensures MarkIn(ctx, states).Unmarked?
  {
    if states != [] { NoMarks(ctx, states[1..]); }
  }

  /** With safe marks, what says healthy on some of the facts says so on all of them. */
  lemma {:induction false} HealthyMarkStays(ctx: Ctx, ctx': Ctx, states: seq<StateDef>)
    requires Below(ctx, ctx') && ClearStates(states, ctx') && SafeMarks(MarksOf(states))
    requires MarkIn(ctx, states).MarkHealthy?
    ensures MarkIn(ctx', states).MarkHealthy?
  {
    hide Eval, NoClash, Below;
    SafeRest(states);
    if !states[0].mark.MarkHealthy? { NoMarks(ctx, states); }
    var rest := states[1..];
    if states[0].when.Some? { EvalMonotone(states[0].when.value, ctx, ctx'); }
    if MarkIn(ctx, rest).MarkHealthy? {
      assert forall i :: 0 <= i < |rest| ==> rest[i] == states[i + 1];
      HealthyMarkStays(ctx, ctx', rest);
    }
  }

  lemma BelowFull(m: Model, log: Log, full: (string, string) -> Option<Value>, c: string)
    requires KnowsLess(log, full)
    ensures Below(CtxOf(m, log, c), FullCtx(m, full, c))
  {}

  lemma RulesStay(rules: seq<Node>, ctx: Ctx, ctx': Ctx)
    requires Below(ctx, ctx') && RulesHold(rules, ctx) && forall i :: 0 <= i < |rules| ==> NoClash(rules[i], ctx')
    ensures RulesHold(rules, ctx')
  {
    forall i | 0 <= i < |rules| ensures Eval(rules[i], ctx') == Decided(true) { EvalMonotone(rules[i], ctx, ctx'); }
  }

  /** What a verdict of Healthy says of the facts it was reached on. */
  lemma HealthyMeans(m: Model, log: Log, c: string)
    requires VerdictOf(m, log, c).Healthy?
    ensures c in m.components && !Absent(FactsFor(log, c))
    ensures var mark := MarkIn(CtxOf(m, log, c), TypeStates(m.components[c]));
            mark.MarkHealthy? || (mark.Unmarked? && RulesHold(HealthyRules(m.components[c]), CtxOf(m, log, c)))
  {}

  /** A component proven healthy by some of the facts is well on all of them, where its marks are safe. */
  lemma {:induction false} HealthyOnAllFacts(m: Model, log: Log, full: (string, string) -> Option<Value>, c: string)
    requires KnowsLess(log, full) && Steady(m, full, c) && VerdictOf(m, log, c).Healthy?
    ensures WellIn(m, full, c)
  {
    hide Eval, Below, NoClash, RulesHold, SafeMarks;
    BelowFull(m, log, full, c);
    HealthyMeans(m, log, c);
    var part, whole, states := CtxOf(m, log, c), FullCtx(m, full, c), TypeStates(m.components[c]);
    NeverBroken(whole, states);
    if MarkIn(part, states).MarkHealthy? {
      HealthyMarkStays(part, whole, states);
    } else {
      RulesStay(HealthyRules(m.components[c]), part, whole);
    }
  }

  /** f records that a fact could not be read. */
  predicate IsUnread(f: Fact) {
    f.value.None? && f.status in {Forbidden, Transient}
  }

  lemma {:induction false} UnreadKnowsLess(m: Model, log: Log, d: string, f: Fact, c: string)
    requires IsUnread(f)
    ensures KnowsLess(Appended(log, d, f), Lookup(log))
    ensures FullCtx(m, Lookup(log), c) == CtxOf(m, log, c)
    ensures !Absent(FactsFor(Appended(log, d, f), c)) ==> !Absent(FactsFor(log, c))
    ensures Observed(FactsFor(Appended(log, d, f), c)) ==> Observed(FactsFor(log, c))
  {
    var log' := Appended(log, d, f);
    forall c', k | ValueOf(log', c', k).Some? ensures ValueOf(log, c', k) == ValueOf(log', c', k) {
      AppendedLatest(log, d, f, c', k);
    }
    var list, list' := FactsFor(log, c), FactsFor(log', c);
    assert list' == if c == d then list + [f] else list;
    assert forall i :: 0 <= i < |list| ==> list'[i] == list[i];
    if Observed(list') {
      var i :| 0 <= i < |list'| && list'[i].value.Some?;
      assert list[i].value.Some?;
    }
  }

  /** Recording that a fact could not be read never clears a component whose marks are safe: what is Healthy
      afterwards was before. */
  lemma {:induction false} UnreadNeverClears(m: Model, log: Log, d: string, f: Fact, c: string)
    requires IsUnread(f) && Steady(m, Lookup(log), c)
    requires VerdictOf(m, Appended(log, d, f), c).Healthy?
    ensures VerdictOf(m, log, c).Healthy?
  {
    hide Eval, SafeMarks, ClearWords, Observed, Absent, MarkIn;
    var log' := Appended(log, d, f);
    UnreadKnowsLess(m, log, d, f, c);
    HealthyOnAllFacts(m, log', Lookup(log), c);
    HealthyMeans(m, log', c);
    var rules := HealthyRules(m.components[c]);
    var mark := MarkIn(CtxOf(m, log, c), TypeStates(m.components[c]));
    if mark.Unmarked? {
      UnmarkedBefore(m, log', Lookup(log), c);
      assert RulesHold(rules, CtxOf(m, log, c));
      forall i | 0 <= i < |rules| ensures EvalPredicate(m, log, c, rules[i]) == Decided(true) {}
      if rules != [] { assert RulesVerdict(m, log, c, rules).Healthy?; }
    }
  }

  /** Where all the facts show no marked state, some of them show none. */
  lemma {:induction false} UnmarkedBefore(m: Model, log: Log, full: (string, string) -> Option<Value>, c: string)
    requires KnowsLess(log, full) && Steady(m, full, c) && c in m.components
    requires MarkIn(FullCtx(m, full, c), TypeStates(m.components[c])).Unmarked?
    ensures MarkIn(CtxOf(m, log, c), TypeStates(m.components[c])).Unmarked?
  {
    hide Eval, SafeMarks;
    BelowFull(m, log, full, c);
    NeverBroken(CtxOf(m, log, c), TypeStates(m.components[c]));
    if MarkIn(CtxOf(m, log, c), TypeStates(m.components[c])).MarkHealthy? {
      HealthyMarkStays(CtxOf(m, log, c), FullCtx(m, full, c), TypeStates(m.components[c]));
    }
  }

  // ---------------------------------------------------------------- which marks an unread fact can slip past

  /** The predicate `k == true`. */
  function IsTrue(k: string): Node {
    Cmp("", k, Eq, VBool(true))
  }

  /** States with these marks: the i-th holds when `a` is true, the j-th when `b` is, the others when `z` is. */
  function StatesMarked(marks: seq<Mark>, i: int, j: int): seq<StateDef> {
    seq(|marks|, k requires 0 <= k < |marks| =>
      StateDef("s", Some(IsTrue(if k == i then "a" else if k == j then "b" else "z")), [], marks[k]))
  }

  /** One component with these states and the rule that `rule` is true. */
  function OneComponent(states: seq<StateDef>, rule: string, num: Numerals): Model {
    Model(map["c" := Component(Some(Type("t", ["a", "b", "d"], [IsTrue(rule)], states, "", map[])), "p", [], [], false)], ["c"],
          (c, k) => Unset, num)
  }

  /** `a` and `b` are true, `d` is false. */
  const ALL_READ: Log := map["c" := [Fact("a", Some(VBool(true)), Normal), Fact("b", Some(VBool(true)), Normal),
                                     Fact("d", Some(VBool(false)), Normal)]]

  const A_REFUSED: Fact := Fact("a", None, Forbidden)

  lemma ReadingAll()
    ensures ValueOf(ALL_READ, "c", "a") == Some(VBool(true)) && ValueOf(ALL_READ, "c", "b") == Some(VBool(true))
    ensures ValueOf(ALL_READ, "c", "d") == Some(VBool(false)) && ValueOf(ALL_READ, "c", "z") == None
    ensures !Absent(FactsFor(ALL_READ, "c"))
  {
    var a, b, d := Fact("a", Some(VBool(true)), Normal), Fact("b", Some(VBool(true)), Normal), Fact("d", Some(VBool(false)), Normal);
    var list := FactsFor(ALL_READ, "c");
    assert list == [a, b, d] && [a, b, d][..2] == [a, b] && [a, b][..1] == [a] && [a][..0] == [];
    assert list[0].value.Some?;
    assert LatestOf([a], "a") == Some(a) && LatestOf([a], "z") == None;
    assert LatestOf([a, b], "a") == Some(a) && LatestOf([a, b], "z") == None && LatestOf([a, b], "b") == Some(b);
  }

  lemma ReadingRest()
    ensures var log := Appended(ALL_READ, "c", A_REFUSED);
            && ValueOf(log, "c", "a") == None && ValueOf(log, "c", "b") == Some(VBool(true))
            && ValueOf(log, "c", "d") == Some(VBool(false)) && ValueOf(log, "c", "z") == None
            && !Absent(FactsFor(log, "c"))
  {
    ReadingAll();
    forall k { AppendedLatest(ALL_READ, "c", A_REFUSED, "c", k); }
    var list := FactsFor(Appended(ALL_READ, "c", A_REFUSED), "c");
    assert list[0] == FactsFor(ALL_READ, "c")[0];
  }

  /** Where `a` is true the first state that holds is the i-th, where it is not known the j-th, if there is one. */
  lemma {:induction false} MarkedBy(m: Model, log: Log, states: seq<StateDef>, marks: seq<Mark>, i: int, j: int, from: nat)
    requires states == StatesMarked(marks, i, j) && 0 <= i < |marks| && (j == -1 || i < j < |marks|) && from <= |marks|
    requires ValueOf(log, "c", "z") == None && ValueOf(log, "c", "b") == Some(VBool(true))
    ensures ValueOf(log, "c", "a") == Some(VBool(true)) && from <= i ==> StateMark(m, log, "c", states[from..]) == marks[i]
    ensures ValueOf(log, "c", "a") == None && from <= j ==> StateMark(m, log, "c", states[from..]) == marks[j]
    ensures ValueOf(log, "c", "a") == None && j == -1 ==> StateMark(m, log, "c", states[from..]).Unmarked?
    decreases |marks| - from
  {
    if from < |marks| {
      MarkedBy(m, log, states, marks, i, j, from + 1);
      assert states[from..][0] == states[from] && states[from..][1..] == states[from + 1..];
      hide StatesMarked;
      var ctx := CtxOf(m, log, "c");
      TruthOf(m, log, if from == i then "a" else if from == j then "b" else "z");
    }
  }

  lemma TruthOf(m: Model, log: Log, k: string)
    requires k != "state"
    ensures ValueOf(log, "c", k) == None ==> Eval(IsTrue(k), CtxOf(m, log, "c")) == Unresolved
    ensures forall b :: ValueOf(log, "c", k) == Some(VBool(b)) ==> Eval(IsTrue(k), CtxOf(m, log, "c")) == Decided(b)
  {}

  /** Recording f clears c: it was not Healthy and now is. */
  predicate Clears(m: Model, log: Log, d: string, f: Fact, c: string) {
    !VerdictOf(m, log, c).Healthy? && VerdictOf(m, Appended(log, d, f), c).Healthy?
  }

  lemma VerdictByRule(m: Model, log: Log, states: seq<StateDef>, rule: string)
    requires m == OneComponent(states, rule, m.num) && rule != "state" && !Absent(FactsFor(log, "c"))
    ensures var mark := StateMark(m, log, "c", states);
            && (mark.MarkBroken? ==> VerdictOf(m, log, "c").Unhealthy?)
            && (mark.MarkHealthy? ==> VerdictOf(m, log, "c").Healthy?)
            && (mark.Unmarked? && ValueOf(log, "c", rule) == Some(VBool(true)) ==> VerdictOf(m, log, "c").Healthy?)
            && (mark.Unmarked? && ValueOf(log, "c", rule) == Some(VBool(false)) ==> VerdictOf(m, log, "c").Unhealthy?)
  {
    TruthOf(m, log, rule);
    var rules := HealthyRules(m.components["c"]);
    assert rules == [IsTrue(rule)];
    if ValueOf(log, "c", rule) == Some(VBool(false)) {
      assert EvalPredicate(m, log, "c", rules[0]) == Decided(false);
    }
  }

  lemma ClearOne(marks: seq<Mark>, i: int, j: int, rule: string, num: Numerals)
    ensures ClearWords(OneComponent(StatesMarked(marks, i, j), rule, num), Lookup(ALL_READ), "c")
  {
    var states := StatesMarked(marks, i, j);
    var ctx := FullCtx(OneComponent(states, rule, num), Lookup(ALL_READ), "c");
    forall k | 0 <= k < |states| ensures states[k].when.Some? && NoClash(states[k].when.value, ctx) {
      assert states[k].when.value == IsTrue(if k == i then "a" else if k == j then "b" else "z");
    }
  }

  /** Every order of marks that is not safe lets a refused read clear a component. */
  lemma {:induction false} UnsafeMarksClear(marks: seq<Mark>, num: Numerals) returns (m: Model)
    requires !SafeMarks(marks)
    ensures "c" in m.components && MarksOf(TypeStates(m.components["c"])) == marks && ClearWords(m, Lookup(ALL_READ), "c")
    ensures m.num == num && Clears(m, ALL_READ, "c", A_REFUSED, "c")
  {
    hide MarkIn, VerdictOf, ValueOf, Absent, StateMark;
    ReadingAll();
    ReadingRest();
    var log' := Appended(ALL_READ, "c", A_REFUSED);
    var i, j, rule: string;
    if k :| 0 <= k < |marks| && marks[k].MarkBroken? {
      i, j, rule := k, -1, "b";
    } else {
      i, j :| 0 <= i < j < |marks| && marks[j].MarkHealthy? && !marks[i].MarkHealthy?;
      rule := "d";
    }
    var states := StatesMarked(marks, i, j);
    m := OneComponent(states, rule, num);
    assert MarksOf(states) == marks;
    ClearOne(marks, i, j, rule, num);
    assert states[0..] == states;
    MarkedBy(m, ALL_READ, states, marks, i, j, 0);
    MarkedBy(m, log', states, marks, i, j, 0);
    VerdictByRule(m, ALL_READ, states, rule);
    VerdictByRule(m, log', states, rule);
  }

  /** Some component whose states carry these marks, in this order, is cleared by a fact that could not be read. */
  ghost predicate CanClear(marks: seq<Mark>, num: Numerals) {
    exists m: Model, log: Log, d: string, f: Fact, c: string ::
      && c in m.components && m.num == num && MarksOf(TypeStates(m.components[c])) == marks && ClearWords(m, Lookup(log), c)
      && IsUnread(f) && Clears(m, log, d, f, c)
  }

  /** A fact that could not be read can clear a component exactly when the marks of its states, as declared, are not
      safe: one says broken, or an unmarked state comes before one that says healthy. */
  lemma {:induction false} MarksDecide(marks: seq<Mark>, num: Numerals)
    ensures CanClear(marks, num) <==> !SafeMarks(marks)
  {
    hide SafeMarks, VerdictOf, ClearWords;
    if CanClear(marks, num) && SafeMarks(marks) {
      var m: Model, log: Log, d: string, f: Fact, c: string :|
        && c in m.components && m.num == num && MarksOf(TypeStates(m.components[c])) == marks && ClearWords(m, Lookup(log), c)
        && IsUnread(f) && Clears(m, log, d, f, c);
      UnreadNeverClears(m, log, d, f, c);
      assert false;
    }
    if !SafeMarks(marks) {
      var m := UnsafeMarksClear(marks, num);
    }
  }

  /** A state of the model's own is always marked broken. One that holds makes its component Unhealthy; refused the
      fact it rests on, the rules are asked instead, and they call it Healthy. */
  lemma RefusalClears(num: Numerals)
    ensures var m := OneComponent([StateDef("s", Some(IsTrue("a")), [], MarkBroken)], "b", num);
            VerdictOf(m, ALL_READ, "c").Unhealthy? && VerdictOf(m, Appended(ALL_READ, "c", A_REFUSED), "c").Healthy?
  {
    hide MarkIn, VerdictOf, ValueOf, Absent, StateMark;
    var states := [StateDef("s", Some(IsTrue("a")), [], MarkBroken)];
    var m := OneComponent(states, "b", num);
    assert states == StatesMarked([MarkBroken], 0, -1) && states[0..] == states;
    ReadingAll();
    ReadingRest();
    MarkedBy(m, ALL_READ, states, [MarkBroken], 0, -1, 0);
    MarkedBy(m, Appended(ALL_READ, "c", A_REFUSED), states, [MarkBroken], 0, -1, 0);
    VerdictByRule(m, ALL_READ, states, "b");
    VerdictByRule(m, Appended(ALL_READ, "c", A_REFUSED), states, "b");
  }

  /** A state that carries a verdict is read first-decided-wins, and that is not monotone: with `broken`
      declared first but not read yet, a later state can call healthy what all the facts call broken. */
  lemma MarkedStatesAreNotMonotone(num: Numerals)
    ensures var t := Type("t", ["a", "b"], [],
                          [StateDef("broken", Some(Cmp("", "a", Eq, VBool(true))), [], MarkBroken),
                           StateDef("fine", Some(Cmp("", "b", Eq, VBool(true))), [], MarkHealthy)], "", map[]);
            var m := Model(map["c" := Component(Some(t), "p", [], [], false)], ["c"], (c, k) => Unset, num);
            var log: Log := map["c" := [Fact("b", Some(VBool(true)), Normal)]];
            var log' := Appended(log, "c", Fact("a", Some(VBool(true)), Normal));
            VerdictOf(m, log, "c").Healthy? && VerdictOf(m, log', "c").Unhealthy?
  {
    var broken, fine := Cmp("", "a", Eq, VBool(true)), Cmp("", "b", Eq, VBool(true));
    var states := [StateDef("broken", Some(broken), [], MarkBroken), StateDef("fine", Some(fine), [], MarkHealthy)];
    var m := Model(map["c" := Component(Some(Type("t", ["a", "b"], [], states, "", map[])), "p", [], [], false)], ["c"],
                   (c, k) => Unset, num);
    var log: Log := map["c" := [Fact("b", Some(VBool(true)), Normal)]];
    var log' := Appended(log, "c", Fact("a", Some(VBool(true)), Normal));
    var list := [Fact("b", Some(VBool(true)), Normal)];
    var list' := list + [Fact("a", Some(VBool(true)), Normal)];
    assert list'[..1] == list && list[..0] == [];
    assert list[0].value.Some? && list'[0].value.Some?;
    assert ValueOf(log, "c", "b") == Some(VBool(true)) && ValueOf(log, "c", "a") == None;
    assert ValueOf(log', "c", "a") == Some(VBool(true));
    assert EvalPredicate(m, log, "c", broken) == Unresolved && EvalPredicate(m, log, "c", fine) == Decided(true);
    assert EvalPredicate(m, log', "c", broken) == Decided(true);
    assert StateMark(m, log, "c", states) == StateMark(m, log, "c", states[1..]);
  }
}
