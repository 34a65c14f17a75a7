/** The one rule that names a root cause: candidates in play, less casualties, the most upstream first. */
module RootCauses {
  import opened Ordering
  import opened Expr
  import opened Facts
  import opened Models
  import opened Walks
  import DepGraph

  // ---------------------------------------------------------------- derived states and active guards

  function CtxWith(m: Model, log: Log, c: string, states: map<string, string>): Ctx {
    Ctx(c, Lookup(log), m.vars, states, m.num)
  }

  function StateHolding(m: Model, log: Log, c: string, states: map<string, string>, defs: seq<StateDef>): string {
    if defs == [] then "unknown"
    else if defs[0].when.Some? && Eval(defs[0].when.value, CtxWith(m, log, c, states)) == Decided(true) then defs[0].name
    else StateHolding(m, log, c, states, defs[1..])
  }

  function DerivedOne(m: Model, log: Log, c: string, states: map<string, string>): string {
    if c in m.components then StateHolding(m, log, c, states, TypeStates(m.components[c])) else "unknown"
  }

  /** Each component's state, one after the other, each seeing those before it. */
  function DerivedStates(m: Model, log: Log, names: seq<string>): map<string, string> {
    if names == [] then map[]
    else
      var before := DerivedStates(m, log, names[..|names| - 1]);
      var c := names[|names| - 1];
      before[c := DerivedOne(m, log, c, before)]
  }

  method Derive(m: Model, store: Store) returns (states: map<string, string>)
    ensures states == DerivedStates(m, store.log, m.order)
  {
    states := map[];
    for i := 0 to |m.order|
      invariant states == DerivedStates(m, store.log, m.order[..i])
    {
      assert m.order[..i + 1][..i] == m.order[..i];
      states := states[m.order[i] := DerivedOne(m, store.log, m.order[i], states)];
    }
    assert m.order[..|m.order|] == m.order;
  }

  /** The first state whose predicate holds; "unknown" when none does. */
  lemma {:induction false} FirstHolding(m: Model, log: Log, c: string, states: map<string, string>, defs: seq<StateDef>)
    ensures var s := StateHolding(m, log, c, states, defs);
            (exists i :: IsFirstHolding(m, log, c, states, defs, i) && s == defs[i].name) ||
            (s == "unknown" && forall i :: 0 <= i < |defs| ==> !HoldsNow(m, log, c, states, defs[i]))
  {
    hide Eval;
    if defs != [] {
      if HoldsNow(m, log, c, states, defs[0]) {
        assert IsFirstHolding(m, log, c, states, defs, 0);
      } else {
        FirstHolding(m, log, c, states, defs[1..]);
        if i :| IsFirstHolding(m, log, c, states, defs[1..], i) && StateHolding(m, log, c, states, defs) == defs[1..][i].name {
          assert forall j :: 0 < j < i + 1 ==> defs[j] == defs[1..][j - 1];
          assert IsFirstHolding(m, log, c, states, defs, i + 1);
        }
      }
    }
  }

  predicate HoldsNow(m: Model, log: Log, c: string, states: map<string, string>, def: StateDef) {
    def.when.Some? && Eval(def.when.value, CtxWith(m, log, c, states)) == Decided(true)
  }

  ghost predicate IsFirstHolding(m: Model, log: Log, c: string, states: map<string, string>, defs: seq<StateDef>, i: int) {
    0 <= i < |defs| && HoldsNow(m, log, c, states, defs[i]) && forall j :: 0 <= j < i ==> !HoldsNow(m, log, c, states, defs[j])
  }

  /** Every name listed has a state, and a component's is the first whose predicate holds when the facts are read with
      the states of the names before it, and theirs only. */
  lemma {:induction false} DerivedMeans(m: Model, log: Log, names: seq<string>, k: nat)
    requires k < |names| && names[k] in m.components && names[k] !in names[k + 1..]
    ensures DerivedStates(m, log, names).Keys == set x | x in names
    ensures DerivedStates(m, log, names[..k]).Keys == set x | x in names[..k]
    ensures var s, defs := DerivedStates(m, log, names)[names[k]], TypeStates(m.components[names[k]]);
            var before := DerivedStates(m, log, names[..k]);
            (exists i :: IsFirstHolding(m, log, names[k], before, defs, i) && s == defs[i].name) ||
            (s == "unknown" && forall i :: 0 <= i < |defs| ==> !HoldsNow(m, log, names[k], before, defs[i]))
  {
    hide StateHolding, HoldsNow, IsFirstHolding;
    DerivedKeys(m, log, names);
    DerivedKeys(m, log, names[..k]);
    DerivedAt(m, log, names, k);
    FirstHolding(m, log, names[k], DerivedStates(m, log, names[..k]), TypeStates(m.components[names[k]]));
  }

  lemma {:induction false} DerivedKeys(m: Model, log: Log, names: seq<string>)
    ensures DerivedStates(m, log, names).Keys == set x | x in names
  {
    hide DerivedOne;
    if names != [] {
      DerivedKeys(m, log, names[..|names| - 1]);
      assert names == names[..|names| - 1] + [names[|names| - 1]];
    }
  }

  lemma {:induction false} DerivedAt(m: Model, log: Log, names: seq<string>, k: nat)
    requires k < |names| && names[k] !in names[k + 1..]
    ensures names[k] in DerivedStates(m, log, names)
    ensures DerivedStates(m, log, names)[names[k]] == DerivedOne(m, log, names[k], DerivedStates(m, log, names[..k]))
    decreases |names|
  {
    hide DerivedOne;
    var init := names[..|names| - 1];
    if k < |init| {
      var last := names[|names| - 1];
      assert init[..k] == names[..k] && names[k + 1..] == init[k + 1..] + [last];
      assert last in names[k + 1..];
      DerivedAt(m, log, init, k);
    }
  }

  /** Only a guard that is decided false takes its edge out. */
  predicate GuardActive(m: Model, log: Log, c: string, states: map<string, string>, dep: Dependency) {
    dep.guard.Some? ==> Eval(dep.guard.value, CtxWith(m, log, c, states)) != Decided(false)
  }

  // ---------------------------------------------------------------- what is in play

  function TargetsOf(m: Model, log: Log, c: string, states: map<string, string>): Dependency -> seq<string> {
    (dep: Dependency) => if GuardActive(m, log, c, states, dep) then dep.on else []
  }

  function ActiveTargets(m: Model, log: Log, states: map<string, string>, c: string): seq<string> {
    if c in m.components then FlatMap(TargetsOf(m, log, c, states), m.components[c].depends) else []
  }

  function ActiveEdges(m: Model, log: Log, states: map<string, string>): Succ {
    (c: string) => ActiveTargets(m, log, states, c)
  }

  // ---------------------------------------------------------------- what a guard takes out

  /** The facts decide that dep's guard does not hold. */
  ghost predicate TakenOut(m: Model, log: Log, c: string, states: map<string, string>, dep: Dependency) {
    dep.guard.Some? && Eval(dep.guard.value, Ctx(c, Lookup(log), m.vars, states, m.num)) == Decided(false)
  }

  /** An active target is named by some clause that the facts do not take out; a guard that is open or makes no sense takes
      nothing out. */
  lemma TargetsMean(m: Model, log: Log, states: map<string, string>, c: string)
    ensures forall t :: t in ActiveTargets(m, log, states, c) <==>
              c in m.components && exists i :: 0 <= i < |m.components[c].depends| &&
                                               t in m.components[c].depends[i].on && !TakenOut(m, log, c, states, m.components[c].depends[i])
  {
    hide Eval;
    if c in m.components {
      var f, deps := TargetsOf(m, log, c, states), m.components[c].depends;
      forall t ensures t in FlatMap(f, deps) <==> exists i :: 0 <= i < |deps| && t in deps[i].on && !TakenOut(m, log, c, states, deps[i]) {
        FlatMapMeans(f, deps, t);
        if x :| x in deps && t in f(x) {
          var i :| 0 <= i < |deps| && deps[i] == x;
        }
        if i :| 0 <= i < |deps| && t in deps[i].on && !TakenOut(m, log, c, states, deps[i]) { assert deps[i] in deps && t in f(deps[i]); }
      }
    }
  }

  /** The comparison asks for a component's state. */
  function AsksState(): Node -> bool {
    (n: Node) => n.Cmp? && n.fact == "state"
  }

  /** Where no comparison of n does, the states there are make no difference to it. */
  lemma {:induction false} StatesAside(n: Node, ctx: Ctx, states: map<string, string>)
    requires !Somewhere(n, AsksState())
    ensures Eval(n, ctx.(states := states)) == Eval(n, ctx) && NoClash(n, ctx.(states := states)) == NoClash(n, ctx)
  {
    SomewhereMeans(n, AsksState());
    match n
    case And(l, r) => StatesAside(l, ctx, states); StatesAside(r, ctx, states);
    case Or(l, r) => StatesAside(l, ctx, states); StatesAside(r, ctx, states);
    case Cmp(_, _, _, _) =>
  }

  /** c's guards ask for facts only, and none of their right-hand words is both a var and a fact. */
  ghost predicate PlainGuards(m: Model, full: (string, string) -> Option<Value>, c: string) {
    c in m.components ==> forall i :: 0 <= i < |m.components[c].depends| && m.components[c].depends[i].guard.Some? ==>
      var n := m.components[c].depends[i].guard.value;
      !Somewhere(n, AsksState()) && NoClash(n, Ctx(c, full, m.vars, map[], m.num))
  }

  /** What is not known takes no dependency out: whatever of c's is active on all the facts is active on every part of
      them, whichever states are derived from either. */
  lemma {:induction false} TargetsKept(m: Model, log: Log, full: Log, states: map<string, string>, states': map<string, string>,
                                       c: string, t: string)
    requires KnowsLess(log, Lookup(full)) && PlainGuards(m, Lookup(full), c)
    requires t in ActiveTargets(m, full, states', c)
    ensures t in ActiveTargets(m, log, states, c)
  {
    hide Eval, NoClash, Somewhere, KnowsLess, ActiveTargets;
    TargetsMean(m, log, states, c);
    TargetsMean(m, full, states', c);
    var deps := m.components[c].depends;
    var i :| 0 <= i < |deps| && t in deps[i].on && !TakenOut(m, full, c, states', deps[i]);
    if deps[i].guard.Some? { GuardKept(m, log, full, states, states', c, deps[i]); }
  }

  lemma {:induction false} GuardKept(m: Model, log: Log, full: Log, states: map<string, string>, states': map<string, string>,
                                     c: string, dep: Dependency)
    requires KnowsLess(log, Lookup(full)) && dep.guard.Some? && !Somewhere(dep.guard.value, AsksState())
    requires NoClash(dep.guard.value, Ctx(c, Lookup(full), m.vars, map[], m.num))
    ensures TakenOut(m, log, c, states, dep) ==> TakenOut(m, full, c, states', dep)
  {
    hide Eval, NoClash, Somewhere;
    var n := dep.guard.value;
    var part, whole := Ctx(c, Lookup(log), m.vars, map[], m.num), Ctx(c, Lookup(full), m.vars, map[], m.num);
    assert Below(part, whole);
    StatesAside(n, part, states);
    StatesAside(n, whole, states');
    EvalMonotone(n, part, whole);
  }

  /** The states known make n false by themselves, nothing having been read. */
  ghost predicate FalseByStates(n: Node, c: string, states: map<string, string>, num: Numerals) {
    match n
    case And(l, r) => FalseByStates(l, c, states, num) || FalseByStates(r, c, states, num)
    case Or(l, r) => FalseByStates(l, c, states, num) && FalseByStates(r, c, states, num)
    case Cmp(d, fact, op, v) =>
      fact == "state" && (if d == "" then c else d) in states &&
      exists t :: Prints(num, v, t) && var s := states[if d == "" then c else d]; (op == Eq && s != t) || (op == Neq && s == t)
  }

  lemma {:induction false} UnreadGuard(n: Node, ctx: Ctx)
    requires forall c, k :: ctx.facts(c, k).None?
    ensures Eval(n, ctx) == Decided(false) <==> FalseByStates(n, ctx.current, ctx.states, ctx.num)
  {
    match n
    case And(l, r) => UnreadGuard(l, ctx); UnreadGuard(r, ctx);
    case Or(l, r) => UnreadGuard(l, ctx); UnreadGuard(r, ctx);
    case Cmp(d, fact, op, v) =>
      NothingRead(n, ctx);
      if fact == "state" && (if d == "" then ctx.current else d) in ctx.states {
        StatesCompare(n, ctx);
        if !v.VOther? { PrintsSome(ctx.num, v); }
      }
  }

  lemma PrintsSome(num: Numerals, v: Value)
    requires !v.VOther?
    ensures exists t :: Prints(num, v, t)
  {
    match v
    case VStr(s) => assert Prints(num, v, s);
    case VBool(b) => assert Prints(num, v, if b then "true" else "false");
    case VInt(i) => assert Prints(num, v, num.showInt(i));
    case VNum(r) => assert Prints(num, v, num.showNum(r));
  }

  /** With no value read, every declared dependency is active but those of which every clause has a guard that the states
      make false. */
  lemma {:induction false} UnreadTargets(m: Model, log: Log, states: map<string, string>, c: string, t: string)
    requires c in m.components && forall d, k :: ValueOf(log, d, k).None?
    ensures t in ActiveTargets(m, log, states, c) <==>
              exists i :: 0 <= i < |m.components[c].depends| && t in m.components[c].depends[i].on &&
                          (m.components[c].depends[i].guard.Some? ==> !FalseByStates(m.components[c].depends[i].guard.value, c, states, m.num))
  {
    hide Eval, ActiveTargets;
    TargetsMean(m, log, states, c);
    var deps := m.components[c].depends;
    forall i | 0 <= i < |deps| && deps[i].guard.Some?
      ensures TakenOut(m, log, c, states, deps[i]) <==> FalseByStates(deps[i].guard.value, c, states, m.num)
    {
      UnreadGuard(deps[i].guard.value, Ctx(c, Lookup(log), m.vars, states, m.num));
    }
  }

  /** On part of the facts the guard n of a clause of c takes it out, and on all of them it does not. */
  ghost predicate Drops(m: Model, log: Log, full: Log, c: string, n: Node) {
    var dep := Dependency([], 0, Some(n));
    && KnowsLess(log, Lookup(full))
    && TakenOut(m, log, c, DerivedStates(m, log, m.order), dep) && !TakenOut(m, full, c, DerivedStates(m, full, m.order), dep)
  }

  /** A model of component x in state `first` when its fact "a" is true, else in state `second` when "b" is. */
  function TwoStates(x: string, first: string, second: string, num: Numerals): Model {
    Model(map[x := Component(Some(Type("t", ["a", "b"], [], [StateDef(first, Some(IsTrue("a")), [], Unmarked),
                                                            StateDef(second, Some(IsTrue("b")), [], Unmarked)], "", map[])),
                             "p", [], [], false)],
          [x], (c, k) => Unset, num)
  }

  const A_TRUE: Fact := Fact("a", Some(VBool(true)), Normal)
  const B_TRUE: Fact := Fact("b", Some(VBool(true)), Normal)

  lemma {:induction false} TwoStatesRead(x: string, first: string, second: string, num: Numerals)
    ensures var m, log, full := TwoStates(x, first, second, num), map[x := [B_TRUE]], map[x := [B_TRUE, A_TRUE]];
            && KnowsLess(log, Lookup(full))
            && DerivedStates(m, log, m.order) == map[x := second] && DerivedStates(m, full, m.order) == map[x := first]
            && m.num == num
  {
    var m: Model, log: Log, full: Log := TwoStates(x, first, second, num), map[x := [B_TRUE]], map[x := [B_TRUE, A_TRUE]];
    assert [B_TRUE][..0] == [] && [B_TRUE, A_TRUE][..1] == [B_TRUE];
    assert FactsFor(log, x) == [B_TRUE] && FactsFor(full, x) == [B_TRUE, A_TRUE];
    assert LatestOf([B_TRUE], "a") == LatestOf([B_TRUE][..0], "a") == None;
    assert LatestOf([B_TRUE], "b") == Some(B_TRUE);
    assert ValueOf(log, x, "a") == None && ValueOf(log, x, "b") == Some(VBool(true));
    assert ValueOf(full, x, "a") == Some(VBool(true)) && ValueOf(full, x, "b") == Some(VBool(true));
    forall c, k | ValueOf(log, c, k).Some? ensures ValueOf(full, c, k) == ValueOf(log, c, k) {
      assert LatestOf([B_TRUE], k) == if k == "b" then Some(B_TRUE) else None;
    }
    var defs := m.components[x].resolved.value.states;
    assert m.order[..0] == [] && defs[1..][0] == defs[1];
    assert StateHolding(m, full, x, map[], defs) == first;
    assert StateHolding(m, log, x, map[], defs) == StateHolding(m, log, x, map[], defs[1..]) == second;
  }

  /** A guard that asks whether a component is in a state, or is not, takes its clause out for a fact nobody has read: of two
      states that hold the one declared first may not be known yet. */
  lemma {:induction false} StateGuardDrops(c: string, d: string, op: Op, v: Value, num: Numerals)
    requires (op == Eq || op == Neq) && !v.VOther?
    ensures exists m: Model, log: Log, full: Log :: m.num == num && Drops(m, log, full, c, Cmp(d, "state", op, v))
  {
    var x := if d == "" then c else d;
    PrintsSome(num, v);
    var t :| Prints(num, v, t);
    var other := t + "x";
    assert |other| > |t|;
    var first, second := if op == Eq then t else other, if op == Eq then other else t;
    var m: Model, log: Log, full: Log := TwoStates(x, first, second, num), map[x := [B_TRUE]], map[x := [B_TRUE, A_TRUE]];
    hide TwoStates, DerivedStates, KnowsLess, Eval, LatestOf;
    TwoStatesRead(x, first, second, num);
    var n := Cmp(d, "state", op, v);
    StatesCompare(n, Ctx(c, Lookup(log), m.vars, map[x := second], num));
    StatesCompare(n, Ctx(c, Lookup(full), m.vars, map[x := first], num));
    assert Drops(m, log, full, c, n);
  }

  /** For op, a number that zero does not compare with, and one that it does. */
  function Against(op: Op): (real, real) {
    match op
    case Eq => (1.0, 0.0)
    case Neq => (0.0, 1.0)
    case Lt => (0.0, 1.0)
    case Gt => (0.0, -1.0)
    case Lte => (-1.0, 0.0)
    case Gte => (1.0, 0.0)
  }

  /** So does one that compares a fact with a word: a var of that name speaks until the fact of that name is read. */
  lemma {:induction false} WordGuardDrops(c: string, n: Node, num: Numerals)
    requires n.Cmp? && n.fact != "state" && n.value.VStr? && n.value.s != n.fact && num.parse(n.value.s).None?
    ensures exists m: Model, log: Log, full: Log :: m.num == num && Drops(m, log, full, c, n)
  {
    var x, w := if n.component == "" then c else n.component, n.value.s;
    var (b, y) := Against(n.op);
    var left, right := Fact(n.fact, Some(VNum(0.0)), Normal), Fact(w, Some(VNum(y)), Normal);
    var m: Model, log: Log, full: Log := Model(map[], [], (d, k) => Number(b), num), map[x := [left]], map[x := [left, right]];
    assert [left][..0] == [] && [left, right][..1] == [left];
    assert FactsFor(log, x) == [left] && FactsFor(full, x) == [left, right];
    forall k ensures LatestOf([left], k) == if k == n.fact then Some(left) else None {}
    assert ValueOf(log, x, n.fact) == Some(VNum(0.0)) && ValueOf(log, x, w) == None;
    assert ValueOf(full, x, n.fact) == Some(VNum(0.0)) && ValueOf(full, x, w) == Some(VNum(y));
    assert KnowsLess(log, Lookup(full));
    hide DerivedStates, KnowsLess, Eval, LatestOf;
    WordsCompare(n, Ctx(c, Lookup(log), m.vars, DerivedStates(m, log, m.order), num), 0.0);
    WordsCompare(n, Ctx(c, Lookup(full), m.vars, DerivedStates(m, full, m.order), num), 0.0);
    assert Drops(m, log, full, c, n);
  }

  /** Of guards that are one comparison, those that can take their clause out for a fact nobody has read are exactly those that
      ask whether a state is one, or is not, and those with another word than the fact's own on the right that reads as no
      number. */
  lemma {:induction false} ComparisonGuards(c: string, n: Node, num: Numerals)
    requires n.Cmp?
    ensures (exists m: Model, log: Log, full: Log :: m.num == num && Drops(m, log, full, c, n)) <==>
              if n.fact == "state" then (n.op == Eq || n.op == Neq) && !n.value.VOther?
              else n.value.VStr? && n.value.s != n.fact && num.parse(n.value.s).None?
  {
    hide Eval, DerivedStates, KnowsLess, TakenOut;
    if n.fact == "state" && (n.op == Eq || n.op == Neq) && !n.value.VOther? {
      StateGuardDrops(c, n.component, n.op, n.value, num);
    }
    if n.fact != "state" && n.value.VStr? && n.value.s != n.fact && num.parse(n.value.s).None? {
      WordGuardDrops(c, n, num);
    }
    forall m: Model, log: Log, full: Log | m.num == num && Drops(m, log, full, c, n)
      ensures if n.fact == "state" then (n.op == Eq || n.op == Neq) && !n.value.VOther?
              else n.value.VStr? && n.value.s != n.fact && num.parse(n.value.s).None?
    {
      OnlyTheseDrop(m, log, full, c, n);
    }
  }

  lemma OnlyTheseDrop(m: Model, log: Log, full: Log, c: string, n: Node)
    requires n.Cmp? && Drops(m, log, full, c, n)
    ensures if n.fact == "state" then (n.op == Eq || n.op == Neq) && !n.value.VOther?
            else n.value.VStr? && n.value.s != n.fact && m.num.parse(n.value.s).None?
  {
    hide DerivedStates, KnowsLess;
    var states := DerivedStates(m, log, m.order);
    var ctx := Ctx(c, Lookup(log), m.vars, states, m.num);
    NothingRead(n, ctx);
    if n.fact == "state" {
      if (if n.component == "" then c else n.component) in states {
        StatesCompare(n, ctx);
        if !n.value.VOther? { PrintsSome(m.num, n.value); }
      }
    } else if !(n.value.VStr? && n.value.s != n.fact && m.num.parse(n.value.s).None?) {
      SettledByLeft(n, log, full, c, m, states, DerivedStates(m, full, m.order));
    }
  }

  /** With a literal on the right, or its own fact, a comparison looks up nothing more than its fact. */
  lemma SettledByLeft(n: Node, log: Log, full: Log, c: string, m: Model, states: map<string, string>, states': map<string, string>)
    requires n.Cmp? && n.fact != "state" && !(n.value.VStr? && n.value.s != n.fact && m.num.parse(n.value.s).None?)
    requires KnowsLess(log, Lookup(full))
    ensures var part, whole := Ctx(c, Lookup(log), m.vars, states, m.num), Ctx(c, Lookup(full), m.vars, states', m.num);
            Eval(n, part).Decided? ==> Eval(n, whole) == Eval(n, part)
  {
    hide ValueOf;
    var x := if n.component == "" then c else n.component;
    assert ValueOf(log, x, n.fact).Some? ==> ValueOf(full, x, n.fact) == ValueOf(log, x, n.fact);
  }

  function Unvisited(visited: set<string>): string -> bool {
    (t: string) => t !in visited
  }

  lemma FilterTake<T>(p: T -> bool, s: seq<T>, i: nat)
    requires i < |s|
    ensures Filter(p, s[..i + 1]) == if p(s[i]) then Filter(p, s[..i]) + [s[i]] else Filter(p, s[..i])
  {
    assert s[..i + 1][..i] == s[..i];
  }

  lemma {:induction false} FilterConcat<T>(p: T -> bool, a: seq<T>, b: seq<T>)
    ensures Filter(p, a + b) == Filter(p, a) + Filter(p, b)
  {
    if b == [] {
      assert a + b == a;
    } else {
      FilterConcat(p, a, b[..|b| - 1]);
      assert (a + b)[..|a + b| - 1] == a + b[..|b| - 1];
    }
  }

  lemma FilterNothing<T>(p: T -> bool)
    ensures Filter(p, []) == []
  {}

  method EnqueueTargets(queue: seq<string>, on: seq<string>, visited: set<string>) returns (longer: seq<string>)
    ensures longer == queue + Filter(Unvisited(visited), on)
  {
    longer := queue;
    assert on[..0] == [];
    for j := 0 to |on|
      invariant longer == queue + Filter(Unvisited(visited), on[..j])
    {
      hide Filter;
      FilterTake(Unvisited(visited), on, j);
      if on[j] !in visited { longer := longer + [on[j]]; }
    }
    assert on[..|on|] == on;
  }

  /** c's active targets that have not been visited yet, in order, repeats included. */
  method Enqueue(m: Model, store: Store, states: map<string, string>, c: string, visited: set<string>) returns (more: seq<string>)
    ensures more == Filter(Unvisited(visited), ActiveTargets(m, store.log, states, c))
  {
    hide GuardActive;
    more := [];
    if c !in m.components { return; }
    var deps := m.components[c].depends;
    ghost var f := TargetsOf(m, store.log, c, states);
    assert deps[..0] == [];
    for i := 0 to |deps|
      invariant more == Filter(Unvisited(visited), FlatMap(f, deps[..i]))
    {
      hide FlatMap, Filter;
      FlatMapUpTo(f, deps, i);
      FilterConcat(Unvisited(visited), FlatMap(f, deps[..i]), f(deps[i]));
      FilterNothing(Unvisited(visited));
      if !GuardActive(m, store.log, c, states, deps[i]) { continue; }
      more := EnqueueTargets(more, deps[i].on, visited);
    }
    assert deps[..|deps|] == deps;
  }

  /** Every name an edge of the model can lead to. */
  ghost function Mentioned(m: Model): set<string> {
    set c, i, t | c in m.components && 0 <= i < |m.components[c].depends| && t in m.components[c].depends[i].on :: t
  }

  lemma TargetsMentioned(m: Model, log: Log, states: map<string, string>, c: string)
    ensures forall t :: t in ActiveTargets(m, log, states, c) ==> t in Mentioned(m)
  {
    forall t | t in ActiveTargets(m, log, states, c) ensures t in Mentioned(m) {
      var f := TargetsOf(m, log, c, states);
      FlatMapMeans(f, m.components[c].depends, t);
      var dep :| dep in m.components[c].depends && t in f(dep);
      var i :| 0 <= i < |m.components[c].depends| && m.components[c].depends[i] == dep;
    }
  }

  /** out lists, once each and in breadth-first order, what the entry reaches over active edges. */
  ghost predicate ListsReached(next: Succ, entry: string, out: seq<string>) {
    && NoDup(out) && out != [] && out[0] == entry
    && (forall x :: x in out <==> Reaches(next, entry, x))
    && BreadthFirst(next, entry, out)
  }

  /** What has been visited and what waits are reached, and nothing else follows from what has been visited. */
  ghost predicate Exploring(next: Succ, entry: string, universe: set<string>, visited: set<string>, queue: seq<string>) {
    && visited <= universe
    && (forall x :: x in visited || x in queue ==> x in universe && Reaches(next, entry, x))
    && (forall x, y :: x in visited && y in next(x) ==> y in visited || y in queue)
  }

  /** out is looked at, and out with what waits in the queue is all that has been found so far. */
  ghost predicate InOrderSoFar(next: Succ, entry: string, out: seq<string>, queue: seq<string>) {
    Discover(out, queue) == FoundAfter(next, entry, |out|)
  }

  lemma OrderSkip(next: Succ, entry: string, out: seq<string>, queue: seq<string>)
    requires queue != [] && InOrderSoFar(next, entry, out, queue) && queue[0] in out
    ensures InOrderSoFar(next, entry, out, queue[1..])
  {}

  lemma OrderNext(next: Succ, entry: string, out: seq<string>, queue: seq<string>, p: string -> bool)
    requires queue != [] && InOrderSoFar(next, entry, out, queue) && queue[0] !in out
    requires forall t :: !p(t) ==> t in out + [queue[0]]
    ensures InOrderSoFar(next, entry, out + [queue[0]], queue[1..] + Filter(p, next(queue[0])))
  {
    var c, out' := queue[0], out + [queue[0]];
    var found := FoundAfter(next, entry, |out|);
    assert found == Discover(out', queue[1..]);
    assert FoundAfter(next, entry, |out'|) == if |out| < |found| then Discover(found, next(found[|out|])) else found;
    hide Filter, FoundAfter, Discover;
    DiscoverKeeps(out', queue[1..]);
    assert found[|out|] == c;
    DiscoverAppend(out', queue[1..], Filter(p, next(c)));
    DiscoverRest(found, p, next(c));
  }

  lemma ExploreNext(next: Succ, entry: string, universe: set<string>, visited: set<string>, queue: seq<string>, more: seq<string>)
    requires queue != [] && Exploring(next, entry, universe, visited, queue)
    requires forall t :: t in next(queue[0]) ==> t in universe
    requires more == Filter(Unvisited(visited + {queue[0]}), next(queue[0]))
    ensures Exploring(next, entry, universe, visited + {queue[0]}, queue[1..] + more)
  {
    var c := queue[0];
    assert queue == [c] + queue[1..];
    FilterMeans(Unvisited(visited + {c}), next(c));
    forall t | t in more ensures t in universe && Reaches(next, entry, t) { ReachesOn(next, entry, c, t); }
  }

  lemma ExploreSkip(next: Succ, entry: string, universe: set<string>, visited: set<string>, queue: seq<string>)
    requires queue != [] && Exploring(next, entry, universe, visited, queue) && queue[0] in visited
    ensures Exploring(next, entry, universe, visited, queue[1..])
  {
    assert queue == [queue[0]] + queue[1..];
  }

  lemma Explored(next: Succ, entry: string, universe: set<string>, visited: set<string>)
    requires Exploring(next, entry, universe, visited, []) && entry in visited
    ensures forall x :: x in visited <==> Reaches(next, entry, x)
  {
    ReachedInside(next, visited, entry);
  }

  /** The breadth-first walk: marked when taken off the queue, so a name may wait on it more than once. */
  method BfsWalk(m: Model, store: Store, entry: string) returns (out: seq<string>)
    ensures ListsReached(ActiveEdges(m, store.log, DerivedStates(m, store.log, m.order)), entry, out)
  {
    hide Exploring, ActiveTargets, DerivedStates, Filter, Reaches, Mentioned, Discover, InOrderSoFar;
    var states := Derive(m, store);
    ghost var next := ActiveEdges(m, store.log, states);
    ghost var universe := Mentioned(m) + {entry};
    var visited: set<string> := {};
    var queue := [entry];
    out := [];
    ExploreFirst(next, entry, universe);
    OrderFirst(next, entry);
    while |queue| > 0
      invariant NoDup(out) && forall x :: x in out <==> x in visited
      invariant visited <= universe && Exploring(next, entry, universe, visited, queue)
      invariant InOrderSoFar(next, entry, out, queue)
      invariant if out == [] then queue == [entry] else out[0] == entry
      decreases universe - visited, |queue|
    {
      var c := queue[0];
      ghost var was := queue;
      queue := queue[1..];
      if c in visited {
        ExploreSkip(next, entry, universe, visited, was);
        OrderSkip(next, entry, out, was);
        continue;
      }
      ghost var before := visited;
      visited := visited + {c};
      out := out + [c];
      var more := Enqueue(m, store, states, c, visited);
      OrderNext(next, entry, out[..|out| - 1], was, Unvisited(visited));
      assert out[..|out| - 1] + [c] == out;
      TargetsMentioned(m, store.log, states, c);
      ExploreNext(next, entry, universe, before, was, more);
      ExploringInside(next, entry, universe, visited, queue + more);
      queue := queue + more;
    }
    assert queue == [] && entry in out;
    Explored(next, entry, universe, visited);
    OrderLast(next, entry, out);
  }

  lemma OrderFirst(next: Succ, entry: string)
    ensures InOrderSoFar(next, entry, [], [entry])
  {
    DiscoverOne([], entry);
  }

  lemma OrderLast(next: Succ, entry: string, out: seq<string>)
    requires InOrderSoFar(next, entry, out, [])
    ensures BreadthFirst(next, entry, out)
  {}

  lemma ExploringInside(next: Succ, entry: string, universe: set<string>, visited: set<string>, queue: seq<string>)
    requires Exploring(next, entry, universe, visited, queue)
    ensures visited <= universe
  {}

  lemma ExploreFirst(next: Succ, entry: string, universe: set<string>)
    requires entry in universe
    ensures Exploring(next, entry, universe, {}, [entry])
  {
    ReachesSelf(next, entry);
  }

  ghost function InPlay(m: Model, log: Log, entry: string): set<string> {
    set x | x in Mentioned(m) + {entry} && Reaches(ActiveEdges(m, log, DerivedStates(m, log, m.order)), entry, x)
  }

  lemma InPlayIsReached(m: Model, log: Log, entry: string, out: seq<string>)
    requires ListsReached(ActiveEdges(m, log, DerivedStates(m, log, m.order)), entry, out)
    ensures forall x :: x in out <==> x in InPlay(m, log, entry)
  {
    var next := ActiveEdges(m, log, DerivedStates(m, log, m.order));
    var s := Mentioned(m) + {entry};
    forall x, y | x in s && y in next(x) ensures y in s { TargetsMentioned(m, log, DerivedStates(m, log, m.order), x); }
    ReachedInside(next, s, entry);
  }

  // ---------------------------------------------------------------- candidates and what can pass between them

  predicate Candidate(m: Model, log: Log, c: string) {
    VerdictOf(m, log, c).Unhealthy? && !Covered(m, log, c)
  }

  ghost function Candidates(m: Model, log: Log, entry: string): set<string> {
    set x | x in InPlay(m, log, entry) && Candidate(m, log, x)
  }

  function LetsThrough(m: Model, log: Log, inPlay: set<string>, c: string): string -> bool {
    (t: string) => !GroupSatisfied(m, log, c, t) && t in inPlay
  }

  /** The dependencies whose failure can reach their dependent: in play, edge active, no group holding. */
  function Passing(m: Model, log: Log, states: map<string, string>, inPlay: set<string>): Succ {
    (c: string) => Filter(LetsThrough(m, log, inPlay, c), ActiveTargets(m, log, states, c))
  }

  lemma PassesInPlay(m: Model, log: Log, states: map<string, string>, inPlay: set<string>, c: string)
    ensures forall t :: t in Passing(m, log, states, inPlay)(c) ==> t in inPlay && t in ActiveTargets(m, log, states, c)
  {
    FilterMeans(LetsThrough(m, log, inPlay, c), ActiveTargets(m, log, states, c));
  }

  method AddPassing(m: Model, store: Store, inPlay: set<string>, c: string, before: seq<string>, on: seq<string>)
    returns (out: seq<string>)
    ensures out == before + Filter(LetsThrough(m, store.log, inPlay, c), on)
  {
    out := before;
    assert on[..0] == [];
    for j := 0 to |on|
      invariant out == before + Filter(LetsThrough(m, store.log, inPlay, c), on[..j])
    {
      hide Filter, GroupSatisfied;
      FilterTake(LetsThrough(m, store.log, inPlay, c), on, j);
      var held := SatisfiedGroup(m, store, c, on[j]);
      if held || on[j] !in inPlay { continue; }
      out := out + [on[j]];
    }
    assert on[..|on|] == on;
  }

  method ActiveDeps(m: Model, store: Store, states: map<string, string>, inPlay: set<string>, c: string) returns (out: seq<string>)
    ensures out == Passing(m, store.log, states, inPlay)(c)
  {
    hide GroupSatisfied, GuardActive;
    out := [];
    if c !in m.components { return; }
    var deps := m.components[c].depends;
    ghost var f, p := TargetsOf(m, store.log, c, states), LetsThrough(m, store.log, inPlay, c);
    assert deps[..0] == [];
    for i := 0 to |deps|
      invariant out == Filter(p, FlatMap(f, deps[..i]))
    {
      hide FlatMap, Filter;
      FlatMapUpTo(f, deps, i);
      FilterConcat(p, FlatMap(f, deps[..i]), f(deps[i]));
      FilterNothing(p);
      if !GuardActive(m, store.log, c, states, deps[i]) { continue; }
      out := AddPassing(m, store, inPlay, c, out, deps[i].on);
    }
    assert deps[..|deps|] == deps;
  }

  /** Verdicts worked out once per decision. */
  class Verdicts {
    const m: Model
    const store: Store
    ghost const log: Log
    var memo: map<string, Verdict>

    constructor (m: Model, store: Store)
      ensures Valid() && this.m == m && this.store == store && log == store.log
    {
      this.m, this.store, log, memo := m, store, store.log, map[];
    }

    ghost predicate Valid()
      reads this
    {
      forall c :: c in memo ==> memo[c] == VerdictOf(m, log, c)
    }

    method Of(c: string) returns (v: Verdict)
      requires Valid() && store.log == log
      modifies this`memo
      ensures Valid() && v == VerdictOf(m, log, c)
    {
      if c in memo { return memo[c]; }
      v := ComponentVerdict(m, store, c);
      memo := memo[c := v];
    }
  }

  // ---------------------------------------------------------------- casualties

  /** w leads from x to another candidate through nothing proven healthy. */
  ghost predicate Blames(next: Succ, candidates: set<string>, healthy: string -> bool, x: string, w: seq<string>) {
    && IsWalk(next, w) && |w| >= 2 && w[0] == x && w[|w| - 1] in candidates && w[|w| - 1] != x
    && forall i :: 0 < i < |w| - 1 ==> !healthy(w[i])
  }

  /** Some walk blames another candidate for x. */
  ghost predicate IsCasualty(next: Succ, candidates: set<string>, healthy: string -> bool, x: string) {
    exists w :: Blames(next, candidates, healthy, x, w)
  }

  /** w leads from x to y through nothing proven healthy. */
  ghost predicate Leads(next: Succ, healthy: string -> bool, x: string, y: string, w: seq<string>) {
    WalkFromTo(next, w, x, y) && |w| >= 2 && forall i :: 0 < i < |w| - 1 ==> !healthy(w[i])
  }

  ghost predicate Led(next: Succ, healthy: string -> bool, x: string, y: string) {
    exists w :: Leads(next, healthy, x, y, w)
  }

  lemma LedFirst(next: Succ, healthy: string -> bool, x: string, t: string)
    requires t in next(x)
    ensures Led(next, healthy, x, t)
  {
    assert Leads(next, healthy, x, t, [x, t]);
  }

  lemma LedOn(next: Succ, healthy: string -> bool, x: string, y: string, t: string)
    requires Led(next, healthy, x, y) && !healthy(y) && t in next(y)
    ensures Led(next, healthy, x, t)
  {
    var w :| Leads(next, healthy, x, y, w);
    WalkOn(next, w, x, y, t);
    assert Leads(next, healthy, x, t, w + [t]);
  }

  /** What a search that ran dry has seen leaves no one to blame. */
  lemma NobodyToBlame(next: Succ, candidates: set<string>, healthy: string -> bool, x: string, seen: set<string>)
    requires x in seen
    requires forall t :: t in next(x) ==> t in seen
    requires forall y, t :: y in seen && y != x && !healthy(y) && t in next(y) ==> t in seen
    requires forall y :: y in seen && y != x ==> y !in candidates
    ensures !IsCasualty(next, candidates, healthy, x)
  {
    if w :| Blames(next, candidates, healthy, x, w) {
      var i := 0;
      while i < |w| - 1
        invariant 0 <= i < |w| && w[i] in seen
      {
        assert w[i + 1] in next(w[i]);
        i := i + 1;
      }
      assert false;
    }
  }

  function HealthyIn(m: Model, log: Log): string -> bool {
    (c: string) => VerdictOf(m, log, c).Healthy?
  }

  /** The depth-first search with its explicit stack. */
  method Casualty(verdicts: Verdicts, states: map<string, string>, inPlay: set<string>, candidates: set<string>, x: string)
    returns (b: bool)
    requires verdicts.Valid() && verdicts.store.log == verdicts.log
    modifies verdicts`memo
    ensures verdicts.Valid()
    ensures b == IsCasualty(Passing(verdicts.m, verdicts.log, states, inPlay), candidates, HealthyIn(verdicts.m, verdicts.log), x)
  {
    hide Passing, ActiveTargets, VerdictOf, IsCasualty, Led, Leads;
    ghost var next, healthy := Passing(verdicts.m, verdicts.log, states, inPlay), HealthyIn(verdicts.m, verdicts.log);
    var seen := {x};
    var stack := ActiveDeps(verdicts.m, verdicts.store, states, inPlay, x);
    PassesInPlay(verdicts.m, verdicts.log, states, inPlay, x);
    forall t | t in stack ensures Led(next, healthy, x, t) { LedFirst(next, healthy, x, t); }
    while |stack| > 0
      invariant verdicts.Valid()
      invariant x in seen && seen <= inPlay + {x}
      invariant forall t :: t in stack ==> t in inPlay && Led(next, healthy, x, t)
      invariant forall t :: t in next(x) ==> t in seen || t in stack
      invariant forall y, t :: y in seen && y != x && !healthy(y) && t in next(y) ==> t in seen || t in stack
      invariant forall y :: y in seen && y != x ==> y !in candidates
      decreases inPlay + {x} - seen, |stack|
    {
      ghost var was := stack;
      var y := stack[|stack| - 1];
      stack := stack[..|stack| - 1];
      assert was == stack + [y];
      if y in seen { continue; }
      seen := seen + {y};
      if y in candidates {
        LedBlames(next, candidates, healthy, x, y);
        return true;
      }
      var v := verdicts.Of(y);
      if v.Healthy? { continue; }
      var more := ActiveDeps(verdicts.m, verdicts.store, states, inPlay, y);
      PassesInPlay(verdicts.m, verdicts.log, states, inPlay, y);
      forall t | t in more ensures Led(next, healthy, x, t) { LedOn(next, healthy, x, y, t); }
      stack := stack + more;
    }
    NobodyToBlame(next, candidates, healthy, x, seen);
    return false;
  }

  lemma LedBlames(next: Succ, candidates: set<string>, healthy: string -> bool, x: string, y: string)
    requires Led(next, healthy, x, y) && y in candidates && y != x
    ensures IsCasualty(next, candidates, healthy, x)
  {
    var w :| Leads(next, healthy, x, y, w);
    assert Blames(next, candidates, healthy, x, w);
  }

  // ---------------------------------------------------------------- depths

  ghost predicate WalkOfDepth(next: Succ, entry: string, n: string, d: nat) {
    exists w :: WalkFromTo(next, w, entry, n) && |w| == d + 1
  }

  /** The longest walk from the entry to n has d edges; none leads there and d is 0. */
  ghost predicate HasDepth(next: Succ, entry: string, n: string, d: nat) {
    if Reaches(next, entry, n) then
      WalkOfDepth(next, entry, n, d) && forall w :: WalkFromTo(next, w, entry, n) ==> |w| <= d + 1
    else d == 0
  }

  function DepthAt(depth: map<string, nat>, n: string): nat {
    if n in depth then depth[n] else 0
  }

  /** Every depth noted is that of some walk, and within the bound. */
  ghost predicate Grounded(next: Succ, entry: string, bound: nat, depth: map<string, nat>) {
    && entry in depth
    && forall n :: n in depth ==> depth[n] <= bound && WalkOfDepth(next, entry, n, depth[n])
  }

  predicate EdgeSettled(depth: map<string, nat>, bound: nat, n: string, t: string) {
    n in depth ==> depth[n] + 1 > bound || (t in depth && depth[n] + 1 <= depth[t])
  }

  ghost predicate Settled(next: Succ, bound: nat, depth: map<string, nat>) {
    forall n, t :: n in depth && t in next(n) ==> EdgeSettled(depth, bound, n, t)
  }

  /** How far the depths can still rise. */
  ghost function Slack(names: seq<string>, bound: nat, depth: map<string, nat>): nat {
    if names == [] then 0
    else
      var n := names[|names| - 1];
      Slack(names[..|names| - 1], bound, depth) +
      (if n !in depth then bound + 1 else if depth[n] <= bound then bound - depth[n] else 0)
  }

  lemma {:induction false} SlackDrops(names: seq<string>, bound: nat, depth: map<string, nat>, t: string, d: nat)
    requires d <= bound && (t in depth ==> depth[t] < d)
    ensures Slack(names, bound, depth[t := d]) <= Slack(names, bound, depth)
    ensures t in names ==> Slack(names, bound, depth[t := d]) < Slack(names, bound, depth)
  {
    if names != [] {
      SlackDrops(names[..|names| - 1], bound, depth, t, d);
      assert names == names[..|names| - 1] + [names[|names| - 1]];
    }
  }

  lemma DeeperWalk(next: Succ, entry: string, n: string, d: nat, t: string)
    requires WalkOfDepth(next, entry, n, d) && t in next(n)
    ensures WalkOfDepth(next, entry, t, d + 1)
  {
    var w :| WalkFromTo(next, w, entry, n) && |w| == d + 1;
    WalkOn(next, w, entry, n, t);
    assert |w + [t]| == d + 2;
  }

  /** One pass over what is in play, raising depths along active edges. */
  method Deepen(m: Model, store: Store, states: map<string, string>, inPlay: set<string>, reachable: seq<string>, entry: string,
                depth0: map<string, nat>) returns (depth: map<string, nat>, changed: bool)
    requires forall x :: x in reachable <==> x in inPlay
    requires Grounded(Passing(m, store.log, states, inPlay), entry, |reachable|, depth0) && depth0.Keys <= inPlay
    ensures Grounded(Passing(m, store.log, states, inPlay), entry, |reachable|, depth) && depth.Keys <= inPlay
    ensures changed ==> Slack(reachable, |reachable|, depth) < Slack(reachable, |reachable|, depth0)
    ensures !changed ==> depth == depth0 && Settled(Passing(m, store.log, states, inPlay), |reachable|, depth)
  {
    hide Passing, Slack, WalkOfDepth;
    ghost var next := Passing(m, store.log, states, inPlay);
    depth, changed := depth0, false;
    for i := 0 to |reachable|
      invariant Grounded(next, entry, |reachable|, depth) && depth.Keys <= inPlay
      invariant changed ==> Slack(reachable, |reachable|, depth) < Slack(reachable, |reachable|, depth0)
      invariant !changed ==> depth == depth0
      invariant !changed ==> forall j, t :: 0 <= j < i && t in next(reachable[j]) ==> EdgeSettled(depth, |reachable|, reachable[j], t)
    {
      var n := reachable[i];
      if n !in depth { continue; }
      var d := depth[n];
      var ts := ActiveDeps(m, store, states, inPlay, n);
      PassesInPlay(m, store.log, states, inPlay, n);
      for k := 0 to |ts|
        invariant Grounded(next, entry, |reachable|, depth) && depth.Keys <= inPlay
        invariant changed ==> Slack(reachable, |reachable|, depth) < Slack(reachable, |reachable|, depth0)
        invariant !changed ==> depth == depth0
        invariant !changed ==> forall j, t :: 0 <= j < i && t in next(reachable[j]) ==> EdgeSettled(depth, |reachable|, reachable[j], t)
        invariant !changed ==> n in depth && depth[n] == d
        invariant !changed ==> forall j :: 0 <= j < k ==> EdgeSettled(depth, |reachable|, n, ts[j])
      {
        var t := ts[k];
        if t !in depth || d + 1 > depth[t] {
          if d + 1 > |reachable| { continue; }
          DeeperWalk(next, entry, n, d, t);
          SlackDrops(reachable, |reachable|, depth, t, d + 1);
          depth := depth[t := d + 1];
          changed := true;
        }
      }
    }
  }

  /** Passes until nothing changes; the bound stops a cycle from raising depths for ever. */
  method Depths(m: Model, store: Store, states: map<string, string>, inPlay: set<string>, reachable: seq<string>, entry: string)
    returns (depth: map<string, nat>)
    requires entry in inPlay && forall x :: x in reachable <==> x in inPlay
    ensures Grounded(Passing(m, store.log, states, inPlay), entry, |reachable|, depth) && depth.Keys <= inPlay
    ensures Settled(Passing(m, store.log, states, inPlay), |reachable|, depth)
  {
    ghost var next := Passing(m, store.log, states, inPlay);
    depth := map[entry := 0];
    assert WalkFromTo(next, [entry], entry, entry);
    var changed := true;
    while changed
      invariant Grounded(next, entry, |reachable|, depth) && depth.Keys <= inPlay
      invariant !changed ==> Settled(next, |reachable|, depth)
      decreases Slack(reachable, |reachable|, depth), changed
    {
      depth, changed := Deepen(m, store, states, inPlay, reachable, entry, depth);
    }
  }

  /** Where the passages descend, the depths that settle are those of the longest walks. */
  lemma {:induction false} SettledAtLongest(next: Succ, rank: string -> nat, entry: string, inPlay: set<string>,
                                            depth: map<string, nat>, w: seq<string>, n: string)
    requires Descends(next, rank) && ClosedUnder(next, inPlay) && entry in inPlay
    requires Grounded(next, entry, |inPlay|, depth) && Settled(next, |inPlay|, depth)
    requires WalkFromTo(next, w, entry, n)
    ensures n in depth && |w| <= depth[n] + 1
    decreases |w|
  {
    if |w| > 1 {
      var v := w[..|w| - 1];
      var y := v[|v| - 1];
      assert w[|w| - 2 + 1] in next(w[|w| - 2]);
      forall i | 0 <= i < |v| - 1 ensures v[i + 1] in next(v[i]) { assert w[i + 1] in next(w[i]); }
      SettledAtLongest(next, rank, entry, inPlay, depth, v, y);
      var u :| WalkFromTo(next, u, entry, y) && |u| == depth[y] + 1;
      forall i | 0 <= i < |u| ensures u[i] in inPlay { StaysInside(next, inPlay, u, i); }
      DescendingFits(next, rank, u, inPlay);
      assert EdgeSettled(depth, |inPlay|, y, n);
    }
  }

  lemma DepthsAreLongest(next: Succ, rank: string -> nat, entry: string, inPlay: set<string>, depth: map<string, nat>, n: string)
    requires Descends(next, rank) && ClosedUnder(next, inPlay) && entry in inPlay
    requires Grounded(next, entry, |inPlay|, depth) && Settled(next, |inPlay|, depth)
    ensures HasDepth(next, entry, n, DepthAt(depth, n))
  {
    forall w | WalkFromTo(next, w, entry, n) ensures n in depth && |w| <= depth[n] + 1 {
      SettledAtLongest(next, rank, entry, inPlay, depth, w, n);
    }
    if n in depth {
      var w :| WalkFromTo(next, w, entry, n) && |w| == depth[n] + 1;
    }
  }

  // ---------------------------------------------------------------- the choice

  /** best is the deepest kept name, the earlier in order when two are as deep; "" when none is kept. */
  ghost predicate FirstDeepest(order: seq<string>, depth: map<string, nat>, kept: string -> bool, best: string) {
    if exists n :: n in order && kept(n) then exists i :: Leader(order, depth, kept, best, i) else best == ""
  }

  ghost predicate Leader(order: seq<string>, depth: map<string, nat>, kept: string -> bool, best: string, i: int) {
    && 0 <= i < |order| && order[i] == best && kept(best)
    && (forall j :: 0 <= j < |order| && kept(order[j]) ==> DepthAt(depth, order[j]) <= DepthAt(depth, best))
    && (forall j :: 0 <= j < i && kept(order[j]) ==> DepthAt(depth, order[j]) < DepthAt(depth, best))
  }

  ghost function Keeps(next: Succ, candidates: set<string>, healthy: string -> bool, sparing: bool): string -> bool {
    (n: string) => n in candidates && (sparing ==> !IsCasualty(next, candidates, healthy, n))
  }

  method Deepest(verdicts: Verdicts, states: map<string, string>, inPlay: set<string>, candidates: set<string>,
                 depth: map<string, nat>, sparing: bool) returns (best: string)
    requires verdicts.Valid() && verdicts.store.log == verdicts.log && "" !in verdicts.m.order
    modifies verdicts`memo
    ensures verdicts.Valid()
    ensures var kept := Keeps(Passing(verdicts.m, verdicts.log, states, inPlay), candidates, HealthyIn(verdicts.m, verdicts.log), sparing);
            FirstDeepest(verdicts.m.order, depth, kept, best)
  {
    hide Passing, IsCasualty, HealthyIn;
    var order := verdicts.m.order;
    ghost var kept := Keeps(Passing(verdicts.m, verdicts.log, states, inPlay), candidates, HealthyIn(verdicts.m, verdicts.log), sparing);
    best := "";
    ghost var at := -1;
    for i := 0 to |order|
      invariant verdicts.Valid()
      invariant best == "" ==> at == -1 && forall j :: 0 <= j < i ==> !kept(order[j])
      invariant best != "" ==> 0 <= at < i && order[at] == best && kept(best)
      invariant best != "" ==> forall j :: 0 <= j < i && kept(order[j]) ==> DepthAt(depth, order[j]) <= DepthAt(depth, best)
      invariant best != "" ==> forall j :: 0 <= j < at && kept(order[j]) ==> DepthAt(depth, order[j]) < DepthAt(depth, best)
    {
      var n := order[i];
      assert n in order;
      if n !in candidates { continue; }
      if sparing {
        var hit := Casualty(verdicts, states, inPlay, candidates, n);
        if hit { continue; }
      }
      if best == "" || DepthAt(depth, n) > DepthAt(depth, best) {
        best := n;
        at := i;
      }
    }
    if best != "" { assert Leader(order, depth, kept, best, at); }
  }

  /** Where failures only pass upwards, the lowest candidate is nobody's casualty. */
  lemma {:induction false} LowestIsNoCasualty(next: Succ, rank: string -> nat, candidates: set<string>, healthy: string -> bool)
    returns (x: string)
    requires Descends(next, rank) && candidates != {}
    ensures x in candidates && !IsCasualty(next, candidates, healthy, x)
  {
    x := LowestOf(rank, candidates);
    if w :| Blames(next, candidates, healthy, x, w) {
      WalkDescends(next, rank, w, 0, |w| - 1);
      assert false;
    }
  }

  lemma {:induction false} LowestOf(rank: string -> nat, s: set<string>) returns (x: string)
    requires s != {}
    ensures x in s && forall y :: y in s ==> rank(x) <= rank(y)
    decreases |s|
  {
    x :| x in s;
    if s != {x} {
      var y := LowestOf(rank, s - {x});
      if rank(y) < rank(x) { x := y; }
    }
  }

  /** A kept name that no kept name outdoes: each has a longest walk, none a longer one, and none before it one as long. */
  ghost predicate MostUpstream(order: seq<string>, next: Succ, entry: string, kept: string -> bool, r: string, i: int) {
    && 0 <= i < |order| && order[i] == r && kept(r)
    && (forall j :: 0 <= j < |order| && kept(order[j]) ==> exists d: nat :: HasDepth(next, entry, order[j], d))
    && forall j, d: nat, e: nat ::
         0 <= j < |order| && kept(order[j]) && HasDepth(next, entry, order[j], d) && HasDepth(next, entry, r, e) ==>
           d <= e && (j < i ==> d < e)
  }

  lemma HasOneDepth(next: Succ, entry: string, n: string, d: nat, e: nat)
    requires HasDepth(next, entry, n, d) && HasDepth(next, entry, n, e)
    ensures d == e
  {
    if Reaches(next, entry, n) {
      var v :| WalkFromTo(next, v, entry, n) && |v| == d + 1;
      var w :| WalkFromTo(next, w, entry, n) && |w| == e + 1;
    }
  }

  lemma LeaderIsMostUpstream(order: seq<string>, next: Succ, rank: string -> nat, entry: string, inPlay: set<string>,
                             depth: map<string, nat>, kept: string -> bool, r: string, i: int)
    requires Descends(next, rank) && ClosedUnder(next, inPlay) && entry in inPlay
    requires Grounded(next, entry, |inPlay|, depth) && Settled(next, |inPlay|, depth)
    requires Leader(order, depth, kept, r, i)
    ensures MostUpstream(order, next, entry, kept, r, i)
  {
    hide Descends, ClosedUnder, Grounded, Settled, HasDepth;
    forall j | 0 <= j < |order| && kept(order[j]) ensures exists d: nat :: HasDepth(next, entry, order[j], d) {
      DepthsAreLongest(next, rank, entry, inPlay, depth, order[j]);
    }
    forall j, d: nat, e: nat | 0 <= j < |order| && kept(order[j]) && HasDepth(next, entry, order[j], d) && HasDepth(next, entry, r, e)
      ensures d <= e && (j < i ==> d < e)
    {
      DepthsAreLongest(next, rank, entry, inPlay, depth, order[j]);
      DepthsAreLongest(next, rank, entry, inPlay, depth, r);
      HasOneDepth(next, entry, order[j], d, DepthAt(depth, order[j]));
      HasOneDepth(next, entry, r, e, DepthAt(depth, r));
    }
  }

  /** The model's order holds every component, each under a name. */
  ghost predicate OrderLists(m: Model) {
    "" !in m.order && forall c :: c in m.components ==> c in m.order
  }

  /** The passages a failure of this model can take now, between the components in play. */
  ghost function Passages(m: Model, log: Log, entry: string): Succ {
    Passing(m, log, DerivedStates(m, log, m.order), InPlay(m, log, entry))
  }

  /** The candidates no other candidate explains. */
  ghost function Causes(m: Model, log: Log, entry: string): string -> bool {
    Keeps(Passages(m, log, entry), Candidates(m, log, entry), HealthyIn(m, log), true)
  }

  /** A candidate is in play, seen broken, and not covered: nothing depends on it, or something that does is held up by no
      group of its own. */
  lemma CandidatesMean(m: Model, log: Log, entry: string)
    ensures forall x :: x in Candidates(m, log, entry) <==>
              && Reaches(ActiveEdges(m, log, DerivedStates(m, log, m.order)), entry, x) && VerdictOf(m, log, x) == Unhealthy
              && ((forall p :: p in m.order && p in m.components ==> !NamedIn(m.components[p], x)) ||
                  exists p :: p in m.order && p in m.components && NamedIn(m.components[p], x) && !GroupSatisfied(m, log, p, x))
  {
    hide VerdictOf, GroupSatisfied, ActiveTargets, DerivedStates, Reaches;
    var next := ActiveEdges(m, log, DerivedStates(m, log, m.order));
    var s := Mentioned(m) + {entry};
    forall x, y | x in s && y in next(x) ensures y in s { TargetsMentioned(m, log, DerivedStates(m, log, m.order), x); }
    ReachedInside(next, s, entry);
  }

  /** A failure can pass now from t to c when both edge and place are live: t is in play, c names it in a clause that is not
      taken out, and no group of c's holds against it. */
  lemma PassagesMean(m: Model, log: Log, entry: string, c: string)
    ensures var states := DerivedStates(m, log, m.order);
            forall t :: t in Passages(m, log, entry)(c) <==>
              && Reaches(ActiveEdges(m, log, states), entry, t) && !GroupSatisfied(m, log, c, t)
              && c in m.components && exists i :: 0 <= i < |m.components[c].depends| &&
                                                  t in m.components[c].depends[i].on && !TakenOut(m, log, c, states, m.components[c].depends[i])
  {
    hide GroupSatisfied, ActiveTargets, DerivedStates, Reaches, TakenOut;
    var states := DerivedStates(m, log, m.order);
    var next := ActiveEdges(m, log, states);
    TargetsMean(m, log, states, c);
    FilterMeans(LetsThrough(m, log, InPlay(m, log, entry), c), ActiveTargets(m, log, states, c));
    var s := Mentioned(m) + {entry};
    forall x, y | x in s && y in next(x) ensures y in s { TargetsMentioned(m, log, states, x); }
    ReachedInside(next, s, entry);
  }

  /** w leads by passages from x, through nothing proven healthy, to another candidate. */
  ghost predicate Explains(m: Model, log: Log, entry: string, x: string, w: seq<string>) {
    && |w| >= 2 && w[0] == x && w[|w| - 1] != x && w[|w| - 1] in Candidates(m, log, entry)
    && (forall i :: 0 <= i < |w| - 1 ==> w[i + 1] in Passages(m, log, entry)(w[i]))
    && forall i :: 0 < i < |w| - 1 ==> VerdictOf(m, log, w[i]) != Healthy
  }

  /** A cause is a candidate that no other explains so. */
  lemma CausesMean(m: Model, log: Log, entry: string)
    ensures forall x :: Causes(m, log, entry)(x) <==> x in Candidates(m, log, entry) && !exists w :: Explains(m, log, entry, x, w)
  {
    hide VerdictOf, Passages, Candidates;
    var next, candidates, healthy := Passages(m, log, entry), Candidates(m, log, entry), HealthyIn(m, log);
    forall x ensures IsCasualty(next, candidates, healthy, x) <==> exists w :: Explains(m, log, entry, x, w) {
      if w :| Explains(m, log, entry, x, w) { assert Blames(next, candidates, healthy, x, w); }
      if w :| Blames(next, candidates, healthy, x, w) { assert Explains(m, log, entry, x, w); }
    }
  }

  method InPlayNow(m: Model, store: Store, entry: string) returns (reachable: seq<string>, inPlay: set<string>)
    ensures inPlay == InPlay(m, store.log, entry) && entry in inPlay && |reachable| == |inPlay|
    ensures forall x :: x in reachable <==> x in inPlay
  {
    reachable := BfsWalk(m, store, entry);
    InPlayIsReached(m, store.log, entry, reachable);
    inPlay := set x | x in reachable;
    SetOfNoDup(reachable);
    assert entry in reachable;
  }

  method CandidatesAmong(verdicts: Verdicts, reachable: seq<string>) returns (candidates: set<string>)
    requires verdicts.Valid() && verdicts.store.log == verdicts.log
    modifies verdicts`memo
    ensures verdicts.Valid()
    ensures candidates == set x | x in reachable && Candidate(verdicts.m, verdicts.log, x)
  {
    hide VerdictOf, Covered;
    candidates := {};
    for i := 0 to |reachable|
      invariant verdicts.Valid()
      invariant candidates == set x | x in reachable[..i] && Candidate(verdicts.m, verdicts.log, x)
    {
      var n := reachable[i];
      assert reachable[..i + 1] == reachable[..i] + [n];
      var v := verdicts.Of(n);
      if v.Unhealthy? {
        var covered := RedundancyCovered(verdicts.m, verdicts.store, n);
        if !covered { candidates := candidates + {n}; }
      }
    }
    assert reachable[..|reachable|] == reachable;
  }

  /** RootCause: "" exactly when nothing in play is seen broken and uncovered; otherwise one of the components that
      are -- one that no other candidate explains whenever there is such a one, and where failures pass along no
      cycle the most upstream of those. */
  method RootCause(m: Model, store: Store, entry: string) returns (r: string)
    requires OrderLists(m)
    ensures entry == "" ==> r == ""
    ensures entry != "" ==> (r == "" <==> Candidates(m, store.log, entry) == {})
    ensures r != "" ==> r in Candidates(m, store.log, entry)
    ensures entry != "" && (exists x :: Causes(m, store.log, entry)(x)) ==> r != "" && Causes(m, store.log, entry)(r)
    ensures (exists rank :: Descends(Passages(m, store.log, entry), rank)) && r != "" ==>
              exists i :: MostUpstream(m.order, Passages(m, store.log, entry), entry, Causes(m, store.log, entry), r, i)
  {
    hide InPlay, Passing, Grounded, Settled, IsCasualty, VerdictOf, Covered, DerivedStates, MostUpstream, Descends;
    if entry == "" { return ""; }
    var reachable, inPlay := InPlayNow(m, store, entry);
    var states := Derive(m, store);
    var verdicts := new Verdicts(m, store);
    var candidates := CandidatesAmong(verdicts, reachable);
    assert candidates == Candidates(m, store.log, entry);
    if |candidates| == 0 { return ""; }
    CandidatesListed(m, store.log, candidates);
    var depth := Depths(m, store, states, inPlay, reachable, entry);
    r := Deepest(verdicts, states, inPlay, candidates, depth, true);
    ghost var next := Passages(m, store.log, entry);
    forall rank | Descends(next, rank)
      ensures r in candidates && exists i :: MostUpstream(m.order, next, entry, Causes(m, store.log, entry), r, i)
    {
      MostUpstreamFound(m, store.log, entry, rank, depth, r);
    }
    if r == "" {
      r := Deepest(verdicts, states, inPlay, candidates, depth, false);
    }
  }

  lemma CandidatesListed(m: Model, log: Log, candidates: set<string>)
    requires OrderLists(m) && forall x :: x in candidates ==> Candidate(m, log, x)
    ensures forall x :: x in candidates ==> x in m.order && x != ""
  {
    hide Covered;
    forall x | x in candidates ensures x in m.components { assert Candidate(m, log, x); }
  }

  lemma MostUpstreamFound(m: Model, log: Log, entry: string, rank: string -> nat, depth: map<string, nat>, r: string)
    requires OrderLists(m) && Descends(Passages(m, log, entry), rank) && entry in InPlay(m, log, entry)
    requires Candidates(m, log, entry) != {}
    requires Grounded(Passages(m, log, entry), entry, |InPlay(m, log, entry)|, depth)
    requires Settled(Passages(m, log, entry), |InPlay(m, log, entry)|, depth)
    requires FirstDeepest(m.order, depth, Causes(m, log, entry), r)
    ensures r in Candidates(m, log, entry)
    ensures exists i :: MostUpstream(m.order, Passages(m, log, entry), entry, Causes(m, log, entry), r, i)
  {
    hide InPlay, Passing, Grounded, Settled, IsCasualty, VerdictOf, Covered, MostUpstream, Descends, DerivedStates;
    var next, inPlay := Passages(m, log, entry), InPlay(m, log, entry);
    var x := LowestIsNoCasualty(next, rank, Candidates(m, log, entry), HealthyIn(m, log));
    CandidatesListed(m, log, Candidates(m, log, entry));
    assert x in m.order && Causes(m, log, entry)(x);
    var i :| Leader(m.order, depth, Causes(m, log, entry), r, i);
    forall a, b | a in inPlay && b in next(a) ensures b in inPlay {
      PassesInPlay(m, log, DerivedStates(m, log, m.order), inPlay, a);
    }
    LeaderIsMostUpstream(m.order, next, rank, entry, inPlay, depth, Causes(m, log, entry), r, i);
  }

  /** In a model without a dependency cycle failures never pass in one, whatever is in play. */
  lemma {:induction false} AcyclicPassages(m: Model, log: Log, entry: string)
    requires DepGraph.AcyclicModel(m)
    ensures exists rank :: Descends(Passages(m, log, entry), rank)
  {
    hide VerdictOf, GroupSatisfied, InPlay;
    var rank :| Descends(DepGraph.DependencyEdges(m), rank);
    var states, inPlay := DerivedStates(m, log, m.order), InPlay(m, log, entry);
    forall c, t | t in Passages(m, log, entry)(c) ensures rank(t) < rank(c) {
      PassesInPlay(m, log, states, inPlay, c);
      FlatMapMeans(TargetsOf(m, log, c, states), m.components[c].depends, t);
      FlatMapMeans(DepGraph.OnOf(), m.components[c].depends, t);
      assert t in DepGraph.DependencyEdges(m)(c);
    }
    assert Descends(Passages(m, log, entry), rank);
  }
}
